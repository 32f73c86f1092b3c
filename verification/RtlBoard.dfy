/** The cache wired to its backing memory, and to the AXI bridge: both clocked objects take
    each other's outputs from before the edge. */
module RtlBoard {
  import opened DcachePkg
  import opened AtomicCache
  import opened AtomicTheorems
  import opened MemPort
  import opened Engine = Refill
  import opened Core
  import opened AxiBridge
  import opened RtlMemory
  import opened RtlCore
  import opened Systems
  import opened Transparency

  /** The bench of dcache_core_tb: the core on the one-cycle SRAM, preload port idle. */
  class CacheOnSram {
    const core: DcacheCore
    const sram: BackingMem
    ghost var log: seq<Beat>

    ghost predicate Valid() { core.Valid() && sram.Valid() }

    ghost function Now(): Board
      requires Valid()
      reads this, core, core.tagRam.valid, core.tagRam.dirty, core.tagRam.tag, core.dataRam.lines, core.plruRam.states
      reads core.miss, core.engine, sram, sram.mem
    {
      Board(core.State(), sram.State(), log)
    }

    constructor ()
      ensures Valid() && BoardIsReset(Now())
    {
      core := new DcacheCore();
      sram := new BackingMem();
      log := [];
    }

    method Clock(i: CpuIn)
      requires Valid()
      modifies this, core, core.tagRam.valid, core.tagRam.dirty, core.tagRam.tag, core.dataRam.lines,
          core.plruRam.states
      modifies core.miss, core.engine, sram, sram.mem
      ensures Now() == BoardNext(old(Now()), i)
    {
      ghost var b := Now();
      var q, ack, rdata := BusRequest(core.engine.State()), sram.pending, sram.rdata;
      core.Step(i, if ack then Some(rdata) else None);
      sram.Step(q, None);
      log := SramLog(b.mem, b.log, q);
      Assembled(b, i, Now());
    }

    /** One cycle; out is the response that the CPU takes in it. */
    method ClockAndTake(i: CpuIn) returns (out: seq<Response>)
      requires Valid()
      modifies this, core, core.tagRam.valid, core.tagRam.dirty, core.tagRam.tag, core.dataRam.lines,
          core.plruRam.states
      modifies core.miss, core.engine, sram, sram.mem
      ensures Now() == BoardNext(old(Now()), i) && out == Delivers(old(Now()).core, i)
    {
      out := core.Responses(i);
      Clock(i);
    }

    /** The bench clocks these objects over an input sequence: they go through the states of
        the board, and out of reset, over alias-free lines, the CPU is given the replies of a
        flat memory that starts from the contents of the SRAM: each byte of a load is the
        one that the last store to strobe it wrote. */
    method Simulate(ins: seq<CpuIn>, ghost ls: set<LineAddr>) returns (replies: seq<Response>)
      requires Valid() && AliasFree(ls)
      modifies this, core, core.tagRam.valid, core.tagRam.dirty, core.tagRam.tag, core.dataRam.lines,
          core.plruRam.states
      modifies core.miss, core.engine, sram, sram.mem
      ensures Now() == BoardAt(old(Now()), ins, |ins|)
      ensures replies == Delivered(BoardRun(old(Now()), ins), ins, |ins|)
      ensures var accepted := Accepted(BoardRun(old(Now()), ins), ins, |ins|);
              BoardIsReset(old(Now())) && RequestsWithin(accepted, ls) ==>
                && replies <= FlatReplies(old(Now()).mem.words, accepted)
                && |accepted| <= |replies| + 1
                && forall k :: 0 <= k < |replies| ==> AnswersBytes(old(Now()).mem.words, accepted, k, replies[k])
    {
      ghost var b := Now();
      replies := [];
      for n := 0 to |ins|
        invariant Now() == BoardAt(b, ins, n)
        invariant replies == Delivered(BoardRun(b, ins), ins, n)
      {
        var out := ClockAndTake(ins[n]);
        BoardOneMore(b, ins, n);
        replies := replies + out;
      }
      if BoardIsReset(b) && RequestsWithin(Accepted(BoardRun(b, ins), ins, |ins|), ls) {
        CacheOverSramIsAMemory(b, ins, ls);
        forall k | 0 <= k < |replies|
          ensures AnswersBytes(b.mem.words, Accepted(BoardRun(b, ins), ins, |ins|), k, replies[k])
        {
          FlatMemoryIsLastWrite(b.mem.words, Accepted(BoardRun(b, ins), ins, |ins|), k);
        }
      }
    }

    static lemma Assembled(b: Board, i: CpuIn, b': Board)
      requires b'.core == CoreNext(b.core, i, SramResp(b.mem)) && b'.mem == SramNext(b.mem, BusRequest(b.core.rf))
      requires b'.log == SramLog(b.mem, b.log, BusRequest(b.core.rf))
      ensures b' == BoardNext(b, i)
    {}
  }

  /** The core on the AXI4 bridge; the rest of the fabric is the slave's inputs. */
  class CacheOnBridge {
    const core: DcacheCore
    const bridge: MasterBridge

    ghost predicate Valid() { core.Valid() }

    constructor (g: Config)
      ensures Valid() && CoreIsReset(core.State()) && bridge.State() == BridgeReset() && bridge.config == g
    {
      core := new DcacheCore();
      bridge := new MasterBridge(g);
    }

    method Clock(i: CpuIn, s: AxiSlave)
      requires Valid()
      modifies core, core.tagRam.valid, core.tagRam.dirty, core.tagRam.tag, core.dataRam.lines, core.plruRam.states
      modifies core.miss, core.engine, bridge
      ensures core.State() == CoreNext(old(core.State()), i, BridgeResp(old(bridge.State())))
      ensures bridge.State() == BridgeNext(old(bridge.State()), bridge.config, BusRequest(old(core.State()).rf), s)
    {
      var q, mem := BusRequest(core.engine.State()), BridgeResp(bridge.State());
      core.Step(i, mem);
      bridge.Step(q, s);
    }
  }
}
