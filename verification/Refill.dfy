/** The burst engine (dcache_refill.sv): one line as eight req/ack beats. */
module Refill {
  import opened DcachePkg
  import opened AtomicCache
  import opened MemPort

  datatype RfFsm = RfIdle | RfReq | RfDone

  datatype Refill = Refill(fsm: RfFsm, isWrite: bool, beat: WordSel, base: MemIdx, line: Line)

  /** start_read, start_write, base_widx, write_line of one cycle. */
  datatype RfIn = RfIn(startRead: bool, startWrite: bool, base: MemIdx, line: Line)

  function RefillReset(): Refill { Refill(RfIdle, false, 0, 0, ZERO_LINE) }

  /** The 16-bit index adder of the bus may wrap; the beats of an aligned line never do. */
  function BeatIdx(rf: Refill): MemIdx { (rf.base + rf.beat) % MEM_DEPTH }

  function BusRequest(rf: Refill): MemReq { MemReq(rf.fsm.RfReq?, rf.isWrite, BeatIdx(rf), rf.line[rf.beat]) }

  function RefillNext(rf: Refill, i: RfIn, r: MemResp): Refill {
    match rf.fsm
    case RfIdle =>
      if i.startRead || i.startWrite then
        Refill(RfReq, i.startWrite, 0, i.base, if i.startWrite then i.line else rf.line)
      else rf
    case RfReq =>
      if r.Some? then
        var line := if rf.isWrite then rf.line else rf.line[rf.beat := r.value];
        if rf.beat == 7 then rf.(fsm := RfDone, line := line) else rf.(beat := rf.beat + 1, line := line)
      else rf
    case RfDone => rf.(fsm := RfIdle)
  }

  /** Beats that memory has performed. */
  function BeatsDone(rf: Refill, p: Port): nat {
    if rf.fsm.RfDone? then 8 else if p.phase.Performed? || p.phase.Acking? then rf.beat + 1 else rf.beat
  }

  /** The line as memory holds it after n beats of a burst that began with memory st. */
  function BurstStore(st: Backing, write: bool, base: nat, line: Line, n: nat): Backing
    requires base + 8 <= MEM_DEPTH && n <= 8
  {
    if write then Backing(WritePrefix(st.words, base, line, n), st.log + WriteBeats(base, line, n))
    else Backing(st.words, st.log + ReadBeats(base, line, n))
  }

  /** A burst of line at base, begun with memory st, is under way or just done: memory has
      performed exactly the first beats, in order, and a read has collected their words. */
  ghost predicate Burst(rf: Refill, p: Port, st: Backing, write: bool, base: nat, line: Line) {
    && Aligned(base)
    && rf.isWrite == write && rf.base == base && !rf.fsm.RfIdle?
    && (if write then rf.line == line
        else
          && line == ReadLine(st.words, base)
          && forall k :: 0 <= k < (if rf.fsm.RfDone? then 8 else rf.beat) ==> rf.line[k] == line[k])
    && p.store == BurstStore(st, write, base, line, BeatsDone(rf, p))
    && (rf.fsm.RfDone? ==> p.phase.Free?)
    && (p.phase.Busy? ==>
          p.phase.we == write && p.phase.idx == base + rf.beat && (write ==> p.phase.wdata == line[rf.beat]))
    && (p.phase.Performed? || p.phase.Acking? ==> write || p.phase.rdata == line[rf.beat])
  }

  lemma BurstBegins(rf: Refill, p: Port, i: RfIn, p': Port)
    requires rf.fsm.RfIdle? && p.phase.Free? && PortNext(p, BusRequest(rf), p')
    requires Aligned(i.base) && (i.startRead || i.startWrite)
    ensures p' == p
    ensures var line := if i.startWrite then i.line else ReadLine(p.store.words, i.base);
            Burst(RefillNext(rf, i, Respond(p)), p', p.store, i.startWrite, i.base, line)
  {
    var w := p.store.words;
    assert w[..i.base] + [] + w[i.base..] == w;
    assert i.line[..0] == [];
    assert WritePrefix(w, i.base, i.line, 0) == w;
  }

  lemma OneMoreBeat(st: Backing, write: bool, base: nat, line: Line, n: WordSel)
    requires Aligned(base) && (!write ==> line == ReadLine(st.words, base))
    ensures Perform(BurstStore(st, write, base, line, n), write, base + n, line[n]) ==
        BurstStore(st, write, base, line, n + 1)
  {
    if write {
      var a := WritePrefix(st.words, base, line, n)[base + n := line[n]];
      var b := WritePrefix(st.words, base, line, n + 1);
      forall x | 0 <= x < MEM_DEPTH ensures a[x] == b[x] {}
      assert a == b;
      assert WriteBeats(base, line, n) + [WriteBeat(base + n, line[n])] == WriteBeats(base, line, n + 1);
      assert st.log + WriteBeats(base, line, n) + [WriteBeat(base + n, line[n])] ==
             st.log + (WriteBeats(base, line, n) + [WriteBeat(base + n, line[n])]);
    } else {
      assert ReadBeats(base, line, n) + [ReadBeat(base + n, line[n])] == ReadBeats(base, line, n + 1);
      assert st.log + ReadBeats(base, line, n) + [ReadBeat(base + n, line[n])] ==
             st.log + (ReadBeats(base, line, n) + [ReadBeat(base + n, line[n])]);
    }
  }

  lemma BeatStaysInLine(rf: Refill)
    requires Aligned(rf.base)
    ensures BeatIdx(rf) == rf.base + rf.beat && BeatIdx(rf) / 8 == rf.base / 8
  {}

  lemma BurstContinues(rf: Refill, p: Port, i: RfIn, p': Port, st: Backing, write: bool, base: nat, line: Line)
    requires Burst(rf, p, st, write, base, line) && rf.fsm.RfReq?
    requires PortNext(p, BusRequest(rf), p')
    ensures Burst(RefillNext(rf, i, Respond(p)), p', st, write, base, line)
  {
    BeatStaysInLine(rf);
    var n := rf.beat;
    if p.phase.Free? || p.phase.Busy? {
      OneMoreBeat(st, write, base, line, n);
      if !write {
        assert line[n] == st.words[base + n];
      }
    }
  }

  lemma BurstEnds(rf: Refill, p: Port, i: RfIn, p': Port, st: Backing, write: bool, base: nat, line: Line)
    requires Burst(rf, p, st, write, base, line) && rf.fsm.RfDone?
    requires PortNext(p, BusRequest(rf), p')
    ensures RefillNext(rf, i, Respond(p)) == rf.(fsm := RfIdle) && p' == p && p.phase.Free?
    ensures rf.line == line && p.store == BurstStore(st, write, base, line, 8)
  {
    if !write {
      assert rf.line == line;
    }
  }

  /** The engine and a port over the cycles 0..n. */
  ghost predicate BurstRun(rfs: seq<Refill>, ps: seq<Port>, ins: seq<RfIn>) {
    && |rfs| == |ps| == |ins| + 1
    && forall i :: 0 <= i < |ins| ==>
         rfs[i + 1] == RefillNext(rfs[i], ins[i], Respond(ps[i])) && PortNext(ps[i], BusRequest(rfs[i]), ps[i + 1])
  }

  lemma {:induction false} BurstHoldsUntilDone(rfs: seq<Refill>, ps: seq<Port>, ins: seq<RfIn>, n: nat)
    requires BurstRun(rfs, ps, ins) && 0 < n <= |ins|
    requires rfs[0].fsm.RfIdle? && ps[0].phase.Free? && Aligned(ins[0].base) && (ins[0].startRead || ins[0].startWrite)
    requires forall i :: 0 < i < n ==> !rfs[i].fsm.RfDone?
    ensures var line := if ins[0].startWrite then ins[0].line else ReadLine(ps[0].store.words, ins[0].base);
            Burst(rfs[n], ps[n], ps[0].store, ins[0].startWrite, ins[0].base, line)
  {
    BurstBegins(rfs[0], ps[0], ins[0], ps[1]);
    if n > 1 {
      BurstHoldsUntilDone(rfs, ps, ins, n - 1);
      var line := if ins[0].startWrite then ins[0].line else ReadLine(ps[0].store.words, ins[0].base);
      BurstContinues(rfs[n - 1], ps[n - 1], ins[n - 1], ps[n], ps[0].store, ins[0].startWrite, ins[0].base, line);
    }
  }

  /** Over any memory that meets the contract: when done first pulses, a read has collected
      the eight aligned words whatever the line register held before, a write has changed
      exactly those words, and memory has performed each beat once, in order. */
  lemma BurstIsCorrect(rfs: seq<Refill>, ps: seq<Port>, ins: seq<RfIn>, n: nat)
    requires BurstRun(rfs, ps, ins) && 0 < n <= |ins|
    requires rfs[0].fsm.RfIdle? && ps[0].phase.Free? && Aligned(ins[0].base) && (ins[0].startRead || ins[0].startWrite)
    requires (forall i :: 0 < i < n ==> !rfs[i].fsm.RfDone?) && rfs[n].fsm.RfDone?
    ensures var st, base := ps[0].store, ins[0].base;
            if ins[0].startWrite then
              ps[n].store == Backing(st.words[..base] + ins[0].line + st.words[base + 8..],
                  st.log + WriteBeats(base, ins[0].line, 8))
            else
              && rfs[n].line == st.words[base..base + 8]
              && ps[n].store == Backing(st.words, st.log + ReadBeats(base, rfs[n].line, 8))
  {
    BurstHoldsUntilDone(rfs, ps, ins, n);
    if ins[0].startWrite {
      assert ins[0].line[..8] == ins[0].line;
    } else {
      assert rfs[n].line == ReadLine(ps[0].store.words, ins[0].base);
    }
  }
}
