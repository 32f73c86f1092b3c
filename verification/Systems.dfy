/** The whole cache over its two memories: the one-cycle SRAM of the testbench and the AXI4
    bridge. Both are runs over a memory port, so every theorem about such runs holds. */
module Systems {
  import opened DcachePkg
  import opened AtomicCache
  import opened MemPort
  import opened Refill
  import opened Core
  import opened CoreRefinement
  import opened Transparency
  import opened Timing
  import opened AxiBridge

  // ------------------------------------------------------- over the backing SRAM

  /** Core and SRAM, with the transfers performed so far. */
  datatype Board = Board(core: CoreState, mem: Sram, log: seq<Beat>)

  predicate BoardIsReset(b: Board) { CoreIsReset(b.core) && !b.mem.pending && b.log == [] }

  function BoardNext(b: Board, i: CpuIn): Board {
    var q := BusRequest(b.core.rf);
    Board(CoreNext(b.core, i, SramResp(b.mem)), SramNext(b.mem, q), SramLog(b.mem, b.log, q))
  }

  function BoardAt(b: Board, ins: seq<CpuIn>, n: nat): Board
    requires n <= |ins|
  {
    if n == 0 then b else BoardNext(BoardAt(b, ins, n - 1), ins[n - 1])
  }

  function SysOf(b: Board): Sys { Sys(b.core, SramPort(b.mem, b.log)) }

  function BoardRun(b: Board, ins: seq<CpuIn>): (ss: seq<Sys>)
    ensures |ss| == |ins| + 1
  {
    seq(|ins| + 1, k requires 0 <= k <= |ins| => SysOf(BoardAt(b, ins, k)))
  }

  lemma BoardEdge(b: Board, i: CpuIn)
    ensures SysNext(SysOf(b), i, SysOf(BoardNext(b, i))) && Prompt(SysOf(b), SysOf(BoardNext(b, i)))
  {
    SramMeetsContract(b.mem, b.log, BusRequest(b.core.rf));
  }

  lemma BoardRunEdge(b: Board, ins: seq<CpuIn>, n: nat)
    requires n < |ins|
    ensures Edge(BoardRun(b, ins), ins, n) && PromptEdge(BoardRun(b, ins), n)
  {
    BoardEdge(BoardAt(b, ins, n), ins[n]);
  }

  lemma BoardReset(b: Board, ins: seq<CpuIn>)
    requires BoardIsReset(b)
    ensures SysIsReset(SysOf(b)) && BoardRun(b, ins)[0] == SysOf(b)
  {}

  /** Over the SRAM the cache makes, on every input sequence, a run over a port that never
      waits: responses, coherence, latencies and walk costs are those proved for such runs. */
  lemma BoardIsPromptRun(b: Board, ins: seq<CpuIn>)
    requires BoardIsReset(b)
    ensures PromptRun(BoardRun(b, ins), ins) && BoardRun(b, ins)[0] == SysOf(b)
  {
    BoardReset(b, ins);
    forall n: nat | n < |ins| ensures Edge(BoardRun(b, ins), ins, n) && PromptEdge(BoardRun(b, ins), n) {
      BoardRunEdge(b, ins, n);
    }
  }

  /** The whole cache over the SRAM: what the CPU has been given by the end of an input
      sequence is what a flat memory answers, all but at most one answer. */
  lemma CacheOverSramIsAMemory(b: Board, ins: seq<CpuIn>, ls: set<LineAddr>)
    requires BoardIsReset(b) && AliasFree(ls)
    requires RequestsWithin(Accepted(BoardRun(b, ins), ins, |ins|), ls)
    ensures var ss := BoardRun(b, ins);
            var expected := FlatReplies(b.mem.words, Accepted(ss, ins, |ins|));
            Delivered(ss, ins, |ins|) <= expected && |expected| <= |Delivered(ss, ins, |ins|)| + 1
  {
    BoardIsPromptRun(b, ins);
    ResponsesAreThoseOfAFlatMemory(BoardRun(b, ins), ins, |ins|, ls);
  }

  /** One more cycle of the board, in its state and in what it has delivered. */
  lemma BoardOneMore(b: Board, ins: seq<CpuIn>, n: nat)
    requires n < |ins|
    ensures BoardAt(b, ins, n + 1) == BoardNext(BoardAt(b, ins, n), ins[n])
    ensures Delivered(BoardRun(b, ins), ins, n + 1) ==
            Delivered(BoardRun(b, ins), ins, n) + Delivers(BoardAt(b, ins, n).core, ins[n])
  {
    RequestsOneMore(BoardRun(b, ins), ins, n, n + 1);
  }

  /** A board out of reset with zeroed memory, and an input that asks for nothing and takes
      every response. */
  function ResetBoard(): Board {
    Board(
      CoreState(
        Regs(Idle, 0, Read, ZERO_WORD, NO_BYTES, false, false, false, ZERO_WORD, 0, 0, false, 0, 0, false),
        seq(256, _ => TagEntry(false, false, 0)), seq<Line>(256, _ => ZERO_LINE),
        seq(64, _ => Plru(false, false, false)),
        Mshr(false, Read, 0, ZERO_WORD, NO_BYTES, 0, false, ZERO_LINE, TagEntry(false, false, 0)), RefillReset()),
      Sram(seq(0x1_0000, _ => ZERO_WORD), false, ZERO_WORD), [])
  }

  function RestIn(): CpuIn { CpuIn(false, 0, true, false, 0, ZERO_WORD, NO_BYTES, true, false) }

  // --------------------------------------------------------- over the AXI4 bridge

  predicate PathIsReset(p: Path) {
    p.b == BridgeReset() && p.m.wr == WIdle && p.m.rd == RIdle && p.log == []
  }

  ghost predicate IsBridgedRun(cs: seq<CoreState>, ps: seq<Path>, g: Config, ins: seq<CpuIn>, axi: seq<AxiSlave>) {
    && |cs| == |ps| == |ins| + 1 == |axi| + 1
    && CoreIsReset(cs[0]) && PathIsReset(ps[0]) && LegalConfig(g)
    && forall n: nat :: n < |ins| ==> BridgedEdge(cs, ps, g, ins, axi, n)
  }

  ghost predicate BridgedEdge(cs: seq<CoreState>, ps: seq<Path>, g: Config, ins: seq<CpuIn>, axi: seq<AxiSlave>, n: nat)
    requires n < |ins| == |axi| && |ins| < |cs| == |ps|
  {
    BridgedNext(cs[n], ps[n], g, ins[n], axi[n], cs[n + 1], ps[n + 1])
  }

  ghost predicate BridgedNext(c: CoreState, p: Path, g: Config, i: CpuIn, s: AxiSlave, c': CoreState, p': Path) {
    c' == CoreNext(c, i, BridgeResp(p.b)) && PathNext(p, g, BusRequest(c.rf), s, p')
  }

  function SystemOf(cs: seq<CoreState>, ps: seq<Path>, g: Config): (ss: seq<Sys>)
    requires |cs| == |ps| && LegalConfig(g)
    ensures |ss| == |cs|
  {
    seq(|cs|, k requires 0 <= k < |cs| => Sys(cs[k], PortOf(ps[k], g)))
  }

  predicate OutsideWindow(g: Config, j: nat) { forall x: MemIdx :: ByteAddr(g, x) / WORD_BYTES != j }

  lemma {:induction false} PathInvHolds(cs: seq<CoreState>, ps: seq<Path>, g: Config, ins: seq<CpuIn>,
      axi: seq<AxiSlave>, n: nat)
    requires IsBridgedRun(cs, ps, g, ins, axi) && n <= |ins|
    ensures PathInv(ps[n], g)
    ensures forall j :: 0 <= j < AXI_WORDS && OutsideWindow(g, j) ==> ps[n].m.words[j] == ps[0].m.words[j]
  {
    if n > 0 {
      PathInvHolds(cs, ps, g, ins, axi, n - 1);
      assert BridgedEdge(cs, ps, g, ins, axi, n - 1);
      BridgeMeetsContract(ps[n - 1], g, BusRequest(cs[n - 1].rf), axi[n - 1], ps[n]);
    }
  }

  lemma BridgedEdgeIsEdge(c: CoreState, p: Path, g: Config, i: CpuIn, s: AxiSlave, c': CoreState, p': Path)
    requires PathInv(p, g) && BridgedNext(c, p, g, i, s, c', p')
    ensures SysNext(Sys(c, PortOf(p, g)), i, Sys(c', PortOf(p', g)))
  {
    BridgeMeetsContract(p, g, BusRequest(c.rf), s, p');
  }

  lemma BridgedRunIsRun(cs: seq<CoreState>, ps: seq<Path>, g: Config, ins: seq<CpuIn>, axi: seq<AxiSlave>)
    requires IsBridgedRun(cs, ps, g, ins, axi)
    ensures IsRun(SystemOf(cs, ps, g), ins)
  {
    var ss := SystemOf(cs, ps, g);
    forall k: nat | k < |ins| ensures Edge(ss, ins, k) {
      PathInvHolds(cs, ps, g, ins, axi, k);
      assert BridgedEdge(cs, ps, g, ins, axi, k);
      BridgedEdgeIsEdge(cs[k], ps[k], g, ins[k], axi[k], cs[k + 1], ps[k + 1]);
    }
  }

  /** The whole cache over the bridge and a conforming AXI memory, with any delay on any
      channel: responses are those of a flat memory, no error is recorded, and memory
      outside the window of the bridge is never written. */
  lemma CacheOverBridgeIsAMemory(
      cs: seq<CoreState>, ps: seq<Path>, g: Config, ins: seq<CpuIn>, axi: seq<AxiSlave>, n: nat, ls: set<LineAddr>)
    requires IsBridgedRun(cs, ps, g, ins, axi) && n <= |ins| && AliasFree(ls)
    requires RequestsWithin(Accepted(SystemOf(cs, ps, g), ins, n), ls)
    ensures var ss := SystemOf(cs, ps, g);
            var expected := FlatReplies(Window(g, ps[0].m.words), Accepted(ss, ins, n));
            Delivered(ss, ins, n) <= expected && |expected| <= |Delivered(ss, ins, n)| + 1
    ensures !ps[n].b.error
    ensures forall j :: 0 <= j < AXI_WORDS && OutsideWindow(g, j) ==> ps[n].m.words[j] == ps[0].m.words[j]
  {
    BridgedRunIsRun(cs, ps, g, ins, axi);
    PathInvHolds(cs, ps, g, ins, axi, n);
    ResponsesAreThoseOfAFlatMemory(SystemOf(cs, ps, g), ins, n, ls);
  }
}
