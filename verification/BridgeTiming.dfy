/** How long things take over the AXI4 bridge: exact cycle counts plus the cycles in which a
    channel waits, bounds from a bound on each transfer, and exact latencies over the
    quickest conforming memory. */
module BridgeTiming {
  import opened DcachePkg
  import opened MemPort
  import opened Refill
  import opened Core
  import opened CoreRefinement
  import opened Transparency
  import opened Timing
  import opened AxiBridge
  import opened Systems

  /** The core and the FSM of its bridge. */
  datatype Station = Station(core: CoreState, fsm: BrFsm)

  ghost predicate StationNext(t: Station, i: CpuIn, mem: MemResp, s: AxiSlave, t': Station) {
    && mem.Some? == t.fsm.BrAck? && t'.core == CoreNext(t.core, i, mem)
    && t'.fsm == NextFsm(t.fsm, BusRequest(t.core.rf), s)
  }

  ghost predicate Together(t: Station) { LockStep(t.core) && (!t.core.rf.fsm.RfReq? ==> t.fsm.BrIdle?) }

  /** A channel on which the bridge is waiting for its slave. */
  predicate Waiting(f: BrFsm) { !f.BrIdle? && !f.BrAck? }

  predicate WaitEdge(t: Station, t': Station) { Waiting(t.fsm) && t'.fsm == t.fsm }

  // ------------------------------------------------------------- moves still to make

  /** Moves from taking a beat, or from where it is, to its acknowledge and beyond. */
  function BeatMoves(f: BrFsm, isWrite: bool): nat {
    match f
    case BrIdle => if isWrite then 5 else 4
    case BrWriteAddr => 4
    case BrWriteData => 3
    case BrWriteResp => 2
    case BrReadAddr => 3
    case BrReadData => 2
    case BrAck => 1
  }

  function BurstMoves(t: Station): nat {
    var rf := t.core.rf;
    match rf.fsm
    case RfIdle => if t.core.regs.fsm.MissFill? then 33 else 41
    case RfReq => (if rf.isWrite then 5 else 4) * (7 - rf.beat) + BeatMoves(t.fsm, rf.isWrite)
    case RfDone => 0
  }

  /** Edges, waiting apart, until the response is visible. */
  function ResponseMoves(t: Station): nat {
    match t.core.regs.fsm
    case Idle => if LookupHit(t.core.regs, ReadArrays(t.core).row) then 1 else if VictimIsDirty(t.core) then 78 else 36
    case MissWb => BurstMoves(t) + 36
    case MissFill => BurstMoves(t) + 2
    case _ => 1
  }

  /** Edges, waiting apart, until a running walk is over. */
  function WalkMoves(t: Station): nat {
    var r, tags := t.core.regs, t.core.tags;
    var k := Cell(r.flushSet, r.flushWay);
    if r.fsm.FlushWb? then BurstMoves(t) + CellsLeft(r) + 41 * DirtyFrom(tags, k + 1)
    else CellsLeft(r) + 41 * DirtyFrom(tags, k)
  }

  ghost predicate ResponseDueIn(t: Station, left: nat) {
    InFlight(t.core) != [] && Held(t.core) == [] && ResponseMoves(t) == left
  }

  ghost predicate WalkDueIn(t: Station, left: nat) { t.core.regs.flushActive && WalkMoves(t) == left }

  predicate HasAnswer(t: Station) { Held(t.core) != [] }

  predicate WalkIsOver(t: Station) { !t.core.regs.flushActive && t.core.regs.flushDone }

  /** A waiting edge changes nothing that counts; any other edge is one move. */
  ghost predicate Moves(t: Station, t': Station, due: (Station, nat) -> bool, over: Station -> bool, left: nat) {
    due(t, left) ==>
      if WaitEdge(t, t') then due(t', left)
      else if left == 1 then over(t')
      else left > 1 && due(t', left - 1)
  }

  // ------------------------------------------------------------------- single edges

  lemma EngineEdge(c: CoreState, i: CpuIn, mem: MemResp)
    requires c.rf.fsm.RfReq?
    ensures var rf, rf' := c.rf, CoreNext(c, i, mem).rf;
            && rf'.isWrite == rf.isWrite
            && if mem.None? then rf'.fsm.RfReq? && rf'.beat == rf.beat
               else if rf.beat == 7 then rf'.fsm.RfDone?
               else rf'.fsm.RfReq? && rf'.beat == rf.beat + 1
  {}

  lemma BurstEdge(t: Station, i: CpuIn, mem: MemResp, s: AxiSlave, t': Station)
    requires Together(t) && StationNext(t, i, mem, s, t') && t.core.rf.fsm.RfReq?
    ensures t'.core.rf.fsm.RfReq? || t'.core.rf.fsm.RfDone?
    ensures BurstMoves(t) > 0 && BurstMoves(t') == if WaitEdge(t, t') then BurstMoves(t) else BurstMoves(t) - 1
  {
    EngineEdge(t.core, i, mem);
    BurstMovesEdge(t, t', mem, BusRequest(t.core.rf), s);
  }

  lemma BurstMovesEdge(t: Station, t': Station, mem: MemResp, q: MemReq, s: AxiSlave)
    requires t.core.rf.fsm.RfReq? && mem.Some? == t.fsm.BrAck? && q.req && q.we == t.core.rf.isWrite
    requires t'.fsm == NextFsm(t.fsm, q, s) && t'.core.rf.isWrite == t.core.rf.isWrite
    requires if mem.None? then t'.core.rf.fsm.RfReq? && t'.core.rf.beat == t.core.rf.beat
             else if t.core.rf.beat == 7 then t'.core.rf.fsm.RfDone?
             else t'.core.rf.fsm.RfReq? && t'.core.rf.beat == t.core.rf.beat + 1
    ensures BurstMoves(t) > 0 && BurstMoves(t') == if WaitEdge(t, t') then BurstMoves(t) else BurstMoves(t) - 1
  {}

  lemma BurstStarts(t: Station, i: CpuIn, mem: MemResp, s: AxiSlave, t': Station)
    requires Together(t) && StationNext(t, i, mem, s, t') && t.core.rf.fsm.RfIdle? && t'.core.rf.fsm.RfReq?
    requires t'.core.rf.beat == 0 && t'.core.rf.isWrite == !t.core.regs.fsm.MissFill?
    ensures !WaitEdge(t, t') && BurstMoves(t') == if t.core.regs.fsm.MissFill? then 32 else 40
  {}

  lemma MissEdge(t: Station, i: CpuIn, mem: MemResp, s: AxiSlave, t': Station, left: nat)
    requires Together(t) && StationNext(t, i, mem, s, t') && (t.core.regs.fsm.MissWb? || t.core.regs.fsm.MissFill?)
    ensures Moves(t, t', ResponseDueIn, HasAnswer, left)
  {
    MissBurstEdge(t.core, i, mem);
    if t.core.rf.fsm.RfReq? {
      BurstEdge(t, i, mem, s, t');
    } else if t.core.rf.fsm.RfIdle? {
      BurstStarts(t, i, mem, s, t');
    }
  }

  lemma LookupEdge(t: Station, i: CpuIn, mem: MemResp, s: AxiSlave, t': Station, left: nat)
    requires Together(t) && StationNext(t, i, mem, s, t') && t.core.regs.fsm.Idle?
    ensures Moves(t, t', ResponseDueIn, HasAnswer, left)
  {}

  lemma InstallEdge(t: Station, i: CpuIn, mem: MemResp, s: AxiSlave, t': Station, left: nat)
    requires Together(t) && StationNext(t, i, mem, s, t') && t.core.regs.fsm.MissFinish?
    ensures Moves(t, t', ResponseDueIn, HasAnswer, left)
  {}

  lemma ResponseEdge(t: Station, i: CpuIn, mem: MemResp, s: AxiSlave, t': Station, left: nat)
    requires Together(t) && StationNext(t, i, mem, s, t')
    ensures Moves(t, t', ResponseDueIn, HasAnswer, left)
  {
    match t.core.regs.fsm {
      case Idle => LookupEdge(t, i, mem, s, t', left);
      case MissWb => MissEdge(t, i, mem, s, t', left);
      case MissFill => MissEdge(t, i, mem, s, t', left);
      case MissFinish => InstallEdge(t, i, mem, s, t', left);
      case _ =>
    }
  }

  lemma ScanStopMove(t: Station, i: CpuIn, mem: MemResp, s: AxiSlave, t': Station, left: nat, k: nat)
    requires Together(t) && StationNext(t, i, mem, s, t') && t.core.regs.fsm.FlushScan?
    requires k == Cell(t.core.regs.flushSet, t.core.regs.flushWay) && t.core.tags[k].valid && t.core.tags[k].dirty
    ensures Moves(t, t', WalkDueIn, WalkIsOver, left)
  {
    ScanEdge(t.core, i, mem);
    DirtyStep(t.core.tags, k);
    BurstStarts(t, i, mem, s, t');
  }

  lemma ScanSkipMove(t: Station, i: CpuIn, mem: MemResp, s: AxiSlave, t': Station, left: nat, k: nat)
    requires Together(t) && StationNext(t, i, mem, s, t') && t.core.regs.fsm.FlushScan?
    requires k == Cell(t.core.regs.flushSet, t.core.regs.flushWay) && !(t.core.tags[k].valid && t.core.tags[k].dirty)
    ensures Moves(t, t', WalkDueIn, WalkIsOver, left)
  {
    AdvanceMovesOn(Consumed(t.core.regs, i));
    ScanEdge(t.core, i, mem);
    DirtyStep(t.core.tags, k);
  }

  lemma WalkBeatMove(t: Station, i: CpuIn, mem: MemResp, s: AxiSlave, t': Station, left: nat)
    requires Together(t) && StationNext(t, i, mem, s, t') && t.core.regs.fsm.FlushWb? && t.core.rf.fsm.RfReq?
    ensures Moves(t, t', WalkDueIn, WalkIsOver, left)
  {
    WalkWbEdge(t.core, i, mem);
    BurstEdge(t, i, mem, s, t');
  }

  lemma WalkCleanMove(t: Station, i: CpuIn, mem: MemResp, s: AxiSlave, t': Station, left: nat)
    requires Together(t) && StationNext(t, i, mem, s, t') && t.core.regs.fsm.FlushWb? && t.core.rf.fsm.RfDone?
    ensures Moves(t, t', WalkDueIn, WalkIsOver, left)
  {
    var c, k := t.core, Cell(t.core.regs.flushSet, t.core.regs.flushWay);
    AdvanceMovesOn(Consumed(c.regs, i));
    FlushWbEdge(c, i, mem);
    DirtyElsewhere(c.tags, k, TagEntry(true, false, c.tags[k].tag), k + 1);
  }

  lemma WalkMove(t: Station, i: CpuIn, mem: MemResp, s: AxiSlave, t': Station, left: nat)
    requires Together(t) && StationNext(t, i, mem, s, t')
    ensures Moves(t, t', WalkDueIn, WalkIsOver, left)
  {
    if t.core.regs.fsm.FlushScan? {
      var k := Cell(t.core.regs.flushSet, t.core.regs.flushWay);
      if t.core.tags[k].valid && t.core.tags[k].dirty {
        ScanStopMove(t, i, mem, s, t', left, k);
      } else {
        ScanSkipMove(t, i, mem, s, t', left, k);
      }
    } else if t.core.regs.fsm.FlushWb? {
      if t.core.rf.fsm.RfReq? {
        WalkBeatMove(t, i, mem, s, t', left);
      } else {
        WalkCleanMove(t, i, mem, s, t', left);
      }
    }
  }

  // --------------------------------------------------------------------- whole runs

  function Stations(cs: seq<CoreState>, ps: seq<Path>): (ts: seq<Station>)
    requires |cs| == |ps|
    ensures |ts| == |cs|
  {
    seq(|cs|, k requires 0 <= k < |cs| => Station(cs[k], ps[k].b.fsm))
  }

  /** A run of the cache over the bridge, seen as stations. */
  ghost predicate IsStationRun(
      ts: seq<Station>, cs: seq<CoreState>, ps: seq<Path>, g: Config, ins: seq<CpuIn>, axi: seq<AxiSlave>) {
    IsBridgedRun(cs, ps, g, ins, axi) && ts == Stations(cs, ps)
  }

  lemma StationEdge(
      ts: seq<Station>, cs: seq<CoreState>, ps: seq<Path>, g: Config, ins: seq<CpuIn>, axi: seq<AxiSlave>, n: nat)
    requires IsStationRun(ts, cs, ps, g, ins, axi) && n < |ins|
    ensures Together(ts[n]) && StationNext(ts[n], ins[n], BridgeResp(ps[n].b), axi[n], ts[n + 1])
  {
    BridgedRunIsRun(cs, ps, g, ins, axi);
    RunInStep(SystemOf(cs, ps, g), ins, n);
    assert BridgedEdge(cs, ps, g, ins, axi, n);
    FsmMoves(ps[n].b, g, BusRequest(cs[n].rf), axi[n]);
  }

  /** Edges, of the k after cycle n, at which a channel waits. */
  function WaitsIn(ts: seq<Station>, n: nat, k: nat): (w: nat)
    requires n + k < |ts|
    ensures w <= k
  {
    if k == 0 then 0 else WaitsIn(ts, n, k - 1) + if WaitEdge(ts[n + k - 1], ts[n + k]) then 1 else 0
  }

  ghost predicate MovesAt(ts: seq<Station>, j: nat, due: (Station, nat) -> bool, over: Station -> bool, left: nat)
    requires j + 1 < |ts|
  {
    Moves(ts[j], ts[j + 1], due, over, left)
  }

  /** What is due in left moves is over after exactly that many, however many waits between. */
  lemma {:induction false} MovesCount(
      ts: seq<Station>, due: (Station, nat) -> bool, over: Station -> bool, n: nat, left: nat, k: nat)
    requires n + k < |ts| && due(ts[n], left)
    requires forall j: nat, d: nat :: j + 1 < |ts| ==> MovesAt(ts, j, due, over, d)
    requires k - WaitsIn(ts, n, k) < left ||
        (k > 0 && k - WaitsIn(ts, n, k) == left && !WaitEdge(ts[n + k - 1], ts[n + k]))
    ensures if k - WaitsIn(ts, n, k) < left then due(ts[n + k], left - (k - WaitsIn(ts, n, k))) else over(ts[n + k])
    decreases k
  {
    if k > 0 {
      MovesCount(ts, due, over, n, left, k - 1);
      assert MovesAt(ts, n + k - 1, due, over, left - (k - 1 - WaitsIn(ts, n, k - 1)));
    }
  }

  ghost predicate DueSomehow(ts: seq<Station>, due: (Station, nat) -> bool, j: nat)
    requires j < |ts|
  {
    exists d :: due(ts[j], d)
  }

  /** It is due all along until it is over. */
  lemma DueUntilOver(ts: seq<Station>, due: (Station, nat) -> bool, over: Station -> bool, n: nat, left: nat, k: nat)
    requires n + k < |ts| && due(ts[n], left) && 0 < left && k == left + WaitsIn(ts, n, k)
    requires !WaitEdge(ts[n + k - 1], ts[n + k])
    requires forall j: nat, d: nat :: j + 1 < |ts| ==> MovesAt(ts, j, due, over, d)
    ensures over(ts[n + k]) && forall j: nat :: n <= j < n + k ==> DueSomehow(ts, due, j)
  {
    MovesCount(ts, due, over, n, left, k);
    forall j: nat | n <= j < n + k ensures DueSomehow(ts, due, j) {
      FewerMoves(ts, n, j - n, k);
      MovesCount(ts, due, over, n, left, j - n);
    }
  }

  lemma ResponseMovesAt(
      ts: seq<Station>, cs: seq<CoreState>, ps: seq<Path>, g: Config, ins: seq<CpuIn>, axi: seq<AxiSlave>)
    requires IsStationRun(ts, cs, ps, g, ins, axi)
    ensures forall j: nat, d: nat :: j + 1 < |ts| ==> MovesAt(ts, j, ResponseDueIn, HasAnswer, d)
  {
    forall j: nat, d: nat | j + 1 < |ts| ensures MovesAt(ts, j, ResponseDueIn, HasAnswer, d) {
      StationEdge(ts, cs, ps, g, ins, axi, j);
      ResponseEdge(ts[j], ins[j], BridgeResp(ps[j].b), axi[j], ts[j + 1], d);
    }
  }

  lemma WalkMovesAt(
      ts: seq<Station>, cs: seq<CoreState>, ps: seq<Path>, g: Config, ins: seq<CpuIn>, axi: seq<AxiSlave>)
    requires IsStationRun(ts, cs, ps, g, ins, axi)
    ensures forall j: nat, d: nat :: j + 1 < |ts| ==> MovesAt(ts, j, WalkDueIn, WalkIsOver, d)
  {
    forall j: nat, d: nat | j + 1 < |ts| ensures MovesAt(ts, j, WalkDueIn, WalkIsOver, d) {
      StationEdge(ts, cs, ps, g, ins, axi, j);
      WalkMove(ts[j], ins[j], BridgeResp(ps[j].b), axi[j], ts[j + 1], d);
    }
  }

  /** Moves from acceptance to response, judged when the latched request is looked up. */
  function BridgedLatencyOf(c: CoreState): nat {
    if LookupHit(c.regs, ReadArrays(c).row) then 2 else if VictimIsDirty(c) then 79 else 37
  }

  lemma AcceptStarts(
      ts: seq<Station>, cs: seq<CoreState>, ps: seq<Path>, g: Config, ins: seq<CpuIn>, axi: seq<AxiSlave>, n: nat)
    requires IsStationRun(ts, cs, ps, g, ins, axi) && n < |ins| && Accepts(cs[n], ins[n]).Some?
    ensures ResponseDueIn(ts[n + 1], BridgedLatencyOf(cs[n + 1]) - 1)
  {
    StationEdge(ts, cs, ps, g, ins, axi, n);
    AcceptLatches(cs[n], ins[n], BridgeResp(ps[n].b));
  }

  lemma DueIsUnanswered(ts: seq<Station>, cs: seq<CoreState>, ps: seq<Path>, j: nat)
    requires |cs| == |ps| && ts == Stations(cs, ps) && j < |ts| && DueSomehow(ts, ResponseDueIn, j)
    ensures Held(cs[j]) == []
  {}

  lemma DueIsRunning(ts: seq<Station>, cs: seq<CoreState>, ps: seq<Path>, j: nat)
    requires |cs| == |ps| && ts == Stations(cs, ps) && j < |ts| && DueSomehow(ts, WalkDueIn, j)
    ensures cs[j].regs.flushActive
  {}

  /** Latency over the bridge and any conforming memory: the response to a request accepted
      in cycle n is first visible after exactly 2 cycles on a hit, 37 on a miss with a clean
      or empty victim, and 79 on a miss that writes its victim back, plus the cycles in which
      a channel waits. */
  lemma BridgedLatency(
      ts: seq<Station>, cs: seq<CoreState>, ps: seq<Path>, g: Config, ins: seq<CpuIn>, axi: seq<AxiSlave>,
      n: nat, k: nat)
    requires IsStationRun(ts, cs, ps, g, ins, axi) && n + 1 + k <= |ins| && Accepts(cs[n], ins[n]).Some?
    requires k + 1 == BridgedLatencyOf(cs[n + 1]) + WaitsIn(ts, n + 1, k) && !WaitEdge(ts[n + k], ts[n + 1 + k])
    ensures Held(cs[n + 1 + k]) != [] && forall j :: n < j <= n + k ==> Held(cs[j]) == []
  {
    AcceptStarts(ts, cs, ps, g, ins, axi, n);
    AnsweredAfter(ts, cs, ps, g, ins, axi, n + 1, BridgedLatencyOf(cs[n + 1]) - 1, k);
  }

  lemma AnsweredAfter(
      ts: seq<Station>, cs: seq<CoreState>, ps: seq<Path>, g: Config, ins: seq<CpuIn>, axi: seq<AxiSlave>,
      n: nat, left: nat, k: nat)
    requires IsStationRun(ts, cs, ps, g, ins, axi) && n + k <= |ins| && ResponseDueIn(ts[n], left)
    requires 0 < left && k == left + WaitsIn(ts, n, k) && !WaitEdge(ts[n + k - 1], ts[n + k])
    ensures Held(cs[n + k]) != [] && forall j :: n <= j < n + k ==> Held(cs[j]) == []
  {
    ResponseMovesAt(ts, cs, ps, g, ins, axi);
    DueUntilOver(ts, ResponseDueIn, HasAnswer, n, left, k);
    assert ts[n + k].core == cs[n + k];
    forall j | n <= j < n + k ensures Held(cs[j]) == [] {
      DueIsUnanswered(ts, cs, ps, j);
    }
  }

  /** Before its last edge, which is a move, a stretch has made fewer moves. */
  lemma FewerMoves(ts: seq<Station>, n: nat, x: nat, k: nat)
    requires x < k && n + k < |ts| && !WaitEdge(ts[n + k - 1], ts[n + k])
    ensures x - WaitsIn(ts, n, x) < k - WaitsIn(ts, n, k)
  {
    NoMoreMoves(ts, n, x, k - 1);
  }

  lemma {:induction false} NoMoreMoves(ts: seq<Station>, n: nat, x: nat, k: nat)
    requires x <= k && n + k < |ts|
    ensures x - WaitsIn(ts, n, x) <= k - WaitsIn(ts, n, k)
    decreases k
  {
    if x < k {
      NoMoreMoves(ts, n, x, k - 1);
    }
  }

  lemma WalkStartsOverBridge(
      ts: seq<Station>, cs: seq<CoreState>, ps: seq<Path>, g: Config, ins: seq<CpuIn>, axi: seq<AxiSlave>, n: nat)
    requires IsStationRun(ts, cs, ps, g, ins, axi) && n < |ins| && !cs[n].regs.flushActive && cs[n + 1].regs.flushActive
    ensures WalkDueIn(ts[n + 1], NUM_CELLS + 41 * DirtyFrom(cs[n].tags, 0))
  {
    StationEdge(ts, cs, ps, g, ins, axi, n);
    WalkBegins(cs[n], ins[n], BridgeResp(ps[n].b));
  }

  /** Cost of a walk over the bridge: with d dirty lines at its start, exactly 256 + 41 d
      cycles in the flush states, plus the cycles in which a channel waits. */
  lemma BridgedWalkCost(
      ts: seq<Station>, cs: seq<CoreState>, ps: seq<Path>, g: Config, ins: seq<CpuIn>, axi: seq<AxiSlave>,
      n: nat, k: nat)
    requires IsStationRun(ts, cs, ps, g, ins, axi) && n + 1 + k <= |ins|
    requires !cs[n].regs.flushActive && cs[n + 1].regs.flushActive
    requires k == NUM_CELLS + 41 * DirtyFrom(cs[n].tags, 0) + WaitsIn(ts, n + 1, k)
    requires !WaitEdge(ts[n + k], ts[n + 1 + k])
    ensures WalkIsOver(ts[n + 1 + k]) && forall j :: n < j <= n + k ==> cs[j].regs.flushActive
  {
    WalkStartsOverBridge(ts, cs, ps, g, ins, axi, n);
    WalkedAfter(ts, cs, ps, g, ins, axi, n + 1, NUM_CELLS + 41 * DirtyFrom(cs[n].tags, 0), k);
  }

  lemma WalkedAfter(
      ts: seq<Station>, cs: seq<CoreState>, ps: seq<Path>, g: Config, ins: seq<CpuIn>, axi: seq<AxiSlave>,
      n: nat, left: nat, k: nat)
    requires IsStationRun(ts, cs, ps, g, ins, axi) && n + k <= |ins| && WalkDueIn(ts[n], left)
    requires 0 < left && k == left + WaitsIn(ts, n, k) && !WaitEdge(ts[n + k - 1], ts[n + k])
    ensures WalkIsOver(ts[n + k]) && forall j :: n <= j < n + k ==> cs[j].regs.flushActive
  {
    WalkMovesAt(ts, cs, ps, g, ins, axi);
    DueUntilOver(ts, WalkDueIn, WalkIsOver, n, left, k);
    forall j | n <= j < n + k ensures cs[j].regs.flushActive {
      DueIsRunning(ts, cs, ps, j);
    }
  }

  // ------------------------------------------------- every transfer within D cycles

  /** The slave makes every transfer that the bridge waits for within bound cycles. */
  ghost predicate TransfersWithin(ts: seq<Station>, bound: nat) {
    forall n: nat :: n + bound < |ts| ==> TransferBy(ts, n, bound)
  }

  ghost predicate TransferBy(ts: seq<Station>, n: nat, bound: nat)
    requires n + bound < |ts|
  {
    Waiting(ts[n].fsm) ==> exists j :: n < j <= n + bound && ts[j].fsm != ts[n].fsm
  }

  /** The first edge from cycle n on that is a move. */
  lemma FirstMove(ts: seq<Station>, n: nat, bound: nat) returns (k: nat)
    requires 0 < bound && n + bound < |ts| && TransfersWithin(ts, bound)
    ensures 0 < k <= bound && WaitsIn(ts, n, k) == k - 1 && !WaitEdge(ts[n + k - 1], ts[n + k])
  {
    assert TransferBy(ts, n, bound);
    k := 1;
    assert WaitsIn(ts, n, 0) == 0;
    while WaitEdge(ts[n + k - 1], ts[n + k])
      invariant 0 < k <= bound && WaitsIn(ts, n, k - 1) == k - 1
      invariant Waiting(ts[n].fsm) || k == 1
      invariant forall j :: n <= j < n + k ==> ts[j].fsm == ts[n].fsm
      decreases bound - k
    {
      assert forall j :: n <= j <= n + k ==> ts[j].fsm == ts[n].fsm;
      k := k + 1;
    }
  }

  /** What is due in left moves is over within left * bound cycles. */
  lemma {:induction false} OverWithin(
      ts: seq<Station>, due: (Station, nat) -> bool, over: Station -> bool, n: nat, left: nat, bound: nat)
    requires 0 < bound && 0 < left && n + left * bound < |ts| && TransfersWithin(ts, bound) && due(ts[n], left)
    requires forall j: nat, d: nat :: j + 1 < |ts| ==> MovesAt(ts, j, due, over, d)
    ensures exists j :: n < j <= n + left * bound && over(ts[j])
    decreases left
  {
    assert left * bound == (left - 1) * bound + bound;
    var k := FirstMove(ts, n, bound);
    MovesCount(ts, due, over, n, left, k);
    if left > 1 {
      OverWithin(ts, due, over, n + k, left - 1, bound);
      var j :| n + k < j <= n + k + (left - 1) * bound && over(ts[j]);
      assert n < j <= n + left * bound && over(ts[j]);
    } else {
      assert over(ts[n + k]);
    }
  }

  /** Every accepted request is answered within 1 + 78 D cycles, if every transfer that the
      bridge waits for is made within D. */
  lemma BridgedRequestIsAnswered(
      ts: seq<Station>, cs: seq<CoreState>, ps: seq<Path>, g: Config, ins: seq<CpuIn>, axi: seq<AxiSlave>,
      n: nat, bound: nat)
    requires IsStationRun(ts, cs, ps, g, ins, axi) && 0 < bound && TransfersWithin(ts, bound)
    requires n + 1 + 78 * bound <= |ins| && Accepts(cs[n], ins[n]).Some?
    ensures exists j :: n < j <= n + 1 + 78 * bound && Held(cs[j]) != []
  {
    var left := BridgedLatencyOf(cs[n + 1]) - 1;
    AcceptStarts(ts, cs, ps, g, ins, axi, n);
    ResponseMovesAt(ts, cs, ps, g, ins, axi);
    MultiplesGrow(left, 78, bound);
    OverWithin(ts, ResponseDueIn, HasAnswer, n + 1, left, bound);
    var j :| n + 1 < j <= n + 1 + left * bound && HasAnswer(ts[j]);
    assert Held(cs[j]) != [];
  }

  lemma MultiplesGrow(x: nat, y: nat, m: nat)
    requires x <= y
    ensures x * m <= y * m
  {}

  /** And every walk ends within (256 + 41 d) D cycles. */
  lemma BridgedWalkEnds(
      ts: seq<Station>, cs: seq<CoreState>, ps: seq<Path>, g: Config, ins: seq<CpuIn>, axi: seq<AxiSlave>,
      n: nat, bound: nat)
    requires IsStationRun(ts, cs, ps, g, ins, axi) && 0 < bound && TransfersWithin(ts, bound)
    requires n < |ins| && n + 1 + (NUM_CELLS + 41 * DirtyFrom(cs[n].tags, 0)) * bound <= |ins|
    requires !cs[n].regs.flushActive && cs[n + 1].regs.flushActive
    ensures exists j :: n < j <= n + 1 + (NUM_CELLS + 41 * DirtyFrom(cs[n].tags, 0)) * bound && WalkIsOver(ts[j])
  {
    WalkStartsOverBridge(ts, cs, ps, g, ins, axi, n);
    WalkMovesAt(ts, cs, ps, g, ins, axi);
    OverWithin(ts, WalkDueIn, WalkIsOver, n + 1, NUM_CELLS + 41 * DirtyFrom(cs[n].tags, 0), bound);
  }

  // ------------------------------------------------------ over the quickest memory

  /** A run whose memory is the quickest conforming one. */
  ghost predicate IsObligingRun(
      ts: seq<Station>, cs: seq<CoreState>, ps: seq<Path>, g: Config, ins: seq<CpuIn>, axi: seq<AxiSlave>) {
    && IsStationRun(ts, cs, ps, g, ins, axi)
    && forall n: nat :: n < |ins| ==> ObligingAt(cs, ps, g, axi, n)
  }

  ghost predicate ObligingAt(cs: seq<CoreState>, ps: seq<Path>, g: Config, axi: seq<AxiSlave>, n: nat)
    requires n < |axi| && |axi| < |cs| == |ps|
  {
    axi[n] == Obliging(ps[n].m) && ps[n + 1] == ObligingPath(ps[n], g, BusRequest(cs[n].rf))
  }

  /** What is asked of this memory is ready when it is waited for. */
  predicate Ready(p: Path) {
    (p.b.fsm.BrWriteResp? ==> p.m.wr.WAnswer?) && (p.b.fsm.BrReadData? ==> p.m.rd.RAnswer?)
  }

  lemma ObligingNeverWaits(p: Path, g: Config, q: MemReq)
    requires PathInv(p, g) && Ready(p)
    ensures Ready(ObligingPath(p, g, q))
    ensures Waiting(p.b.fsm) ==> ObligingPath(p, g, q).b.fsm != p.b.fsm
  {}

  lemma {:induction false} ObligingRunIsReady(
      ts: seq<Station>, cs: seq<CoreState>, ps: seq<Path>, g: Config, ins: seq<CpuIn>, axi: seq<AxiSlave>, n: nat)
    requires IsObligingRun(ts, cs, ps, g, ins, axi) && n <= |ins|
    ensures Ready(ps[n])
  {
    if n > 0 {
      ObligingRunIsReady(ts, cs, ps, g, ins, axi, n - 1);
      PathInvHolds(cs, ps, g, ins, axi, n - 1);
      assert ObligingAt(cs, ps, g, axi, n - 1);
      ObligingNeverWaits(ps[n - 1], g, BusRequest(cs[n - 1].rf));
    }
  }

  lemma NoWaitEdge(
      ts: seq<Station>, cs: seq<CoreState>, ps: seq<Path>, g: Config, ins: seq<CpuIn>, axi: seq<AxiSlave>, n: nat)
    requires IsObligingRun(ts, cs, ps, g, ins, axi) && n < |ins|
    ensures !WaitEdge(ts[n], ts[n + 1])
  {
    ObligingRunIsReady(ts, cs, ps, g, ins, axi, n);
    PathInvHolds(cs, ps, g, ins, axi, n);
    assert ObligingAt(cs, ps, g, axi, n);
    ObligingNeverWaits(ps[n], g, BusRequest(cs[n].rf));
  }

  lemma {:induction false} NoWaits(
      ts: seq<Station>, cs: seq<CoreState>, ps: seq<Path>, g: Config, ins: seq<CpuIn>, axi: seq<AxiSlave>,
      n: nat, k: nat)
    requires IsObligingRun(ts, cs, ps, g, ins, axi) && n + k <= |ins|
    ensures WaitsIn(ts, n, k) == 0
    decreases k
  {
    if k > 0 {
      NoWaits(ts, cs, ps, g, ins, axi, n, k - 1);
      NoWaitEdge(ts, cs, ps, g, ins, axi, n + k - 1);
    }
  }

  /** Over it the latencies are exactly 2, 37 and 79 cycles. */
  lemma ObligingLatency(
      ts: seq<Station>, cs: seq<CoreState>, ps: seq<Path>, g: Config, ins: seq<CpuIn>, axi: seq<AxiSlave>,
      n: nat, latency: nat)
    requires IsObligingRun(ts, cs, ps, g, ins, axi) && n + latency <= |ins| && n < |ins| && Accepts(cs[n], ins[n]).Some?
    requires latency == BridgedLatencyOf(cs[n + 1])
    ensures Held(cs[n + latency]) != [] && forall j :: n < j < n + latency ==> Held(cs[j]) == []
  {
    NoWaits(ts, cs, ps, g, ins, axi, n + 1, latency - 1);
    NoWaitEdge(ts, cs, ps, g, ins, axi, n + latency - 1);
    BridgedLatency(ts, cs, ps, g, ins, axi, n, latency - 1);
  }

  /** And a walk with d dirty lines takes exactly 256 + 41 d cycles. */
  lemma ObligingWalkCost(
      ts: seq<Station>, cs: seq<CoreState>, ps: seq<Path>, g: Config, ins: seq<CpuIn>, axi: seq<AxiSlave>,
      n: nat, cost: nat)
    requires IsObligingRun(ts, cs, ps, g, ins, axi) && n + 1 + cost <= |ins|
    requires !cs[n].regs.flushActive && cs[n + 1].regs.flushActive
    requires cost == NUM_CELLS + 41 * DirtyFrom(cs[n].tags, 0)
    ensures WalkIsOver(ts[n + 1 + cost]) && forall j :: n < j <= n + cost ==> cs[j].regs.flushActive
  {
    NoWaits(ts, cs, ps, g, ins, axi, n + 1, cost);
    NoWaitEdge(ts, cs, ps, g, ins, axi, n + cost);
    BridgedWalkCost(ts, cs, ps, g, ins, axi, n, cost);
  }
}
