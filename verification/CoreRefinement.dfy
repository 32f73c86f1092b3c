/** The clocked core over any memory port refines the transaction-level cache: an access
    takes effect at its hit edge or at the edge that installs its line, a clean at the
    edge that clears the dirty bit, and every other cycle changes nothing. */
module CoreRefinement {
  import opened DcachePkg
  import opened Directory
  import opened AtomicCache
  import opened MemPort
  import opened Refill
  import opened Core

  datatype Sys = Sys(core: CoreState, port: Port)

  /** One clock edge of core and memory together. */
  ghost predicate SysNext(s: Sys, i: CpuIn, s': Sys) {
    && s'.core == CoreNext(s.core, i, Respond(s.port))
    && PortNext(s.port, BusRequest(s.core.rf), s'.port)
  }

  predicate SysIsReset(s: Sys) { CoreIsReset(s.core) && s.port == Port(Backing(s.port.store.words, []), Free) }

  // ------------------------------------------------------------- the abstraction

  function ResidentsOf(t: TagArray): Residents {
    seq(256, k requires 0 <= k < 256 => if t[k].valid then Some(t[k].tag) else None)
  }

  function DirtyOf(t: TagArray): DirtyBits { seq(256, k requires 0 <= k < 256 => t[k].dirty) }

  function DirOf(c: CoreState): Dir { Dir(ResidentsOf(c.tags), c.plru) }

  /** A miss is counted when it is found, before its access takes effect. */
  predicate Missing(f: Fsm) { f.MissWb? || f.MissFill? || f.MissFinish? }

  ghost predicate ArraysMatch(c: CoreState, a: Atomic) {
    && a.dir == DirOf(c) && a.dirty == DirtyOf(c.tags) && a.lines == c.data
    && c.regs.hits == Wrapped(a.hits)
    && c.regs.misses == Wrapped(if Missing(c.regs.fsm) then a.misses + 1 else a.misses)
    && Unique(a.dir)
    && forall k :: 0 <= k < NUM_CELLS && c.tags[k].dirty ==> c.tags[k].valid
  }

  /** The latched request. */
  function Latched(r: Regs): Request {
    if r.op.Read? then LoadReq(r.addr) else StoreReq(r.addr, r.wdata, r.wstrb)
  }

  function InFlight(c: CoreState): seq<Request> {
    if c.regs.resolve || Missing(c.regs.fsm) then [Latched(c.regs)] else []
  }

  /** The step of the transaction-level cache that this clock edge performs. */
  function EventAt(c: CoreState): Option<Event> {
    match c.regs.fsm
    case Idle => if c.regs.resolve && LookupHit(c.regs, ReadArrays(c).row) then Some(Serve(Latched(c.regs))) else None
    case MissFinish => Some(Serve(Latched(c.regs)))
    case FlushWb => if c.rf.fsm.RfDone? then Some(Clean(c.regs.flushSet, c.regs.flushWay)) else None
    case _ => None
  }

  /** What one edge accepts, serves and replies. */
  function TakenAt(c: CoreState, i: CpuIn): seq<Request> {
    var q := Accepts(c, i);
    if q.Some? then [q.value] else []
  }

  function ServedAt(c: CoreState): seq<Request> { match EventAt(c) case Some(Serve(q)) => [q] case _ => [] }

  function RepliedAt(c: CoreState, a: Atomic): seq<Response> {
    match EventAt(c) case Some(Serve(q)) => [Reply(a, q)] case _ => []
  }

  function AfterEdge(a: Atomic, c: CoreState): Atomic {
    match EventAt(c)
    case None => a
    case Some(e) => Apply(a, e)
  }

  // --------------------------------------------------------------- the relation

  /** A burst has yet to start from memory st, or is moving this line. */
  ghost predicate Moving(s: Sys, st: Backing, write: bool, base: nat, line: Line) {
    || (s.core.rf.fsm.RfIdle? && s.port == Port(st, Free))
    || Burst(s.core.rf, s.port, st, write, base, line)
  }

  ghost predicate Quiet(s: Sys, st: Backing) { s.core.rf.fsm.RfIdle? && s.port == Port(st, Free) }

  /** The miss register holds the latched request and its victim. */
  ghost predicate MissCaptured(c: CoreState, a: Atomic) {
    var r, m := c.regs, c.mshr;
    var l := LineOf(r.addr);
    var k := Cell(SetOf(l), Lookup(a.dir, l).way);
    && m.valid && m.op == r.op && m.addr == r.addr && m.wdata == r.wdata && m.wstrb == r.wstrb
    && !Lookup(a.dir, l).hit && m.way == Lookup(a.dir, l).way
    && (m.needsWb <==> c.tags[k].valid && c.tags[k].dirty) && m.victimData == a.lines[k] && m.victimEntry == c.tags[k]
    && !r.resolve && !r.holdR && !r.holdW && !r.flushActive
  }

  /** Memory once the victim of the latched miss is written back, and the line that the
      fill then reads. */
  function Evicted(a: Atomic, l: LineAddr): Backing { WriteBack(a, SetOf(l), Lookup(a.dir, l).way) }

  function FetchedLine(a: Atomic, l: LineAddr): Line { ReadLine(Evicted(a, l).words, HomeBase(SetOf(l), TagOf(l))) }

  /** What holds in each state of the FSM, a being the cache before the latched request. */
  ghost predicate PhaseInv(s: Sys, a: Atomic) {
    var c := s.core;
    var r, l := c.regs, LineOf(c.regs.addr);
    match r.fsm
    case Idle => Quiet(s, a.store) && !c.mshr.valid && !r.flushActive && (r.resolve ==> !r.holdR && !r.holdW)
    case MissWb =>
      && MissCaptured(c, a) && c.mshr.victimEntry.valid && c.mshr.victimEntry.dirty
      && Moving(s, a.store, true, HomeBase(SetOf(l), c.mshr.victimEntry.tag), c.mshr.victimData)
    case MissFill =>
      && MissCaptured(c, a)
      && Moving(s, Evicted(a, l), false, HomeBase(SetOf(l), TagOf(l)), FetchedLine(a, l))
    case MissFinish =>
      && MissCaptured(c, a) && c.rf.line == FetchedLine(a, l)
      && Quiet(s, Install(a, l, c.mshr.way).store)
    case FlushScan => Quiet(s, a.store) && !c.mshr.valid && !r.resolve && r.flushActive
    case FlushWb =>
      var e := c.tags[Cell(r.flushSet, r.flushWay)];
      && !c.mshr.valid && !r.resolve && r.flushActive && e.valid && e.dirty
      && Burst(c.rf, s.port, a.store, true, HomeBase(r.flushSet, e.tag), c.data[Cell(r.flushSet, r.flushWay)])
  }

  /** Cells before the cursor of a running walk are clean; after a walk all are. */
  ghost predicate WalkInv(c: CoreState) {
    && (c.regs.flushActive ==> forall k :: 0 <= k < Cell(c.regs.flushSet, c.regs.flushWay) ==> !c.tags[k].dirty)
    && (c.regs.flushDone ==> c.regs.fsm.Idle? && !c.regs.resolve && forall k :: 0 <= k < NUM_CELLS ==> !c.tags[k].dirty)
  }

  ghost predicate Refines(s: Sys, a: Atomic) {
    && ArraysMatch(s.core, a) && PhaseInv(s, a) && WalkInv(s.core)
    && !(s.core.regs.holdR && s.core.regs.holdW)
  }

  // ------------------------------------------------------- tag compare is right

  /** One-hot decode, lowest invalid way and victim choice agree with the directory. */
  lemma ProbeIsLookup(c: CoreState, a: Atomic, s: SetIdx, t: Tag)
    requires ArraysMatch(c, a)
    ensures var row, f := Row(c.tags, s), FindWay(a.dir, s, t);
            && AnyWay(HitMask(row, t)) == f.Some?
            && (f.Some? ==> OnehotToWay(HitMask(row, t)) == f.value)
            && AllocateWay(row, PlruVictim(c.plru[s])) == AllocWay(a.dir, s)
  {
    var row := Row(c.tags, s);
    forall w: Way
      ensures row[w] == c.tags[Cell(s, w)]
      ensures a.dir.res[Cell(s, w)] == if row[w].valid then Some(row[w].tag) else None
    {}
    var f := FindWay(a.dir, s, t);
    if f.Some? {
      forall w: Way ensures HitMask(row, t)[w] <==> w == f.value {
        assert a.dir.res[Cell(s, f.value)] == Some(t);
        assert w != f.value ==> a.dir.res[Cell(s, w)] != Some(t);
      }
    } else {
      assert forall w: Way :: !Holds(a.dir, s, w, t);
    }
    assert InvalidMask(row) == EmptyWays(a.dir, s);
  }

  lemma LineFields(a: Addr)
    ensures SetOf(LineOf(a)) == AddrToSet(a) && TagOf(LineOf(a)) == AddrToTag(a)
    ensures HomeBase(SetOf(LineOf(a)), TagOf(LineOf(a))) == LineBase(a) ==
        LineBase(SetTagToAddr(AddrToSet(a), AddrToTag(a)))
    ensures Aligned(LineBase(a))
  {
    LineBaseFacts(a);
    DivMod(LineOf(a), 64, AddrToTag(a), AddrToSet(a));
  }

  /** Writing one tag entry, as the directory and the dirty bits see it. */
  lemma TagWriteIs(t: TagArray, k: nat, e: TagEntry)
    requires k < NUM_CELLS && e.valid
    ensures ResidentsOf(t[k := e]) == ResidentsOf(t)[k := Some(e.tag)]
    ensures DirtyOf(t[k := e]) == DirtyOf(t)[k := e.dirty]
  {}

  lemma BumpCounts(n: nat)
    ensures Bump(Wrapped(n)) == Wrapped(n + 1)
  {}

  // ------------------------------------------------------------ one clock edge

  /** What an edge does to the response registers: a served request fills the register of
      its kind with its reply; otherwise a held response stays until it is consumed. */
  ghost predicate HoldsReply(c: CoreState, i: CpuIn, c': CoreState, a: Atomic) {
    match EventAt(c)
    case Some(Serve(q)) =>
      && !c.regs.holdR && !c.regs.holdW
      && (c'.regs.holdR <==> q.LoadReq?) && (c'.regs.holdW <==> q.StoreReq?)
      && (q.LoadReq? ==> Reply(a, q) == ReadResp(c'.regs.holdData))
    case _ =>
      && c'.regs.holdR == (c.regs.holdR && !i.rrespReady) && c'.regs.holdW == (c.regs.holdW && !i.wrespReady)
      && c'.regs.holdData == c.regs.holdData
  }

  ghost predicate EdgeCorrect(s: Sys, i: CpuIn, s': Sys, a: Atomic) {
    && Refines(s', AfterEdge(a, s.core))
    && HoldsReply(s.core, i, s'.core, a)
    && InFlight(s.core) + TakenAt(s.core, i) == ServedAt(s.core) + InFlight(s'.core)
  }

  lemma IdleWaits(s: Sys, i: CpuIn, s': Sys, a: Atomic)
    requires Refines(s, a) && SysNext(s, i, s') && s.core.regs.fsm.Idle? && !s.core.regs.resolve
    ensures EdgeCorrect(s, i, s', a)
  {}

  /** The core after a hit in way w. */
  function AfterHit(c: CoreState, i: CpuIn, w: Way): CoreState {
    var q := Latched(c.regs);
    var s, v := AddrToSet(q.addr), AddrToWordSel(q.addr);
    var r := Consumed(c.regs, i).(resolve := false, hits := Bump(c.regs.hits));
    var d := c.(plru := c.plru[s := PlruTouch(c.plru[s], w)]);
    var k := Cell(s, w);
    match q
    case LoadReq(_) => d.(regs := r.(holdR := true, holdData := c.data[k][v]))
    case StoreReq(_, data, strb) =>
      d.(regs := r.(holdW := true), tags := c.tags[k := TagEntry(true, true, AddrToTag(q.addr))],
         data := c.data[k := MergeLine(c.data[k], v, data, strb)])
  }

  lemma HitEdge(c: CoreState, i: CpuIn, mem: MemResp)
    requires c.regs.fsm.Idle? && c.regs.resolve && !c.regs.flushActive && c.rf.fsm.RfIdle? && !c.mshr.valid
    requires LookupHit(c.regs, ReadArrays(c).row)
    ensures CoreNext(c, i, mem) == AfterHit(c, i, HitWay(c.regs, ReadArrays(c).row))
  {}

  lemma ServeOfHit(a: Atomic, q: Request)
    requires Lookup(a.dir, LineOf(q.addr)).hit
    ensures var l := LineOf(q.addr);
            var w := Lookup(a.dir, l).way;
            var k := Cell(SetOf(l), w);
            && ServeRequest(a, q) == Atomic(
                 Dir(a.dir.res, a.dir.plru[SetOf(l) := PlruTouch(a.dir.plru[SetOf(l)], w)]),
                 if q.StoreReq? then a.dirty[k := true] else a.dirty,
                 if q.StoreReq? then a.lines[k := MergeLine(a.lines[k], AddrToWordSel(q.addr), q.data, q.strb)]
                 else a.lines,
                 a.store, a.hits + 1, a.misses)
            && Unique(ServeRequest(a, q).dir) == Unique(a.dir)
            && (q.LoadReq? ==> Reply(a, q) == ReadResp(a.lines[k][AddrToWordSel(q.addr)]))
  {
    HitMovesNothing(a.dir, LineOf(q.addr));
    var k := Cell(SetOf(LineOf(q.addr)), Lookup(a.dir, LineOf(q.addr)).way);
    assert q.LoadReq? ==> a.dirty[k := a.dirty[k] || false] == a.dirty;
  }

  lemma HitArrays(c: CoreState, i: CpuIn, a: Atomic, w: Way)
    requires ArraysMatch(c, a) && c.regs.fsm.Idle? && Lookup(a.dir, LineOf(c.regs.addr)) == Outcome(true, w)
    ensures ArraysMatch(AfterHit(c, i, w), ServeRequest(a, Latched(c.regs)))
  {
    var q := Latched(c.regs);
    LineFields(q.addr);
    ServeOfHit(a, q);
    BumpCounts(a.hits);
    if q.StoreReq? {
      var k, e := Cell(AddrToSet(q.addr), w), TagEntry(true, true, AddrToTag(q.addr));
      TagWriteIs(c.tags, k, e);
      assert Holds(a.dir, SetOf(LineOf(q.addr)), w, TagOf(LineOf(q.addr)));
      assert ResidentsOf(c.tags)[k := Some(e.tag)] == ResidentsOf(c.tags);
    }
  }

  lemma HitServes(s: Sys, i: CpuIn, s': Sys, a: Atomic, w: Way)
    requires Refines(s, a) && s.core.regs.fsm.Idle? && s.core.regs.resolve && s' == Sys(AfterHit(s.core, i, w), s.port)
    requires EventAt(s.core) == Some(Serve(Latched(s.core.regs)))
    requires Lookup(a.dir, LineOf(s.core.regs.addr)) == Outcome(true, w)
    ensures EdgeCorrect(s, i, s', a)
  {
    HitArrays(s.core, i, a, w);
    LineFields(s.core.regs.addr);
    ServeOfHit(a, Latched(s.core.regs));
  }

  lemma IdleHits(s: Sys, i: CpuIn, s': Sys, a: Atomic)
    requires Refines(s, a) && SysNext(s, i, s') && s.core.regs.fsm.Idle? && s.core.regs.resolve
    requires LookupHit(s.core.regs, ReadArrays(s.core).row)
    ensures EdgeCorrect(s, i, s', a)
  {
    var l := LineOf(s.core.regs.addr);
    LineFields(s.core.regs.addr);
    ProbeIsLookup(s.core, a, SetOf(l), TagOf(l));
    HitEdge(s.core, i, Respond(s.port));
    HitServes(s, i, s', a, Lookup(a.dir, l).way);
  }

  lemma IdleMisses(s: Sys, i: CpuIn, s': Sys, a: Atomic)
    requires Refines(s, a) && SysNext(s, i, s') && s.core.regs.fsm.Idle? && s.core.regs.resolve
    requires !LookupHit(s.core.regs, ReadArrays(s.core).row)
    ensures EdgeCorrect(s, i, s', a)
  {
    var c, r := s.core, s.core.regs;
    var l := LineOf(r.addr);
    LineFields(r.addr);
    ProbeIsLookup(c, a, SetOf(l), TagOf(l));
    BumpCounts(a.misses);
    var w := Lookup(a.dir, l).way;
    assert ReadArrays(c).row[w] == c.tags[Cell(SetOf(l), w)];
    assert ReadArrays(c).line == c.data[Cell(SetOf(l), w)];
  }

  /** Where the victim of a miss is written back to. */
  function VictimBase(c: CoreState): MemIdx {
    LineBase(SetTagToAddr(AddrToSet(c.mshr.addr), c.mshr.victimEntry.tag))
  }

  /** In a burst state of a miss only the FSM, the consumed responses and the engine move. */
  lemma MissBurstEdge(c: CoreState, i: CpuIn, mem: MemResp)
    requires c.regs.fsm.MissWb? || c.regs.fsm.MissFill?
    ensures var next := if c.regs.fsm.MissWb? then MissFill else MissFinish;
            var rfIn := Comb(c.regs, c.mshr, c.rf, ReadArrays(c)).rf;
            CoreNext(c, i, mem) ==
              c.(regs := Consumed(c.regs, i).(fsm := if c.rf.fsm.RfDone? then next else c.regs.fsm),
                  rf := RefillNext(c.rf, rfIn, mem))
    ensures var rfIn := Comb(c.regs, c.mshr, c.rf, ReadArrays(c)).rf;
            && rfIn.startWrite == (c.regs.fsm.MissWb? && c.rf.fsm.RfIdle?)
            && rfIn.startRead == (c.regs.fsm.MissFill? && c.rf.fsm.RfIdle?)
            && rfIn.base == (if c.regs.fsm.MissWb? then VictimBase(c) else LineBase(c.mshr.addr))
            && (!c.regs.flushActive ==> rfIn.line == c.mshr.victimData)
  {}

  /** The burst of a miss, in either direction, advances by one edge. */
  lemma MovingAdvances(s: Sys, i: CpuIn, s': Sys, st: Backing, write: bool, base: nat, line: Line)
    requires s.core.regs.fsm == (if write then MissWb else MissFill) && !s.core.regs.flushActive
    requires Aligned(base) && Moving(s, st, write, base, line) && SysNext(s, i, s')
    requires write ==> s.core.mshr.victimData == line && base == VictimBase(s.core)
    requires !write ==> line == ReadLine(st.words, base) && base == LineBase(s.core.mshr.addr)
    ensures !s.core.rf.fsm.RfDone? ==> Moving(s', st, write, base, line)
    ensures s.core.rf.fsm.RfDone? ==> Quiet(s', BurstStore(st, write, base, line, 8)) && s'.core.rf.line == line
  {
    var c := s.core;
    var rfIn := Comb(c.regs, c.mshr, c.rf, ReadArrays(c)).rf;
    MissBurstEdge(c, i, Respond(s.port));
    if c.rf.fsm.RfIdle? {
      BurstBegins(c.rf, s.port, rfIn, s'.port);
    } else if c.rf.fsm.RfReq? {
      BurstContinues(c.rf, s.port, rfIn, s'.port, st, write, base, line);
    } else {
      BurstEnds(c.rf, s.port, rfIn, s'.port, st, write, base, line);
    }
  }

  /** An edge inside a miss that leaves the latched request in flight. */
  lemma MissStays(s: Sys, i: CpuIn, s': Sys, a: Atomic, next: Fsm)
    requires Refines(s, a) && (s.core.regs.fsm.MissWb? || s.core.regs.fsm.MissFill?) && Missing(next)
    requires s'.core == s.core.(regs := Consumed(s.core.regs, i).(fsm := next), rf := s'.core.rf)
    requires PhaseInv(s', a)
    ensures EdgeCorrect(s, i, s', a)
  {}

  lemma MissWbStep(s: Sys, i: CpuIn, s': Sys, a: Atomic)
    requires Refines(s, a) && SysNext(s, i, s') && s.core.regs.fsm.MissWb?
    ensures EdgeCorrect(s, i, s', a)
  {
    var l, m := LineOf(s.core.regs.addr), s.core.mshr;
    LineFields(s.core.regs.addr);
    MissBurstEdge(s.core, i, Respond(s.port));
    MovingAdvances(s, i, s', a.store, true, HomeBase(SetOf(l), m.victimEntry.tag), m.victimData);
    MissStays(s, i, s', a, if s.core.rf.fsm.RfDone? then MissFill else MissWb);
  }

  lemma MissFillStep(s: Sys, i: CpuIn, s': Sys, a: Atomic)
    requires Refines(s, a) && SysNext(s, i, s') && s.core.regs.fsm.MissFill?
    ensures EdgeCorrect(s, i, s', a)
  {
    var l := LineOf(s.core.regs.addr);
    LineFields(s.core.regs.addr);
    MissBurstEdge(s.core, i, Respond(s.port));
    MovingAdvances(s, i, s', Evicted(a, l), false, HomeBase(SetOf(l), TagOf(l)), FetchedLine(a, l));
    MissStays(s, i, s', a, if s.core.rf.fsm.RfDone? then MissFinish else MissFill);
  }

  /** The core after the edge that installs the line of a miss. */
  function AfterFinish(c: CoreState, i: CpuIn): CoreState {
    var m := c.mshr;
    var s, k, line := AddrToSet(m.addr), Cell(AddrToSet(m.addr), m.way), FillLine(m, c.rf);
    var r := Consumed(c.regs, i).(fsm := Idle);
    CoreState(
      if m.op.Read? then r.(holdR := true, holdData := line[AddrToWordSel(m.addr)]) else r.(holdW := true),
      c.tags[k := TagEntry(true, m.op.Write?, AddrToTag(m.addr))], c.data[k := line],
      c.plru[s := PlruTouch(c.plru[s], m.way)], m.(valid := false), c.rf)
  }

  lemma FinishEdge(c: CoreState, i: CpuIn, mem: MemResp)
    requires c.regs.fsm.MissFinish? && c.rf.fsm.RfIdle?
    ensures CoreNext(c, i, mem) == AfterFinish(c, i)
  {}

  lemma FinishStep(s: Sys, i: CpuIn, s': Sys, a: Atomic)
    requires Refines(s, a) && SysNext(s, i, s') && s.core.regs.fsm.MissFinish?
    ensures EdgeCorrect(s, i, s', a)
  {
    FinishEdge(s.core, i, Respond(s.port));
    FinishInstalls(s, i, s', a);
  }

  lemma ServeOfMiss(a: Atomic, q: Request)
    requires !Lookup(a.dir, LineOf(q.addr)).hit
    ensures var l := LineOf(q.addr);
            var k, line := Cell(SetOf(l), Lookup(a.dir, l).way), FetchedLine(a, l);
            ServeRequest(a, q) == Atomic(
                 Access(a.dir, l), a.dirty[k := q.StoreReq?],
                 a.lines[k := if q.StoreReq? then MergeLine(line, AddrToWordSel(q.addr), q.data, q.strb) else line],
                 Install(a, l, Lookup(a.dir, l).way).store, a.hits, a.misses + 1)
  {
    var l := LineOf(q.addr);
    var k, b := Cell(SetOf(l), Lookup(a.dir, l).way), Install(a, l, Lookup(a.dir, l).way);
    assert b.lines[k] == FetchedLine(a, l);
    assert b.dirty[k := q.StoreReq?] == a.dirty[k := q.StoreReq?];
  }

  lemma ReplyOfMiss(a: Atomic, q: Request)
    requires !Lookup(a.dir, LineOf(q.addr)).hit && q.LoadReq?
    ensures Reply(a, q) == ReadResp(FetchedLine(a, LineOf(q.addr))[AddrToWordSel(q.addr)])
  {}

  lemma FinishArrays(c: CoreState, i: CpuIn, a: Atomic)
    requires ArraysMatch(c, a) && MissCaptured(c, a) && c.regs.fsm.MissFinish?
    requires c.rf.line == FetchedLine(a, LineOf(c.regs.addr))
    ensures ArraysMatch(AfterFinish(c, i), ServeRequest(a, Latched(c.regs)))
  {
    var q, m, l := Latched(c.regs), c.mshr, LineOf(c.regs.addr);
    LineFields(q.addr);
    ServeOfMiss(a, q);
    AccessKeepsUnique(a.dir, l);
    TagWriteIs(c.tags, Cell(SetOf(l), m.way), TagEntry(true, m.op.Write?, TagOf(l)));
  }

  /** Idle again, with the cache b that the installed line makes. */
  lemma FinishSettles(s: Sys, i: CpuIn, s': Sys, a: Atomic, b: Atomic)
    requires Refines(s, a) && s.core.regs.fsm.MissFinish? && s' == Sys(AfterFinish(s.core, i), s.port)
    requires ArraysMatch(s'.core, b) && b.store == s.port.store
    ensures Refines(s', b) && InFlight(s'.core) == []
  {}

  lemma FinishReplies(c: CoreState, i: CpuIn, a: Atomic)
    requires MissCaptured(c, a) && c.regs.fsm.MissFinish? && c.rf.line == FetchedLine(a, LineOf(c.regs.addr))
    ensures HoldsReply(c, i, AfterFinish(c, i), a)
  {
    if c.regs.op.Read? {
      ReplyOfMiss(a, Latched(c.regs));
    }
  }

  lemma FinishStores(s: Sys, a: Atomic)
    requires Refines(s, a) && s.core.regs.fsm.MissFinish?
    ensures ServeRequest(a, Latched(s.core.regs)).store == s.port.store
  {
    ServeOfMiss(a, Latched(s.core.regs));
  }

  lemma FinishInstalls(s: Sys, i: CpuIn, s': Sys, a: Atomic)
    requires Refines(s, a) && s.core.regs.fsm.MissFinish? && s' == Sys(AfterFinish(s.core, i), s.port)
    ensures EdgeCorrect(s, i, s', a)
  {
    FinishArrays(s.core, i, a);
    FinishStores(s, a);
    FinishSettles(s, i, s', a, ServeRequest(a, Latched(s.core.regs)));
    FinishReplies(s.core, i, a);
  }

  /** Once the cell under the cursor is clean the cursor may move on. */
  lemma AdvanceKeepsWalk(r: Regs, c': CoreState, k: nat)
    requires r.flushActive && !r.resolve && !r.flushDone && k == Cell(r.flushSet, r.flushWay)
    requires c'.regs == Advance(r)
    requires forall j :: 0 <= j <= k ==> !c'.tags[j].dirty
    ensures WalkInv(c')
  {
    if Advance(r).flushActive {
      assert Cell(c'.regs.flushSet, c'.regs.flushWay) == k + 1;
    } else {
      assert k == 255;
    }
  }

  /** What the array read ports show during a walk: the cell under the cursor. */
  lemma WalkProbe(c: CoreState)
    requires c.regs.flushActive
    ensures ReadArrays(c).row[c.regs.flushWay] == c.tags[Cell(c.regs.flushSet, c.regs.flushWay)]
    ensures ReadArrays(c).line == c.data[Cell(c.regs.flushSet, c.regs.flushWay)]
  {}

  lemma FlushScanSkips(s: Sys, i: CpuIn, s': Sys, a: Atomic)
    requires Refines(s, a) && SysNext(s, i, s') && s.core.regs.fsm.FlushScan?
    requires var e := s.core.tags[Cell(s.core.regs.flushSet, s.core.regs.flushWay)]; !(e.valid && e.dirty)
    ensures EdgeCorrect(s, i, s', a)
  {
    WalkProbe(s.core);
    var r := Consumed(s.core.regs, i);
    assert s'.core.regs == Advance(r);
    AdvanceKeepsWalk(r, s'.core, Cell(r.flushSet, r.flushWay));
  }

  lemma FlushScanStarts(s: Sys, i: CpuIn, s': Sys, a: Atomic)
    requires Refines(s, a) && SysNext(s, i, s') && s.core.regs.fsm.FlushScan?
    requires var e := s.core.tags[Cell(s.core.regs.flushSet, s.core.regs.flushWay)]; e.valid && e.dirty
    ensures EdgeCorrect(s, i, s', a)
  {
    var c, r := s.core, s.core.regs;
    WalkProbe(c);
    var rfIn := Comb(r, c.mshr, c.rf, ReadArrays(c)).rf;
    var k := Cell(r.flushSet, r.flushWay);
    assert rfIn == RfIn(false, true, HomeBase(r.flushSet, c.tags[k].tag), c.data[k]);
    BurstBegins(c.rf, s.port, rfIn, s'.port);
    assert s'.core.regs == Consumed(r, i).(fsm := FlushWb);
    assert s'.core.rf == RefillNext(c.rf, rfIn, None);
  }

  lemma FlushWbWaits(s: Sys, i: CpuIn, s': Sys, a: Atomic)
    requires Refines(s, a) && SysNext(s, i, s') && s.core.regs.fsm.FlushWb? && s.core.rf.fsm.RfReq?
    ensures EdgeCorrect(s, i, s', a)
  {
    var c, r := s.core, s.core.regs;
    var k := Cell(r.flushSet, r.flushWay);
    var rfIn := Comb(r, c.mshr, c.rf, ReadArrays(c)).rf;
    BurstContinues(c.rf, s.port, rfIn, s'.port, a.store, true, HomeBase(r.flushSet, c.tags[k].tag), c.data[k]);
    assert s'.core.regs == Consumed(r, i);
  }

  lemma FlushWbEdge(c: CoreState, i: CpuIn, mem: MemResp)
    requires c.regs.fsm.FlushWb? && c.regs.flushActive && c.rf.fsm.RfDone? && !c.mshr.valid
    ensures var k := Cell(c.regs.flushSet, c.regs.flushWay);
            CoreNext(c, i, mem) == c.(
              regs := Advance(Consumed(c.regs, i)), tags := c.tags[k := TagEntry(true, false, c.tags[k].tag)],
              rf := c.rf.(fsm := RfIdle))
  {
    WalkProbe(c);
  }

  lemma FlushWbEnds(s: Sys, i: CpuIn, s': Sys, a: Atomic)
    requires Refines(s, a) && SysNext(s, i, s') && s.core.regs.fsm.FlushWb? && s.core.rf.fsm.RfDone?
    ensures EdgeCorrect(s, i, s', a)
  {
    FlushWbEdge(s.core, i, Respond(s.port));
    FlushWbCleans(s, i, s', a);
  }

  lemma FlushWbCleans(s: Sys, i: CpuIn, s': Sys, a: Atomic)
    requires Refines(s, a) && s.core.regs.fsm.FlushWb? && s.core.rf.fsm.RfDone?
    requires PortNext(s.port, BusRequest(s.core.rf), s'.port)
    requires var c := s.core;
             var k := Cell(c.regs.flushSet, c.regs.flushWay);
             s'.core == c.(
               regs := Advance(Consumed(c.regs, i)), tags := c.tags[k := TagEntry(true, false, c.tags[k].tag)],
               rf := c.rf.(fsm := RfIdle))
    ensures EdgeCorrect(s, i, s', a)
  {
    var c, r := s.core, s.core.regs;
    var k := Cell(r.flushSet, r.flushWay);
    var e := c.tags[k];
    var base := HomeBase(r.flushSet, e.tag);
    BurstEnds(c.rf, s.port, RfIn(false, false, 0, ZERO_LINE), s'.port, a.store, true, base, c.data[k]);
    TagWriteIs(c.tags, k, TagEntry(true, false, e.tag));
    assert ResidentsOf(c.tags)[k := Some(e.tag)] == ResidentsOf(c.tags);
    AdvanceKeepsWalk(Consumed(r, i), s'.core, k);
  }

  /** Every clock edge of core and memory is one step, or none, of the transaction-level
      cache, whatever the CPU drives and however long the memory takes. */
  lemma EdgeRefines(s: Sys, i: CpuIn, s': Sys, a: Atomic)
    requires Refines(s, a) && SysNext(s, i, s')
    ensures EdgeCorrect(s, i, s', a)
  {
    match s.core.regs.fsm {
      case Idle =>
        if !s.core.regs.resolve {
          IdleWaits(s, i, s', a);
        } else if LookupHit(s.core.regs, ReadArrays(s.core).row) {
          IdleHits(s, i, s', a);
        } else {
          IdleMisses(s, i, s', a);
        }
      case MissWb => MissWbStep(s, i, s', a);
      case MissFill => MissFillStep(s, i, s', a);
      case MissFinish => FinishStep(s, i, s', a);
      case FlushScan =>
        var e := s.core.tags[Cell(s.core.regs.flushSet, s.core.regs.flushWay)];
        if e.valid && e.dirty {
          FlushScanStarts(s, i, s', a);
        } else {
          FlushScanSkips(s, i, s', a);
        }
      case FlushWb =>
        if s.core.rf.fsm.RfReq? {
          FlushWbWaits(s, i, s', a);
        } else {
          FlushWbEnds(s, i, s', a);
        }
    }
  }
}
