/** Whole runs of the clocked core from reset, over any memory that meets the port
    contract: any interleaving of loads, stores, clean-all walks, response back-pressure
    and memory delays. */
module Transparency {
  import opened DcachePkg
  import opened Directory
  import opened AtomicCache
  import opened AtomicTheorems
  import opened Refill
  import opened Core
  import opened CoreRefinement

  /** The clock edge that ends cycle n. */
  ghost predicate Edge(ss: seq<Sys>, ins: seq<CpuIn>, n: nat)
    requires n < |ins| < |ss|
  {
    SysNext(ss[n], ins[n], ss[n + 1])
  }

  ghost predicate IsRun(ss: seq<Sys>, ins: seq<CpuIn>) {
    && |ss| == |ins| + 1 && SysIsReset(ss[0])
    && forall n: nat :: n < |ins| ==> Edge(ss, ins, n)
  }

  // ------------------------------------------------------ what a run has done so far

  function Accepted(ss: seq<Sys>, ins: seq<CpuIn>, n: nat): seq<Request>
    requires n <= |ins| < |ss|
  {
    if n == 0 then []
    else Accepted(ss, ins, n - 1) + TakenAt(ss[n - 1].core, ins[n - 1])
  }

  function Delivered(ss: seq<Sys>, ins: seq<CpuIn>, n: nat): seq<Response>
    requires n <= |ins| < |ss|
  {
    if n == 0 then [] else Delivered(ss, ins, n - 1) + Delivers(ss[n - 1].core, ins[n - 1])
  }

  function Events(ss: seq<Sys>, n: nat): seq<Event>
    requires n < |ss|
  {
    if n == 0 then []
    else
      var e := EventAt(ss[n - 1].core);
      Events(ss, n - 1) + if e.Some? then [e.value] else []
  }

  /** A response waiting to be consumed. */
  function Held(c: CoreState): seq<Response> {
    (if c.regs.holdR then [ReadResp(c.regs.holdData)] else []) + (if c.regs.holdW then [WriteResp] else [])
  }

  /** The requests that have taken effect. */
  function Effective(ss: seq<Sys>, n: nat): seq<Request>
    requires n < |ss|
  {
    Served(Events(ss, n))
  }

  function InitialCache(s: Sys): Atomic {
    Atomic(DirOf(s.core), DirtyOf(s.core.tags), s.core.data, s.port.store, 0, 0)
  }

  /** The transaction-level cache that the run has reached. */
  function CacheAt(ss: seq<Sys>, n: nat): Atomic
    requires n < |ss|
  {
    RunEvents(InitialCache(ss[0]), Events(ss, n))
  }

  lemma ResetRefines(s: Sys)
    requires SysIsReset(s)
    ensures IsReset(InitialCache(s)) && Refines(s, InitialCache(s))
  {
    assert DirOf(s.core).res == Empty().res;
    assert DirOf(s.core).plru == Empty().plru;
  }

  // -------------------------------------------------------------- the simulation

  lemma AppendEvent(a: Atomic, es: seq<Event>, e: Event)
    ensures RunEvents(a, es + [e]) == Apply(RunEvents(a, es), e)
    ensures Served(es + [e]) == Served(es) + if e.Serve? then [e.q] else []
    ensures Replies(a, es + [e]) == Replies(a, es) + if e.Serve? then [Reply(RunEvents(a, es), e.q)] else []
  {
    assert (es + [e])[..|es|] == es;
  }

  /** What the responses of one edge add up to. */
  lemma RepliesOfEdge(c: CoreState, i: CpuIn, c': CoreState, a: Atomic)
    requires HoldsReply(c, i, c', a) && !(c.regs.holdR && c.regs.holdW)
    ensures Held(c) + RepliedAt(c, a) == Delivers(c, i) + Held(c')
  {
    match EventAt(c) {
      case Some(Serve(q)) =>
        assert Held(c) == [] && Delivers(c, i) == [];
        assert Held(c') == [Reply(a, q)];
      case _ =>
    }
  }

  /** In cycle n the run is a run of the transaction-level cache: accepted requests have
      taken effect except for at most the latched one, and the replies of that cache have
      been delivered except for at most the held one. */
  ghost predicate Simulates(ss: seq<Sys>, ins: seq<CpuIn>, n: nat)
    requires n <= |ins| < |ss|
  {
    && Refines(ss[n], CacheAt(ss, n))
    && Accepted(ss, ins, n) == Effective(ss, n) + InFlight(ss[n].core)
    && Replies(InitialCache(ss[0]), Events(ss, n)) == Delivered(ss, ins, n) + Held(ss[n].core)
  }

  lemma {:induction false} RunRefines(ss: seq<Sys>, ins: seq<CpuIn>, n: nat)
    requires IsRun(ss, ins) && n <= |ins|
    ensures Simulates(ss, ins, n)
  {
    if n == 0 {
      RunBegins(ss, ins, n);
    } else {
      RunRefines(ss, ins, n - 1);
      RunRefinesOneMore(ss, ins, n - 1, n);
    }
  }

  lemma RunBegins(ss: seq<Sys>, ins: seq<CpuIn>, n: nat)
    requires |ins| < |ss| && SysIsReset(ss[0]) && n == 0
    ensures Simulates(ss, ins, n)
  {
    ResetRefines(ss[0]);
    assert CacheAt(ss, n) == InitialCache(ss[0]);
  }

  lemma RunRefinesOneMore(ss: seq<Sys>, ins: seq<CpuIn>, n: nat, n': nat)
    requires IsRun(ss, ins) && n' == n + 1 <= |ins| && Simulates(ss, ins, n)
    ensures Simulates(ss, ins, n')
  {
    var s, i, s', a := ss[n], ins[n], ss[n + 1], CacheAt(ss, n);
    assert Edge(ss, ins, n);
    EdgeRefines(s, i, s', a);
    RepliesOfEdge(s.core, i, s'.core, a);
    EventsOneMore(ss, n, n');
    Regroup(Effective(ss, n), InFlight(s.core), TakenAt(s.core, i), ServedAt(s.core), InFlight(s'.core));
    Regroup(Delivered(ss, ins, n), Held(s.core), RepliedAt(s.core, a), Delivers(s.core, i), Held(s'.core));
    RequestsOneMore(ss, ins, n, n');
  }

  lemma EventsOneMore(ss: seq<Sys>, n: nat, n': nat)
    requires n' == n + 1 < |ss|
    ensures CacheAt(ss, n') == AfterEdge(CacheAt(ss, n), ss[n].core)
    ensures Effective(ss, n') == Effective(ss, n) + ServedAt(ss[n].core)
    ensures Replies(InitialCache(ss[0]), Events(ss, n')) ==
            Replies(InitialCache(ss[0]), Events(ss, n)) + RepliedAt(ss[n].core, CacheAt(ss, n))
  {
    match EventAt(ss[n].core) {
      case Some(e) => AppendEvent(InitialCache(ss[0]), Events(ss, n), e);
      case None => assert Events(ss, n) + [] == Events(ss, n);
    }
  }

  lemma RequestsOneMore(ss: seq<Sys>, ins: seq<CpuIn>, n: nat, n': nat)
    requires n' == n + 1 <= |ins| < |ss|
    ensures Accepted(ss, ins, n') == Accepted(ss, ins, n) + TakenAt(ss[n].core, ins[n])
    ensures Delivered(ss, ins, n') == Delivered(ss, ins, n) + Delivers(ss[n].core, ins[n])
  {}

  lemma Regroup<T>(a: seq<T>, b: seq<T>, c: seq<T>, d: seq<T>, e: seq<T>)
    requires b + c == d + e
    ensures (a + b) + c == (a + d) + e
  {
    assert (a + b) + c == a + (b + c);
    assert (a + d) + e == a + (d + e);
  }

  // ------------------------------------------------------------------ transparency

  ghost predicate RequestsWithin(qs: seq<Request>, ls: set<LineAddr>) {
    forall i :: 0 <= i < |qs| ==> LineOf(qs[i].addr) in ls
  }

  lemma {:induction false} ServedWithin(es: seq<Event>, ls: set<LineAddr>)
    requires RequestsWithin(Served(es), ls)
    ensures ServesWithin(es, ls)
  {
    if es != [] {
      var n := |es| - 1;
      assert forall i :: 0 <= i < |Served(es[..n])| ==> Served(es)[i] == Served(es[..n])[i];
      ServedWithin(es[..n], ls);
      if es[n].Serve? {
        assert Served(es)[|Served(es)| - 1] == es[n].q;
      }
      forall i | 0 <= i < |es| && es[i].Serve? ensures LineOf(es[i].q.addr) in ls {
        if i < n {
          assert es[..n][i] == es[i];
        }
      }
    }
  }

  /** What the CPU would see at every memory word in this cycle. */
  function SysView(s: Sys): MemWords { View(DirOf(s.core), s.core.data, s.port.store.words) }

  lemma HalfWrittenVictim(s: Sys, a: Atomic, ls: set<LineAddr>)
    requires Refines(s, a) && Coherent(a, ls) && s.core.regs.fsm.MissWb?
    ensures SysView(s) == ViewOf(a)
  {
    var c, l := s.core, LineOf(s.core.regs.addr);
    if !c.rf.fsm.RfIdle? {
      PartialWriteBackIsInvisible(a.dir, a.lines, a.store.words, ls, SetOf(l), c.mshr.way, BeatsDone(c.rf, s.port));
    }
  }

  lemma HalfFilledLine(s: Sys, a: Atomic, ls: set<LineAddr>)
    requires Refines(s, a) && Coherent(a, ls) && (s.core.regs.fsm.MissFill? || s.core.regs.fsm.MissFinish?)
    ensures SysView(s) == ViewOf(a)
  {
    var c, l := s.core, LineOf(s.core.regs.addr);
    assert s.port.store.words == Evicted(a, l).words;
    if a.dirty[Cell(SetOf(l), c.mshr.way)] {
      PartialWriteBackIsInvisible(a.dir, a.lines, a.store.words, ls, SetOf(l), c.mshr.way, 8);
    }
  }

  lemma HalfCleanedLine(s: Sys, a: Atomic, ls: set<LineAddr>)
    requires Refines(s, a) && Coherent(a, ls) && s.core.regs.fsm.FlushWb?
    ensures SysView(s) == ViewOf(a)
  {
    var c, r := s.core, s.core.regs;
    PartialWriteBackIsInvisible(a.dir, a.lines, a.store.words, ls, r.flushSet, r.flushWay, BeatsDone(c.rf, s.port));
  }

  /** Half-written victims, half-filled lines and half-cleaned arrays do not show. */
  lemma IntermediateStatesAreInvisible(s: Sys, a: Atomic, ls: set<LineAddr>)
    requires Refines(s, a) && Coherent(a, ls)
    ensures SysView(s) == ViewOf(a)
  {
    match s.core.regs.fsm {
      case Idle =>
      case FlushScan =>
      case FlushWb => HalfCleanedLine(s, a, ls);
      case MissWb => HalfWrittenVictim(s, a, ls);
      case _ => HalfFilledLine(s, a, ls);
    }
  }

  /** A run whose first n cycles accept only addresses of the alias-free lines ls. */
  ghost predicate AliasFreeRun(ss: seq<Sys>, ins: seq<CpuIn>, n: nat, ls: set<LineAddr>) {
    IsRun(ss, ins) && n <= |ins| && AliasFree(ls) && RequestsWithin(Accepted(ss, ins, n), ls)
  }

  /** The whole state of affairs in any cycle of a run over alias-free lines. */
  lemma RunIsCoherent(ss: seq<Sys>, ins: seq<CpuIn>, n: nat, ls: set<LineAddr>)
    requires AliasFreeRun(ss, ins, n, ls)
    ensures Coherent(CacheAt(ss, n), ls) && SysView(ss[n]) == FlatRun(ss[0].port.store.words, Effective(ss, n))
    ensures Delivered(ss, ins, n) + Held(ss[n].core) == FlatReplies(ss[0].port.store.words, Effective(ss, n))
    ensures Simulates(ss, ins, n)
  {
    RunRefines(ss, ins, n);
    ResetRefines(ss[0]);
    assert forall i :: 0 <= i < |Effective(ss, n)| ==> Accepted(ss, ins, n)[i] == Effective(ss, n)[i];
    ServedWithin(Events(ss, n), ls);
    RunIsFlat(InitialCache(ss[0]), Events(ss, n), ls);
    IntermediateStatesAreInvisible(ss[n], CacheAt(ss, n), ls);
  }

  /** Transparency: in every run whose accepted addresses do not share backing words, the
      responses delivered so far are, in order, those of a flat memory executing the
      accepted requests in acceptance order, and at most one response is outstanding. */
  lemma ResponsesAreThoseOfAFlatMemory(ss: seq<Sys>, ins: seq<CpuIn>, n: nat, ls: set<LineAddr>)
    requires AliasFreeRun(ss, ins, n, ls)
    ensures var expected := FlatReplies(ss[0].port.store.words, Accepted(ss, ins, n));
            Delivered(ss, ins, n) <= expected && |expected| <= |Delivered(ss, ins, n)| + 1
  {
    RunIsCoherent(ss, ins, n, ls);
    OneOutstanding(ss[n], CacheAt(ss, n));
    DeliveredIsPrefix(ss[0].port.store.words, Effective(ss, n), InFlight(ss[n].core), Delivered(ss, ins, n),
        Held(ss[n].core));
  }

  lemma OneOutstanding(s: Sys, a: Atomic)
    requires Refines(s, a)
    ensures |Held(s.core)| + |InFlight(s.core)| <= 1
  {}

  lemma DeliveredIsPrefix(m: MemWords, qs: seq<Request>, inFlight: seq<Request>, d: seq<Response>, held: seq<Response>)
    requires d + held == FlatReplies(m, qs) && |held| + |inFlight| <= 1
    ensures d <= FlatReplies(m, qs + inFlight) && |FlatReplies(m, qs + inFlight)| <= |d| + 1
  {
    if inFlight == [] {
      assert qs + inFlight == qs;
    } else {
      FlatOneMore(m, qs, inFlight[0]);
      assert inFlight == [inFlight[0]] && d + held == d;
    }
  }

  /** The instance the memory map is built for: all addresses in one 512 KiB window. */
  lemma OneWindowIsTransparent(ss: seq<Sys>, ins: seq<CpuIn>, n: nat, window: nat)
    requires IsRun(ss, ins) && n <= |ins|
    requires forall i :: 0 <= i < |Accepted(ss, ins, n)| ==> Accepted(ss, ins, n)[i].addr / 0x8_0000 == window
    ensures var expected := FlatReplies(ss[0].port.store.words, Accepted(ss, ins, n));
            Delivered(ss, ins, n) <= expected && |expected| <= |Delivered(ss, ins, n)| + 1
  {
    var qs := Accepted(ss, ins, n);
    var ls := set i | 0 <= i < |qs| :: LineOf(qs[i].addr);
    forall l | l in ls ensures l / MEM_LINES == window {
      var i :| 0 <= i < |qs| && l == LineOf(qs[i].addr);
      WindowOfLine(qs[i].addr);
    }
    OneWindowIsAliasFree(ls, window);
    ResponsesAreThoseOfAFlatMemory(ss, ins, n, ls);
  }

  /** Per-edge coherence: the view changes only at the edge where an accepted store takes
      effect, and there by exactly its strobed bytes; write-back beats, fill beats, victim
      replacement and clean-all steps leave it alone. */
  lemma ViewChangesOnlyByStores(ss: seq<Sys>, ins: seq<CpuIn>, n: nat, ls: set<LineAddr>)
    requires n < |ins| && AliasFreeRun(ss, ins, n + 1, ls)
    ensures SysView(ss[n + 1]) ==
              match EventAt(ss[n].core) case Some(Serve(q)) => FlatStep(SysView(ss[n]), q) case _ => SysView(ss[n])
  {
    ShorterRunIsAliasFree(ss, ins, n, ls);
    RunHasFlatView(ss, ins, n, ls);
    RunHasFlatView(ss, ins, n + 1, ls);
    EffectiveOneMore(ss, n);
    match EventAt(ss[n].core) {
      case Some(Serve(q)) => FlatOneMore(ss[0].port.store.words, Effective(ss, n), q);
      case _ =>
    }
  }

  lemma ShorterRunIsAliasFree(ss: seq<Sys>, ins: seq<CpuIn>, n: nat, ls: set<LineAddr>)
    requires n < |ins| && AliasFreeRun(ss, ins, n + 1, ls)
    ensures AliasFreeRun(ss, ins, n, ls)
  {
    assert forall i :: 0 <= i < |Accepted(ss, ins, n)| ==> Accepted(ss, ins, n + 1)[i] == Accepted(ss, ins, n)[i];
  }

  lemma RunHasFlatView(ss: seq<Sys>, ins: seq<CpuIn>, n: nat, ls: set<LineAddr>)
    requires AliasFreeRun(ss, ins, n, ls)
    ensures SysView(ss[n]) == FlatRun(ss[0].port.store.words, Effective(ss, n))
  {
    RunIsCoherent(ss, ins, n, ls);
  }

  lemma EffectiveOneMore(ss: seq<Sys>, n: nat)
    requires n + 1 < |ss|
    ensures Effective(ss, n + 1) ==
              match EventAt(ss[n].core) case Some(Serve(q)) => Effective(ss, n) + [q] case _ => Effective(ss, n)
  {
    EventsOneMore(ss, n, n + 1);
    assert Effective(ss, n) + [] == Effective(ss, n);
  }

  // ---------------------------------------------------------------- clean-all walk

  /** During a walk nothing is accepted and every cell before the cursor is clean. */
  lemma WalkCleansInOrder(ss: seq<Sys>, ins: seq<CpuIn>, n: nat)
    requires IsRun(ss, ins) && n < |ins| && ss[n].core.regs.flushActive
    ensures Accepts(ss[n].core, ins[n]).None?
    ensures var r := ss[n].core.regs;
            forall s: SetIdx, w: Way :: s < r.flushSet || (s == r.flushSet && w < r.flushWay) ==>
                !ss[n].core.tags[Cell(s, w)].dirty
  {
    RunRefines(ss, ins, n);
  }

  /** When flush_done pulses, in any run, no line is dirty and nothing is in flight. */
  lemma FlushDoneMeansClean(ss: seq<Sys>, ins: seq<CpuIn>, n: nat)
    requires IsRun(ss, ins) && n <= |ins| && ss[n].core.regs.flushDone
    ensures forall k :: 0 <= k < NUM_CELLS ==> !ss[n].core.tags[k].dirty
    ensures InFlight(ss[n].core) == [] && Accepted(ss, ins, n) == Effective(ss, n)
  {
    RunRefines(ss, ins, n);
  }

  /** When flush_done pulses, memory holds at every word what the CPU would see there and
      what the flat memory holds after all accepted requests. */
  lemma FlushDoneMeansMemoryIsCurrent(ss: seq<Sys>, ins: seq<CpuIn>, n: nat, ls: set<LineAddr>)
    requires AliasFreeRun(ss, ins, n, ls)
    requires ss[n].core.regs.flushDone
    ensures ss[n].port.store.words == SysView(ss[n]) == FlatRun(ss[0].port.store.words, Accepted(ss, ins, n))
  {
    RunIsCoherent(ss, ins, n, ls);
    FlushDoneMeansClean(ss, ins, n);
    CleanCacheMatchesMemory(CacheAt(ss, n), ls);
  }

  // ---------------------------------------------------- timing and cleans are invisible

  /** Hits, misses, resident lines and replacement state are a function of the accepted
      line addresses: no data, strobe, operation, latency, back-pressure or clean-all walk
      has any influence. */
  lemma OutcomesDependOnLinesOnly(ss: seq<Sys>, ins: seq<CpuIn>, n: nat)
    requires IsRun(ss, ins) && n <= |ins| && InFlight(ss[n].core) == []
    ensures OutcomesOf(ss[n].core, LinesOf(Accepted(ss, ins, n)))
  {
    RunRefines(ss, ins, n);
    ResetRefines(ss[0]);
    DirectoryDependsOnLinesOnly(InitialCache(ss[0]), Events(ss, n));
    assert Accepted(ss, ins, n) == Effective(ss, n);
    OutcomesFollow(ss[n].core, CacheAt(ss, n), Accepted(ss, ins, n));
  }

  /** What the lookup of the latched request finds: hit or miss, and the way that serves it. */
  function LookupOutcome(c: CoreState): Outcome {
    var p := ReadArrays(c);
    if LookupHit(c.regs, p.row) then Outcome(true, HitWay(c.regs, p.row))
    else Outcome(false, AllocateWay(p.row, p.victim))
  }

  /** Every single lookup of a run: its hit and its way are those of the directory that the
      line addresses accepted so far lead to, whatever else happened in the run. */
  lemma EveryLookupDependsOnLinesOnly(ss: seq<Sys>, ins: seq<CpuIn>, n: nat)
    requires IsRun(ss, ins) && n <= |ins| && ss[n].core.regs.fsm.Idle? && ss[n].core.regs.resolve
    ensures var ls := LinesOf(Accepted(ss, ins, n));
            ls != [] && LookupOutcome(ss[n].core) == Outcomes(Empty(), ls)[|ls| - 1]
  {
    RunRefines(ss, ins, n);
    ResetRefines(ss[0]);
    DirectoryDependsOnLinesOnly(InitialCache(ss[0]), Events(ss, n));
    LookupIsLast(ss[n], CacheAt(ss, n), Effective(ss, n), Accepted(ss, ins, n));
  }

  lemma LookupIsLast(s: Sys, a: Atomic, qs: seq<Request>, accepted: seq<Request>)
    requires Refines(s, a) && s.core.regs.fsm.Idle? && s.core.regs.resolve
    requires accepted == qs + InFlight(s.core) && TracksDirectory(Empty(), 0, a, 0, qs)
    ensures var ls := LinesOf(accepted);
            ls != [] && LookupOutcome(s.core) == Outcomes(Empty(), ls)[|ls| - 1]
  {
    LookupIs(s, a);
    LastOutcome(a, qs, Latched(s.core.regs), accepted);
  }

  lemma LastOutcome(a: Atomic, qs: seq<Request>, q: Request, accepted: seq<Request>)
    requires a.dir == Directory.Run(Empty(), LinesOf(qs)) && accepted == qs + [q]
    ensures var ls := LinesOf(accepted);
            ls != [] && Lookup(a.dir, LineOf(q.addr)) == Outcomes(Empty(), ls)[|ls| - 1]
  {
    var before, l := LinesOf(qs), LineOf(q.addr);
    assert LinesOf(accepted) == before + [l];
    LastOutcomeIs(Empty(), before, l);
  }

  lemma LastOutcomeIs(d: Dir, before: seq<LineAddr>, l: LineAddr)
    ensures Outcomes(d, before + [l])[|before|] == Lookup(Directory.Run(d, before), l)
  {
    RunOneMore(d, before, l);
  }

  lemma LookupIs(s: Sys, a: Atomic)
    requires Refines(s, a) && s.core.regs.fsm.Idle?
    ensures LookupOutcome(s.core) == Lookup(a.dir, LineOf(s.core.regs.addr))
  {
    var l := LineOf(s.core.regs.addr);
    LineFields(s.core.regs.addr);
    ProbeIsLookup(s.core, a, SetOf(l), TagOf(l));
  }

  /** The directory and the counters that accessing these lines from reset leads to. */
  ghost predicate OutcomesOf(c: CoreState, ls: seq<LineAddr>) {
    var hits := CountHits(Outcomes(Empty(), ls));
    && DirOf(c) == Directory.Run(Empty(), ls)
    && c.regs.hits == hits % 0x1_0000_0000 && hits <= |ls| && c.regs.misses == (|ls| - hits) % 0x1_0000_0000
  }

  lemma OutcomesFollow(c: CoreState, a: Atomic, qs: seq<Request>)
    requires ArraysMatch(c, a) && !Missing(c.regs.fsm) && TracksDirectory(Empty(), 0, a, 0, qs)
    ensures OutcomesOf(c, LinesOf(qs))
  {
    var hits := CountHits(Outcomes(Empty(), LinesOf(qs)));
    assert a.hits == hits && a.misses == |LinesOf(qs)| - hits;
    WrappedIs(a.hits);
    WrappedIs(a.misses);
  }

  lemma WrappedIs(n: nat)
    ensures Wrapped(n) == n % 0x1_0000_0000
  {}

  /** Two runs from the same memory that have accepted the same requests, however timed
      and with clean-all walks anywhere, have answered alike and are in the same state up
      to dirty bits and memory. */
  lemma TimingAndCleansAreInvisible(
      ss: seq<Sys>, ins: seq<CpuIn>, n: nat, ts: seq<Sys>, jns: seq<CpuIn>, k: nat, ls: set<LineAddr>)
    requires AliasFreeRun(ss, ins, n, ls) && AliasFreeRun(ts, jns, k, ls)
    requires ss[0].port.store.words == ts[0].port.store.words
    requires Accepted(ss, ins, n) == Accepted(ts, jns, k) && InFlight(ss[n].core) == [] == InFlight(ts[k].core)
    ensures Delivered(ss, ins, n) + Held(ss[n].core) == Delivered(ts, jns, k) + Held(ts[k].core)
    ensures SameState(ss[n], ts[k])
  {
    QuiescentRun(ss, ins, n, ls);
    QuiescentRun(ts, jns, k, ls);
    SameRequestsSameState(ss[n], InitialCache(ss[0]), Events(ss, n), ts[k], InitialCache(ts[0]), Events(ts, k), ls);
  }

  lemma SameRequestsSameState(s: Sys, a: Atomic, es: seq<Event>, t: Sys, b: Atomic, fs: seq<Event>, ls: set<LineAddr>)
    requires IsReset(a) && IsReset(b) && a.store.words == b.store.words && AliasFree(ls)
    requires ServesWithin(es, ls) && ServesWithin(fs, ls) && Served(es) == Served(fs)
    requires ArraysMatch(s.core, RunEvents(a, es)) && !Missing(s.core.regs.fsm)
    requires SysView(s) == ViewOf(RunEvents(a, es))
    requires ArraysMatch(t.core, RunEvents(b, fs)) && !Missing(t.core.regs.fsm)
    requires SysView(t) == ViewOf(RunEvents(b, fs))
    ensures Replies(a, es) == Replies(b, fs) && SameState(s, t)
  {
    CleansAreInvisible(a, es, b, fs, ls);
    SameCoreUpToDirt(s, RunEvents(a, es), t, RunEvents(b, fs));
  }

  /** Equal to the CPU: same resident lines and contents, replacement state, counters and
      view of memory. Dirty bits and backing memory may differ. */
  ghost predicate SameState(s: Sys, t: Sys) {
    var c, d := s.core, t.core;
    && DirOf(c) == DirOf(d) && c.regs.hits == d.regs.hits && c.regs.misses == d.regs.misses
    && (forall j :: 0 <= j < NUM_CELLS && c.tags[j].valid ==> c.data[j] == d.data[j])
    && SysView(s) == SysView(t)
  }

  /** A run with nothing in flight, as a run of the transaction-level cache. */
  lemma QuiescentRun(ss: seq<Sys>, ins: seq<CpuIn>, n: nat, ls: set<LineAddr>)
    requires AliasFreeRun(ss, ins, n, ls) && InFlight(ss[n].core) == []
    ensures IsReset(InitialCache(ss[0])) && ServesWithin(Events(ss, n), ls) && Effective(ss, n) == Accepted(ss, ins, n)
    ensures Replies(InitialCache(ss[0]), Events(ss, n)) == Delivered(ss, ins, n) + Held(ss[n].core)
    ensures ArraysMatch(ss[n].core, CacheAt(ss, n)) && !Missing(ss[n].core.regs.fsm)
    ensures SysView(ss[n]) == ViewOf(CacheAt(ss, n))
  {
    RunRefines(ss, ins, n);
    RunIsCoherent(ss, ins, n, ls);
    ResetRefines(ss[0]);
    assert Effective(ss, n) == Accepted(ss, ins, n);
    ServedWithin(Events(ss, n), ls);
    IntermediateStatesAreInvisible(ss[n], CacheAt(ss, n), ls);
  }

  lemma SameCoreUpToDirt(s: Sys, a: Atomic, t: Sys, b: Atomic)
    requires ArraysMatch(s.core, a) && ArraysMatch(t.core, b) && SameUpToDirt(a, b)
    requires !Missing(s.core.regs.fsm) && !Missing(t.core.regs.fsm)
    ensures DirOf(s.core) == DirOf(t.core) && s.core.regs.hits == t.core.regs.hits
    ensures s.core.regs.misses == t.core.regs.misses
    ensures forall j :: 0 <= j < NUM_CELLS && s.core.tags[j].valid ==> s.core.data[j] == t.core.data[j]
  {
    forall j | 0 <= j < NUM_CELLS && s.core.tags[j].valid ensures s.core.data[j] == t.core.data[j] {
      var r: SetIdx, w: Way := j / 4, j % 4;
      assert j == Cell(r, w);
      assert a.dir.res[Cell(r, w)].Some?;
    }
  }

  /** In every run, a lookup of one of the three most recently served distinct lines of
      its set hits. */
  lemma RecentlyUsedLinesHit(ss: seq<Sys>, ins: seq<CpuIn>, n: nat)
    requires IsRun(ss, ins) && n <= |ins| && ss[n].core.regs.fsm.Idle? && ss[n].core.regs.resolve
    requires var l, h := LineOf(ss[n].core.regs.addr), LinesOf(Effective(ss, n));
             First(h, SetOf(l)) == Some(l) || Second(h, SetOf(l)) == Some(l) || Third(h, SetOf(l)) == Some(l)
    ensures LookupHit(ss[n].core.regs, ReadArrays(ss[n].core).row)
  {
    RunRefines(ss, ins, n);
    ResetRefines(ss[0]);
    var c, a := ss[n].core, CacheAt(ss, n);
    var l := LineOf(c.regs.addr);
    DirectoryDependsOnLinesOnly(InitialCache(ss[0]), Events(ss, n));
    RecentLinesHit(Empty(), LinesOf(Effective(ss, n)), l);
    LineFields(c.regs.addr);
    ProbeIsLookup(c, a, SetOf(l), TagOf(l));
  }

  /** Tag compare: in every cycle the hit mask of every set and tag is zero or one-hot, and
      its decode names the way that matches. */
  lemma HitMaskIsOneHot(ss: seq<Sys>, ins: seq<CpuIn>, n: nat, s: SetIdx, t: Tag)
    requires IsRun(ss, ins) && n <= |ins|
    ensures var mask := HitMask(Row(ss[n].core.tags, s), t);
            && (forall v: Way, w: Way :: mask[v] && mask[w] ==> v == w)
            && (AnyWay(mask) ==> mask[OnehotToWay(mask)])
  {
    RunRefines(ss, ins, n);
    MaskIsOneHot(ss[n].core, CacheAt(ss, n), s, t);
  }

  lemma MaskIsOneHot(c: CoreState, a: Atomic, s: SetIdx, t: Tag)
    requires ArraysMatch(c, a)
    ensures var mask := HitMask(Row(c.tags, s), t);
            && (forall v: Way, w: Way :: mask[v] && mask[w] ==> v == w)
            && (AnyWay(mask) ==> mask[OnehotToWay(mask)])
  {
    var row := Row(c.tags, s);
    forall v: Way ensures HitMask(row, t)[v] <==> a.dir.res[Cell(s, v)] == Some(t) {
      assert row[v] == c.tags[Cell(s, v)];
    }
    assert forall v: Way, w: Way :: HitMask(row, t)[v] && HitMask(row, t)[w] ==> v == w;
  }

  /** A valid entry is never lost, and a resident line gives way only to a miss in a full set. */
  lemma LinesAreReplacedOnlyInFullSets(ss: seq<Sys>, ins: seq<CpuIn>, n: nat, s: SetIdx, w: Way)
    requires IsRun(ss, ins) && n < |ins| && ss[n].core.tags[Cell(s, w)].valid
    ensures var t, t' := ss[n].core.tags, ss[n + 1].core.tags;
            && t'[Cell(s, w)].valid
            && (t'[Cell(s, w)].tag != t[Cell(s, w)].tag ==> forall v: Way :: t[Cell(s, v)].valid)
  {
    RunRefines(ss, ins, n);
    assert Edge(ss, ins, n);
    EdgeRefines(ss[n], ins[n], ss[n + 1], CacheAt(ss, n));
    ReplacedOnlyInFullSets(ss[n].core, ss[n + 1].core, CacheAt(ss, n), s, w);
  }

  lemma ReplacedOnlyInFullSets(c: CoreState, c': CoreState, a: Atomic, s: SetIdx, w: Way)
    requires ArraysMatch(c, a) && ArraysMatch(c', AfterEdge(a, c)) && c.tags[Cell(s, w)].valid
    ensures c'.tags[Cell(s, w)].valid
    ensures c'.tags[Cell(s, w)].tag != c.tags[Cell(s, w)].tag ==> forall v: Way :: c.tags[Cell(s, v)].valid
  {
    var k := Cell(s, w);
    assert a.dir.res[k] == Some(c.tags[k].tag);
    assert c'.tags[k].valid ==> AfterEdge(a, c).dir.res[k] == Some(c'.tags[k].tag);
    match EventAt(c) {
      case Some(Serve(q)) =>
        var l := LineOf(q.addr);
        AccessKeepsUnique(a.dir, l);
        AccessElsewhereInPlace(a.dir, l, s, w);
        assert forall v: Way :: a.dir.res[Cell(s, v)].Some? <==> c.tags[Cell(s, v)].valid;
      case _ =>
    }
  }

  lemma AccessElsewhereInPlace(d: Dir, l: LineAddr, s: SetIdx, w: Way)
    ensures Access(d, l).res[Cell(s, w)] != d.res[Cell(s, w)] ==>
              !Lookup(d, l).hit && s == SetOf(l) && w == Lookup(d, l).way
  {
    CellsDiffer(s, w, SetOf(l), Lookup(d, l).way);
    if Lookup(d, l).hit {
      HitMovesNothing(d, l);
    }
  }

  // ------------------------------------------------------------------ conservation

  /** Every accepted request is answered once, by a response of its own kind, in order,
      and at most one is in flight or held. */
  lemma RequestsAreConserved(ss: seq<Sys>, ins: seq<CpuIn>, n: nat)
    requires IsRun(ss, ins) && n <= |ins|
    ensures var q, d, c := Accepted(ss, ins, n), Delivered(ss, ins, n), ss[n].core;
            && |q| == |d| + |Held(c)| + |InFlight(c)| <= |d| + 1
            && forall k :: 0 <= k < |d| ==> (d[k].ReadResp? <==> q[k].LoadReq?)
  {
    RunRefines(ss, ins, n);
    var a0, es, c := InitialCache(ss[0]), Events(ss, n), ss[n].core;
    RepliesMatchRequests(a0, es);
    OneOutstanding(ss[n], CacheAt(ss, n));
    PrefixesMatch(Accepted(ss, ins, n), Served(es), InFlight(c), Delivered(ss, ins, n), Replies(a0, es), Held(c));
  }

  lemma ServedCount(ss: seq<Sys>, n: nat)
    requires n < |ss| && SysIsReset(ss[0])
    ensures CacheAt(ss, n).hits + CacheAt(ss, n).misses == |Effective(ss, n)|
  {
    ResetRefines(ss[0]);
    DirectoryDependsOnLinesOnly(InitialCache(ss[0]), Events(ss, n));
  }

  /** The statistics outputs are the counts, modulo 2^32, of the hits and misses found so
      far, and those account for every accepted request that has been looked up. */
  ghost predicate CountersAre(r: Regs, hits: nat, misses: nat, accepted: nat) {
    && r.hits == hits % 0x1_0000_0000 && r.misses == misses % 0x1_0000_0000
    && hits + misses + (if r.resolve then 1 else 0) == accepted
  }

  /** Misses of the transaction-level cache, and the one that is being handled. */
  function Found(c: CoreState, a: Atomic): nat { if Missing(c.regs.fsm) then a.misses + 1 else a.misses }

  lemma CountersCountRequests(ss: seq<Sys>, ins: seq<CpuIn>, n: nat)
    requires IsRun(ss, ins) && n <= |ins|
    ensures CountersAre(ss[n].core.regs, CacheAt(ss, n).hits, Found(ss[n].core, CacheAt(ss, n)), |Accepted(ss, ins, n)|)
  {
    RunRefines(ss, ins, n);
    ServedCount(ss, n);
    CountersOf(ss[n].core, CacheAt(ss, n), |Effective(ss, n)|, |Accepted(ss, ins, n)|);
  }

  lemma CountersOf(c: CoreState, a: Atomic, effective: nat, accepted: nat)
    requires ArraysMatch(c, a) && (c.regs.resolve ==> !Missing(c.regs.fsm))
    requires a.hits + a.misses == effective && accepted == effective + |InFlight(c)|
    ensures CountersAre(c.regs, a.hits, Found(c, a), accepted)
  {}

  lemma PrefixesMatch(q: seq<Request>, qs: seq<Request>, inFlight: seq<Request>, d: seq<Response>, rs: seq<Response>,
      held: seq<Response>)
    requires q == qs + inFlight && rs == d + held && |rs| == |qs|
    requires forall k :: 0 <= k < |qs| ==> (rs[k].ReadResp? <==> qs[k].LoadReq?)
    ensures |q| == |d| + |held| + |inFlight| && forall k :: 0 <= k < |d| ==> (d[k].ReadResp? <==> q[k].LoadReq?)
  {
    forall k | 0 <= k < |d| ensures d[k].ReadResp? <==> q[k].LoadReq? {
      assert d[k] == rs[k] && q[k] == qs[k];
    }
  }

  lemma {:induction false} RepliesMatchRequests(a: Atomic, es: seq<Event>)
    ensures |Replies(a, es)| == |Served(es)|
    ensures forall k :: 0 <= k < |Served(es)| ==> (Replies(a, es)[k].ReadResp? <==> Served(es)[k].LoadReq?)
  {
    if es != [] {
      RepliesMatchRequests(a, es[..|es| - 1]);
    }
  }

  /** The response contract: a held response and its data stay until consumed, and the two
      kinds are never held together. */
  lemma HeldResponsesAreStable(ss: seq<Sys>, ins: seq<CpuIn>, n: nat)
    requires IsRun(ss, ins) && n < |ins|
    ensures var c, c', i := ss[n].core, ss[n + 1].core, ins[n];
            && (c.regs.holdR && !i.rrespReady ==> c'.regs.holdR && c'.regs.holdData == c.regs.holdData)
            && (c.regs.holdW && !i.wrespReady ==> c'.regs.holdW)
            && !(c.regs.holdR && c.regs.holdW)
  {
    RunRefines(ss, ins, n);
    assert Edge(ss, ins, n);
    EdgeRefines(ss[n], ins[n], ss[n + 1], CacheAt(ss, n));
  }

  /** The bus, whenever the core is idle: eight write beats for every line write-back,
      eight read beats for every miss, and every line that ever became dirty has either
      been written back or is still dirty. */
  lemma BusTrafficIsConserved(ss: seq<Sys>, ins: seq<CpuIn>, n: nat)
    requires IsRun(ss, ins) && n <= |ins| && ss[n].core.regs.fsm.Idle?
    ensures var log, a := ss[n].port.store.log, CacheAt(ss, n);
            var dirtied := CountDirtied(InitialCache(ss[0]), Events(ss, n));
            && NumWrites(log) + 8 * CountDirty(DirtyOf(ss[n].core.tags)) == 8 * dirtied
            && |log| - NumWrites(log) == 8 * a.misses
            && dirtied <= CountStores(Effective(ss, n))
  {
    RunRefines(ss, ins, n);
    ResetRefines(ss[0]);
    WriteBacksAreConserved(InitialCache(ss[0]), Events(ss, n));
  }

  // -------------------------------------------------------------- the tight bound

  /** A run that stores to line k and then loads line l of the same memory words, with no
      clean-all walk in between, reads stale data: the flat memory would have answered with
      the stored word. */
  lemma AliasingRunIsStale(ss: seq<Sys>, ins: seq<CpuIn>, n: nat, k: LineAddr, l: LineAddr)
    requires IsRun(ss, ins) && n <= |ins| && k != l && MemLineOf(k) == MemLineOf(l)
    requires Events(ss, n) == AliasProgram(k, l) && ss[0].port.store.words[WordIdx(l * LINE_BYTES)] == ZERO_WORD
    ensures Delivered(ss, ins, n) + Held(ss[n].core) == [WriteResp, ReadResp(ZERO_WORD)]
    ensures FlatReplies(ss[0].port.store.words, Effective(ss, n)) == [WriteResp, ReadResp(ONES)]
  {
    RunRefines(ss, ins, n);
    ResetRefines(ss[0]);
    AliasRepliesAreStale(InitialCache(ss[0]), k, l);
  }
}
