/** How long things take: exact cycle counts over a memory that acknowledges in one cycle,
    and progress over any memory that keeps serving. */
module Timing {
  import opened DcachePkg
  import opened AtomicCache
  import opened MemPort
  import opened Core
  import opened CoreRefinement
  import opened Transparency
  import opened CpuPort

  /** Lock step of the core FSM, the miss register and the burst engine. */
  ghost predicate LockStep(c: CoreState) {
    var r, rf := c.regs, c.rf.fsm;
    && (r.flushActive <==> r.fsm.FlushScan? || r.fsm.FlushWb?)
    && (c.mshr.valid <==> Missing(r.fsm))
    && (Missing(r.fsm) ==> c.mshr.op == r.op && c.mshr.addr == r.addr)
    && (r.fsm.Idle? || r.fsm.MissFinish? || r.fsm.FlushScan? ==> rf.RfIdle?)
    && (r.fsm.FlushWb? ==> !rf.RfIdle?)
    && (r.resolve ==> r.fsm.Idle?)
    && (r.resolve || Missing(r.fsm) ==> !r.holdR && !r.holdW)
  }

  /** And of the port: it is busy only while the engine asks. */
  ghost predicate InStep(s: Sys) { LockStep(s.core) && (!s.core.rf.fsm.RfReq? ==> s.port.phase.Free?) }

  lemma RefinesInStep(s: Sys, a: Atomic)
    requires Refines(s, a)
    ensures InStep(s)
  {}

  lemma RunInStep(ss: seq<Sys>, ins: seq<CpuIn>, n: nat)
    requires IsRun(ss, ins) && n <= |ins|
    ensures InStep(ss[n])
  {
    RunRefines(ss, ins, n);
    RefinesInStep(ss[n], CacheAt(ss, n));
  }

  // -------------------------------------------------------- one-cycle memory

  /** A port that performs a request at the edge that takes it and acknowledges next cycle. */
  ghost predicate Prompt(s: Sys, s': Sys) {
    && (s.port.phase.Free? || s.port.phase.Acking?)
    && (s.port.phase.Free? && s.core.rf.fsm.RfReq? ==> s'.port.phase.Acking?)
  }

  ghost predicate PromptEdge(ss: seq<Sys>, n: nat)
    requires n + 1 < |ss|
  {
    Prompt(ss[n], ss[n + 1])
  }

  ghost predicate PromptRun(ss: seq<Sys>, ins: seq<CpuIn>) {
    IsRun(ss, ins) && forall n: nat :: n < |ins| ==> PromptEdge(ss, n)
  }

  /** Edges until the engine reaches its done state. */
  function BurstLeft(s: Sys): nat {
    match s.core.rf.fsm
    case RfIdle => 17
    case RfReq => 2 * (7 - s.core.rf.beat) + if s.port.phase.Acking? then 1 else 2
    case RfDone => 0
  }

  function CellsLeft(r: Regs): nat { NUM_CELLS - Cell(r.flushSet, r.flushWay) }

  /** Dirty lines from cell k on. */
  function DirtyFrom(t: TagArray, k: nat): (d: nat)
    requires k <= NUM_CELLS
    ensures d <= NUM_CELLS - k
    decreases NUM_CELLS - k
  {
    if k == NUM_CELLS then 0 else (if t[k].valid && t[k].dirty then 1 else 0) + DirtyFrom(t, k + 1)
  }

  predicate VictimIsDirty(c: CoreState) {
    var p := ReadArrays(c);
    var e := p.row[AllocateWay(p.row, p.victim)];
    e.valid && e.dirty
  }

  /** Edges until the response of the request in flight is visible. */
  function ResponseLeft(s: Sys): nat {
    match s.core.regs.fsm
    case Idle => if LookupHit(s.core.regs, ReadArrays(s.core).row) then 1 else if VictimIsDirty(s.core) then 38 else 20
    case MissWb => BurstLeft(s) + 20
    case MissFill => BurstLeft(s) + 2
    case _ => 1
  }

  /** Edges until a running walk is over. */
  function WalkLeft(s: Sys): nat {
    var r := s.core.regs;
    var k := Cell(r.flushSet, r.flushWay);
    if r.fsm.FlushWb? then BurstLeft(s) + CellsLeft(r) + 17 * DirtyFrom(s.core.tags, k + 1)
    else CellsLeft(r) + 17 * DirtyFrom(s.core.tags, k)
  }

  /** A burst over the one-cycle memory counts down. */
  lemma BurstCountsDown(s: Sys, i: CpuIn, s': Sys)
    requires InStep(s) && SysNext(s, i, s') && Prompt(s, s')
    requires s.core.rf.fsm.RfReq? ||
             (s.core.rf.fsm.RfIdle? && (s'.core.rf.fsm.RfReq? && s'.core.rf.beat == 0))
    ensures BurstLeft(s') == BurstLeft(s) - 1
  {}

  /** In flight, with its response due in that many edges. */
  ghost predicate Due(s: Sys, left: nat) {
    InFlight(s.core) != [] && Held(s.core) == [] && ResponseLeft(s) == left
  }

  lemma ResponseCountsDown(s: Sys, i: CpuIn, s': Sys, left: nat)
    requires InStep(s) && SysNext(s, i, s') && Prompt(s, s') && Due(s, left)
    ensures left == 1 ==> Held(s'.core) != []
    ensures left != 1 ==> left > 1 && Due(s', left - 1)
  {
    if Missing(s.core.regs.fsm) && !s.core.regs.fsm.MissFinish? {
      MissBurstEdge(s.core, i, Respond(s.port));
      if !s.core.rf.fsm.RfDone? {
        BurstCountsDown(s, i, s');
      }
    }
  }

  /** From one element to the next: over when one is left, otherwise one fewer is due. */
  ghost predicate Ticks<T>(ts: seq<T>, j: nat, due: (T, nat) -> bool, over: T -> bool, left: nat)
    requires j + 1 < |ts|
  {
    due(ts[j], left) ==> if left == 1 then over(ts[j + 1]) else left > 1 && due(ts[j + 1], left - 1)
  }

  /** A count that goes down by one at every element of a sequence. */
  lemma {:induction false} CountsDown<T>(ts: seq<T>, due: (T, nat) -> bool, over: T -> bool, n: nat, left: nat, k: nat)
    requires n + k < |ts| && due(ts[n], left) && k <= left
    requires forall j: nat, d: nat :: j + 1 < |ts| ==> Ticks(ts, j, due, over, d)
    ensures k < left ==> due(ts[n + k], left - k)
    ensures k == left > 0 ==> over(ts[n + k])
  {
    if k > 0 {
      CountsDown(ts, due, over, n, left, k - 1);
      assert Ticks(ts, n + k - 1, due, over, left - k + 1);
    }
  }

  predicate Answered(s: Sys) { Held(s.core) != [] }

  /** Cycle n + k of a request whose response is due after cycle n. */
  lemma ResponseIsDue(ss: seq<Sys>, ins: seq<CpuIn>, n: nat, left: nat, k: nat)
    requires PromptRun(ss, ins) && n + k <= |ins| && Due(ss[n], left) && k <= left
    ensures k < left ==> Due(ss[n + k], left - k)
    ensures k == left > 0 ==> Answered(ss[n + k])
  {
    forall j: nat, d: nat | j + 1 < |ss| ensures Ticks(ss, j, Due, Answered, d) {
      if Due(ss[j], d) {
        DueEdge(ss, ins, j, d);
      }
    }
    CountsDown(ss, Due, Answered, n, left, k);
  }

  lemma DueEdge(ss: seq<Sys>, ins: seq<CpuIn>, j: nat, left: nat)
    requires PromptRun(ss, ins) && j < |ins| && Due(ss[j], left)
    ensures if left == 1 then Answered(ss[j + 1]) else left > 1 && Due(ss[j + 1], left - 1)
  {
    RunInStep(ss, ins, j);
    assert Edge(ss, ins, j) && PromptEdge(ss, j);
    ResponseCountsDown(ss[j], ins[j], ss[j + 1], left);
  }

  /** Cycles from acceptance to response, judged when the latched request is looked up. */
  function LatencyOf(c: CoreState): nat {
    if LookupHit(c.regs, ReadArrays(c).row) then 2 else if VictimIsDirty(c) then 39 else 21
  }

  /** Latency: over a one-cycle memory the response to a request accepted in cycle n is
      first visible in cycle n + 2 on a hit, n + 21 on a miss with a clean or empty victim,
      and n + 39 on a miss that writes its victim back. */
  lemma ResponseLatency(ss: seq<Sys>, ins: seq<CpuIn>, n: nat, latency: nat)
    requires PromptRun(ss, ins) && n + latency <= |ins| && n < |ins| && Accepts(ss[n].core, ins[n]).Some?
    requires latency == LatencyOf(ss[n + 1].core)
    ensures Held(ss[n + latency].core) != [] && forall k :: n < k < n + latency ==> Held(ss[k].core) == []
  {
    LatencyBegins(ss, ins, n, latency);
    AnsweredOnTime(ss, ins, n + 1, latency - 1);
  }

  lemma AnsweredOnTime(ss: seq<Sys>, ins: seq<CpuIn>, n: nat, left: nat)
    requires PromptRun(ss, ins) && n + left <= |ins| && left > 0 && Due(ss[n], left)
    ensures Answered(ss[n + left]) && forall k :: n <= k < n + left ==> Held(ss[k].core) == []
  {
    forall k | n <= k < n + left ensures Held(ss[k].core) == [] {
      ResponseIsDue(ss, ins, n, left, k - n);
    }
    ResponseIsDue(ss, ins, n, left, left);
  }

  lemma LatencyBegins(ss: seq<Sys>, ins: seq<CpuIn>, n: nat, latency: nat)
    requires PromptRun(ss, ins) && n < |ins| && Accepts(ss[n].core, ins[n]).Some?
    requires latency == LatencyOf(ss[n + 1].core)
    ensures Due(ss[n + 1], latency - 1)
  {
    assert Edge(ss, ins, n);
    AcceptLatches(ss[n].core, ins[n], Respond(ss[n].port));
  }

  lemma AcceptLatches(c: CoreState, i: CpuIn, mem: MemResp)
    requires Accepts(c, i).Some?
    ensures var c' := CoreNext(c, i, mem);
            c'.regs.fsm.Idle? && c'.regs.resolve && Latched(c'.regs) == Accepts(c, i).value && Held(c') == []
  {}

  // ------------------------------------------------------------- cost of a walk

  lemma {:induction false} DirtyElsewhere(t: TagArray, k: nat, e: TagEntry, from: nat)
    requires k < from <= NUM_CELLS
    ensures DirtyFrom(t[k := e], from) == DirtyFrom(t, from)
    decreases NUM_CELLS - from
  {
    if from < NUM_CELLS {
      DirtyElsewhere(t, k, e, from + 1);
    }
  }

  lemma AdvanceMovesOn(r: Regs)
    requires r.flushActive
    ensures CellsLeft(r) == 1 ==> !Advance(r).flushActive && Advance(r).flushDone && Advance(r).fsm.Idle?
    ensures CellsLeft(r) > 1 ==>
              && Advance(r).flushActive && Advance(r).fsm.FlushScan?
              && Cell(Advance(r).flushSet, Advance(r).flushWay) == Cell(r.flushSet, r.flushWay) + 1
              && CellsLeft(Advance(r)) == CellsLeft(r) - 1
  {}

  lemma ScanEdge(c: CoreState, i: CpuIn, mem: MemResp)
    requires c.regs.fsm.FlushScan? && c.regs.flushActive && c.rf.fsm.RfIdle?
    ensures var e, c' := c.tags[Cell(c.regs.flushSet, c.regs.flushWay)], CoreNext(c, i, mem);
            && c'.tags == c.tags
            && c'.regs == (if e.valid && e.dirty then Consumed(c.regs, i).(fsm := FlushWb)
                           else Advance(Consumed(c.regs, i)))
            && (e.valid && e.dirty ==> c'.rf.fsm.RfReq? && c'.rf.beat == 0 && c'.rf.isWrite)
  {
    WalkProbe(c);
  }

  lemma WalkWbEdge(c: CoreState, i: CpuIn, mem: MemResp)
    requires c.regs.fsm.FlushWb? && !c.rf.fsm.RfDone?
    ensures CoreNext(c, i, mem).tags == c.tags && CoreNext(c, i, mem).regs == Consumed(c.regs, i)
  {}

  /** A walk is running and ends in that many edges. */
  ghost predicate WalkDue(s: Sys, left: nat) { s.core.regs.flushActive && WalkLeft(s) == left }

  predicate WalkOver(s: Sys) { !s.core.regs.flushActive && s.core.regs.flushDone }

  lemma DirtyStep(t: TagArray, k: nat)
    requires k < NUM_CELLS
    ensures DirtyFrom(t, k) == (if t[k].valid && t[k].dirty then 1 else 0) + DirtyFrom(t, k + 1)
    ensures k + 1 == NUM_CELLS ==> DirtyFrom(t, k + 1) == 0
  {}

  lemma ScanStops(s: Sys, i: CpuIn, s': Sys, left: nat, k: nat)
    requires InStep(s) && SysNext(s, i, s') && WalkDue(s, left) && s.core.regs.fsm.FlushScan?
    requires k == Cell(s.core.regs.flushSet, s.core.regs.flushWay) && s.core.tags[k].valid && s.core.tags[k].dirty
    ensures left > 1 && WalkDue(s', left - 1)
  {
    ScanEdge(s.core, i, Respond(s.port));
    DirtyStep(s.core.tags, k);
  }

  lemma ScanSkips(s: Sys, i: CpuIn, s': Sys, left: nat, k: nat)
    requires InStep(s) && SysNext(s, i, s') && WalkDue(s, left) && s.core.regs.fsm.FlushScan?
    requires k == Cell(s.core.regs.flushSet, s.core.regs.flushWay) && !(s.core.tags[k].valid && s.core.tags[k].dirty)
    ensures if left == 1 then WalkOver(s') else left > 1 && WalkDue(s', left - 1)
  {
    AdvanceMovesOn(Consumed(s.core.regs, i));
    ScanEdge(s.core, i, Respond(s.port));
    DirtyStep(s.core.tags, k);
  }

  lemma ScanCountsDown(s: Sys, i: CpuIn, s': Sys, left: nat)
    requires InStep(s) && SysNext(s, i, s') && WalkDue(s, left) && s.core.regs.fsm.FlushScan?
    ensures if left == 1 then WalkOver(s') else left > 1 && WalkDue(s', left - 1)
  {
    var k := Cell(s.core.regs.flushSet, s.core.regs.flushWay);
    if s.core.tags[k].valid && s.core.tags[k].dirty {
      ScanStops(s, i, s', left, k);
    } else {
      ScanSkips(s, i, s', left, k);
    }
  }

  lemma WalkBeatCountsDown(s: Sys, i: CpuIn, s': Sys, left: nat)
    requires InStep(s) && SysNext(s, i, s') && Prompt(s, s') && WalkDue(s, left)
    requires s.core.regs.fsm.FlushWb? && s.core.rf.fsm.RfReq?
    ensures left > 1 && WalkDue(s', left - 1)
  {
    WalkWbEdge(s.core, i, Respond(s.port));
    BurstCountsDown(s, i, s');
  }

  lemma WalkCleanCountsDown(s: Sys, i: CpuIn, s': Sys, left: nat)
    requires InStep(s) && SysNext(s, i, s') && WalkDue(s, left) && s.core.regs.fsm.FlushWb? && s.core.rf.fsm.RfDone?
    ensures if left == 1 then WalkOver(s') else left > 1 && WalkDue(s', left - 1)
  {
    var c, r := s.core, s.core.regs;
    AdvanceMovesOn(Consumed(r, i));
    FlushWbEdge(c, i, Respond(s.port));
    var k := Cell(r.flushSet, r.flushWay);
    DirtyElsewhere(c.tags, k, TagEntry(true, false, c.tags[k].tag), k + 1);
  }

  lemma WalkEdge(ss: seq<Sys>, ins: seq<CpuIn>, j: nat, left: nat)
    requires PromptRun(ss, ins) && j < |ins| && WalkDue(ss[j], left)
    ensures if left == 1 then WalkOver(ss[j + 1]) else left > 1 && WalkDue(ss[j + 1], left - 1)
  {
    RunInStep(ss, ins, j);
    assert Edge(ss, ins, j) && PromptEdge(ss, j);
    if ss[j].core.regs.fsm.FlushScan? {
      ScanCountsDown(ss[j], ins[j], ss[j + 1], left);
    } else if ss[j].core.rf.fsm.RfReq? {
      WalkBeatCountsDown(ss[j], ins[j], ss[j + 1], left);
    } else {
      WalkCleanCountsDown(ss[j], ins[j], ss[j + 1], left);
    }
  }

  lemma WalkIsDue(ss: seq<Sys>, ins: seq<CpuIn>, n: nat, left: nat, k: nat)
    requires PromptRun(ss, ins) && n + k <= |ins| && WalkDue(ss[n], left) && k <= left
    ensures k < left ==> WalkDue(ss[n + k], left - k)
    ensures k == left > 0 ==> WalkOver(ss[n + k])
  {
    forall j: nat, d: nat | j + 1 < |ss| ensures Ticks(ss, j, WalkDue, WalkOver, d) {
      if WalkDue(ss[j], d) {
        WalkEdge(ss, ins, j, d);
      }
    }
    CountsDown(ss, WalkDue, WalkOver, n, left, k);
  }

  /** Exact cost: over a one-cycle memory a walk that begins with d dirty lines spends
      exactly 256 + 17 d cycles in the flush states, with flush_done low, and then shows
      flush_done for one cycle. */
  lemma WalkCost(ss: seq<Sys>, ins: seq<CpuIn>, n: nat, cost: nat)
    requires PromptRun(ss, ins) && n + 1 + cost <= |ins|
    requires !ss[n].core.regs.flushActive && ss[n + 1].core.regs.flushActive
    requires cost == NUM_CELLS + 17 * DirtyFrom(ss[n].core.tags, 0)
    ensures forall k :: n < k <= n + cost ==> ss[k].core.regs.flushActive && !ss[k].core.regs.flushDone
    ensures WalkOver(ss[n + 1 + cost])
    ensures n + 1 + cost < |ins| ==> !ss[n + 2 + cost].core.regs.flushDone
  {
    WalkStarts(ss, ins, n, cost);
    forall k | n < k <= n + cost ensures ss[k].core.regs.flushActive && !ss[k].core.regs.flushDone {
      WalkIsDue(ss, ins, n + 1, cost, k - n - 1);
      FlushDoneIsAPulse(ss, ins, k - 1);
    }
    WalkIsDue(ss, ins, n + 1, cost, cost);
    if n + 1 + cost < |ins| {
      FlushDoneIsAPulse(ss, ins, n + 1 + cost);
    }
  }

  lemma WalkStarts(ss: seq<Sys>, ins: seq<CpuIn>, n: nat, cost: nat)
    requires PromptRun(ss, ins) && n < |ins| && !ss[n].core.regs.flushActive && ss[n + 1].core.regs.flushActive
    requires cost == NUM_CELLS + 17 * DirtyFrom(ss[n].core.tags, 0)
    ensures WalkDue(ss[n + 1], cost)
  {
    RunInStep(ss, ins, n);
    assert Edge(ss, ins, n);
    WalkBegins(ss[n].core, ins[n], Respond(ss[n].port));
  }

  /** A walk begins only in the idle state with nothing to look up. */
  lemma WalkBeginsIdle(c: CoreState, p: Probe, i: CpuIn)
    requires !c.regs.flushActive && RegsNext(c, p, i).flushActive && !c.regs.fsm.FlushScan? && !c.regs.fsm.FlushWb?
    ensures c.regs.fsm.Idle? && !c.regs.resolve
    ensures var r := RegsNext(c, p, i); r.fsm.FlushScan? && r.flushSet == 0 && r.flushWay == 0
  {}

  lemma IdleKeepsTags(c: CoreState, i: CpuIn, mem: MemResp)
    requires c.regs.fsm.Idle? && !c.regs.resolve
    ensures CoreNext(c, i, mem).tags == c.tags
  {}

  lemma WalkBegins(c: CoreState, i: CpuIn, mem: MemResp)
    requires !c.regs.flushActive && CoreNext(c, i, mem).regs.flushActive && !c.regs.fsm.FlushScan?
    requires !c.regs.fsm.FlushWb?
    ensures var c' := CoreNext(c, i, mem);
            c'.regs.fsm.FlushScan? && c'.regs.flushSet == 0 && c'.regs.flushWay == 0 && c'.tags == c.tags
  {
    WalkBeginsIdle(c, ReadArrays(c), i);
    IdleKeepsTags(c, i, mem);
  }

  // ------------------------------------------------------- a clean-all asked for

  predicate AtRest(c: CoreState) { c.regs.fsm.Idle? && !c.regs.resolve && !c.regs.flushActive }

  lemma ShownMeansRest(s: Sys)
    requires InStep(s) && Held(s.core) != [] && !s.core.regs.flushActive
    ensures AtRest(s.core)
  {}

  /** Edges that a walk takes at most, and edges until one that is asked for is over. */
  const LONGEST_WALK: nat := 4608
  const LONGEST_FLUSH: nat := 4647

  lemma WalkLeftIsBounded(s: Sys)
    requires InStep(s) && s.core.regs.flushActive
    ensures 0 < WalkLeft(s) <= LONGEST_WALK
  {
    var k := Cell(s.core.regs.flushSet, s.core.regs.flushWay);
    DirtyStep(s.core.tags, k);
  }

  lemma WalkEnds(ss: seq<Sys>, ins: seq<CpuIn>, n: nat)
    requires PromptRun(ss, ins) && n + LONGEST_WALK <= |ins| && ss[n].core.regs.flushActive
    ensures exists j :: n < j <= n + LONGEST_WALK && WalkOver(ss[j])
  {
    RunInStep(ss, ins, n);
    WalkLeftIsBounded(ss[n]);
    var left := WalkLeft(ss[n]);
    WalkIsDue(ss, ins, n, left, left);
    assert WalkOver(ss[n + left]);
  }

  lemma InFlightIsDue(s: Sys)
    requires InStep(s) && InFlight(s.core) != []
    ensures 0 < ResponseLeft(s) <= 38 && Due(s, ResponseLeft(s))
  {}

  lemma FlushStarts(s: Sys, i: CpuIn, s': Sys)
    requires AtRest(s.core) && i.flushReq && SysNext(s, i, s')
    ensures s'.core.regs.flushActive
  {}

  lemma FlushStartsAtRest(ss: seq<Sys>, ins: seq<CpuIn>, n: nat)
    requires PromptRun(ss, ins) && n < |ins| && ins[n].flushReq && AtRest(ss[n].core)
    ensures ss[n + 1].core.regs.flushActive
  {
    assert Edge(ss, ins, n);
    FlushStarts(ss[n], ins[n], ss[n + 1]);
  }

  /** A clean-all request held for 39 cycles has its walk running by then, whatever was in
      flight and whether or not a response is held. */
  lemma HeldFlushStarts(ss: seq<Sys>, ins: seq<CpuIn>, n: nat) returns (m: nat)
    requires PromptRun(ss, ins) && n + 39 <= |ins|
    requires forall j {:trigger ins[j]} :: n <= j < n + 39 ==> ins[j].flushReq
    ensures n <= m <= n + 39 && ss[m].core.regs.flushActive
  {
    m := n;
    RunInStep(ss, ins, n);
    if !ss[n].core.regs.flushActive && InFlight(ss[n].core) != [] {
      var left := ResponseLeft(ss[n]);
      InFlightIsDue(ss[n]);
      ResponseIsDue(ss, ins, n, left, left);
      m := n + left;
      RunInStep(ss, ins, m);
    }
    if !ss[m].core.regs.flushActive {
      if Answered(ss[m]) {
        ShownMeansRest(ss[m]);
      }
      FlushStartsAtRest(ss, ins, m);
      m := m + 1;
    }
  }

  /** Over a one-cycle memory a held clean-all request is served: flush_done pulses within
      39 cycles to answer what is in flight and 18 cycles for each of the 256 cells. */
  lemma HeldFlushIsServed(ss: seq<Sys>, ins: seq<CpuIn>, n: nat)
    requires PromptRun(ss, ins) && n + LONGEST_FLUSH <= |ins|
    requires forall j {:trigger ins[j]} :: n <= j < n + 39 ==> ins[j].flushReq
    ensures exists j :: n < j <= n + LONGEST_FLUSH && WalkOver(ss[j])
  {
    var m := HeldFlushStarts(ss, ins, n);
    WalkEnds(ss, ins, m);
    var j :| m < j <= m + LONGEST_WALK && WalkOver(ss[j]);
    assert n < j <= n + LONGEST_FLUSH;
  }

  // ------------------------------------------------------------ any live memory

  /** The engine waits for memory, and memory has made no progress. */
  ghost predicate Stalled(s: Sys, s': Sys) { s.core.rf.fsm.RfReq? && s'.port == s.port }

  function PhaseRank(p: Port): nat {
    match p.phase case Free => 4 case Busy(_, _, _) => 3 case Performed(_) => 2 case Acking(_) => 1
  }

  function BurstWork(s: Sys): nat {
    match s.core.rf.fsm
    case RfIdle => 34
    case RfReq => 1 + 4 * (7 - s.core.rf.beat) + PhaseRank(s.port)
    case RfDone => 1
  }

  predicate AtWork(c: CoreState) { InFlight(c) != [] || c.regs.flushActive }

  /** Edges of progress that the request or walk under way can still need. */
  function Work(s: Sys): nat {
    match s.core.regs.fsm
    case Idle => 71
    case MissWb => 36 + BurstWork(s)
    case MissFill => 1 + BurstWork(s)
    case MissFinish => 1
    case FlushScan => 40 * CellsLeft(s.core.regs)
    case FlushWb => 40 * (CellsLeft(s.core.regs) - 1) + BurstWork(s)
  }

  lemma BurstWorks(s: Sys, i: CpuIn, s': Sys)
    requires InStep(s) && SysNext(s, i, s')
    requires s.core.rf.fsm.RfReq? || (s.core.rf.fsm.RfIdle? && s'.core.rf.fsm.RfReq? && s'.core.rf.beat == 0)
    ensures if Stalled(s, s') && !s.port.phase.Acking? then BurstWork(s') == BurstWork(s)
            else BurstWork(s') < BurstWork(s)
    ensures s.port.phase.Acking? ==> s'.port != s.port
  {}

  /** An edge waits for memory, or lowers the work left, or completes. */
  ghost predicate Works(s: Sys, s': Sys) {
    && (Stalled(s, s') ==> AtWork(s'.core) && Work(s') == Work(s))
    && (!Stalled(s, s') && AtWork(s'.core) ==> Work(s') < Work(s))
    && (!AtWork(s'.core) ==> Held(s'.core) != [] || s'.core.regs.flushDone)
  }

  lemma MissEdgeWorks(s: Sys, i: CpuIn, s': Sys)
    requires InStep(s) && SysNext(s, i, s') && (s.core.regs.fsm.MissWb? || s.core.regs.fsm.MissFill?)
    ensures Works(s, s')
  {
    MissBurstEdge(s.core, i, Respond(s.port));
    if !s.core.rf.fsm.RfDone? {
      BurstWorks(s, i, s');
    }
  }

  lemma ScanEdgeWorks(s: Sys, i: CpuIn, s': Sys)
    requires InStep(s) && SysNext(s, i, s') && s.core.regs.fsm.FlushScan?
    ensures Works(s, s')
  {
    AdvanceMovesOn(Consumed(s.core.regs, i));
    ScanEdge(s.core, i, Respond(s.port));
  }

  lemma WalkBurstEdgeWorks(s: Sys, i: CpuIn, s': Sys)
    requires InStep(s) && SysNext(s, i, s') && s.core.regs.fsm.FlushWb?
    ensures Works(s, s')
  {
    if s.core.rf.fsm.RfReq? {
      WalkWbEdge(s.core, i, Respond(s.port));
      BurstWorks(s, i, s');
    } else {
      AdvanceMovesOn(Consumed(s.core.regs, i));
      FlushWbEdge(s.core, i, Respond(s.port));
    }
  }

  lemma EveryEdgeWorks(s: Sys, i: CpuIn, s': Sys)
    requires InStep(s) && SysNext(s, i, s') && AtWork(s.core)
    ensures Works(s, s')
  {
    match s.core.regs.fsm {
      case Idle =>
      case MissFinish =>
      case MissWb => MissEdgeWorks(s, i, s');
      case MissFill => MissEdgeWorks(s, i, s');
      case FlushScan => ScanEdgeWorks(s, i, s');
      case FlushWb => WalkBurstEdgeWorks(s, i, s');
    }
  }

  /** Edges, of the k after cycle n, at which the core waited and memory made no progress. */
  ghost function StallsIn(ss: seq<Sys>, n: nat, k: nat): nat
    requires n + k < |ss|
    decreases k
  {
    if k == 0 then 0 else (if Stalled(ss[n], ss[n + 1]) then 1 else 0) + StallsIn(ss, n + 1, k - 1)
  }

  lemma {:induction false} WorkIsSpent(ss: seq<Sys>, ins: seq<CpuIn>, n: nat, k: nat, work: nat)
    requires IsRun(ss, ins) && n + k <= |ins| && work == Work(ss[n])
    requires forall j :: n <= j <= n + k ==> AtWork(ss[j].core)
    ensures k <= work + StallsIn(ss, n, k)
    decreases k
  {
    if k > 0 {
      EdgeOfRunWorks(ss, ins, n, work, Work(ss[n + 1]));
      WorkIsSpent(ss, ins, n + 1, k - 1, Work(ss[n + 1]));
    }
  }

  /** Progress: a request or walk that is under way throughout k cycles has spent all but
      at most 40 * 256 of them waiting for memory; so if memory stalls only finitely often,
      every request is answered and every walk ends. */
  lemma OnlyMemoryDelays(ss: seq<Sys>, ins: seq<CpuIn>, n: nat, k: nat)
    requires IsRun(ss, ins) && n + k <= |ins|
    requires forall j :: n <= j <= n + k ==> AtWork(ss[j].core)
    ensures k <= 40 * NUM_CELLS + StallsIn(ss, n, k)
  {
    WorkIsSpent(ss, ins, n, k, Work(ss[n]));
    RunInStep(ss, ins, n);
    WorkIsBounded(ss[n], Work(ss[n]));
  }

  lemma EdgeOfRunWorks(ss: seq<Sys>, ins: seq<CpuIn>, j: nat, before: nat, after: nat)
    requires IsRun(ss, ins) && j < |ins| && AtWork(ss[j].core) && AtWork(ss[j + 1].core)
    requires before == Work(ss[j]) && after == Work(ss[j + 1])
    ensures if Stalled(ss[j], ss[j + 1]) then after == before else after < before
  {
    RunInStep(ss, ins, j);
    assert Edge(ss, ins, j);
    EveryEdgeWorks(ss[j], ins[j], ss[j + 1]);
  }

  lemma WorkIsBounded(s: Sys, work: nat)
    requires InStep(s) && AtWork(s.core) && work == Work(s)
    ensures work <= 40 * NUM_CELLS
  {}
}
