/** The acknowledge window that dcache_assertions.sv asks for, eight cycles after every cycle
    with mem_req, over the one-cycle memory: exactly when it is met, and runs that miss it. */
module AckWindow {
  import opened DcachePkg
  import opened Directory
  import opened AtomicCache
  import opened MemPort
  import opened Refill
  import opened Core
  import opened CoreRefinement
  import opened Transparency
  import opened Timing
  import opened Systems

  /** mem_ack in one of the w cycles after cycle n. */
  ghost predicate AckBy(ss: seq<Sys>, n: nat, w: nat)
    requires n + w < |ss|
  {
    exists j :: n < j <= n + w && ss[j].port.phase.Acking?
  }

  lemma AckOneSooner(ss: seq<Sys>, n: nat, w: nat)
    requires 0 < w && n + w < |ss|
    ensures AckBy(ss, n, w) <==> ss[n + 1].port.phase.Acking? || AckBy(ss, n + 1, w - 1)
  {}

  /** The cycle that acknowledges the last beat of a line; mem_req is still high in it. */
  predicate LastAck(s: Sys) { s.core.rf.fsm.RfReq? && s.core.rf.beat == 7 && s.port.phase.Acking? }

  // ------------------------------------------------- from a quiet bus to the next beat

  /** Where a core with a quiet engine is: idle, or about to scan cell k of a walk. */
  datatype Spot = AtIdle | AtScan(k: nat)

  /** All that decides when the bus is next used: tag entries and held responses. */
  datatype Desk = Desk(tags: TagArray, holdR: bool, holdW: bool, spot: Spot)

  function Taken(d: Desk, i: CpuIn): Desk {
    d.(holdR := d.holdR && !i.rrespReady, holdW := d.holdW && !i.wrespReady)
  }

  function NextSpot(k: nat): Spot { if k >= 255 then AtIdle else AtScan(k + 1) }

  predicate IsDirty(t: TagArray, k: nat) { k < NUM_CELLS && t[k].valid && t[k].dirty }

  function HitsOf(t: TagArray, a: Addr): WayMask { HitMask(Row(t, AddrToSet(a)), AddrToTag(a)) }

  /** After a hit: its response is held, and a store has made its line dirty. */
  function AfterHitDesk(d: Desk, q: Request): Desk {
    var k := Cell(AddrToSet(q.addr), OnehotToWay(HitsOf(d.tags, q.addr)));
    Desk(
      if q.StoreReq? then d.tags[k := TagEntry(true, true, AddrToTag(q.addr))] else d.tags,
      q.LoadReq?, q.StoreReq?, AtIdle)
  }

  predicate IdleTakes(d: Desk, i: CpuIn) { !i.flushReq && !d.holdR && !d.holdW && (i.rvalid || i.wvalid) }

  /** Does the bus acknowledge within w cycles? A dirty cell under the cursor does so in two
      cycles and a miss accepted now in four; a hit takes two cycles and leaves its response
      held; everything else takes one cycle. */
  predicate AckComes(d: Desk, ins: seq<CpuIn>, n: nat, w: nat)
    requires n + w <= |ins|
    decreases w
  {
    if w < 2 then false
    else match d.spot
      case AtScan(k) => IsDirty(d.tags, k) || AckComes(Taken(d, ins[n]).(spot := NextSpot(k)), ins, n + 1, w - 1)
      case AtIdle =>
        if !IdleTakes(d, ins[n]) then
          AckComes(Taken(d, ins[n]).(spot := if ins[n].flushReq then AtScan(0) else AtIdle), ins, n + 1, w - 1)
        else if !AnyWay(HitsOf(d.tags, Offered(ins[n]).addr)) then w >= 4
        else AckComes(AfterHitDesk(d, Offered(ins[n])), ins, n + 2, w - 2)
  }

  /** The core and the port stand at this desk. */
  ghost predicate StandsAt(s: Sys, d: Desk) {
    var c, r := s.core, s.core.regs;
    && c.tags == d.tags && r.holdR == d.holdR && r.holdW == d.holdW
    && c.rf.fsm.RfIdle? && s.port.phase.Free? && !r.resolve && !c.mshr.valid
    && match d.spot
       case AtIdle => r.fsm.Idle? && !r.flushActive
       case AtScan(k) => r.fsm.FlushScan? && r.flushActive && Cell(r.flushSet, r.flushWay) == k
  }

  lemma QuietPortStays(s: Sys, i: CpuIn, s': Sys)
    requires SysNext(s, i, s') && s.port.phase.Free? && !s.core.rf.fsm.RfReq?
    ensures s'.port == s.port
  {}

  lemma CleanCellEdge(s: Sys, i: CpuIn, s': Sys, d: Desk)
    requires SysNext(s, i, s') && StandsAt(s, d) && d.spot.AtScan? && !IsDirty(d.tags, d.spot.k)
    ensures StandsAt(s', Taken(d, i).(spot := NextSpot(d.spot.k)))
  {
    ScanEdge(s.core, i, Respond(s.port));
    AdvanceMovesOn(Consumed(s.core.regs, i));
    CleanCellCore(s.core, i, s'.core, d.spot.k);
    QuietPortStays(s, i, s');
  }

  lemma CleanCellCore(c: CoreState, i: CpuIn, c': CoreState, k: nat)
    requires c' == CoreNext(c, i, None) && c.regs.fsm.FlushScan? && c.rf.fsm.RfIdle? && !c.mshr.valid && !c.regs.resolve
    requires c.regs.flushActive && Cell(c.regs.flushSet, c.regs.flushWay) == k && !IsDirty(c.tags, k)
    ensures c'.rf.fsm.RfIdle? && !c'.mshr.valid && !c'.regs.resolve
    ensures c'.regs.holdR == (c.regs.holdR && !i.rrespReady) && c'.regs.holdW == (c.regs.holdW && !i.wrespReady)
  {
    WalkProbe(c);
  }

  lemma DirtyCellEdge(s: Sys, i: CpuIn, s': Sys, d: Desk)
    requires SysNext(s, i, s') && StandsAt(s, d) && d.spot.AtScan? && IsDirty(d.tags, d.spot.k)
    ensures s'.core.rf.fsm.RfReq? && s'.port.phase.Free?
  {
    ScanEdge(s.core, i, Respond(s.port));
    QuietPortStays(s, i, s');
  }

  lemma IdleEdge(s: Sys, i: CpuIn, s': Sys, d: Desk)
    requires SysNext(s, i, s') && StandsAt(s, d) && d.spot.AtIdle? && !IdleTakes(d, i)
    ensures StandsAt(s', Taken(d, i).(spot := if i.flushReq then AtScan(0) else AtIdle))
  {
    QuietPortStays(s, i, s');
  }

  /** The core as it looks up the request q, at desk d before. */
  ghost predicate LooksUp(s: Sys, d: Desk, q: Request) {
    var c, r := s.core, s.core.regs;
    && c.tags == d.tags && !r.holdR && !r.holdW
    && c.rf.fsm.RfIdle? && s.port.phase.Free? && !c.mshr.valid
    && r.fsm.Idle? && !r.flushActive && r.resolve && Latched(r) == q
  }

  lemma TakeEdge(s: Sys, i: CpuIn, s': Sys, d: Desk)
    requires SysNext(s, i, s') && StandsAt(s, d) && d.spot.AtIdle? && IdleTakes(d, i)
    ensures LooksUp(s', d, Offered(i))
  {
    QuietPortStays(s, i, s');
  }

  lemma LookUpMask(c: CoreState, q: Request)
    requires c.regs.fsm.Idle? && !c.regs.flushActive && c.regs.addr == q.addr
    ensures HitMask(ReadArrays(c).row, AddrToTag(c.regs.addr)) == HitsOf(c.tags, q.addr)
  {}

  lemma HitLookUpEdge(s: Sys, i: CpuIn, s': Sys, d: Desk, q: Request)
    requires SysNext(s, i, s') && LooksUp(s, d, q) && AnyWay(HitsOf(d.tags, q.addr))
    ensures StandsAt(s', AfterHitDesk(d, q))
  {
    LookUpMask(s.core, q);
    HitEdge(s.core, i, Respond(s.port));
    QuietPortStays(s, i, s');
  }

  /** A line is to be moved, and the engine starts in this cycle. */
  ghost predicate Starting(s: Sys) {
    && (s.core.regs.fsm.MissWb? || s.core.regs.fsm.MissFill?)
    && s.core.rf.fsm.RfIdle? && s.port.phase.Free?
  }

  lemma MissLookUpEdge(s: Sys, i: CpuIn, s': Sys, d: Desk, q: Request)
    requires SysNext(s, i, s') && LooksUp(s, d, q) && !AnyWay(HitsOf(d.tags, q.addr))
    ensures Starting(s')
  {
    LookUpMask(s.core, q);
    QuietPortStays(s, i, s');
  }

  lemma StartEdge(s: Sys, i: CpuIn, s': Sys)
    requires SysNext(s, i, s') && Starting(s)
    ensures s'.core.rf.fsm.RfReq? && s'.port.phase.Free?
  {
    MissBurstEdge(s.core, i, Respond(s.port));
    QuietPortStays(s, i, s');
  }

  // ---------------------------------------------------------------- the same in runs

  lemma RequestIsAckedNext(ss: seq<Sys>, ins: seq<CpuIn>, n: nat)
    requires PromptRun(ss, ins) && n < |ins| && ss[n].core.rf.fsm.RfReq? && ss[n].port.phase.Free?
    ensures ss[n + 1].port.phase.Acking?
  {
    assert PromptEdge(ss, n);
  }

  lemma StartIsAcked(ss: seq<Sys>, ins: seq<CpuIn>, n: nat)
    requires PromptRun(ss, ins) && n + 2 <= |ins| && Starting(ss[n])
    ensures ss[n + 1].port.phase.Free? && ss[n + 2].port.phase.Acking?
  {
    assert Edge(ss, ins, n);
    StartEdge(ss[n], ins[n], ss[n + 1]);
    RequestIsAckedNext(ss, ins, n + 1);
  }

  lemma DirtyCellIsAcked(ss: seq<Sys>, ins: seq<CpuIn>, n: nat, d: Desk)
    requires PromptRun(ss, ins) && n + 2 <= |ins| && StandsAt(ss[n], d) && d.spot.AtScan? && IsDirty(d.tags, d.spot.k)
    ensures ss[n + 2].port.phase.Acking?
  {
    assert Edge(ss, ins, n);
    DirtyCellEdge(ss[n], ins[n], ss[n + 1], d);
    RequestIsAckedNext(ss, ins, n + 1);
  }

  /** One cycle at a desk that does not take a request or meet a dirty cell. */
  lemma DeskMoves(ss: seq<Sys>, ins: seq<CpuIn>, n: nat, d: Desk) returns (d': Desk)
    requires IsRun(ss, ins) && n < |ins| && StandsAt(ss[n], d)
    requires if d.spot.AtScan? then !IsDirty(d.tags, d.spot.k) else !IdleTakes(d, ins[n])
    ensures d' == Taken(d, ins[n]).(spot := if d.spot.AtScan? then NextSpot(d.spot.k)
                                            else if ins[n].flushReq then AtScan(0) else AtIdle)
    ensures StandsAt(ss[n + 1], d') && ss[n + 1].port.phase.Free?
  {
    assert Edge(ss, ins, n);
    if d.spot.AtScan? {
      d' := Taken(d, ins[n]).(spot := NextSpot(d.spot.k));
      CleanCellEdge(ss[n], ins[n], ss[n + 1], d);
    } else {
      d' := Taken(d, ins[n]).(spot := if ins[n].flushReq then AtScan(0) else AtIdle);
      IdleEdge(ss[n], ins[n], ss[n + 1], d);
    }
  }

  /** Two cycles of a request taken at a desk: looked up, then held or missed. */
  lemma DeskTakes(ss: seq<Sys>, ins: seq<CpuIn>, n: nat, d: Desk)
    requires IsRun(ss, ins) && n + 2 <= |ins| && StandsAt(ss[n], d) && d.spot.AtIdle? && IdleTakes(d, ins[n])
    ensures ss[n + 1].port.phase.Free? && ss[n + 2].port.phase.Free?
    ensures var q := Offered(ins[n]);
            if AnyWay(HitsOf(d.tags, q.addr)) then StandsAt(ss[n + 2], AfterHitDesk(d, q)) else Starting(ss[n + 2])
  {
    var q := Offered(ins[n]);
    assert Edge(ss, ins, n) && Edge(ss, ins, n + 1);
    TakeEdge(ss[n], ins[n], ss[n + 1], d);
    if AnyWay(HitsOf(d.tags, q.addr)) {
      HitLookUpEdge(ss[n + 1], ins[n + 1], ss[n + 2], d, q);
    } else {
      MissLookUpEdge(ss[n + 1], ins[n + 1], ss[n + 2], d, q);
    }
  }

  lemma AckTwoSooner(ss: seq<Sys>, n: nat, w: nat)
    requires 2 <= w && n + w < |ss| && !ss[n + 1].port.phase.Acking? && !ss[n + 2].port.phase.Acking?
    ensures AckBy(ss, n, w) <==> AckBy(ss, n + 2, w - 2)
  {
    AckOneSooner(ss, n, w);
    AckOneSooner(ss, n + 1, w - 1);
  }

  lemma NoAckInOne(ss: seq<Sys>, ins: seq<CpuIn>, n: nat, d: Desk)
    requires IsRun(ss, ins) && n < |ins| && StandsAt(ss[n], d)
    ensures !ss[n + 1].port.phase.Acking?
  {
    assert Edge(ss, ins, n);
    QuietPortStays(ss[n], ins[n], ss[n + 1]);
  }

  lemma MissTakesFour(ss: seq<Sys>, ins: seq<CpuIn>, n: nat, d: Desk, w: nat)
    requires PromptRun(ss, ins) && 2 <= w && n + w <= |ins| && StandsAt(ss[n], d) && d.spot.AtIdle?
    requires IdleTakes(d, ins[n])
    requires !AnyWay(HitsOf(d.tags, Offered(ins[n]).addr))
    ensures AckBy(ss, n, w) <==> w >= 4
  {
    DeskTakes(ss, ins, n, d);
    AckTwoSooner(ss, n, w);
    if w >= 4 {
      StartIsAcked(ss, ins, n + 2);
    } else if w == 3 {
      assert Edge(ss, ins, n + 2);
      StartEdge(ss[n + 2], ins[n + 2], ss[n + 3]);
    }
  }

  /** From a quiet bus, tag entries, held responses and CPU inputs decide exactly whether an
      acknowledge comes within w cycles. */
  lemma {:induction false} QuietBusIsDecided(ss: seq<Sys>, ins: seq<CpuIn>, n: nat, d: Desk, w: nat)
    requires PromptRun(ss, ins) && n + w <= |ins| && StandsAt(ss[n], d)
    ensures AckBy(ss, n, w) <==> AckComes(d, ins, n, w)
    decreases w
  {
    if w == 1 {
      NoAckInOne(ss, ins, n, d);
    } else if w >= 2 {
      if d.spot.AtScan? && IsDirty(d.tags, d.spot.k) {
        DirtyCellIsAcked(ss, ins, n, d);
      } else if d.spot.AtScan? || !IdleTakes(d, ins[n]) {
        var d' := DeskMoves(ss, ins, n, d);
        AckOneSooner(ss, n, w);
        QuietBusIsDecided(ss, ins, n + 1, d', w - 1);
      } else if AnyWay(HitsOf(d.tags, Offered(ins[n]).addr)) {
        DeskTakes(ss, ins, n, d);
        AckTwoSooner(ss, n, w);
        QuietBusIsDecided(ss, ins, n + 2, AfterHitDesk(d, Offered(ins[n])), w - 2);
      } else {
        MissTakesFour(ss, ins, n, d, w);
      }
    }
  }

  // ----------------------------------------------------------- after the last beat

  /** The three cycles that end a fill leave its response held and its line installed. */
  function FilledDesk(c: CoreState): Desk {
    var m := c.mshr;
    Desk(
      c.tags[Cell(AddrToSet(m.addr), m.way) := TagEntry(true, m.op.Write?, AddrToTag(m.addr))],
      m.op.Read?, m.op.Write?, AtIdle)
  }

  /** The two cycles that end a clean leave its cell clean and the cursor moved on. */
  function CleanedDesk(c: CoreState, i: CpuIn, i': CpuIn): Desk {
    var k := Cell(c.regs.flushSet, c.regs.flushWay);
    var t := c.tags[k := TagEntry(true, false, c.tags[k].tag)];
    Taken(Taken(Desk(t, c.regs.holdR, c.regs.holdW, NextSpot(k)), i), i')
  }

  lemma LastMissBeat(s: Sys, i: CpuIn, s': Sys)
    requires SysNext(s, i, s') && LastAck(s) && (s.core.regs.fsm.MissWb? || s.core.regs.fsm.MissFill?)
    ensures s'.core == s.core.(regs := Consumed(s.core.regs, i), rf := s'.core.rf)
    ensures s'.core.rf.fsm.RfDone? && s'.port.phase.Free?
  {
    MissBurstEdge(s.core, i, Respond(s.port));
  }

  lemma MissBurstDone(s: Sys, i: CpuIn, s': Sys)
    requires SysNext(s, i, s') && s.core.rf.fsm.RfDone? && s.port.phase.Free?
    requires s.core.regs.fsm.MissWb? || s.core.regs.fsm.MissFill?
    ensures var next := if s.core.regs.fsm.MissWb? then MissFill else MissFinish;
            s'.core == s.core.(regs := Consumed(s.core.regs, i).(fsm := next), rf := s.core.rf.(fsm := RfIdle))
    ensures s'.port.phase.Free?
  {
    MissBurstEdge(s.core, i, Respond(s.port));
    QuietPortStays(s, i, s');
  }

  lemma FilledEdge(s: Sys, i: CpuIn, s': Sys)
    requires SysNext(s, i, s') && s.core.regs.fsm.MissFinish? && s.core.rf.fsm.RfIdle? && s.port.phase.Free?
    requires InStep(s)
    ensures StandsAt(s', FilledDesk(s.core)) && s'.port.phase.Free?
  {
    FinishEdge(s.core, i, Respond(s.port));
    QuietPortStays(s, i, s');
  }

  lemma LastWalkBeat(s: Sys, i: CpuIn, s': Sys)
    requires SysNext(s, i, s') && LastAck(s) && s.core.regs.fsm.FlushWb?
    ensures s'.core.tags == s.core.tags && s'.core.mshr == s.core.mshr && s'.core.regs == Consumed(s.core.regs, i)
    ensures s'.core.rf.fsm.RfDone? && s'.port.phase.Free?
  {
    WalkWbEdge(s.core, i, Respond(s.port));
  }

  lemma CleanedEdge(s: Sys, i: CpuIn, s': Sys, k: nat)
    requires SysNext(s, i, s') && s.core.regs.fsm.FlushWb? && s.core.rf.fsm.RfDone? && s.port.phase.Free? && InStep(s)
    requires k == Cell(s.core.regs.flushSet, s.core.regs.flushWay)
    ensures var c := s.core;
            var t := c.tags[k := TagEntry(true, false, c.tags[k].tag)];
            StandsAt(s', Taken(Desk(t, c.regs.holdR, c.regs.holdW, NextSpot(k)), i))
    ensures s'.port.phase.Free?
  {
    FlushWbEdge(s.core, i, Respond(s.port));
    AdvanceMovesOn(Consumed(s.core.regs, i));
    QuietPortStays(s, i, s');
  }

  lemma WriteBackGoesOn(ss: seq<Sys>, ins: seq<CpuIn>, n: nat)
    requires PromptRun(ss, ins) && n + 4 <= |ins| && LastAck(ss[n]) && ss[n].core.regs.fsm.MissWb?
    ensures ss[n + 4].port.phase.Acking?
  {
    assert Edge(ss, ins, n) && Edge(ss, ins, n + 1);
    LastMissBeat(ss[n], ins[n], ss[n + 1]);
    MissBurstDone(ss[n + 1], ins[n + 1], ss[n + 2]);
    StartIsAcked(ss, ins, n + 2);
  }

  lemma FillEnds(ss: seq<Sys>, ins: seq<CpuIn>, n: nat)
    requires PromptRun(ss, ins) && n + 3 <= |ins| && LastAck(ss[n]) && ss[n].core.regs.fsm.MissFill?
    ensures ss[n + 1].port.phase.Free? && ss[n + 2].port.phase.Free? && ss[n + 3].port.phase.Free?
    ensures StandsAt(ss[n + 3], FilledDesk(ss[n].core))
  {
    assert Edge(ss, ins, n) && Edge(ss, ins, n + 1) && Edge(ss, ins, n + 2);
    LastMissBeat(ss[n], ins[n], ss[n + 1]);
    MissBurstDone(ss[n + 1], ins[n + 1], ss[n + 2]);
    RunInStep(ss, ins, n + 2);
    FilledEdge(ss[n + 2], ins[n + 2], ss[n + 3]);
  }

  lemma CleanEnds(ss: seq<Sys>, ins: seq<CpuIn>, n: nat)
    requires PromptRun(ss, ins) && n + 2 <= |ins| && LastAck(ss[n]) && ss[n].core.regs.fsm.FlushWb?
    ensures ss[n + 1].port.phase.Free? && ss[n + 2].port.phase.Free?
    ensures StandsAt(ss[n + 2], CleanedDesk(ss[n].core, ins[n], ins[n + 1]))
  {
    assert Edge(ss, ins, n) && Edge(ss, ins, n + 1);
    LastWalkBeat(ss[n], ins[n], ss[n + 1]);
    RunInStep(ss, ins, n + 1);
    CleanedEdge(ss[n + 1], ins[n + 1], ss[n + 2], Cell(ss[n].core.regs.flushSet, ss[n].core.regs.flushWay));
  }

  // ------------------------------------------------------------- the exact condition

  /** A dirty cell among the c cells from k on. */
  predicate DirtyAhead(t: TagArray, k: nat, c: nat) { exists j :: k <= j < k + c && IsDirty(t, j) }

  lemma IdleTakesThree(d: Desk, ins: seq<CpuIn>, n: nat, w: nat)
    requires d.spot.AtIdle? && w <= 2 && n + w <= |ins|
    ensures !AckComes(d, ins, n, w)
  {}

  /** As long as the walk goes on, the cells ahead decide, whatever the CPU drives. */
  lemma {:induction false} ScanAhead(d: Desk, ins: seq<CpuIn>, n: nat, w: nat)
    requires d.spot.AtScan? && 0 < w && d.spot.k + w <= NUM_CELLS + 2 && n + w <= |ins|
    ensures AckComes(d, ins, n, w) <==> DirtyAhead(d.tags, d.spot.k, w - 1)
    decreases w
  {
    var k := d.spot.k;
    if w > 1 && !IsDirty(d.tags, k) {
      if k < 255 {
        ScanAhead(Taken(d, ins[n]).(spot := AtScan(k + 1)), ins, n + 1, w - 1);
        assert DirtyAhead(d.tags, k, w - 1) <==> DirtyAhead(d.tags, k + 1, w - 2);
      } else {
        IdleTakesThree(Taken(d, ins[n]).(spot := AtIdle), ins, n + 1, w - 1);
      }
    }
  }

  /** After a fill, by the cycle m in which its response is first held: a walk that starts
      now and soon meets a dirty cell, or a miss in the first cycle that can accept one. */
  predicate FillWindow(d: Desk, ins: seq<CpuIn>, m: nat)
    requires m + 3 <= |ins|
  {
    if ins[m].flushReq then DirtyAhead(d.tags, 0, 3)
    else if ins[m + 1].flushReq then DirtyAhead(d.tags, 0, 2)
    else if IdleTakes(Taken(d, ins[m]), ins[m + 1]) then !AnyWay(HitsOf(d.tags, Offered(ins[m + 1]).addr))
    else ins[m + 2].flushReq && DirtyAhead(d.tags, 0, 1)
  }

  lemma FillWindowIs(d: Desk, ins: seq<CpuIn>, m: nat)
    requires d.spot.AtIdle? && (d.holdR || d.holdW) && m + 5 <= |ins|
    ensures AckComes(d, ins, m, 5) <==> FillWindow(d, ins, m)
  {
    var d1 := Taken(d, ins[m]);
    var d2 := Taken(d1, ins[m + 1]);
    var d3 := Taken(d2, ins[m + 2]);
    if ins[m].flushReq {
      ScanAhead(d1.(spot := AtScan(0)), ins, m + 1, 4);
    } else if ins[m + 1].flushReq {
      ScanAhead(d2.(spot := AtScan(0)), ins, m + 2, 3);
    } else if IdleTakes(d1, ins[m + 1]) {
      var d' := AfterHitDesk(d1, Offered(ins[m + 1]));
      assert !AckComes(d', ins, m + 3, 2);
    } else {
      ScanAhead(d3.(spot := AtScan(0)), ins, m + 3, 2);
      LateIsTooLate(d2, ins, m + 2);
    }
  }

  lemma LateIsTooLate(d: Desk, ins: seq<CpuIn>, m: nat)
    requires d.spot.AtIdle? && m + 3 <= |ins|
    ensures AckComes(d, ins, m, 3) <==> ins[m].flushReq && AckComes(Taken(d, ins[m]).(spot := AtScan(0)), ins, m + 1, 2)
  {}

  // ------------------------------------------------------------ the end of a walk

  predicate NothingDirty(t: TagArray) { forall j :: 0 <= j < NUM_CELLS ==> !IsDirty(t, j) }

  /** x cycles in which nothing but responses is taken. */
  function Waits(d: Desk, ins: seq<CpuIn>, n: nat, x: nat): Desk
    requires n + x <= |ins|
    decreases x
  {
    if x == 0 then d else Waits(Taken(d, ins[n]), ins, n + 1, x - 1)
  }

  /** The cell that a store dirties by hitting. */
  function StoredCell(t: TagArray, q: Request): nat { Cell(AddrToSet(q.addr), OnehotToWay(HitsOf(t, q.addr))) }

  /** With nothing dirty and w cycles left, of which at most six: a miss accepted with four
      left, or a store that hits with five left, is dirty two cycles later and is met soon
      enough by a walk asked for then, in cell 0 with five left, in cells 0 and 1 with six,
      or by one asked for a cycle later, in cell 0 with six. */
  predicate EndWindow(d: Desk, ins: seq<CpuIn>, n: nat, w: nat)
    requires n + w <= |ins|
    decreases w
  {
    if w < 4 || ins[n].flushReq then false
    else if !IdleTakes(d, ins[n]) then EndWindow(Taken(d, ins[n]), ins, n + 1, w - 1)
    else
      var q := Offered(ins[n]);
      || !AnyWay(HitsOf(d.tags, q.addr))
      || (q.StoreReq? && w >= 5 &&
          if ins[n + 2].flushReq then StoredCell(d.tags, q) + 5 <= w
          else ins[n + 3].flushReq && StoredCell(d.tags, q) + 6 <= w)
  }

  lemma CleanWalkIsQuiet(d: Desk, ins: seq<CpuIn>, n: nat, w: nat)
    requires d.spot.AtScan? && NothingDirty(d.tags) && d.spot.k + w <= NUM_CELLS && n + w <= |ins|
    ensures !AckComes(d, ins, n, w)
  {
    if w > 0 {
      ScanAhead(d, ins, n, w);
    }
  }

  /** One dirty cell c, a response held, and at most four cycles left. */
  lemma AfterStoreHit(d: Desk, ins: seq<CpuIn>, n: nat, w: nat, c: nat)
    requires d.spot.AtIdle? && (d.holdR || d.holdW) && w <= 4 && n + w <= |ins|
    requires forall j :: 0 <= j < NUM_CELLS ==> (IsDirty(d.tags, j) <==> j == c)
    ensures AckComes(d, ins, n, w) <==>
            w >= 3 && if ins[n].flushReq then c + 3 <= w else ins[n + 1].flushReq && c + 4 <= w
  {
    if w >= 3 {
      var d1 := Taken(d, ins[n]);
      if ins[n].flushReq {
        ScanAhead(d1.(spot := AtScan(0)), ins, n + 1, w - 1);
        OneDirtyAhead(d.tags, c, w - 2);
      } else if w == 3 {
        IdleTakesThree(d1, ins, n + 1, 2);
      } else {
        LateIsTooLate(d1, ins, n + 1);
        ScanAhead(Taken(d1, ins[n + 1]).(spot := AtScan(0)), ins, n + 2, 2);
        OneDirtyAhead(d.tags, c, 1);
      }
    } else {
      IdleTakesThree(d, ins, n, w);
    }
  }

  lemma OneDirtyAhead(t: TagArray, c: nat, x: nat)
    requires forall j :: 0 <= j < NUM_CELLS ==> (IsDirty(t, j) <==> j == c)
    requires x < NUM_CELLS
    ensures DirtyAhead(t, 0, x) <==> c < x
  {
    if c < x {
      assert IsDirty(t, c);
    }
  }

  /** A load that hits leaves nothing dirty to find. */
  lemma AfterLoadHit(d: Desk, ins: seq<CpuIn>, n: nat, w: nat)
    requires d.spot.AtIdle? && (d.holdR || d.holdW) && w <= 4 && n + w <= |ins| && NothingDirty(d.tags)
    ensures !AckComes(d, ins, n, w)
  {
    if w >= 3 {
      var d1 := Taken(d, ins[n]);
      if ins[n].flushReq {
        CleanWalkIsQuiet(d1.(spot := AtScan(0)), ins, n + 1, w - 1);
      } else if w == 3 {
        IdleTakesThree(d1, ins, n + 1, 2);
      } else {
        LateIsTooLate(d1, ins, n + 1);
        CleanWalkIsQuiet(Taken(d1, ins[n + 1]).(spot := AtScan(0)), ins, n + 2, 2);
      }
    } else {
      IdleTakesThree(d, ins, n, w);
    }
  }

  lemma StoredCellIsDirty(d: Desk, q: Request)
    requires NothingDirty(d.tags) && q.StoreReq?
    ensures forall j :: 0 <= j < NUM_CELLS ==> (IsDirty(AfterHitDesk(d, q).tags, j) <==> j == StoredCell(d.tags, q))
  {
    var t, c := AfterHitDesk(d, q).tags, StoredCell(d.tags, q);
    assert t == d.tags[c := TagEntry(true, true, AddrToTag(q.addr))];
    forall j | 0 <= j < NUM_CELLS ensures IsDirty(t, j) <==> j == c {
      assert !IsDirty(d.tags, j);
    }
  }

  lemma {:induction false} EndWindowIs(d: Desk, ins: seq<CpuIn>, n: nat, w: nat)
    requires d.spot.AtIdle? && NothingDirty(d.tags) && w <= 6 && n + w <= |ins|
    ensures AckComes(d, ins, n, w) <==> EndWindow(d, ins, n, w)
    decreases w
  {
    if w == 3 {
      LateIsTooLate(d, ins, n);
      CleanWalkIsQuiet(Taken(d, ins[n]).(spot := AtScan(0)), ins, n + 1, 2);
    } else if w < 3 {
      IdleTakesThree(d, ins, n, w);
    } else if ins[n].flushReq {
      CleanWalkIsQuiet(Taken(d, ins[n]).(spot := AtScan(0)), ins, n + 1, w - 1);
    } else if !IdleTakes(d, ins[n]) {
      EndWindowIs(Taken(d, ins[n]), ins, n + 1, w - 1);
    } else if AnyWay(HitsOf(d.tags, Offered(ins[n]).addr)) {
      var q := Offered(ins[n]);
      if q.StoreReq? {
        StoredCellIsDirty(d, q);
        AfterStoreHit(AfterHitDesk(d, q), ins, n + 2, w - 2, StoredCell(d.tags, q));
      } else {
        AfterLoadHit(AfterHitDesk(d, q), ins, n + 2, w - 2);
      }
    }
  }

  lemma AheadOneMore(t: TagArray, k: nat, x: nat)
    requires 0 < x
    ensures DirtyAhead(t, k, x) <==> IsDirty(t, k) || DirtyAhead(t, k + 1, x - 1)
    ensures !DirtyAhead(t, k, 0)
  {}

  lemma ScanOneMore(d: Desk, ins: seq<CpuIn>, n: nat, w: nat)
    requires d.spot.AtScan? && 2 <= w && n + w <= |ins|
    ensures AckComes(d, ins, n, w) <==>
            IsDirty(d.tags, d.spot.k) || AckComes(Taken(d, ins[n]).(spot := NextSpot(d.spot.k)), ins, n + 1, w - 1)
  {}

  /** The last x cells of a walk: one of them is dirty, or the idle desk e, in cycle m with v
      cycles left, decides. */
  lemma {:induction false} ScanToEnd(d: Desk, ins: seq<CpuIn>, n: nat, w: nat, x: nat, e: Desk, m: nat, v: nat)
    requires d.spot.AtScan? && d.spot.k + x == NUM_CELLS && 0 < x && m == n + x && 0 < v == w - x && n + w <= |ins|
    requires e == Waits(d, ins, n, x).(spot := AtIdle)
    ensures AckComes(d, ins, n, w) <==> DirtyAhead(d.tags, d.spot.k, x) || AckComes(e, ins, m, v)
    decreases x
  {
    var k := d.spot.k;
    var d' := Taken(d, ins[n]).(spot := NextSpot(k));
    ScanOneMore(d, ins, n, w);
    AheadOneMore(d.tags, k, x);
    WaitsIgnoresSpot(Taken(d, ins[n]), d', ins, n + 1, x - 1);
    if x > 1 {
      ScanToEnd(d', ins, n + 1, w - 1, x - 1, e, m, v);
    } else {
      assert d' == e;
      AheadOneMore(d.tags, k + 1, 1);
    }
  }

  lemma {:induction false} WaitsIgnoresSpot(d: Desk, e: Desk, ins: seq<CpuIn>, n: nat, x: nat)
    requires n + x <= |ins| && e == d.(spot := e.spot)
    ensures Waits(e, ins, n, x) == Waits(d, ins, n, x).(spot := e.spot)
    ensures Waits(d, ins, n, x).tags == d.tags && Waits(d, ins, n, x).spot == d.spot
    decreases x
  {
    if x > 0 {
      WaitsIgnoresSpot(Taken(d, ins[n]), Taken(e, ins[n]), ins, n + 1, x - 1);
    }
  }

  /** When the window of a cycle with mem_req is met: always before the last acknowledge of a
      line, and after it if a fill follows a write-back; after a fill if the CPU asks for the
      bus at once; in a walk if one of the next five cells is dirty, or, if fewer than four
      are left, if the CPU asks for the bus at once after them. */
  predicate WindowMet(s: Sys, ins: seq<CpuIn>, n: nat)
    requires n + 8 <= |ins|
  {
    || !LastAck(s)
    || match s.core.regs.fsm
       case MissWb => true
       case MissFill => FillWindow(FilledDesk(s.core), ins, n + 3)
       case _ => WalkWindow(s.core, ins, n)
  }

  /** left is the number of cells after the cursor; they take a cycle each. */
  predicate WalkWindow(c: CoreState, ins: seq<CpuIn>, n: nat)
    requires n + 8 <= |ins|
  {
    var k := Cell(c.regs.flushSet, c.regs.flushWay);
    var left := 255 - k;
    || DirtyAhead(c.tags, k + 1, 5)
    || (left < 4 &&
        var e := Waits(CleanedDesk(c, ins[n], ins[n + 1]), ins, n + 2, left).(spot := AtIdle);
        EndWindow(e, ins, n + 2 + left, 6 - left))
  }

  lemma EarlyAck(ss: seq<Sys>, ins: seq<CpuIn>, n: nat)
    requires PromptRun(ss, ins) && n + 8 <= |ins| && ss[n].core.rf.fsm.RfReq? && !LastAck(ss[n])
    ensures AckBy(ss, n, 8)
  {
    RequestsAreAcknowledged(ss, ins, n);
  }

  lemma FillCase(ss: seq<Sys>, ins: seq<CpuIn>, n: nat)
    requires PromptRun(ss, ins) && n + 8 <= |ins| && LastAck(ss[n]) && ss[n].core.regs.fsm.MissFill?
    ensures AckBy(ss, n, 8) <==> FillWindow(FilledDesk(ss[n].core), ins, n + 3)
  {
    var d := FilledDesk(ss[n].core);
    FillEnds(ss, ins, n);
    AckTwoSooner(ss, n, 8);
    AckOneSooner(ss, n + 2, 6);
    QuietBusIsDecided(ss, ins, n + 3, d, 5);
    FillWindowIs(d, ins, n + 3);
  }

  lemma WalkCase(ss: seq<Sys>, ins: seq<CpuIn>, n: nat)
    requires PromptRun(ss, ins) && n + 8 <= |ins| && LastAck(ss[n]) && ss[n].core.regs.fsm.FlushWb?
    ensures AckBy(ss, n, 8) <==> WalkWindow(ss[n].core, ins, n)
  {
    var c := ss[n].core;
    CleanEnds(ss, ins, n);
    AckTwoSooner(ss, n, 8);
    QuietBusIsDecided(ss, ins, n + 2, CleanedDesk(c, ins[n], ins[n + 1]), 6);
    if Cell(c.regs.flushSet, c.regs.flushWay) + 4 < NUM_CELLS {
      WalkCells(c, ins, n);
    } else {
      RunRefines(ss, ins, n);
      WalkTail(c, ins, n, 6);
    }
  }

  /** The desk with left cells to go: one of them is dirty, or the idle desk e decides. */
  lemma TailScan(d: Desk, ins: seq<CpuIn>, n: nat, w: nat, left: nat, e: Desk, m: nat, v: nat)
    requires m == n + left && 0 < v == w - left && n + w <= |ins| && left < NUM_CELLS && d.spot == NextSpot(255 - left)
    requires e == Waits(d, ins, n, left).(spot := AtIdle)
    ensures AckComes(d, ins, n, w) <==> DirtyAhead(d.tags, NUM_CELLS - left, left) || AckComes(e, ins, m, v)
    ensures e.tags == d.tags
  {
    WaitsIgnoresSpot(d, d, ins, n, left);
    if left > 0 {
      ScanToEnd(d, ins, n, w, left, e, m, v);
    } else {
      assert e == d;
      AheadOneMore(d.tags, NUM_CELLS, 1);
    }
  }

  lemma TailIdle(e: Desk, ins: seq<CpuIn>, n: nat, w: nat, k: nat, left: nat)
    requires e.spot.AtIdle? && w <= 6 && n + w <= |ins| && k + left == NUM_CELLS && !DirtyAhead(e.tags, k, left)
    requires forall j :: 0 <= j < k ==> !IsDirty(e.tags, j)
    ensures AckComes(e, ins, n, w) <==> EndWindow(e, ins, n, w)
  {
    CleanBehindAndAhead(e.tags, k, left);
    EndWindowIs(e, ins, n, w);
  }

  /** Near its end a walk has left nothing dirty behind, so what is dirty lies ahead. */
  lemma WalkTail(c: CoreState, ins: seq<CpuIn>, n: nat, w: nat)
    requires n + 8 <= |ins| && c.regs.flushActive && WalkInv(c)
    requires Cell(c.regs.flushSet, c.regs.flushWay) + 4 >= NUM_CELLS
    requires w == 6
    ensures AckComes(CleanedDesk(c, ins[n], ins[n + 1]), ins, n + 2, w) <==> WalkWindow(c, ins, n)
  {
    var k, d := Cell(c.regs.flushSet, c.regs.flushWay), CleanedDesk(c, ins[n], ins[n + 1]);
    var left := 255 - k;
    var m, v, e := n + 2 + left, 6 - left, Waits(d, ins, n + 2, left).(spot := AtIdle);
    CleanedTags(c, ins[n], ins[n + 1], k);
    TailScan(d, ins, n + 2, w, left, e, m, v);
    AheadOf(d.tags, c.tags, k + 1, left);
    if !DirtyAhead(d.tags, k + 1, left) {
      TailIdle(e, ins, m, v, k + 1, left);
    }
  }

  lemma AheadOf(t: TagArray, u: TagArray, k: nat, left: nat)
    requires k + left == NUM_CELLS && left <= 5 && forall j :: k <= j < NUM_CELLS ==> t[j] == u[j]
    ensures DirtyAhead(u, k, 5) <==> DirtyAhead(t, k, left)
  {
    SameAhead(t, u, k, 5);
    ShortAhead(t, k, left);
  }

  lemma CleanedTags(c: CoreState, i: CpuIn, i': CpuIn, k: nat)
    requires c.regs.flushActive && WalkInv(c) && k == Cell(c.regs.flushSet, c.regs.flushWay)
    ensures var d := CleanedDesk(c, i, i');
            && d.spot == NextSpot(k) && (forall j :: k < j < NUM_CELLS ==> d.tags[j] == c.tags[j])
            && forall j :: 0 <= j <= k ==> !IsDirty(d.tags, j)
  {}

  lemma ShortAhead(t: TagArray, k: nat, left: nat)
    requires k + left == NUM_CELLS && left <= 5
    ensures DirtyAhead(t, k, 5) <==> DirtyAhead(t, k, left)
  {}

  lemma CleanBehindAndAhead(t: TagArray, k: nat, left: nat)
    requires k + left == NUM_CELLS && !DirtyAhead(t, k, left) && forall j :: 0 <= j < k ==> !IsDirty(t, j)
    ensures NothingDirty(t)
  {}

  lemma SameAhead(t: TagArray, u: TagArray, k: nat, c: nat)
    requires forall j :: k <= j < NUM_CELLS ==> t[j] == u[j]
    ensures DirtyAhead(t, k, c) <==> DirtyAhead(u, k, c)
  {
    if j :| k <= j < k + c && IsDirty(t, j) {
      assert IsDirty(u, j);
    }
    if j :| k <= j < k + c && IsDirty(u, j) {
      assert IsDirty(t, j);
    }
  }

  lemma WalkCells(c: CoreState, ins: seq<CpuIn>, n: nat)
    requires n + 8 <= |ins| && Cell(c.regs.flushSet, c.regs.flushWay) + 4 < NUM_CELLS
    ensures AckComes(CleanedDesk(c, ins[n], ins[n + 1]), ins, n + 2, 6) <==> WalkWindow(c, ins, n)
  {
    var k, d := Cell(c.regs.flushSet, c.regs.flushWay), CleanedDesk(c, ins[n], ins[n + 1]);
    ScanAhead(d, ins, n + 2, 6);
    SameAhead(d.tags, c.tags, k + 1, 5);
  }

  /** Over the one-cycle memory, exactly when a cycle with mem_req is acknowledged within the
      next eight. */
  lemma AckWindowIff(ss: seq<Sys>, ins: seq<CpuIn>, n: nat)
    requires PromptRun(ss, ins) && n + 8 <= |ins| && BusRequest(ss[n].core.rf).req
    ensures AckBy(ss, n, 8) <==> WindowMet(ss[n], ins, n)
  {
    RunInStep(ss, ins, n);
    if !LastAck(ss[n]) {
      EarlyAck(ss, ins, n);
    } else if ss[n].core.regs.fsm.MissWb? {
      WriteBackGoesOn(ss, ins, n);
    } else if ss[n].core.regs.fsm.MissFill? {
      FillCase(ss, ins, n);
    } else {
      WalkCase(ss, ins, n);
    }
  }

  lemma AckEdge(s: Sys, i: CpuIn, s': Sys)
    requires SysNext(s, i, s') && Prompt(s, s') && s.core.rf.fsm.RfReq? && !LastAck(s)
    ensures s'.core.rf.fsm.RfReq? && s'.port.phase.Acking? == s.port.phase.Free?
  {}

  /** Over a one-cycle memory a request is acknowledged in the next cycle or the one after,
      except in the cycle that acknowledges the last beat of a line. */
  lemma RequestsAreAcknowledged(ss: seq<Sys>, ins: seq<CpuIn>, n: nat)
    requires PromptRun(ss, ins) && n + 2 <= |ins| && ss[n].core.rf.fsm.RfReq? && !LastAck(ss[n])
    ensures ss[n + 1].port.phase.Acking? || ss[n + 2].port.phase.Acking?
  {
    assert Edge(ss, ins, n) && PromptEdge(ss, n) && PromptEdge(ss, n + 1);
    AckEdge(ss[n], ins[n], ss[n + 1]);
  }

  // ------------------------------------------------------------- runs that miss it

  predicate NothingAsked(i: CpuIn) { !i.rvalid && !i.wvalid && !i.flushReq }

  lemma DueInThree(s: Sys)
    requires Due(s, 3)
    ensures s.core.regs.fsm.MissFill? && LastAck(s)
  {}

  /** Every miss after whose response the CPU asks for nothing during five cycles breaks the
      window, in the cycle that ends its fill. */
  lemma LoneMissBreaksAckWindow(ss: seq<Sys>, ins: seq<CpuIn>, n: nat, latency: nat)
    requires PromptRun(ss, ins) && n + latency + 5 <= |ins| && n < |ins| && Accepts(ss[n].core, ins[n]).Some?
    requires latency == LatencyOf(ss[n + 1].core) && latency != 2
    requires forall j {:trigger ins[j]} :: n + latency <= j < n + latency + 5 ==> NothingAsked(ins[j])
    ensures var m := n + latency - 3;
            BusRequest(ss[m].core.rf).req && forall k :: m < k <= m + 8 ==> !ss[k].port.phase.Acking?
  {
    var m := n + latency - 3;
    LatencyBegins(ss, ins, n, latency);
    ResponseIsDue(ss, ins, n + 1, latency - 1, latency - 4);
    DueInThree(ss[m]);
    FillCase(ss, ins, m);
    assert !AckBy(ss, m, 8);
  }

  /** A walk breaks the window by itself, whatever the CPU drives: after every dirty line
      with no dirty line in the next five cells. */
  lemma LoneDirtyLineBreaksAckWindow(ss: seq<Sys>, ins: seq<CpuIn>, n: nat)
    requires PromptRun(ss, ins) && n + 8 <= |ins| && LastAck(ss[n]) && ss[n].core.regs.fsm.FlushWb?
    requires var k := Cell(ss[n].core.regs.flushSet, ss[n].core.regs.flushWay);
             k + 4 < NUM_CELLS && !DirtyAhead(ss[n].core.tags, k + 1, 5)
    ensures BusRequest(ss[n].core.rf).req && forall j :: n < j <= n + 8 ==> !ss[j].port.phase.Acking?
  {
    AckWindowIff(ss, ins, n);
    assert !AckBy(ss, n, 8);
  }

  /** One load out of reset, and nothing else. */
  function OneLoad(): (ins: seq<CpuIn>)
    ensures |ins| == 50
  {
    seq(50, j => if j == 0 then RestIn().(rvalid := true) else RestIn())
  }

  lemma EmptyMisses(qs: seq<Request>)
    requires |qs| == 1
    ensures var os := Outcomes(Empty(), LinesOf(qs)); |os| == 1 && !os[0].hit
  {
    var ls := LinesOf(qs);
    assert ls == [] + [ls[0]];
    RunOneMore(Empty(), [], ls[0]);
  }

  lemma MissIsSlow(c: CoreState)
    requires !LookupOutcome(c).hit
    ensures LatencyOf(c) > 2
  {}

  /** The first request out of reset misses. */
  lemma FirstLookupMisses(ss: seq<Sys>, ins: seq<CpuIn>, n: nat)
    requires IsRun(ss, ins) && n == 0 < |ins| && Accepts(ss[n].core, ins[n]).Some?
    ensures LatencyOf(ss[n + 1].core) > 2
  {
    assert Edge(ss, ins, n);
    AcceptLatches(ss[n].core, ins[n], Respond(ss[n].port));
    RequestsOneMore(ss, ins, n, n + 1);
    EveryLookupDependsOnLinesOnly(ss, ins, n + 1);
    EmptyMisses(Accepted(ss, ins, n + 1));
    MissIsSlow(ss[n + 1].core);
  }

  /** A load in the first cycle, and nothing in the others. */
  ghost predicate LoneLoad(ins: seq<CpuIn>) {
    && |ins| == 50 && ins[0].rvalid && !ins[0].flushReq
    && forall j {:trigger ins[j]} :: 0 < j < |ins| ==> NothingAsked(ins[j])
  }

  lemma OneLoadIs(ins: seq<CpuIn>)
    requires ins == OneLoad()
    ensures LoneLoad(ins)
  {
    assert ins[0] == RestIn().(rvalid := true);
    forall j {:trigger ins[j]} | 0 < j < |ins| ensures NothingAsked(ins[j]) {
      assert ins[j] == RestIn();
    }
  }

  /** The cache on the SRAM, with these inputs, breaks the window. */
  ghost predicate BreaksWindow(b: Board, ins: seq<CpuIn>) {
    var ss := BoardRun(b, ins);
    PromptRun(ss, ins) && exists m: nat :: m + 8 <= |ins| && BusRequest(ss[m].core.rf).req && !AckBy(ss, m, 8)
  }

  lemma LoadOnBoard(b: Board, ins: seq<CpuIn>)
    requires BoardIsReset(b) && LoneLoad(ins)
    ensures BreaksWindow(b, ins)
  {
    BoardIsPromptRun(b, ins);
    LoadBreaksAckWindow(BoardRun(b, ins), ins);
  }

  lemma FirstIsAccepted(s: Sys, i: CpuIn)
    requires SysIsReset(s) && i.rvalid && !i.flushReq
    ensures Accepts(s.core, i).Some?
  {}

  lemma LoadBreaksAckWindow(ss: seq<Sys>, ins: seq<CpuIn>)
    requires PromptRun(ss, ins) && LoneLoad(ins)
    ensures exists m: nat :: m + 8 <= |ins| && BusRequest(ss[m].core.rf).req && !AckBy(ss, m, 8)
  {
    FirstIsAccepted(ss[0], ins[0]);
    var latency := LatencyOf(ss[1].core);
    FirstLookupMisses(ss, ins, 0);
    LoneMissBreaksAckWindow(ss, ins, 0, latency);
    assert !AckBy(ss, latency - 3, 8);
  }

  /** One concrete run: a load out of reset with zeroed memory, and 49 idle cycles. */
  lemma OneLoadBreaksAckWindow()
    ensures BoardIsReset(ResetBoard()) && BreaksWindow(ResetBoard(), OneLoad())
  {
    OneLoadIs(OneLoad());
    LoadOnBoard(ResetBoard(), OneLoad());
  }
}
