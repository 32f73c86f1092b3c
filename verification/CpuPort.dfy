/** What the CPU can rely on at the ports of the clocked core, in terms of the port signals:
    handshakes, response bytes, the flush_done pulse, the statistics and the replaced ways. */
module CpuPort {
  import opened DcachePkg
  import opened Directory
  import opened AtomicCache
  import opened AtomicTheorems
  import opened MemPort
  import opened Core
  import opened CoreRefinement
  import opened Transparency

  // -------------------------------------------------------------------- handshakes

  /** A handshake is an acceptance, on either port, and there is no other. */
  lemma HandshakesAreAcceptances(c: CoreState, i: CpuIn)
    ensures i.rvalid && ReadReady(c, i) <==> Accepts(c, i) == Some(LoadReq(i.raddr))
    ensures i.wvalid && WriteReady(c, i) <==> Accepts(c, i) == Some(StoreReq(i.waddr, i.wdata, i.wstrb))
    ensures Accepts(c, i).Some? <==> (i.rvalid && ReadReady(c, i)) || (i.wvalid && WriteReady(c, i))
  {}

  /** The requests whose handshakes complete in this cycle: rvalid with rready carries the
      load, wvalid with wready the store. */
  function HandshakesAt(c: CoreState, i: CpuIn): seq<Request> {
    (if i.rvalid && ReadReady(c, i) then [LoadReq(i.raddr)] else []) +
    (if i.wvalid && WriteReady(c, i) then [StoreReq(i.waddr, i.wdata, i.wstrb)] else [])
  }

  function Handshakes(ss: seq<Sys>, ins: seq<CpuIn>, n: nat): seq<Request>
    requires n <= |ins| < |ss|
  {
    if n == 0 then [] else Handshakes(ss, ins, n - 1) + HandshakesAt(ss[n - 1].core, ins[n - 1])
  }

  function LoadHandshakes(ss: seq<Sys>, ins: seq<CpuIn>, n: nat): nat
    requires n <= |ins| < |ss|
  {
    if n == 0 then 0
    else LoadHandshakes(ss, ins, n - 1) + One(ins[n - 1].rvalid && ReadReady(ss[n - 1].core, ins[n - 1]))
  }

  function StoreHandshakes(ss: seq<Sys>, ins: seq<CpuIn>, n: nat): nat
    requires n <= |ins| < |ss|
  {
    if n == 0 then 0
    else StoreHandshakes(ss, ins, n - 1) + One(ins[n - 1].wvalid && WriteReady(ss[n - 1].core, ins[n - 1]))
  }

  lemma HandshakesAtAreTaken(c: CoreState, i: CpuIn, before: seq<Request>)
    ensures HandshakesAt(c, i) == TakenAt(c, i)
    ensures |TakenAt(c, i)| == One(i.rvalid && ReadReady(c, i)) + One(i.wvalid && WriteReady(c, i))
    ensures CountStores(before + TakenAt(c, i)) == CountStores(before) + One(i.wvalid && WriteReady(c, i))
  {
    HandshakesAreAcceptances(c, i);
    var taken := TakenAt(c, i);
    if taken == [] {
      assert before + taken == before;
    } else {
      assert (before + taken)[..|before|] == before;
    }
  }

  /** No handshake is lost and none is made up: the completed handshakes are the accepted
      requests, in order. */
  lemma {:induction false} HandshakesAreConserved(ss: seq<Sys>, ins: seq<CpuIn>, n: nat)
    requires n <= |ins| < |ss|
    ensures Handshakes(ss, ins, n) == Accepted(ss, ins, n)
    ensures LoadHandshakes(ss, ins, n) + StoreHandshakes(ss, ins, n) == |Accepted(ss, ins, n)|
    ensures StoreHandshakes(ss, ins, n) == CountStores(Accepted(ss, ins, n))
  {
    if n > 0 {
      HandshakesAreConserved(ss, ins, n - 1);
      HandshakesAtAreTaken(ss[n - 1].core, ins[n - 1], Accepted(ss, ins, n - 1));
    }
  }

  /** Every completed handshake is answered once, by a response of its own kind, in order, and
      at most one answer is outstanding. */
  lemma HandshakesAreAnswered(ss: seq<Sys>, ins: seq<CpuIn>, n: nat)
    requires IsRun(ss, ins) && n <= |ins|
    ensures var d, c := Delivered(ss, ins, n), ss[n].core;
            && LoadHandshakes(ss, ins, n) + StoreHandshakes(ss, ins, n) == |d| + |Held(c)| + |InFlight(c)| <= |d| + 1
            && |d| <= |Handshakes(ss, ins, n)|
            && forall k :: 0 <= k < |d| ==> (d[k].ReadResp? <==> Handshakes(ss, ins, n)[k].LoadReq?)
  {
    HandshakesAreConserved(ss, ins, n);
    RequestsAreConserved(ss, ins, n);
  }

  /** The ready outputs, in any run: the cache is ready for a load exactly when every accepted
      request has been answered and its response taken, no walk runs and none is asked for;
      for a store exactly when, besides, no load is offered. */
  lemma ReadyWhenAllIsAnswered(ss: seq<Sys>, ins: seq<CpuIn>, n: nat)
    requires IsRun(ss, ins) && n < |ins|
    ensures var c, i := ss[n].core, ins[n];
            var free := |Delivered(ss, ins, n)| == |Accepted(ss, ins, n)| && !c.regs.flushActive && !i.flushReq;
            && (ReadReady(c, i) <==> free)
            && (WriteReady(c, i) <==> free && !i.rvalid)
  {
    RunRefines(ss, ins, n);
    RequestsAreConserved(ss, ins, n);
    FreeMeansReady(ss[n], CacheAt(ss, n), ins[n]);
  }

  lemma FreeMeansReady(s: Sys, a: Atomic, i: CpuIn)
    requires Refines(s, a)
    ensures ReadReady(s.core, i) <==>
              Held(s.core) == [] && InFlight(s.core) == [] && !s.core.regs.flushActive && !i.flushReq
  {}

  /** The response ports: a held response goes to the CPU in the cycle that the CPU is ready
      for its kind, once and with its data, and is then gone; nothing else is handed over. */
  lemma ResponsesAreHandedOver(ss: seq<Sys>, ins: seq<CpuIn>, n: nat)
    requires IsRun(ss, ins) && n < |ins|
    ensures var r, r', i, d := ss[n].core.regs, ss[n + 1].core.regs, ins[n], Delivered(ss, ins, n);
            && Delivered(ss, ins, n + 1) ==
               (if r.holdR && i.rrespReady then d + [ReadResp(r.holdData)]
                else if r.holdW && i.wrespReady then d + [WriteResp]
                else d)
            && (r.holdR && i.rrespReady ==> !r'.holdR && !r'.holdW)
            && (r.holdW && i.wrespReady ==> !r'.holdR && !r'.holdW)
  {
    RunRefines(ss, ins, n);
    assert Edge(ss, ins, n);
    EdgeRefines(ss[n], ins[n], ss[n + 1], CacheAt(ss, n));
    HandedOver(ss[n], ins[n], ss[n + 1], CacheAt(ss, n), Delivered(ss, ins, n));
    RequestsOneMore(ss, ins, n, n + 1);
  }

  lemma HandedOver(s: Sys, i: CpuIn, s': Sys, a: Atomic, d: seq<Response>)
    requires Refines(s, a) && HoldsReply(s.core, i, s'.core, a)
    ensures var r, r' := s.core.regs, s'.core.regs;
            && d + Delivers(s.core, i) ==
               (if r.holdR && i.rrespReady then d + [ReadResp(r.holdData)]
                else if r.holdW && i.wrespReady then d + [WriteResp]
                else d)
            && (r.holdR && i.rrespReady ==> !r'.holdR && !r'.holdW)
            && (r.holdW && i.wrespReady ==> !r'.holdR && !r'.holdW)
  {
    assert d + [] == d;
  }

  // ---------------------------------------------------------------- response bytes

  /** Transparency, byte by byte and without a word about caches: in every run over
      alias-free lines, response k answers accepted request k, and each byte of a load is
      the one that the last store accepted before it to strobe that byte of that word wrote. */
  lemma LoadsReturnLastWrites(ss: seq<Sys>, ins: seq<CpuIn>, n: nat, ls: set<LineAddr>, k: nat)
    requires AliasFreeRun(ss, ins, n, ls) && k < |Delivered(ss, ins, n)|
    ensures k < |Accepted(ss, ins, n)|
    ensures AnswersBytes(ss[0].port.store.words, Accepted(ss, ins, n), k, Delivered(ss, ins, n)[k])
  {
    ResponsesAreThoseOfAFlatMemory(ss, ins, n, ls);
    FlatMemoryIsLastWrite(ss[0].port.store.words, Accepted(ss, ins, n), k);
  }

  /** And when flush_done pulses, memory itself holds every last write. */
  lemma CleanMemoryHoldsLastWrites(ss: seq<Sys>, ins: seq<CpuIn>, n: nat, ls: set<LineAddr>, x: MemIdx, b: nat)
    requires AliasFreeRun(ss, ins, n, ls) && ss[n].core.regs.flushDone && b < 8
    ensures var qs := Accepted(ss, ins, n);
            LastWritten(ss[0].port.store.words, qs, |qs|, x, b, ss[n].port.store.words[x][b])
  {
    var qs := Accepted(ss, ins, n);
    FlushDoneMeansMemoryIsCurrent(ss, ins, n, ls);
    FlatByteIs(ss[0].port.store.words, qs, |qs|, x, b);
    assert qs[..|qs|] == qs;
  }

  // --------------------------------------------------------------------- flush_done

  predicate WalkStates(r: Regs) { r.flushActive <==> r.fsm.FlushScan? || r.fsm.FlushWb? }

  lemma WalkEndsAt(c: CoreState, p: Probe, i: CpuIn)
    requires WalkStates(c.regs)
    ensures RegsNext(c, p, i).flushDone <==> c.regs.flushActive && !RegsNext(c, p, i).flushActive
  {}

  lemma WalkBeginsAt(c: CoreState, p: Probe, i: CpuIn)
    requires WalkStates(c.regs)
    ensures !c.regs.flushActive && RegsNext(c, p, i).flushActive <==>
              c.regs.fsm.Idle? && !c.regs.resolve && i.flushReq
  {}

  /** flush_done is high in exactly the cycles that follow the last cycle of a walk, and a
      walk starts exactly when flush_req meets an idle core with nothing to look up. */
  lemma FlushDoneIsAPulse(ss: seq<Sys>, ins: seq<CpuIn>, n: nat)
    requires IsRun(ss, ins) && n < |ins|
    ensures !ss[0].core.regs.flushDone
    ensures var r, r' := ss[n].core.regs, ss[n + 1].core.regs;
            && (r'.flushDone <==> r.flushActive && !r'.flushActive)
            && (!r.flushActive && r'.flushActive <==> r.fsm.Idle? && !r.resolve && ins[n].flushReq)
            && !(r.flushDone && r'.flushDone)
  {
    RunRefines(ss, ins, n);
    assert Edge(ss, ins, n);
    WalkEndsAt(ss[n].core, ReadArrays(ss[n].core), ins[n]);
    WalkBeginsAt(ss[n].core, ReadArrays(ss[n].core), ins[n]);
  }

  /** Walks begun before cycle n, and cycles up to n that show flush_done. */
  function WalksBegun(ss: seq<Sys>, n: nat): nat
    requires n < |ss|
  {
    if n == 0 then 0
    else WalksBegun(ss, n - 1) + One(!ss[n - 1].core.regs.flushActive && ss[n].core.regs.flushActive)
  }

  function DoneCycles(ss: seq<Sys>, n: nat): nat
    requires n < |ss|
  {
    One(ss[n].core.regs.flushDone) + if n == 0 then 0 else DoneCycles(ss, n - 1)
  }

  /** One cycle of flush_done for every walk that has ended. */
  lemma {:induction false} OnePulseAWalk(ss: seq<Sys>, ins: seq<CpuIn>, n: nat)
    requires IsRun(ss, ins) && n <= |ins|
    ensures WalksBegun(ss, n) == DoneCycles(ss, n) + One(ss[n].core.regs.flushActive)
  {
    if n > 0 {
      OnePulseAWalk(ss, ins, n - 1);
      FlushDoneIsAPulse(ss, ins, n - 1);
    }
  }

  // --------------------------------------------------------------------- statistics

  /** The cycle compares the tags of a latched request, with this outcome. */
  predicate LooksUp(c: CoreState, hit: bool) {
    c.regs.fsm.Idle? && c.regs.resolve && LookupHit(c.regs, ReadArrays(c).row) == hit
  }

  function Lookups(ss: seq<Sys>, n: nat, hit: bool): nat
    requires n < |ss|
  {
    if n == 0 then 0 else Lookups(ss, n - 1, hit) + One(LooksUp(ss[n - 1].core, hit))
  }

  /** A miss is on after the lookup that finds it, until its line is installed. */
  lemma MissEdge(c: CoreState, i: CpuIn, p: Probe)
    requires c.regs.resolve ==> c.regs.fsm.Idle?
    ensures Missing(RegsNext(c, p, i).fsm) <==>
              if c.regs.resolve then !LookupHit(c.regs, p.row) else Missing(c.regs.fsm) && !c.regs.fsm.MissFinish?
  {
    assert c.regs.resolve ==> Accepts(c, i).None?;
  }

  /** The transaction-level cache counts what the lookups find, a miss when it is served. */
  lemma AtomicCountsEdge(s: Sys, a: Atomic)
    requires Refines(s, a)
    ensures AfterEdge(a, s.core).hits == a.hits + One(LooksUp(s.core, true))
    ensures AfterEdge(a, s.core).misses == a.misses + One(s.core.regs.fsm.MissFinish?)
  {
    match EventAt(s.core) {
      case Some(e) =>
        ApplyOnDirectory(a, e);
        if s.core.regs.fsm.Idle? {
          LookupIs(s, a);
        }
      case None =>
    }
  }

  /** The lookups so far are what the transaction-level cache has counted. */
  ghost predicate Counted(s: Sys, a: Atomic, hits: nat, misses: nat) { hits == a.hits && misses == Found(s.core, a) }

  lemma CountsEdge(s: Sys, i: CpuIn, s': Sys, a: Atomic, hits: nat, misses: nat)
    requires Refines(s, a) && Counted(s, a, hits, misses) && SysNext(s, i, s')
    ensures Counted(s', AfterEdge(a, s.core), hits + One(LooksUp(s.core, true)), misses + One(LooksUp(s.core, false)))
  {
    MissEdge(s.core, i, ReadArrays(s.core));
    AtomicCountsEdge(s, a);
  }

  lemma CountsBegin(ss: seq<Sys>, n: nat)
    requires n == 0 < |ss| && SysIsReset(ss[0])
    ensures Counted(ss[n], CacheAt(ss, n), 0, 0)
  {
    assert CacheAt(ss, n) == InitialCache(ss[0]);
  }

  lemma CountsOneMore(ss: seq<Sys>, ins: seq<CpuIn>, n: nat, n': nat)
    requires IsRun(ss, ins) && n' == n + 1 <= |ins|
    requires Counted(ss[n], CacheAt(ss, n), Lookups(ss, n, true), Lookups(ss, n, false))
    ensures Counted(ss[n'], CacheAt(ss, n'), Lookups(ss, n', true), Lookups(ss, n', false))
  {
    RunRefines(ss, ins, n);
    assert Edge(ss, ins, n);
    CountsEdge(ss[n], ins[n], ss[n'], CacheAt(ss, n), Lookups(ss, n, true), Lookups(ss, n, false));
    EventsOneMore(ss, n, n');
  }

  lemma {:induction false} LookupsAreAtomicCounts(ss: seq<Sys>, ins: seq<CpuIn>, n: nat)
    requires IsRun(ss, ins) && n <= |ins|
    ensures Counted(ss[n], CacheAt(ss, n), Lookups(ss, n, true), Lookups(ss, n, false))
  {
    if n == 0 {
      CountsBegin(ss, n);
    } else {
      LookupsAreAtomicCounts(ss, ins, n - 1);
      CountsOneMore(ss, ins, n - 1, n);
    }
  }

  /** The statistics outputs are the numbers of lookups that hit and that missed, modulo
      2^32; every accepted request is looked up once, so below 2^32 requests the two outputs
      add up to the requests looked up. */
  lemma StatisticsCountLookups(ss: seq<Sys>, ins: seq<CpuIn>, n: nat)
    requires IsRun(ss, ins) && n <= |ins|
    ensures StatisticsAre(ss[n].core.regs, Lookups(ss, n, true), Lookups(ss, n, false), |Accepted(ss, ins, n)|)
  {
    LookupsAreAtomicCounts(ss, ins, n);
    CountersCountRequests(ss, ins, n);
    AddUp(ss[n].core.regs, Lookups(ss, n, true), Lookups(ss, n, false), |Accepted(ss, ins, n)|);
  }

  ghost predicate StatisticsAre(r: Regs, hits: nat, misses: nat, accepted: nat) {
    && r.hits == hits % 0x1_0000_0000 && r.misses == misses % 0x1_0000_0000
    && hits + misses + One(r.resolve) == accepted
    && (accepted < 0x1_0000_0000 ==> r.hits + r.misses + One(r.resolve) == accepted)
  }

  lemma AddUp(r: Regs, hits: nat, misses: nat, accepted: nat)
    requires CountersAre(r, hits, misses, accepted)
    ensures StatisticsAre(r, hits, misses, accepted)
  {}

  // ------------------------------------------------------------------- replacement

  function UsedCells(c: CoreState, s: SetIdx): (used: seq<bool>)
    ensures |used| == 4
  {
    seq(4, w requires 0 <= w < 4 => c.tags[4 * s + w].valid)
  }

  /** Exact replacement in every run: a lookup that misses picks the lowest-numbered invalid
      way of its set; in a full set, the way not used last in the pair that was not used last. */
  lemma MissReplaces(ss: seq<Sys>, ins: seq<CpuIn>, n: nat)
    requires IsRun(ss, ins) && n <= |ins| && LooksUp(ss[n].core, false)
    ensures var s := AddrToSet(ss[n].core.regs.addr);
            Replaces(UsedCells(ss[n].core, s), Touches(Empty(), LinesOf(Effective(ss, n)), s),
                LookupOutcome(ss[n].core).way)
  {
    RunRefines(ss, ins, n);
    ResetRefines(ss[0]);
    DirectoryDependsOnLinesOnly(InitialCache(ss[0]), Events(ss, n));
    LookupIs(ss[n], CacheAt(ss, n));
    var c := ss[n].core;
    LineFields(c.regs.addr);
    ReplacementIs(LinesOf(Effective(ss, n)), LineOf(c.regs.addr));
    UsedIs(c, CacheAt(ss, n), AddrToSet(c.regs.addr));
  }

  lemma UsedIs(c: CoreState, a: Atomic, s: SetIdx)
    requires ArraysMatch(c, a)
    ensures UsedCells(c, s) == UsedWays(a.dir, s)
  {}

  /** The miss register during a miss, and free otherwise. */
  ghost predicate MissRegisterHolds(c: CoreState) {
    var r, m := c.regs, c.mshr;
    if !(r.fsm.MissWb? || r.fsm.MissFill? || r.fsm.MissFinish?) then !m.valid
    else
      && m.valid && m.op == r.op && m.addr == r.addr && m.wdata == r.wdata && m.wstrb == r.wstrb
      && m.victimEntry == c.tags[4 * AddrToSet(m.addr) + m.way]
      && (m.needsWb <==> m.victimEntry.valid && m.victimEntry.dirty)
      && (r.fsm.MissWb? ==> m.needsWb)
  }

  lemma MissRegisterFollows(s: Sys, a: Atomic)
    requires Refines(s, a)
    ensures MissRegisterHolds(s.core)
  {
    LineFields(s.core.regs.addr);
    assert Cell(SetOf(LineOf(s.core.regs.addr)), s.core.mshr.way) == 4 * AddrToSet(s.core.regs.addr) + s.core.mshr.way;
  }

  lemma MissBegins(c: CoreState, i: CpuIn, mem: MemResp)
    requires LooksUp(c, false) && !c.mshr.valid
    ensures var c' := CoreNext(c, i, mem); c'.regs.fsm == if c'.mshr.needsWb then MissWb else MissFill
  {}

  /** The miss register is busy exactly during a miss; it then holds the request and asks for
      a write-back exactly if its victim is valid and dirty, and exactly then one is made. */
  lemma MissRegisterIs(ss: seq<Sys>, ins: seq<CpuIn>, n: nat)
    requires IsRun(ss, ins) && n <= |ins|
    ensures MissRegisterHolds(ss[n].core)
    ensures n < |ins| && LooksUp(ss[n].core, false) ==>
              ss[n + 1].core.regs.fsm == if ss[n + 1].core.mshr.needsWb then MissWb else MissFill
  {
    RunRefines(ss, ins, n);
    MissRegisterFollows(ss[n], CacheAt(ss, n));
    if n < |ins| && LooksUp(ss[n].core, false) {
      assert Edge(ss, ins, n);
      MissBegins(ss[n].core, ins[n], Respond(ss[n].port));
    }
  }

  /** Memory transfers, against the statistics: whenever the core is idle, eight words have
      been read for every lookup that missed. */
  lemma EightReadsAMiss(ss: seq<Sys>, ins: seq<CpuIn>, n: nat)
    requires IsRun(ss, ins) && n <= |ins| && ss[n].core.regs.fsm.Idle?
    ensures |ss[n].port.store.log| - NumWrites(ss[n].port.store.log) == 8 * Lookups(ss, n, false)
  {
    BusTrafficIsConserved(ss, ins, n);
    LookupsAreAtomicCounts(ss, ins, n);
  }
}
