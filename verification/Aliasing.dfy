/** The tight bound: the clocked cache is a memory for every run over a set of lines
    exactly when no two of them share backing words. */
module Aliasing {
  import opened DcachePkg
  import opened AtomicCache
  import opened AtomicTheorems
  import opened MemPort
  import opened Core
  import opened CoreRefinement
  import opened Transparency
  import opened Timing
  import opened Systems

  /** The responses the CPU has been shown: consumed, or waiting to be. */
  function Shown(ss: seq<Sys>, ins: seq<CpuIn>, n: nat): seq<Response>
    requires n <= |ins| < |ss|
  {
    Delivered(ss, ins, n) + Held(ss[n].core)
  }

  /** In every run that accepts only addresses of these lines, the CPU is shown what a flat
      memory would answer. */
  ghost predicate ClockTransparent(ls: set<LineAddr>) {
    forall ss, ins :: IsRun(ss, ins) && RequestsWithin(Accepted(ss, ins, |ins|), ls) ==> ShowsFlatMemory(ss, ins)
  }

  ghost predicate ShowsFlatMemory(ss: seq<Sys>, ins: seq<CpuIn>)
    requires IsRun(ss, ins)
  {
    Shown(ss, ins, |ins|) <= FlatReplies(ss[0].port.store.words, Accepted(ss, ins, |ins|))
  }

  lemma FlatRepliesGrow(m: MemWords, qs: seq<Request>, more: seq<Request>)
    requires |more| <= 1
    ensures FlatReplies(m, qs) <= FlatReplies(m, qs + more)
  {
    if more == [] {
      assert qs + more == qs;
    } else {
      FlatOneMore(m, qs, more[0]);
      assert more == [more[0]];
    }
  }

  lemma AliasFreeRunShowsFlatMemory(ss: seq<Sys>, ins: seq<CpuIn>, ls: set<LineAddr>)
    requires AliasFreeRun(ss, ins, |ins|, ls)
    ensures ShowsFlatMemory(ss, ins)
  {
    RunIsCoherent(ss, ins, |ins|, ls);
    FlatRepliesGrow(ss[0].port.store.words, Effective(ss, |ins|), InFlight(ss[|ins|].core));
  }

  // ------------------------------------------------------------ two inputs, far apart

  /** From one request to the next: long enough for a miss and its response. */
  const GAP: nat := 51

  /** Store to line k in cycle 0, load line l in cycle GAP, accept every response at once. */
  function AliasInputs(k: LineAddr, l: LineAddr): (ins: seq<CpuIn>)
    ensures |ins| == 2 * GAP
  {
    var store := RestIn().(wvalid := true, waddr := k * LINE_BYTES, wdata := ONES, wstrb := ALL_BYTES);
    var load := RestIn().(rvalid := true, raddr := l * LINE_BYTES);
    seq(2 * GAP, j => if j == 0 then store else if j == GAP then load else RestIn())
  }

  ghost predicate RestsDuring(ins: seq<CpuIn>, from: nat, to: nat)
    requires to <= |ins|
  {
    forall j {:trigger ins[j]} :: from <= j < to ==> ins[j] == RestIn()
  }

  ghost predicate NeverFlushes(ins: seq<CpuIn>) { forall j {:trigger ins[j]} :: 0 <= j < |ins| ==> !ins[j].flushReq }

  lemma RestEdge(c: CoreState, mem: MemResp)
    requires AtRest(c) && c.rf.fsm.RfIdle?
    ensures Accepts(c, RestIn()).None? && AtRest(CoreNext(c, RestIn(), mem)) && Held(CoreNext(c, RestIn(), mem)) == []
  {}

  lemma RestEdgeOfRun(ss: seq<Sys>, ins: seq<CpuIn>, n: nat)
    requires IsRun(ss, ins) && n < |ins| && AtRest(ss[n].core) && ins[n] == RestIn()
    ensures AtRest(ss[n + 1].core) && Held(ss[n + 1].core) == []
  {
    RunInStep(ss, ins, n);
    assert Edge(ss, ins, n);
    RestEdge(ss[n].core, Respond(ss[n].port));
  }

  lemma {:induction false} RestContinues(ss: seq<Sys>, ins: seq<CpuIn>, m: nat, n: nat)
    requires IsRun(ss, ins) && m < n <= |ins| && AtRest(ss[m].core)
    requires RestsDuring(ins, m, n)
    ensures AtRest(ss[n].core) && Held(ss[n].core) == []
  {
    if m < n - 1 {
      RestContinues(ss, ins, m, n - 1);
    }
    assert ins[n - 1] == RestIn();
    RestEdgeOfRun(ss, ins, n - 1);
  }

  lemma {:induction false} RestAcceptsNothing(ss: seq<Sys>, ins: seq<CpuIn>, m: nat, n: nat)
    requires m <= n <= |ins| < |ss|
    requires RestsDuring(ins, m, n)
    ensures Accepted(ss, ins, n) == Accepted(ss, ins, m)
  {
    if m < n {
      RestAcceptsNothing(ss, ins, m, n - 1);
      assert ins[n - 1] == RestIn();
      assert Accepts(ss[n - 1].core, ins[n - 1]).None?;
    }
  }

  /** Over a one-cycle memory a request followed by GAP - 1 idle cycles leaves the cache at rest. */
  lemma RequestThenRest(ss: seq<Sys>, ins: seq<CpuIn>, n: nat)
    requires PromptRun(ss, ins) && n + GAP <= |ins| && Accepts(ss[n].core, ins[n]).Some?
    requires NeverFlushes(ins)
    requires RestsDuring(ins, n + 1, n + GAP)
    ensures AtRest(ss[n + GAP].core) && Held(ss[n + GAP].core) == []
  {
    var latency := LatencyOf(ss[n + 1].core);
    ResponseLatency(ss, ins, n, latency);
    RunInStep(ss, ins, n + latency);
    NoFlushNoClean(ss, ins, n + latency);
    ShownMeansRest(ss[n + latency]);
    RestContinues(ss, ins, n + latency, n + GAP);
  }

  // -------------------------------------------------------- without clean-all walks

  function Serves(qs: seq<Request>): (es: seq<Event>)
    ensures |es| == |qs|
  {
    seq(|qs|, j requires 0 <= j < |qs| => Serve(qs[j]))
  }

  lemma NoFlushEdge(s: Sys, i: CpuIn, mem: MemResp)
    requires InStep(s) && !s.core.regs.flushActive && !i.flushReq
    ensures !CoreNext(s.core, i, mem).regs.flushActive
    ensures EventAt(s.core).Some? ==> EventAt(s.core).value.Serve?
  {}

  lemma {:induction false} NoFlushNoClean(ss: seq<Sys>, ins: seq<CpuIn>, n: nat)
    requires IsRun(ss, ins) && n <= |ins|
    requires NeverFlushes(ins)
    ensures !ss[n].core.regs.flushActive && Events(ss, n) == Serves(Effective(ss, n))
  {
    if n > 0 {
      NoFlushNoClean(ss, ins, n - 1);
      NoFlushEdgeOfRun(ss, ins, n - 1);
      EffectiveOneMore(ss, n - 1);
      OneMoreServe(Events(ss, n - 1), Effective(ss, n - 1), EventAt(ss[n - 1].core));
    }
  }

  lemma NoFlushEdgeOfRun(ss: seq<Sys>, ins: seq<CpuIn>, n: nat)
    requires IsRun(ss, ins) && n < |ins| && !ss[n].core.regs.flushActive && !ins[n].flushReq
    ensures !ss[n + 1].core.regs.flushActive
    ensures EventAt(ss[n].core).Some? ==> EventAt(ss[n].core).value.Serve?
  {
    RunInStep(ss, ins, n);
    assert Edge(ss, ins, n);
    NoFlushEdge(ss[n], ins[n], Respond(ss[n].port));
  }

  lemma OneMoreServe(es: seq<Event>, qs: seq<Request>, e: Option<Event>)
    requires es == Serves(qs) && (e.Some? ==> e.value.Serve?)
    ensures es + (if e.Some? then [e.value] else []) ==
            Serves(match e case Some(Serve(q)) => qs + [q] case _ => qs)
  {}

  // ------------------------------------------------------------------ the theorem

  lemma RestIsReady(s: Sys, i: CpuIn)
    requires InStep(s) && AtRest(s.core) && Held(s.core) == [] && !i.flushReq && (i.rvalid || i.wvalid)
    ensures Accepts(s.core, i) == Some(Offered(i))
  {}

  lemma OneMoreAccepted(ss: seq<Sys>, ins: seq<CpuIn>, n: nat)
    requires IsRun(ss, ins) && n < |ins| && AtRest(ss[n].core) && Held(ss[n].core) == []
    requires !ins[n].flushReq && (ins[n].rvalid || ins[n].wvalid)
    ensures Accepts(ss[n].core, ins[n]).Some? && Accepted(ss, ins, n + 1) == Accepted(ss, ins, n) + [Offered(ins[n])]
  {
    RunInStep(ss, ins, n);
    RestIsReady(ss[n], ins[n]);
  }

  /** Inputs of one request, GAP - 1 idle cycles, another request and GAP - 1 idle cycles. */
  ghost predicate TwoRequests(ins: seq<CpuIn>) {
    && |ins| == 2 * GAP
    && ins[0].wvalid && !ins[0].rvalid && ins[GAP].rvalid
    && RestsDuring(ins, 1, GAP) && RestsDuring(ins, GAP + 1, 2 * GAP) && NeverFlushes(ins)
  }

  /** At rest in cycle n with everything answered, these requests having been accepted. */
  ghost predicate RestsAfter(ss: seq<Sys>, ins: seq<CpuIn>, n: nat, qs: seq<Request>)
    requires n <= |ins| < |ss|
  {
    AtRest(ss[n].core) && Held(ss[n].core) == [] && Accepted(ss, ins, n) == qs
  }

  lemma RequestAtRest(ss: seq<Sys>, ins: seq<CpuIn>, n: nat, m: nat, qs: seq<Request>)
    requires PromptRun(ss, ins) && m == n + GAP <= |ins| && RestsAfter(ss, ins, n, qs)
    requires ins[n].rvalid || ins[n].wvalid
    requires NeverFlushes(ins)
    requires RestsDuring(ins, n + 1, m)
    ensures RestsAfter(ss, ins, m, qs + [Offered(ins[n])])
  {
    OneMoreAccepted(ss, ins, n);
    RequestThenRest(ss, ins, n);
    RestAcceptsNothing(ss, ins, n + 1, m);
  }

  lemma ResetRests(ss: seq<Sys>, ins: seq<CpuIn>)
    requires |ins| < |ss| && SysIsReset(ss[0])
    ensures RestsAfter(ss, ins, 0, [])
  {}

  lemma TwoRequestsAccepted(ss: seq<Sys>, ins: seq<CpuIn>)
    requires PromptRun(ss, ins) && TwoRequests(ins)
    ensures RestsAfter(ss, ins, 2 * GAP, [Offered(ins[0]), Offered(ins[GAP])])
  {
    var q, r := Offered(ins[0]), Offered(ins[GAP]);
    ResetRests(ss, ins);
    RequestAtRest(ss, ins, 0, GAP, []);
    assert [] + [q] == [q];
    RequestAtRest(ss, ins, GAP, 2 * GAP, [q]);
    assert [q] + [r] == [q, r];
  }

  /** A store to one line and, later, a load of another line with the same backing words:
      the cache shows the old word. */
  lemma AliasRunIsStale(ss: seq<Sys>, ins: seq<CpuIn>, k: LineAddr, l: LineAddr)
    requires PromptRun(ss, ins) && TwoRequests(ins) && k != l && MemLineOf(k) == MemLineOf(l)
    requires ins[0].waddr == k * LINE_BYTES && ins[0].wdata == ONES && ins[0].wstrb == ALL_BYTES
    requires ins[GAP].raddr == l * LINE_BYTES
    requires ss[0].port.store.words[WordIdx(l * LINE_BYTES)] == ZERO_WORD
    ensures !ShowsFlatMemory(ss, ins)
  {
    var n := |ins|;
    TwoRequestsAccepted(ss, ins);
    RestRunEvents(ss, ins, n);
    ServesOfTwo(k, l);
    AliasingRunIsStale(ss, ins, n, k, l);
    StaleIsNotFlat(Shown(ss, ins, n), FlatReplies(ss[0].port.store.words, Accepted(ss, ins, n)));
  }

  lemma ServesOfTwo(k: LineAddr, l: LineAddr)
    ensures Serves([StoreReq(k * LINE_BYTES, ONES, ALL_BYTES), LoadReq(l * LINE_BYTES)]) == AliasProgram(k, l)
  {}

  lemma StaleIsNotFlat(shown: seq<Response>, flat: seq<Response>)
    requires shown == [WriteResp, ReadResp(ZERO_WORD)] && flat == [WriteResp, ReadResp(ONES)]
    ensures !(shown <= flat)
  {
    assert ZERO_WORD[0] != ONES[0];
    assert shown[1] != flat[1];
  }

  lemma RestRunEvents(ss: seq<Sys>, ins: seq<CpuIn>, n: nat)
    requires IsRun(ss, ins) && n <= |ins| && AtRest(ss[n].core)
    requires NeverFlushes(ins)
    ensures Effective(ss, n) == Accepted(ss, ins, n) && Events(ss, n) == Serves(Accepted(ss, ins, n))
  {
    RunRefines(ss, ins, n);
    NoFlushNoClean(ss, ins, n);
  }

  /** Exactly when the clocked cache is a memory. */
  lemma ClockTransparentIffAliasFree(ls: set<LineAddr>)
    ensures ClockTransparent(ls) <==> AliasFree(ls)
  {
    if AliasFree(ls) {
      forall ss, ins | IsRun(ss, ins) && RequestsWithin(Accepted(ss, ins, |ins|), ls) ensures ShowsFlatMemory(ss, ins) {
        AliasFreeRunShowsFlatMemory(ss, ins, ls);
      }
    } else {
      var k, l :| k in ls && l in ls && MemLineOf(k) == MemLineOf(l) && k != l;
      SomeRunIsStale(ls, k, l);
    }
  }

  lemma AliasInputsAre(k: LineAddr, l: LineAddr)
    ensures var ins := AliasInputs(k, l);
            && TwoRequests(ins) && ins[0].waddr == k * LINE_BYTES && ins[0].wdata == ONES && ins[0].wstrb == ALL_BYTES
            && ins[GAP].raddr == l * LINE_BYTES
  {
    var ins := AliasInputs(k, l);
    assert ins[0] == RestIn().(wvalid := true, waddr := k * LINE_BYTES, wdata := ONES, wstrb := ALL_BYTES);
    assert ins[GAP] == RestIn().(rvalid := true, raddr := l * LINE_BYTES);
  }

  lemma SomeRunIsStale(ls: set<LineAddr>, k: LineAddr, l: LineAddr)
    requires k in ls && l in ls && MemLineOf(k) == MemLineOf(l) && k != l
    ensures !ClockTransparent(ls)
  {
    AliasInputsAre(k, l);
    StaleOnBoard(ResetBoard(), AliasInputs(k, l), ls, k, l);
  }

  lemma StaleOnBoard(b: Board, ins: seq<CpuIn>, ls: set<LineAddr>, k: LineAddr, l: LineAddr)
    requires k in ls && l in ls && MemLineOf(k) == MemLineOf(l) && k != l
    requires BoardIsReset(b) && b.mem.words[WordIdx(l * LINE_BYTES)] == ZERO_WORD && TwoRequests(ins)
    requires ins[0].waddr == k * LINE_BYTES && ins[0].wdata == ONES && ins[0].wstrb == ALL_BYTES
    requires ins[GAP].raddr == l * LINE_BYTES
    ensures !ClockTransparent(ls)
  {
    BoardIsPromptRun(b, ins);
    StaleRun(BoardRun(b, ins), ins, ls, k, l);
  }

  lemma StaleRun(ss: seq<Sys>, ins: seq<CpuIn>, ls: set<LineAddr>, k: LineAddr, l: LineAddr)
    requires k in ls && l in ls && MemLineOf(k) == MemLineOf(l) && k != l
    requires PromptRun(ss, ins) && TwoRequests(ins)
    requires ins[0].waddr == k * LINE_BYTES && ins[0].wdata == ONES && ins[0].wstrb == ALL_BYTES
    requires ins[GAP].raddr == l * LINE_BYTES
    requires ss[0].port.store.words[WordIdx(l * LINE_BYTES)] == ZERO_WORD
    ensures !ClockTransparent(ls)
  {
    TwoRequestsAccepted(ss, ins);
    AliasRunIsStale(ss, ins, k, l);
    TwoLinesWithin(ls, k, l);
  }

  lemma TwoLinesWithin(ls: set<LineAddr>, k: LineAddr, l: LineAddr)
    requires k in ls && l in ls
    ensures RequestsWithin([StoreReq(k * LINE_BYTES, ONES, ALL_BYTES), LoadReq(l * LINE_BYTES)], ls)
  {
    FirstWordOf(k);
    FirstWordOf(l);
  }
}
