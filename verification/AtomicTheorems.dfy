/** What whole runs of the transaction-level cache promise. */
module AtomicTheorems {
  import opened DcachePkg
  import opened Directory
  import opened AtomicCache

  ghost predicate ServesWithin(es: seq<Event>, ls: set<LineAddr>) {
    forall i :: 0 <= i < |es| && es[i].Serve? ==> LineOf(es[i].q.addr) in ls
  }

  lemma ResetIsCoherent(a: Atomic, ls: set<LineAddr>)
    requires IsReset(a) && AliasFree(ls)
    ensures Coherent(a, ls) && ViewOf(a) == a.store.words
  {
    forall x: MemIdx ensures ViewOf(a)[x] == a.store.words[x] {
      assert Holder(a.dir, x / 8).None?;
    }
  }

  /** From reset, over lines that do not share backing memory, the cache answers every
      request like the flat memory and always looks like it, however cleans interleave. */
  lemma {:induction false} RunIsFlat(a: Atomic, es: seq<Event>, ls: set<LineAddr>)
    requires IsReset(a) && AliasFree(ls) && ServesWithin(es, ls)
    ensures Coherent(RunEvents(a, es), ls)
    ensures ViewOf(RunEvents(a, es)) == FlatRun(a.store.words, Served(es))
    ensures Replies(a, es) == FlatReplies(a.store.words, Served(es))
  {
    if es == [] {
      ResetIsCoherent(a, ls);
    } else {
      var n := |es| - 1;
      var b, qs := RunEvents(a, es[..n]), Served(es[..n]);
      RunIsFlat(a, es[..n], ls);
      match es[n] {
        case Serve(q) =>
          ServeIsFlatStep(b, ls, q);
          FlatOneMore(a.store.words, qs, q);
        case Clean(s, w) =>
          CleanKeepsView(b, ls, s, w);
          assert Served(es) == qs + [] == qs;
      }
    }
  }

  lemma FlatOneMore(m: MemWords, qs: seq<Request>, q: Request)
    ensures FlatRun(m, qs + [q]) == FlatStep(FlatRun(m, qs), q)
    ensures FlatReplies(m, qs + [q]) == FlatReplies(m, qs) + [FlatReply(FlatRun(m, qs), q)]
  {
    assert (qs + [q])[..|qs|] == qs;
  }

  // ------------------------------------------------ the flat memory, byte by byte

  /** The request writes byte b of word x: bits 18 to 3 of its address select the word. */
  predicate Writes(q: Request, x: nat, b: nat)
    requires b < 8
  {
    q.StoreReq? && q.addr / 8 % 0x1_0000 == x && q.strb[b]
  }

  /** Of the first n requests, k is the last that writes this byte. */
  predicate WritesLast(qs: seq<Request>, n: nat, x: nat, b: nat, k: nat)
    requires k < n <= |qs| && b < 8
  {
    Writes(qs[k], x, b) && forall j :: k < j < n ==> !Writes(qs[j], x, b)
  }

  /** v is what the last of the first n requests to write this byte wrote there, or else the
      byte that memory started with. */
  ghost predicate LastWritten(m: MemWords, qs: seq<Request>, n: nat, x: MemIdx, b: nat, v: bv8)
    requires n <= |qs| && b < 8
  {
    && (forall k :: 0 <= k < n && WritesLast(qs, n, x, b, k) ==> v == qs[k].data[b])
    && ((forall k :: 0 <= k < n ==> !Writes(qs[k], x, b)) ==> v == m[x][b])
  }

  /** One request, byte by byte. */
  lemma FlatStepIs(m: MemWords, q: Request, x: MemIdx, b: nat)
    requires b < 8
    ensures FlatStep(m, q)[x][b] ==
            if q.StoreReq? && q.addr / 8 % 0x1_0000 == x && q.strb[b] then q.data[b] else m[x][b]
    ensures FlatReply(m, q) == if q.StoreReq? then WriteResp else ReadResp(m[q.addr / 8 % 0x1_0000])
  {
    assert q.addr / 8 % 0x1_0000 == WordIdx(q.addr);
  }

  lemma {:induction false} FlatByteIs(m: MemWords, qs: seq<Request>, n: nat, x: MemIdx, b: nat)
    requires n <= |qs| && b < 8
    ensures LastWritten(m, qs, n, x, b, FlatRun(m, qs[..n])[x][b])
  {
    if n > 0 {
      FlatByteIs(m, qs, n - 1, x, b);
      assert qs[..n] == qs[..n - 1] + [qs[n - 1]];
      FlatOneMore(m, qs[..n - 1], qs[n - 1]);
      FlatStepIs(FlatRun(m, qs[..n - 1]), qs[n - 1], x, b);
      ByteOneMore(m, qs, n, x, b, FlatRun(m, qs[..n - 1])[x][b], FlatRun(m, qs[..n])[x][b]);
    }
  }

  lemma ByteOneMore(m: MemWords, qs: seq<Request>, n: nat, x: MemIdx, b: nat, u: bv8, v: bv8)
    requires 0 < n <= |qs| && b < 8 && LastWritten(m, qs, n - 1, x, b, u)
    requires v == if Writes(qs[n - 1], x, b) then qs[n - 1].data[b] else u
    ensures LastWritten(m, qs, n, x, b, v)
  {
    forall k | 0 <= k < n && WritesLast(qs, n, x, b, k) ensures v == qs[k].data[b] {
      if k < n - 1 {
        assert !Writes(qs[n - 1], x, b);
        assert WritesLast(qs, n - 1, x, b, k);
      }
    }
  }

  /** What r has to be as the answer to request k: to a load, each byte of the addressed word
      is the one that the last earlier store to strobe it wrote. */
  ghost predicate AnswersBytes(m: MemWords, qs: seq<Request>, k: nat, r: Response)
    requires k < |qs|
  {
    match qs[k]
    case StoreReq(_, _, _) => r == WriteResp
    case LoadReq(a) => r.ReadResp? && forall b :: 0 <= b < 8 ==> LastWritten(m, qs, k, a / 8 % 0x1_0000, b, r.data[b])
  }

  lemma {:induction false} FlatRepliesAre(m: MemWords, qs: seq<Request>, n: nat, k: nat)
    requires k < n <= |qs|
    ensures FlatReplies(m, qs[..n])[k] == FlatReply(FlatRun(m, qs[..k]), qs[k])
  {
    assert qs[..n] == qs[..n - 1] + [qs[n - 1]];
    FlatOneMore(m, qs[..n - 1], qs[n - 1]);
    if k < n - 1 {
      FlatRepliesAre(m, qs, n - 1, k);
    }
  }

  /** The flat memory is last-write-wins for every single byte. */
  lemma FlatMemoryIsLastWrite(m: MemWords, qs: seq<Request>, k: nat)
    requires k < |qs|
    ensures AnswersBytes(m, qs, k, FlatReplies(m, qs)[k])
  {
    assert qs[..|qs|] == qs;
    FlatRepliesAre(m, qs, |qs|, k);
    match qs[k] {
      case StoreReq(_, _, _) =>
      case LoadReq(a) =>
        forall b | 0 <= b < 8 ensures LastWritten(m, qs, k, a / 8 % 0x1_0000, b, FlatReplies(m, qs)[k].data[b]) {
          FlatByteIs(m, qs, k, a / 8 % 0x1_0000, b);
        }
    }
  }

  // ------------------------------------------------- exactly when it is a memory

  /** Every program over the lines ls sees a flat memory. */
  ghost predicate Transparent(ls: set<LineAddr>) {
    forall a, es :: IsReset(a) && ServesWithin(es, ls) ==> AnswersFlat(a, es)
  }

  ghost predicate AnswersFlat(a: Atomic, es: seq<Event>) { Replies(a, es) == FlatReplies(a.store.words, Served(es)) }

  function ZeroMemory(): Atomic {
    Atomic(Empty(), seq(256, _ => false), ZERO_LINES, Backing(seq(0x1_0000, _ => ZERO_WORD), []), 0, 0)
  }

  const ONES: Word := [1, 1, 1, 1, 1, 1, 1, 1]

  /** Store to one line, load the other line of the same memory words. */
  function AliasProgram(k: LineAddr, l: LineAddr): seq<Event> {
    [Serve(StoreReq(k * LINE_BYTES, ONES, ALL_BYTES)), Serve(LoadReq(l * LINE_BYTES))]
  }

  lemma FirstWordOf(l: LineAddr)
    ensures var a := l * LINE_BYTES;
            LineOf(a) == l && AddrToWordSel(a) == 0 && WordIdx(a) == MemLineOf(l) * 8 == HomeBase(SetOf(l), TagOf(l))
    ensures MemLineOf(l) % NUM_SETS == SetOf(l)
  {
    CodecRebuildsEveryField(TagOf(l), SetOf(l), 0, 0, l * LINE_BYTES);
    CodecRebuildsEveryField(TagOf(l), SetOf(l), 0, 0, SetTagToAddr(SetOf(l), TagOf(l)));
    DivMod(MemLineOf(l), 64, TagOf(l) % 128, SetOf(l));
  }

  lemma OneServe(a: Atomic, q: Request)
    ensures var es := [Serve(q)];
            Served(es) == [q] && RunEvents(a, es) == ServeRequest(a, q) && Replies(a, es) == [Reply(a, q)]
  {
    var es := [Serve(q)];
    assert es[..0] == [] && es[0] == Serve(q);
    assert RunEvents(a, es[..0]) == a;
    assert Served(es) == Served(es[..0]) + [q];
    assert Replies(a, es) == Replies(a, es[..0]) + [Reply(RunEvents(a, es[..0]), q)];
  }

  lemma TwoServes(a: Atomic, q1: Request, q2: Request)
    ensures var es := [Serve(q1), Serve(q2)];
            Served(es) == [q1, q2] && Replies(a, es) == [Reply(a, q1), Reply(ServeRequest(a, q1), q2)]
  {
    var es := [Serve(q1), Serve(q2)];
    OneServe(a, q1);
    assert es[..1] == [Serve(q1)] && es[1] == Serve(q2);
    assert Served(es) == Served(es[..1]) + [q2];
    assert Replies(a, es) == Replies(a, es[..1]) + [Reply(RunEvents(a, es[..1]), q2)];
  }

  lemma TwoFlatReplies(m: MemWords, q1: Request, q2: Request)
    ensures FlatReplies(m, [q1, q2]) == [FlatReply(m, q1), FlatReply(FlatStep(m, q1), q2)]
  {
    FlatOneMore(m, [], q1);
    FlatOneMore(m, [q1], q2);
    assert [] + [q1] == [q1] && [q1] + [q2] == [q1, q2];
  }

  /** The load reads the word that the store has changed in the cache only. */
  lemma AliasRepliesAreStale(a: Atomic, k: LineAddr, l: LineAddr)
    requires IsReset(a) && k != l && MemLineOf(k) == MemLineOf(l) && a.store.words[WordIdx(l * LINE_BYTES)] == ZERO_WORD
    ensures var es := AliasProgram(k, l);
            && Replies(a, es) == [WriteResp, ReadResp(ZERO_WORD)]
            && FlatReplies(a.store.words, Served(es)) == [WriteResp, ReadResp(ONES)]
  {
    var es := AliasProgram(k, l);
    var q1, q2 := es[0].q, es[1].q;
    FirstWordOf(k);
    FirstWordOf(l);
    TwoServes(a, q1, q2);
    TwoFlatReplies(a.store.words, q1, q2);
    AliasReplyIsStale(a, q1, q2);
    StoreThenLoad(a.store.words, q1.addr, q2.addr);
  }

  lemma StoreThenLoad(m: MemWords, a: Addr, b: Addr)
    requires WordIdx(a) == WordIdx(b)
    ensures FlatReply(FlatStep(m, StoreReq(a, ONES, ALL_BYTES)), LoadReq(b)) == ReadResp(ONES)
  {
    assert MergeWord(m[WordIdx(a)], ONES, ALL_BYTES) == ONES;
  }

  lemma AliasReplyIsStale(a: Atomic, q1: Request, q2: Request)
    requires IsReset(a) && q1.StoreReq? && q2.LoadReq?
    requires LineOf(q1.addr) != LineOf(q2.addr) && SetOf(LineOf(q1.addr)) == SetOf(LineOf(q2.addr))
    ensures var l := LineOf(q2.addr);
            Reply(ServeRequest(a, q1), q2) ==
                ReadResp(a.store.words[HomeBase(SetOf(l), TagOf(l)) + AddrToWordSel(q2.addr)])
  {
    var b, s, t := ServeRequest(a, q1), SetOf(LineOf(q1.addr)), TagOf(LineOf(q2.addr));
    SameLine(LineOf(q1.addr), LineOf(q2.addr));
    StoreStaysInCache(a, q1);
    forall v: Way ensures !Holds(b.dir, s, v, t) && (v != 0 ==> b.dir.res[Cell(s, v)].None?) {
      CellsDiffer(s, 0, s, v);
    }
    LoadReadsMemory(b, q2);
  }

  lemma StoreStaysInCache(a: Atomic, q: Request)
    requires IsReset(a) && q.StoreReq?
    ensures var b, l := ServeRequest(a, q), LineOf(q.addr);
            && b.store.words == a.store.words
            && b.dir.res == a.dir.res[Cell(SetOf(l), 0) := Some(TagOf(l))]
            && (forall v: Way :: v != 0 ==> !b.dirty[Cell(SetOf(l), v)])
  {}

  lemma LoadReadsMemory(b: Atomic, q: Request)
    requires q.LoadReq?
    requires var l := LineOf(q.addr);
             && FindWay(b.dir, SetOf(l), TagOf(l)).None?
             && b.dir.res[Cell(SetOf(l), 0)].Some? && b.dir.res[Cell(SetOf(l), 1)].None? && !b.dirty[Cell(SetOf(l), 1)]
    ensures var l := LineOf(q.addr);
            Reply(b, q) == ReadResp(b.store.words[HomeBase(SetOf(l), TagOf(l)) + AddrToWordSel(q.addr)])
  {
    assert Lookup(b.dir, LineOf(q.addr)) == Outcome(false, 1);
  }

  lemma AliasProgramIsNotFlat(a: Atomic, k: LineAddr, l: LineAddr)
    requires IsReset(a) && k != l && MemLineOf(k) == MemLineOf(l) && a.store.words[WordIdx(l * LINE_BYTES)] == ZERO_WORD
    ensures !AnswersFlat(a, AliasProgram(k, l))
  {
    AliasRepliesAreStale(a, k, l);
    assert ZERO_WORD[0] != ONES[0];
    assert ReadResp(ZERO_WORD) != ReadResp(ONES);
    assert Replies(a, AliasProgram(k, l))[1] != FlatReplies(a.store.words, Served(AliasProgram(k, l)))[1];
  }

  lemma AliasProgramWithin(ls: set<LineAddr>, k: LineAddr, l: LineAddr)
    requires k in ls && l in ls
    ensures ServesWithin(AliasProgram(k, l), ls)
  {
    FirstWordOf(k);
    FirstWordOf(l);
  }

  lemma ZeroMemoryIsReset(x: MemIdx)
    ensures IsReset(ZeroMemory()) && ZeroMemory().store.words[x] == ZERO_WORD
  {}

  lemma AliasingIsVisible(a: Atomic, ls: set<LineAddr>, k: LineAddr, l: LineAddr)
    requires k in ls && l in ls && MemLineOf(k) == MemLineOf(l) && k != l
    requires IsReset(a) && a.store.words[WordIdx(l * LINE_BYTES)] == ZERO_WORD
    ensures !Transparent(ls)
  {
    AliasProgramWithin(ls, k, l);
    AliasProgramIsNotFlat(a, k, l);
  }

  /** The cache is a flat memory for every program over ls exactly when no two lines of
      ls share backing words. */
  lemma TransparentIffAliasFree(ls: set<LineAddr>)
    ensures Transparent(ls) <==> AliasFree(ls)
  {
    if AliasFree(ls) {
      forall a, es | IsReset(a) && ServesWithin(es, ls) ensures AnswersFlat(a, es) {
        RunIsFlat(a, es, ls);
      }
    } else {
      var k, l :| k in ls && l in ls && MemLineOf(k) == MemLineOf(l) && k != l;
      ZeroMemoryIsReset(WordIdx(l * LINE_BYTES));
      AliasingIsVisible(ZeroMemory(), ls, k, l);
    }
  }

  // ---------------------------------------------------------- cleaning is invisible

  /** Same resident lines with the same contents, same replacement state, same counts. */
  ghost predicate SameUpToDirt(a: Atomic, b: Atomic) {
    && a.dir == b.dir && a.hits == b.hits && a.misses == b.misses
    && forall s: SetIdx, w: Way :: a.dir.res[Cell(s, w)].Some? ==> a.lines[Cell(s, w)] == b.lines[Cell(s, w)]
  }

  /** Two runs that start from the same memory and serve the same requests, with cleans
      anywhere in either and anything in the reset line arrays, agree on every reply and
      end in the same cache up to dirty bits and memory. */
  lemma CleansAreInvisible(a: Atomic, es: seq<Event>, b: Atomic, fs: seq<Event>, ls: set<LineAddr>)
    requires IsReset(a) && IsReset(b) && a.store.words == b.store.words && AliasFree(ls)
    requires ServesWithin(es, ls) && ServesWithin(fs, ls) && Served(es) == Served(fs)
    ensures Replies(a, es) == Replies(b, fs)
    ensures SameUpToDirt(RunEvents(a, es), RunEvents(b, fs))
    ensures ViewOf(RunEvents(a, es)) == ViewOf(RunEvents(b, fs))
  {
    RunIsFlat(a, es, ls);
    RunIsFlat(b, fs, ls);
    DirectoryDependsOnLinesOnly(a, es);
    DirectoryDependsOnLinesOnly(b, fs);
    var c, d := RunEvents(a, es), RunEvents(b, fs);
    forall s: SetIdx, w: Way | c.dir.res[Cell(s, w)].Some? ensures c.lines[Cell(s, w)] == d.lines[Cell(s, w)] {
      forall k: WordSel ensures c.lines[Cell(s, w)][k] == d.lines[Cell(s, w)][k] {
        ViewOfCell(c.dir, c.lines, c.store.words, ls, s, w, k);
        ViewOfCell(d.dir, d.lines, d.store.words, ls, s, w, k);
      }
    }
  }

  /** With no dirty line left, memory holds the view at every word. */
  lemma CleanCacheMatchesMemory(a: Atomic, ls: set<LineAddr>)
    requires Coherent(a, ls) && forall s: SetIdx, w: Way :: !a.dirty[Cell(s, w)]
    ensures a.store.words == ViewOf(a)
  {
    forall x: MemIdx ensures a.store.words[x] == ViewOf(a)[x] {
      var n := x / 8;
      assert ViewOf(a)[x] == ViewWord(a.dir, a.lines, a.store.words, x);
      match Holder(a.dir, n) {
        case None =>
        case Some(w) =>
          var s: SetIdx := n % NUM_SETS;
          var t := a.dir.res[Cell(s, w)].value;
          HomeOfTag(s, t, n);
          assert a.lines[Cell(s, w)] == ReadLine(a.store.words, HomeBase(s, t));
      }
    }
  }

  // ------------------------------------------------------------------ conservation

  function CountDirty(d: seq<bool>): nat {
    if d == [] then 0 else CountDirty(d[..|d| - 1]) + if d[|d| - 1] then 1 else 0
  }

  lemma {:induction false} CountAfterUpdate(d: seq<bool>, c: nat, v: bool)
    requires c < |d|
    ensures CountDirty(d[c := v]) == CountDirty(d) - (if d[c] then 1 else 0) + (if v then 1 else 0)
  {
    var n := |d| - 1;
    if c == n {
      assert d[c := v][..n] == d[..n];
    } else {
      assert d[c := v][..n] == d[..n][c := v];
      CountAfterUpdate(d[..n], c, v);
    }
  }

  function NumWrites(log: seq<Beat>): nat {
    if log == [] then 0 else NumWrites(log[..|log| - 1]) + if log[|log| - 1].WriteBeat? then 1 else 0
  }

  lemma {:induction false} NumWritesOfConcat(log: seq<Beat>, more: seq<Beat>)
    ensures NumWrites(log + more) == NumWrites(log) + NumWrites(more)
  {
    if more == [] {
      assert log + more == log;
    } else {
      assert (log + more)[..|log + more| - 1] == log + more[..|more| - 1];
      NumWritesOfConcat(log, more[..|more| - 1]);
    }
  }

  lemma {:induction false} NumWritesOfBursts(base: nat, line: Line, n: nat)
    requires base + 8 <= MEM_DEPTH && n <= 8
    ensures NumWrites(WriteBeats(base, line, n)) == n && NumWrites(ReadBeats(base, line, n)) == 0
  {
    if n > 0 {
      assert WriteBeats(base, line, n)[..n - 1] == WriteBeats(base, line, n - 1);
      assert ReadBeats(base, line, n)[..n - 1] == ReadBeats(base, line, n - 1);
      NumWritesOfBursts(base, line, n - 1);
    }
  }

  /** Does this event turn a clean or absent line dirty? */
  predicate Dirties(a: Atomic, e: Event) {
    e.Serve? && e.q.StoreReq? &&
    var l := LineOf(e.q.addr);
    !Present(a, l).dirty[Cell(SetOf(l), Lookup(a.dir, l).way)]
  }

  function CountDirtied(a: Atomic, es: seq<Event>): nat {
    if es == [] then 0
    else CountDirtied(a, es[..|es| - 1]) + if Dirties(RunEvents(a, es[..|es| - 1]), es[|es| - 1]) then 1 else 0
  }

  function CountStores(qs: seq<Request>): nat {
    if qs == [] then 0 else CountStores(qs[..|qs| - 1]) + if qs[|qs| - 1].StoreReq? then 1 else 0
  }

  /** Line write-backs pay exactly for the lines that became dirty and are not dirty any
      more; every miss reads exactly one line. */
  ghost predicate Balanced(a: Atomic, dirtied: nat) {
    && DirtyIsResident(a)
    && NumWrites(a.store.log) + 8 * CountDirty(a.dirty) == 8 * dirtied
    && |a.store.log| == NumWrites(a.store.log) + 8 * a.misses
  }

  lemma CleanKeepsBalance(a: Atomic, s: SetIdx, w: Way, dirtied: nat)
    requires Balanced(a, dirtied)
    ensures Balanced(CleanCell(a, s, w), dirtied)
  {
    var c := Cell(s, w);
    CountAfterUpdate(a.dirty, c, false);
    if a.dirty[c] {
      var base := HomeBase(s, a.dir.res[c].value);
      NumWritesOfConcat(a.store.log, WriteBeats(base, a.lines[c], 8));
      NumWritesOfBursts(base, a.lines[c], 8);
    }
  }

  lemma PresentKeepsBalance(a: Atomic, l: LineAddr, dirtied: nat)
    requires Balanced(a, dirtied)
    ensures Balanced(Present(a, l), dirtied)
    ensures Present(a, l).dir.res[Cell(SetOf(l), Lookup(a.dir, l).way)] == Some(TagOf(l))
  {
    var o := Lookup(a.dir, l);
    if o.hit {
      assert Holds(a.dir, SetOf(l), o.way, TagOf(l));
    } else {
      var b := CleanCell(a, SetOf(l), o.way);
      CleanKeepsBalance(a, SetOf(l), o.way, dirtied);
      var base := HomeBase(SetOf(l), TagOf(l));
      var line := ReadLine(b.store.words, base);
      NumWritesOfConcat(b.store.log, ReadBeats(base, line, 8));
      NumWritesOfBursts(base, line, 8);
      assert Install(a, l, o.way).dirty == b.dirty;
    }
  }

  lemma ApplyKeepsBalance(a: Atomic, e: Event, dirtied: nat)
    requires Balanced(a, dirtied)
    ensures Balanced(Apply(a, e), dirtied + if Dirties(a, e) then 1 else 0)
  {
    match e {
      case Clean(s, w) => CleanKeepsBalance(a, s, w, dirtied);
      case Serve(q) =>
        var l := LineOf(q.addr);
        var c := Cell(SetOf(l), Lookup(a.dir, l).way);
        PresentKeepsBalance(a, l, dirtied);
        var b := Present(a, l);
        CountAfterUpdate(b.dirty, c, b.dirty[c] || q.StoreReq?);
        var d := ServeRequest(a, q);
        assert d.dir.res == b.dir.res by {
          if Lookup(a.dir, l).hit {
            HitMovesNothing(a.dir, l);
          }
        }
        forall s: SetIdx, w: Way | d.dirty[Cell(s, w)] ensures d.dir.res[Cell(s, w)].Some? {
          assert Cell(s, w) == c || b.dirty[Cell(s, w)];
        }
    }
  }

  /** Conservation over every run from reset. */
  lemma {:induction false} WriteBacksAreConserved(a: Atomic, es: seq<Event>)
    requires IsReset(a)
    ensures Balanced(RunEvents(a, es), CountDirtied(a, es))
    ensures CountDirtied(a, es) <= CountStores(Served(es))
  {
    if es == [] {
      NoneDirty(a.dirty);
    } else {
      var n := |es| - 1;
      WriteBacksAreConserved(a, es[..n]);
      ApplyKeepsBalance(RunEvents(a, es[..n]), es[n], CountDirtied(a, es[..n]));
      if es[n].Serve? {
        assert Served(es)[..|Served(es)| - 1] == Served(es[..n]);
      } else {
        assert Served(es) == Served(es[..n]);
      }
    }
  }

  lemma {:induction false} NoneDirty(d: seq<bool>)
    requires forall c :: 0 <= c < |d| ==> !d[c]
    ensures CountDirty(d) == 0
  {
    if d != [] {
      NoneDirty(d[..|d| - 1]);
    }
  }
}
