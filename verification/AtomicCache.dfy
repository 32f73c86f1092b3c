/** The cache as a transaction-level machine: every access and every clean is one step.
    The clocked core is proved to refine this machine, and this machine to refine a flat
    byte-strobed memory. */
module AtomicCache {
  import opened DcachePkg
  import opened Directory

  /** One completed transfer on the 64-bit memory bus. */
  datatype Beat = WriteBeat(idx: MemIdx, data: Word) | ReadBeat(idx: MemIdx, data: Word)

  /** Backing memory contents and every transfer it has performed, oldest first. */
  datatype Backing = Backing(words: MemWords, log: seq<Beat>)

  type DirtyBits = d: seq<bool> | |d| == 256 witness seq(256, _ => false)
  type LineArray = l: seq<Line> | |l| == 256 witness ZERO_LINES

  const ZERO_LINES: seq<Line> := seq<Line>(256, _ => ZERO_LINE)

  datatype Atomic = Atomic(dir: Dir, dirty: DirtyBits, lines: LineArray, store: Backing, hits: nat, misses: nat)

  datatype Event = Serve(q: Request) | Clean(s: SetIdx, w: Way)

  predicate Aligned(base: nat) { base % WORDS_PER_LINE == 0 && base + WORDS_PER_LINE <= MEM_DEPTH }

  /** Memory after the first n words of a line have been written at base. */
  function WritePrefix(m: MemWords, base: nat, line: Line, n: nat): MemWords
    requires base + 8 <= MEM_DEPTH && n <= 8
  {
    m[..base] + line[..n] + m[base + n..]
  }

  function ReadLine(m: MemWords, base: nat): Line
    requires base + 8 <= MEM_DEPTH
  {
    m[base..base + 8]
  }

  function WriteBeats(base: nat, line: Line, n: nat): seq<Beat>
    requires base + 8 <= MEM_DEPTH && n <= 8
  {
    seq(n, k requires 0 <= k < n => WriteBeat(base + k, line[k]))
  }

  function ReadBeats(base: nat, line: Line, n: nat): seq<Beat>
    requires base + 8 <= MEM_DEPTH && n <= 8
  {
    seq(n, k requires 0 <= k < n => ReadBeat(base + k, line[k]))
  }

  function WriteLine(st: Backing, base: nat, line: Line): Backing
    requires base + 8 <= MEM_DEPTH
  {
    Backing(WritePrefix(st.words, base, line, 8), st.log + WriteBeats(base, line, 8))
  }

  /** First memory word of the line with tag t in set s. */
  function HomeBase(s: SetIdx, t: Tag): (base: nat)
    ensures Aligned(base) && base == (t % 128 * NUM_SETS + s) * WORDS_PER_LINE
  {
    CodecRebuildsEveryField(t, s, 0, 0, SetTagToAddr(s, t));
    LineBaseFacts(SetTagToAddr(s, t));
    LineBase(SetTagToAddr(s, t))
  }

  /** Memory after cell (s, w) has been written back if it needs to be. */
  function WriteBack(a: Atomic, s: SetIdx, w: Way): Backing {
    var c := Cell(s, w);
    if a.dirty[c] && a.dir.res[c].Some? then WriteLine(a.store, HomeBase(s, a.dir.res[c].value), a.lines[c])
    else a.store
  }

  function CleanCell(a: Atomic, s: SetIdx, w: Way): Atomic {
    a.(dirty := a.dirty[Cell(s, w) := false], store := WriteBack(a, s, w))
  }

  /** Bring line l into way w of its set: write the victim back, then read the line. */
  function Install(a: Atomic, l: LineAddr, w: Way): Atomic {
    var b := CleanCell(a, SetOf(l), w);
    var c, base := Cell(SetOf(l), w), HomeBase(SetOf(l), TagOf(l));
    var line := ReadLine(b.store.words, base);
    b.(dir := b.dir.(res := b.dir.res[c := Some(TagOf(l))]),
       lines := b.lines[c := line],
       store := Backing(b.store.words, b.store.log + ReadBeats(base, line, 8)),
       misses := b.misses + 1)
  }

  /** The cache with the line of an access present. */
  function Present(a: Atomic, l: LineAddr): Atomic {
    var o := Lookup(a.dir, l);
    if o.hit then a.(hits := a.hits + 1) else Install(a, l, o.way)
  }

  function ServeRequest(a: Atomic, q: Request): Atomic {
    var l := LineOf(q.addr);
    var b := Present(a, l);
    var c := Cell(SetOf(l), Lookup(a.dir, l).way);
    b.(dir := Access(a.dir, l),
       dirty := b.dirty[c := b.dirty[c] || q.StoreReq?],
       lines := if q.StoreReq? then b.lines[c := MergeLine(b.lines[c], AddrToWordSel(q.addr), q.data, q.strb)]
                else b.lines)
  }

  function Reply(a: Atomic, q: Request): Response {
    var l := LineOf(q.addr);
    if q.StoreReq? then WriteResp
    else ReadResp(Present(a, l).lines[Cell(SetOf(l), Lookup(a.dir, l).way)][AddrToWordSel(q.addr)])
  }

  function Apply(a: Atomic, e: Event): Atomic {
    match e
    case Serve(q) => ServeRequest(a, q)
    case Clean(s, w) => CleanCell(a, s, w)
  }

  function RunEvents(a: Atomic, es: seq<Event>): Atomic {
    if es == [] then a else Apply(RunEvents(a, es[..|es| - 1]), es[|es| - 1])
  }

  function Served(es: seq<Event>): seq<Request> {
    if es == [] then []
    else Served(es[..|es| - 1]) + (if es[|es| - 1].Serve? then [es[|es| - 1].q] else [])
  }

  function Replies(a: Atomic, es: seq<Event>): seq<Response> {
    if es == [] then []
    else
      var n := |es| - 1;
      Replies(a, es[..n]) + (if es[n].Serve? then [Reply(RunEvents(a, es[..n]), es[n].q)] else [])
  }

  function LinesOf(qs: seq<Request>): (ls: seq<LineAddr>)
    ensures |ls| == |qs|
  {
    seq(|qs|, i requires 0 <= i < |qs| => LineOf(qs[i].addr))
  }

  /** After reset nothing is resident or dirty; the line array holds anything. */
  predicate IsReset(a: Atomic) {
    && a.dir == Empty() && (forall c :: 0 <= c < NUM_CELLS ==> !a.dirty[c])
    && a.store.log == [] && a.hits == 0 && a.misses == 0
  }

  // -------------------------------------------------------------- flat memory

  /** The shadow memory of the testbench: one strobed word write. */
  function FlatStep(m: MemWords, q: Request): MemWords {
    if q.StoreReq? then m[WordIdx(q.addr) := MergeWord(m[WordIdx(q.addr)], q.data, q.strb)] else m
  }

  function FlatReply(m: MemWords, q: Request): Response {
    if q.StoreReq? then WriteResp else ReadResp(m[WordIdx(q.addr)])
  }

  function FlatRun(m: MemWords, qs: seq<Request>): MemWords {
    if qs == [] then m else FlatStep(FlatRun(m, qs[..|qs| - 1]), qs[|qs| - 1])
  }

  function FlatReplies(m: MemWords, qs: seq<Request>): (rs: seq<Response>)
    ensures |rs| == |qs|
  {
    if qs == [] then []
    else FlatReplies(m, qs[..|qs| - 1]) + [FlatReply(FlatRun(m, qs[..|qs| - 1]), qs[|qs| - 1])]
  }

  // ------------------------------------------------------ outcome independence

  lemma RunOneMore(d: Dir, ls: seq<LineAddr>, l: LineAddr)
    ensures Directory.Run(d, ls + [l]) == Access(Directory.Run(d, ls), l)
    ensures Outcomes(d, ls + [l]) == Outcomes(d, ls) + [Lookup(Directory.Run(d, ls), l)]
    ensures CountHits(Outcomes(d, ls + [l])) == CountHits(Outcomes(d, ls)) +
        if Lookup(Directory.Run(d, ls), l).hit then 1 else 0
  {
    assert (ls + [l])[..|ls|] == ls;
    var os := Outcomes(d, ls + [l]);
    assert os[..|os| - 1] == Outcomes(d, ls);
  }

  lemma ApplyOnDirectory(a: Atomic, e: Event)
    ensures e.Clean? ==> Apply(a, e).dir == a.dir && Apply(a, e).hits == a.hits && Apply(a, e).misses == a.misses
    ensures e.Serve? ==>
              var hit := Lookup(a.dir, LineOf(e.q.addr)).hit;
              && Apply(a, e).dir == Access(a.dir, LineOf(e.q.addr))
              && Apply(a, e).hits == a.hits + (if hit then 1 else 0)
              && Apply(a, e).misses == a.misses + (if hit then 0 else 1)
  {}

  /** What the directory and the counters of b say when the accesses qs led from d to b. */
  ghost predicate TracksDirectory(d: Dir, counted: nat, b: Atomic, hits: nat, qs: seq<Request>) {
    && b.dir == Directory.Run(d, LinesOf(qs))
    && b.hits == hits + CountHits(Outcomes(d, LinesOf(qs)))
    && b.hits + b.misses == counted + |qs|
  }

  lemma ApplyTracksDirectory(d: Dir, counted: nat, b: Atomic, hits: nat, qs: seq<Request>, e: Event)
    requires TracksDirectory(d, counted, b, hits, qs)
    ensures TracksDirectory(d, counted, Apply(b, e), hits, qs + if e.Serve? then [e.q] else [])
  {
    ApplyOnDirectory(b, e);
    if e.Serve? {
      assert LinesOf(qs + [e.q]) == LinesOf(qs) + [LineOf(e.q.addr)];
      RunOneMore(d, LinesOf(qs), LineOf(e.q.addr));
    } else {
      assert qs + [] == qs;
    }
  }

  /** Hits, misses and ways are those of the directory run over the accessed lines:
      data, strobes, load-versus-store, memory and cleaning have no say. */
  lemma {:induction false} DirectoryDependsOnLinesOnly(a: Atomic, es: seq<Event>)
    ensures TracksDirectory(a.dir, a.hits + a.misses, RunEvents(a, es), a.hits, Served(es))
  {
    if es != [] {
      var n := |es| - 1;
      DirectoryDependsOnLinesOnly(a, es[..n]);
      ApplyTracksDirectory(a.dir, a.hits + a.misses, RunEvents(a, es[..n]), a.hits, Served(es[..n]), es[n]);
    } else {
      assert LinesOf([]) == [];
    }
  }

  function CountHits(os: seq<Outcome>): nat {
    if os == [] then 0 else CountHits(os[..|os| - 1]) + (if os[|os| - 1].hit then 1 else 0)
  }

  // ---------------------------------------------------------------- coherence

  /** No two of these lines share backing memory. */
  ghost predicate AliasFree(ls: set<LineAddr>) {
    forall k, l :: k in ls && l in ls && MemLineOf(k) == MemLineOf(l) ==> k == l
  }

  lemma OneWindowIsAliasFree(ls: set<LineAddr>, window: nat)
    requires forall l :: l in ls ==> l / MEM_LINES == window
    ensures AliasFree(ls)
  {
    forall k, l | k in ls && l in ls && MemLineOf(k) == MemLineOf(l) ensures k == l {
      assert k / MEM_LINES == l / MEM_LINES;
    }
  }

  /** Way w of the set of memory line n holds a line that lives there. */
  predicate HoldsLine(d: Dir, w: Way, n: nat) {
    var r := d.res[Cell(n % NUM_SETS, w)];
    r.Some? && r.value % 128 == n / NUM_SETS
  }

  function Holder(d: Dir, n: nat): Option<Way> {
    if HoldsLine(d, 0, n) then Some(0)
    else if HoldsLine(d, 1, n) then Some(1)
    else if HoldsLine(d, 2, n) then Some(2)
    else if HoldsLine(d, 3, n) then Some(3)
    else None
  }

  /** What the CPU would see at word x: the cached word if a way holds its line, else memory. */
  function ViewWord(d: Dir, lines: LineArray, m: MemWords, x: MemIdx): Word {
    match Holder(d, x / 8)
    case Some(w) => lines[Cell(x / 8 % NUM_SETS, w)][x % 8]
    case None => m[x]
  }

  function View(d: Dir, lines: LineArray, m: MemWords): MemWords {
    seq(MEM_DEPTH, x requires 0 <= x < MEM_DEPTH => ViewWord(d, lines, m, x))
  }

  function ViewOf(a: Atomic): MemWords { View(a.dir, a.lines, a.store.words) }

  /** Resident lines come from ls. */
  ghost predicate Within(d: Dir, ls: set<LineAddr>) {
    forall s: SetIdx, w: Way :: d.res[Cell(s, w)].Some? ==> d.res[Cell(s, w)].value * NUM_SETS + s in ls
  }

  ghost predicate CleanLinesMatch(a: Atomic) {
    forall s: SetIdx, w: Way :: a.dir.res[Cell(s, w)].Some? && !a.dirty[Cell(s, w)] ==>
      a.lines[Cell(s, w)] == ReadLine(a.store.words, HomeBase(s, a.dir.res[Cell(s, w)].value))
  }

  ghost predicate DirtyIsResident(a: Atomic) {
    forall s: SetIdx, w: Way :: a.dirty[Cell(s, w)] ==> a.dir.res[Cell(s, w)].Some?
  }

  ghost predicate Coherent(a: Atomic, ls: set<LineAddr>) {
    && AliasFree(ls) && Unique(a.dir) && Within(a.dir, ls) && DirtyIsResident(a) && CleanLinesMatch(a)
  }

  /** Among alias-free lines the holder of a memory line is the one way that holds it. */
  lemma HolderIsTheWay(d: Dir, ls: set<LineAddr>, n: nat, w: Way)
    requires AliasFree(ls) && Unique(d) && Within(d, ls) && n < MEM_LINES && HoldsLine(d, w, n)
    ensures Holder(d, n) == Some(w)
  {
    var v := Holder(d, n).value;
    var s := n % NUM_SETS;
    var t, u := d.res[Cell(s, w)].value, d.res[Cell(s, v)].value;
    CodecRebuildsEveryField(t, s, 0, 0, SetTagToAddr(s, t));
    CodecRebuildsEveryField(u, s, 0, 0, SetTagToAddr(s, u));
    assert t * NUM_SETS + s in ls && u * NUM_SETS + s in ls;
    assert t == u;
  }

  /** A line of an alias-free set is resident exactly where its memory line is held. */
  lemma HolderOfLine(d: Dir, ls: set<LineAddr>, l: LineAddr)
    requires AliasFree(ls) && Unique(d) && Within(d, ls) && l in ls
    ensures Holder(d, MemLineOf(l)) == FindWay(d, SetOf(l), TagOf(l))
    ensures HomeBase(SetOf(l), TagOf(l)) == MemLineOf(l) * WORDS_PER_LINE
    ensures MemLineOf(l) % NUM_SETS == SetOf(l) && MemLineOf(l) / NUM_SETS == TagOf(l) % 128
  {
    var s, t, n := SetOf(l), TagOf(l), MemLineOf(l);
    CodecRebuildsEveryField(t, s, 0, 0, SetTagToAddr(s, t));
    DivMod(n, 64, t % 128, s);
    match Holder(d, n) {
      case Some(v) => HeldTagIs(d, ls, s, v, t);
      case None =>
        if FindWay(d, s, t).Some? {
          assert HoldsLine(d, FindWay(d, s, t).value, n);
        }
    }
  }

  /** A way that holds the memory line of an alias-free line holds that very line. */
  lemma HeldTagIs(d: Dir, ls: set<LineAddr>, s: SetIdx, v: Way, t: Tag)
    requires AliasFree(ls) && Unique(d) && Within(d, ls) && t * NUM_SETS + s in ls
    requires d.res[Cell(s, v)].Some? && d.res[Cell(s, v)].value % 128 == t % 128
    ensures Holds(d, s, v, t) && FindWay(d, s, t) == Some(v)
  {
    var u := d.res[Cell(s, v)].value;
    CodecRebuildsEveryField(t, s, 0, 0, SetTagToAddr(s, t));
    CodecRebuildsEveryField(u, s, 0, 0, SetTagToAddr(s, u));
    assert u * NUM_SETS + s in ls;
    assert u == t;
  }

  /** The word at x of a held line, seen from the cell that holds it. */
  lemma ViewOfCell(d: Dir, lines: LineArray, m: MemWords, ls: set<LineAddr>, s: SetIdx, w: Way, k: WordSel)
    requires AliasFree(ls) && Unique(d) && Within(d, ls) && d.res[Cell(s, w)].Some?
    ensures var x := HomeBase(s, d.res[Cell(s, w)].value) + k;
            View(d, lines, m)[x] == lines[Cell(s, w)][k] && x / 8 % NUM_SETS == s && Holder(d, x / 8) == Some(w)
  {
    var t := d.res[Cell(s, w)].value;
    var n := t % 128 * NUM_SETS + s;
    var x := HomeBase(s, t) + k;
    DivMod(x, 8, n, k);
    DivMod(n, 64, t % 128, s);
    HolderIsTheWay(d, ls, n, w);
  }

  lemma LineReadBack(m: MemWords, base: nat, line: Line, other: nat)
    requires Aligned(base) && Aligned(other)
    ensures ReadLine(WritePrefix(m, base, line, 8), other) == if base == other then line else ReadLine(m, other)
  {
    if base < other {
      assert base + 8 <= other;
    } else if base > other {
      assert other + 8 <= base;
    }
  }

  lemma SameHomeSameLine(d: Dir, ls: set<LineAddr>, s: SetIdx, w: Way, r: SetIdx, v: Way)
    requires AliasFree(ls) && Unique(d) && Within(d, ls)
    requires d.res[Cell(s, w)].Some? && d.res[Cell(r, v)].Some?
    requires HomeBase(s, d.res[Cell(s, w)].value) == HomeBase(r, d.res[Cell(r, v)].value)
    ensures s == r && w == v
  {
    ViewOfCell(d, ZERO_LINES, seq(0x1_0000, _ => ZERO_WORD), ls, s, w, 0);
    ViewOfCell(d, ZERO_LINES, seq(0x1_0000, _ => ZERO_WORD), ls, r, v, 0);
  }

  /** Writing back part of a resident line is invisible: the view takes the cached words. */
  lemma PartialWriteBackIsInvisible(d: Dir, lines: LineArray, m: MemWords, ls: set<LineAddr>, s: SetIdx, w: Way, n: nat)
    requires AliasFree(ls) && Unique(d) && Within(d, ls) && d.res[Cell(s, w)].Some? && n <= 8
    ensures View(d, lines, WritePrefix(m, HomeBase(s, d.res[Cell(s, w)].value), lines[Cell(s, w)], n)) ==
        View(d, lines, m)
  {
    var base := HomeBase(s, d.res[Cell(s, w)].value);
    var m' := WritePrefix(m, base, lines[Cell(s, w)], n);
    forall x: MemIdx ensures View(d, lines, m')[x] == View(d, lines, m)[x] {
      if base <= x < base + 8 {
        WordOfHeldLine(d, lines, m, m', ls, s, w, x);
      }
    }
  }

  /** Memory is not looked at for the words of a resident line. */
  lemma WordOfHeldLine(d: Dir, lines: LineArray, m: MemWords, m': MemWords, ls: set<LineAddr>, s: SetIdx, w: Way,
      x: MemIdx)
    requires AliasFree(ls) && Unique(d) && Within(d, ls) && d.res[Cell(s, w)].Some?
    requires HomeBase(s, d.res[Cell(s, w)].value) <= x < HomeBase(s, d.res[Cell(s, w)].value) + 8
    ensures View(d, lines, m')[x] == View(d, lines, m)[x]
  {
    var k := x - HomeBase(s, d.res[Cell(s, w)].value);
    ViewOfCell(d, lines, m, ls, s, w, k);
    ViewOfCell(d, lines, m', ls, s, w, k);
  }

  /** Cleaning is invisible except to memory. */
  lemma CleanKeepsView(a: Atomic, ls: set<LineAddr>, s: SetIdx, w: Way)
    requires Coherent(a, ls)
    ensures Coherent(CleanCell(a, s, w), ls) && ViewOf(CleanCell(a, s, w)) == ViewOf(a)
  {
    var c, b := Cell(s, w), CleanCell(a, s, w);
    if a.dirty[c] {
      PartialWriteBackIsInvisible(a.dir, a.lines, a.store.words, ls, s, w, 8);
      var base := HomeBase(s, a.dir.res[c].value);
      forall r: SetIdx, v: Way | b.dir.res[Cell(r, v)].Some? && !b.dirty[Cell(r, v)]
        ensures b.lines[Cell(r, v)] == ReadLine(b.store.words, HomeBase(r, b.dir.res[Cell(r, v)].value))
      {
        CellsDiffer(s, w, r, v);
        LineReadBack(a.store.words, base, a.lines[c], HomeBase(r, a.dir.res[Cell(r, v)].value));
        if HomeBase(r, a.dir.res[Cell(r, v)].value) == base {
          SameHomeSameLine(a.dir, ls, s, w, r, v);
        }
      }
    } else {
      assert b.dirty == a.dirty;
    }
  }

  /** Filling a line is invisible: the line was in memory and now is cached. */
  lemma InstallKeepsView(a: Atomic, ls: set<LineAddr>, l: LineAddr)
    requires Coherent(a, ls) && l in ls && !Lookup(a.dir, l).hit
    ensures var b := Install(a, l, Lookup(a.dir, l).way);
            Coherent(b, ls) && ViewOf(b) == ViewOf(a)
  {
    var s, t, w := SetOf(l), TagOf(l), Lookup(a.dir, l).way;
    CleanKeepsView(a, ls, s, w);
    var a1 := CleanCell(a, s, w);
    var b := Install(a, l, w);
    InstallChangesOneCell(a, l);
    assert t * NUM_SETS + s == l;
    assert DifferAt(a1.dir, b.dir, s, w);
    InstallKeepsCoherent(a1, b, ls, s, w, t);
    forall x: MemIdx ensures ViewOf(b)[x] == ViewOf(a1)[x] {
      InstallKeepsWord(a1, b, ls, l, w, x);
    }
  }

  lemma InstallChangesOneCell(a: Atomic, l: LineAddr)
    requires Unique(a.dir) && !Lookup(a.dir, l).hit
    ensures var s, t, w := SetOf(l), TagOf(l), Lookup(a.dir, l).way;
            var c, b := CleanCell(a, s, w), Install(a, l, w);
            && Unique(b.dir)
            && (forall r: SetIdx, v: Way ::
                  b.dir.res[Cell(r, v)] == if r == s && v == w then Some(t) else c.dir.res[Cell(r, v)])
            && (forall r: SetIdx, v: Way ::
                  b.lines[Cell(r, v)] == if r == s && v == w then ReadLine(c.store.words, HomeBase(s, t))
                                         else c.lines[Cell(r, v)])
  {
    var s, w := SetOf(l), Lookup(a.dir, l).way;
    AccessKeepsUnique(a.dir, l);
    assert Access(a.dir, l).res == Install(a, l, w).dir.res;
    forall r: SetIdx, v: Way ensures Cell(r, v) == Cell(s, w) <==> r == s && v == w {
      CellsDiffer(r, v, s, w);
    }
  }

  lemma InstallKeepsCoherent(a: Atomic, b: Atomic, ls: set<LineAddr>, s: SetIdx, w: Way, t: Tag)
    requires Coherent(a, ls) && Unique(b.dir) && t * NUM_SETS + s in ls && b.dirty == a.dirty && !a.dirty[Cell(s, w)]
    requires b.store.words == a.store.words
    requires forall r: SetIdx, v: Way ::
               b.dir.res[Cell(r, v)] == if r == s && v == w then Some(t) else a.dir.res[Cell(r, v)]
    requires forall r: SetIdx, v: Way ::
               b.lines[Cell(r, v)] == if r == s && v == w then ReadLine(a.store.words, HomeBase(s, t))
                                      else a.lines[Cell(r, v)]
    ensures Coherent(b, ls)
  {}

  /** Only way w of one set differs between the directories d and e. */
  ghost predicate DifferAt(d: Dir, e: Dir, s: SetIdx, w: Way) {
    forall r: SetIdx, v: Way :: !(r == s && v == w) ==> d.res[Cell(r, v)] == e.res[Cell(r, v)]
  }

  /** Where the line in (s, w) is not involved, the holders before and after agree. */
  lemma HolderElsewhere(d: Dir, e: Dir, ls: set<LineAddr>, s: SetIdx, w: Way, n: nat)
    requires AliasFree(ls) && Unique(d) && Unique(e) && Within(d, ls) && Within(e, ls) && n < MEM_LINES
    requires DifferAt(d, e, s, w) && !(n % NUM_SETS == s && HoldsLine(e, w, n))
    ensures n % NUM_SETS == s && Holder(d, n) == Some(w) ==> Holder(e, n) == None
    ensures !(n % NUM_SETS == s && Holder(d, n) == Some(w)) ==> Holder(e, n) == Holder(d, n)
  {
    var r := n % NUM_SETS;
    forall u: Way | !(r == s && u == w) ensures HoldsLine(d, u, n) == HoldsLine(e, u, n) {
      assert d.res[Cell(r, u)] == e.res[Cell(r, u)];
    }
    forall u: Way | HoldsLine(d, u, n) ensures Holder(d, n) == Some(u) {
      HolderIsTheWay(d, ls, n, u);
    }
    forall u: Way | HoldsLine(e, u, n) ensures Holder(e, n) == Some(u) {
      HolderIsTheWay(e, ls, n, u);
    }
  }

  lemma InstallKeepsWord(a: Atomic, b: Atomic, ls: set<LineAddr>, l: LineAddr, w: Way, x: MemIdx)
    requires Coherent(a, ls) && Coherent(b, ls) && l in ls && FindWay(a.dir, SetOf(l), TagOf(l)).None?
    requires b.store.words == a.store.words && !a.dirty[Cell(SetOf(l), w)]
    requires DifferAt(a.dir, b.dir, SetOf(l), w) && b.dir.res[Cell(SetOf(l), w)] == Some(TagOf(l))
    requires forall r: SetIdx, v: Way ::
               b.lines[Cell(r, v)] == if r == SetOf(l) && v == w then
                   ReadLine(a.store.words, HomeBase(SetOf(l), TagOf(l)))
                                      else a.lines[Cell(r, v)]
    ensures ViewOf(b)[x] == ViewOf(a)[x]
  {
    assert ViewOf(a)[x] == ViewWord(a.dir, a.lines, a.store.words, x);
    assert ViewOf(b)[x] == ViewWord(b.dir, b.lines, b.store.words, x);
    if x / 8 == MemLineOf(l) {
      InstallKeepsOwnWord(a, b, ls, l, w, x);
    } else {
      HomeOfHolder(b.dir, w, x / 8, l);
      HolderElsewhere(a.dir, b.dir, ls, SetOf(l), w, x / 8);
      ViewElsewhere(a, b, l, w, x);
    }
  }

  lemma InstallKeepsOwnWord(a: Atomic, b: Atomic, ls: set<LineAddr>, l: LineAddr, w: Way, x: MemIdx)
    requires Coherent(a, ls) && Coherent(b, ls) && l in ls && FindWay(a.dir, SetOf(l), TagOf(l)).None?
    requires b.store.words == a.store.words && b.dir.res[Cell(SetOf(l), w)] == Some(TagOf(l))
    requires b.lines[Cell(SetOf(l), w)] == ReadLine(a.store.words, HomeBase(SetOf(l), TagOf(l)))
    requires x / 8 == MemLineOf(l)
    ensures ViewWord(b.dir, b.lines, b.store.words, x) == ViewWord(a.dir, a.lines, a.store.words, x)
  {
    var n := MemLineOf(l);
    HolderOfLine(a.dir, ls, l);
    HolderIsTheWay(b.dir, ls, n, w);
    assert x == n * 8 + x % 8;
  }

  lemma ViewElsewhere(a: Atomic, b: Atomic, l: LineAddr, w: Way, x: MemIdx)
    requires CleanLinesMatch(a) && b.store.words == a.store.words && !a.dirty[Cell(SetOf(l), w)]
    requires forall r: SetIdx, v: Way :: !(r == SetOf(l) && v == w) ==> b.lines[Cell(r, v)] == a.lines[Cell(r, v)]
    requires var n := x / 8;
             Holder(b.dir, n) == if n % NUM_SETS == SetOf(l) && Holder(a.dir, n) == Some(w) then None
                                 else Holder(a.dir, n)
    ensures ViewWord(b.dir, b.lines, b.store.words, x) == ViewWord(a.dir, a.lines, a.store.words, x)
  {
    var n, s := x / 8, SetOf(l);
    if n % NUM_SETS == s && Holder(a.dir, n) == Some(w) {
      var t := a.dir.res[Cell(s, w)].value;
      HomeOfTag(s, t, n);
      assert a.lines[Cell(s, w)] == ReadLine(a.store.words, HomeBase(s, t));
    }
  }

  lemma HomeOfTag(s: SetIdx, t: Tag, n: nat)
    requires n % NUM_SETS == s && t % 128 == n / NUM_SETS
    ensures HomeBase(s, t) == n * 8
  {}

  lemma HomeOfHolder(d: Dir, w: Way, n: nat, l: LineAddr)
    requires n < MEM_LINES && d.res[Cell(SetOf(l), w)] == Some(TagOf(l))
    ensures n % NUM_SETS == SetOf(l) && HoldsLine(d, w, n) ==> n == MemLineOf(l)
  {
    CodecRebuildsEveryField(TagOf(l), SetOf(l), 0, 0, SetTagToAddr(SetOf(l), TagOf(l)));
  }

  /** Making the line of an access present changes nothing to see. */
  lemma PresentKeepsView(a: Atomic, ls: set<LineAddr>, l: LineAddr)
    requires Coherent(a, ls) && l in ls
    ensures var b := Present(a, l);
            && Coherent(b, ls) && ViewOf(b) == ViewOf(a)
            && b.dir.res == Access(a.dir, l).res && b.dir.res[Cell(SetOf(l), Lookup(a.dir, l).way)] == Some(TagOf(l))
  {
    if !Lookup(a.dir, l).hit {
      InstallKeepsView(a, ls, l);
    } else {
      HitMovesNothing(a.dir, l);
    }
  }

  /** The view of the addressed word is the word in the way that holds its line. */
  lemma CachedWord(b: Atomic, ls: set<LineAddr>, q: Request, w: Way)
    requires Coherent(b, ls) && b.dir.res[Cell(SetOf(LineOf(q.addr)), w)] == Some(TagOf(LineOf(q.addr)))
    ensures ViewOf(b)[WordIdx(q.addr)] == b.lines[Cell(SetOf(LineOf(q.addr)), w)][AddrToWordSel(q.addr)]
  {
    HomeOfAddr(q.addr);
    ViewOfCell(b.dir, b.lines, b.store.words, ls, SetOf(LineOf(q.addr)), w, AddrToWordSel(q.addr));
  }

  lemma HomeOfAddr(a: Addr)
    ensures HomeBase(SetOf(LineOf(a)), TagOf(LineOf(a))) + AddrToWordSel(a) == WordIdx(a)
  {
    var l := LineOf(a);
    LineBaseFacts(a);
    CodecRebuildsEveryField(TagOf(l), SetOf(l), 0, 0, SetTagToAddr(SetOf(l), TagOf(l)));
  }

  /** One access is one step of the flat memory on the view, and answers from it. */
  lemma ServeIsFlatStep(a: Atomic, ls: set<LineAddr>, q: Request)
    requires Coherent(a, ls) && LineOf(q.addr) in ls
    ensures Coherent(ServeRequest(a, q), ls)
    ensures ViewOf(ServeRequest(a, q)) == FlatStep(ViewOf(a), q)
    ensures Reply(a, q) == FlatReply(ViewOf(a), q)
  {
    var l, w := LineOf(q.addr), Lookup(a.dir, LineOf(q.addr)).way;
    PresentKeepsView(a, ls, l);
    CachedWord(Present(a, l), ls, q, w);
    WriteHitIsFlatStep(Present(a, l), ServeRequest(a, q), ls, q, w);
  }

  lemma WriteHitIsFlatStep(b: Atomic, d: Atomic, ls: set<LineAddr>, q: Request, w: Way)
    requires Coherent(b, ls) && LineOf(q.addr) in ls
    requires b.dir.res[Cell(SetOf(LineOf(q.addr)), w)] == Some(TagOf(LineOf(q.addr)))
    requires d.dir.res == b.dir.res && d.store == b.store
    requires var c := Cell(SetOf(LineOf(q.addr)), w);
             && d.dirty == b.dirty[c := b.dirty[c] || q.StoreReq?]
             && d.lines ==
                if q.StoreReq? then b.lines[c := MergeLine(b.lines[c], AddrToWordSel(q.addr), q.data, q.strb)]
                else b.lines
    ensures Coherent(d, ls) && ViewOf(d) == FlatStep(ViewOf(b), q)
  {
    var l := LineOf(q.addr);
    var s, k := SetOf(l), AddrToWordSel(q.addr);
    forall r: SetIdx, v: Way
      ensures !(r == s && v == w) ==>
                d.lines[Cell(r, v)] == b.lines[Cell(r, v)] && d.dirty[Cell(r, v)] == b.dirty[Cell(r, v)]
    {
      CellsDiffer(s, w, r, v);
    }
    HolderOfLine(b.dir, ls, l);
    HolderIsTheWay(b.dir, ls, MemLineOf(l), w);
    WrittenCellIsCoherent(b, d, ls, s, w);
    forall x: MemIdx ensures ViewOf(d)[x] == FlatStep(ViewOf(b), q)[x] {
      WrittenWord(b, d, q, w, x);
    }
  }

  /** Changing one dirty line keeps coherence. */
  lemma WrittenCellIsCoherent(b: Atomic, d: Atomic, ls: set<LineAddr>, s: SetIdx, w: Way)
    requires Coherent(b, ls) && b.dir.res[Cell(s, w)].Some? && d.dir.res == b.dir.res && d.store == b.store
    requires d.dirty[Cell(s, w)] || (d.lines == b.lines && d.dirty[Cell(s, w)] == b.dirty[Cell(s, w)])
    requires forall r: SetIdx, v: Way ::
               !(r == s && v == w) ==>
                 d.lines[Cell(r, v)] == b.lines[Cell(r, v)] && d.dirty[Cell(r, v)] == b.dirty[Cell(r, v)]
    ensures Coherent(d, ls)
  {}

  lemma WrittenWord(b: Atomic, d: Atomic, q: Request, w: Way, x: MemIdx)
    requires d.dir.res == b.dir.res && d.store == b.store
    requires Holder(b.dir, MemLineOf(LineOf(q.addr))) == Some(w)
    requires var c := Cell(SetOf(LineOf(q.addr)), w);
             d.lines == if q.StoreReq? then b.lines[c := MergeLine(b.lines[c], AddrToWordSel(q.addr), q.data, q.strb)]
                        else b.lines
    ensures ViewOf(d)[x] == FlatStep(ViewOf(b), q)[x]
  {
    var l, y := LineOf(q.addr), WordIdx(q.addr);
    var n, m := x / 8, MemLineOf(l);
    LineBaseFacts(q.addr);
    DivMod(y, 8, m, AddrToWordSel(q.addr));
    CodecRebuildsEveryField(TagOf(l), SetOf(l), 0, 0, SetTagToAddr(SetOf(l), TagOf(l)));
    DivMod(m, 64, TagOf(l) % 128, SetOf(l));
    assert Holder(d.dir, n) == Holder(b.dir, n);
    assert ViewOf(b)[x] == ViewWord(b.dir, b.lines, b.store.words, x);
    assert ViewOf(d)[x] == ViewWord(d.dir, d.lines, d.store.words, x);
    match Holder(b.dir, n) {
      case None =>
      case Some(v) => CellsDiffer(n % NUM_SETS, v, SetOf(l), w);
    }
    if x == y {
      assert n == m && x % 8 == AddrToWordSel(q.addr);
    } else if n == m {
      assert x % 8 != AddrToWordSel(q.addr);
    }
  }
}
