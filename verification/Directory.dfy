/** Which line sits in which way, and which way goes next: the part of the cache whose
    evolution depends on the sequence of accessed lines and on nothing else. */
module Directory {
  import opened DcachePkg

  type Residents = r: seq<Option<Tag>> | |r| == 256 witness seq(256, _ => None)
  type PlruArray = p: seq<Plru> | |p| == 64 witness seq(64, _ => Plru(false, false, false))

  datatype Dir = Dir(res: Residents, plru: PlruArray)

  /** Hit or miss, and the way that serves the access. */
  datatype Outcome = Outcome(hit: bool, way: Way)

  function Empty(): Dir { Dir(seq(256, _ => None), seq(64, _ => Plru(false, false, false))) }

  function SetOf(l: LineAddr): SetIdx { l % NUM_SETS }

  function TagOf(l: LineAddr): Tag { l / NUM_SETS }

  predicate Holds(d: Dir, s: SetIdx, w: Way, t: Tag) { d.res[Cell(s, w)] == Some(t) }

  function FindWay(d: Dir, s: SetIdx, t: Tag): (r: Option<Way>)
    ensures r.Some? ==> Holds(d, s, r.value, t)
    ensures r.None? ==> forall w: Way :: !Holds(d, s, w, t)
  {
    if Holds(d, s, 0, t) then Some(0)
    else if Holds(d, s, 1, t) then Some(1)
    else if Holds(d, s, 2, t) then Some(2)
    else if Holds(d, s, 3, t) then Some(3)
    else None
  }

  function EmptyWays(d: Dir, s: SetIdx): WayMask {
    [d.res[Cell(s, 0)].None?, d.res[Cell(s, 1)].None?, d.res[Cell(s, 2)].None?, d.res[Cell(s, 3)].None?]
  }

  function AllocWay(d: Dir, s: SetIdx): Way {
    if AnyWay(EmptyWays(d, s)) then LowestWay(EmptyWays(d, s)) else PlruVictim(d.plru[s])
  }

  function Lookup(d: Dir, l: LineAddr): Outcome {
    match FindWay(d, SetOf(l), TagOf(l))
    case Some(w) => Outcome(true, w)
    case None => Outcome(false, AllocWay(d, SetOf(l)))
  }

  function Access(d: Dir, l: LineAddr): Dir {
    var s, w := SetOf(l), Lookup(d, l).way;
    Dir(d.res[Cell(s, w) := Some(TagOf(l))], d.plru[s := PlruTouch(d.plru[s], w)])
  }

  function Run(d: Dir, ls: seq<LineAddr>): Dir {
    if ls == [] then d else Access(Run(d, ls[..|ls| - 1]), ls[|ls| - 1])
  }

  /** The hits, misses and ways of a whole run. */
  function Outcomes(d: Dir, ls: seq<LineAddr>): (os: seq<Outcome>)
    ensures |os| == |ls|
  {
    if ls == [] then []
    else Outcomes(d, ls[..|ls| - 1]) + [Lookup(Run(d, ls[..|ls| - 1]), ls[|ls| - 1])]
  }

  // --------------------------------------------------------------- invariants

  ghost predicate Unique(d: Dir) {
    forall s: SetIdx, w: Way, v: Way :: w != v && d.res[Cell(s, w)].Some? ==> d.res[Cell(s, w)] != d.res[Cell(s, v)]
  }

  lemma CellsDiffer(s: SetIdx, w: Way, r: SetIdx, v: Way)
    ensures Cell(s, w) == Cell(r, v) <==> s == r && w == v
  {}

  /** An access never duplicates a tag, never empties a cell, and replaces a
      resident line only in a full set. */
  lemma AccessKeepsUnique(d: Dir, l: LineAddr)
    requires Unique(d)
    ensures Unique(Access(d, l))
    ensures FindWay(Access(d, l), SetOf(l), TagOf(l)) == Some(Lookup(d, l).way)
    ensures forall c :: 0 <= c < NUM_CELLS && d.res[c].Some? ==> Access(d, l).res[c].Some?
    ensures var s, w := SetOf(l), Lookup(d, l).way;
            !Lookup(d, l).hit && d.res[Cell(s, w)].Some? ==> forall v: Way :: d.res[Cell(s, v)].Some?
  {
    var s, t, w, d' := SetOf(l), TagOf(l), Lookup(d, l).way, Access(d, l);
    forall r: SetIdx, v: Way
      ensures d'.res[Cell(r, v)] == if r == s && v == w then Some(t) else d.res[Cell(r, v)]
    {
      CellsDiffer(s, w, r, v);
    }
    forall v: Way | v != w ensures !Holds(d, s, v, t) {
      if Lookup(d, l).hit {
        assert Holds(d, s, w, t);
      }
    }
    assert forall v: Way | v != w :: !Holds(d', s, v, t);
    assert Holds(d', s, w, t);
  }

  lemma {:induction false} RunKeepsUnique(d: Dir, ls: seq<LineAddr>)
    requires Unique(d)
    ensures Unique(Run(d, ls))
  {
    if ls != [] {
      RunKeepsUnique(d, ls[..|ls| - 1]);
      AccessKeepsUnique(Run(d, ls[..|ls| - 1]), ls[|ls| - 1]);
    }
  }

  // ---------------------------------------------------------- reuse guarantee

  /** The latest line of set s in the history outside a given set of lines. */
  function LatestIn(ls: seq<LineAddr>, s: SetIdx, skip: set<LineAddr>): (r: Option<LineAddr>)
    ensures r.Some? ==> SetOf(r.value) == s && r.value !in skip && r.value in ls
  {
    if ls == [] then None
    else
      var l := ls[|ls| - 1];
      if SetOf(l) == s && l !in skip then Some(l) else LatestIn(ls[..|ls| - 1], s, skip)
  }

  lemma {:induction false} LatestInSkippingMore(ls: seq<LineAddr>, s: SetIdx, skip: set<LineAddr>, more: set<LineAddr>)
    requires skip <= more
    ensures var r := LatestIn(ls, s, skip);
            r.None? || r.value !in more ==> LatestIn(ls, s, more) == r
  {
    if ls != [] {
      LatestInSkippingMore(ls[..|ls| - 1], s, skip, more);
    }
  }

  /** The three most recently accessed distinct lines of a set. */
  function First(ls: seq<LineAddr>, s: SetIdx): Option<LineAddr> { LatestIn(ls, s, {}) }

  function Second(ls: seq<LineAddr>, s: SetIdx): Option<LineAddr> {
    if First(ls, s).Some? then LatestIn(ls, s, {First(ls, s).value}) else None
  }

  function Third(ls: seq<LineAddr>, s: SetIdx): Option<LineAddr> {
    if Second(ls, s).Some? then LatestIn(ls, s, {First(ls, s).value, Second(ls, s).value}) else None
  }

  /** One more access moves its line to the front. */
  lemma RecencyOneMore(ls: seq<LineAddr>, l: LineAddr, s: SetIdx)
    ensures var l1, l2, l3, more := First(ls, s), Second(ls, s), Third(ls, s), ls + [l];
            if SetOf(l) != s then First(more, s) == l1 && Second(more, s) == l2 && Third(more, s) == l3
            else
              && First(more, s) == Some(l)
              && Second(more, s) == (if l1 == Some(l) then l2 else l1)
              && Third(more, s) == (if l1 == Some(l) || l2 == Some(l) then l3 else l2)
  {
    assert (ls + [l])[..|ls|] == ls;
    if SetOf(l) == s {
      LatestInSkippingMore(ls, s, {}, {l});
      if First(ls, s).Some? {
        var k := First(ls, s).value;
        LatestInSkippingMore(ls, s, {k}, {l, k});
        assert {l, k} == {k, l};
      }
    }
  }

  predicate Resident(d: Dir, l: LineAddr) { FindWay(d, SetOf(l), TagOf(l)).Some? }

  function WayOf(d: Dir, l: Option<LineAddr>): Option<Way> {
    if l.Some? then FindWay(d, SetOf(l.value), TagOf(l.value)) else None
  }

  /** The latest line, the one before it and the one before that are resident, and the
      tree points away from the ways of the first two. */
  ghost predicate Recent(d: Dir, s: SetIdx, l1: LineAddr, l2: Option<LineAddr>, l3: Option<LineAddr>) {
    && SetOf(l1) == s && Resident(d, l1)
    && (l2.Some? ==> SetOf(l2.value) == s && l2.value != l1 && Resident(d, l2.value))
    && (l3.Some? ==> SetOf(l3.value) == s && l3.value != l1 && l3 != l2 && Resident(d, l3.value))
    && PointsAway(d.plru[s], WayOf(d, Some(l1)).value, WayOf(d, l2))
  }

  lemma SameLine(l: LineAddr, k: LineAddr)
    ensures SetOf(l) == SetOf(k) && TagOf(l) == TagOf(k) <==> l == k
  {}

  lemma AccessElsewhere(d: Dir, l: LineAddr, k: LineAddr)
    requires SetOf(l) != SetOf(k)
    ensures WayOf(Access(d, l), Some(k)) == WayOf(d, Some(k))
  {
    forall v: Way ensures Holds(Access(d, l), SetOf(k), v, TagOf(k)) == Holds(d, SetOf(k), v, TagOf(k)) {
      CellsDiffer(SetOf(l), Lookup(d, l).way, SetOf(k), v);
    }
  }

  lemma HitMovesNothing(d: Dir, l: LineAddr)
    requires Lookup(d, l).hit
    ensures Access(d, l).res == d.res
  {
    assert Holds(d, SetOf(l), Lookup(d, l).way, TagOf(l));
  }

  /** A miss leaves every line whose way it does not take. */
  lemma AccessKeepsOther(d: Dir, l: LineAddr, k: LineAddr)
    requires Unique(d) && SetOf(l) == SetOf(k) && l != k && Resident(d, k)
    requires Lookup(d, l).way != WayOf(d, Some(k)).value
    ensures WayOf(Access(d, l), Some(k)) == WayOf(d, Some(k))
  {
    var s, w := SetOf(l), WayOf(d, Some(k)).value;
    SameLine(l, k);
    assert Holds(d, s, w, TagOf(k));
    forall v: Way ensures Holds(Access(d, l), s, v, TagOf(k)) <==> v == w {
      CellsDiffer(s, Lookup(d, l).way, s, v);
    }
  }

  /** No access takes a way the tree points away from, unless it is its own. */
  lemma RecentWayIsNotTaken(d: Dir, l: LineAddr, last: Way, before: Option<Way>, k: LineAddr)
    requires Unique(d) && PointsAway(d.plru[SetOf(l)], last, before) && l != k && SetOf(k) == SetOf(l)
    requires Resident(d, k) && (WayOf(d, Some(k)) == Some(last) || WayOf(d, Some(k)) == before)
    ensures Lookup(d, l).way != WayOf(d, Some(k)).value
  {
    var w := WayOf(d, Some(k)).value;
    TouchKeepsPointingAway(d.plru[SetOf(l)], last, before, w);
    SameLine(l, k);
    assert Holds(d, SetOf(l), w, TagOf(k));
  }

  lemma AccessKeepsRecent(d: Dir, l: LineAddr, s: SetIdx, l1: LineAddr, l2: Option<LineAddr>, l3: Option<LineAddr>)
    requires Unique(d) && Recent(d, s, l1, l2, l3)
    ensures SetOf(l) != s || l == l1 ==> Recent(Access(d, l), s, l1, l2, l3)
    ensures SetOf(l) == s && Some(l) == l2 ==> Recent(Access(d, l), s, l, Some(l1), l3)
    ensures SetOf(l) == s && l != l1 && Some(l) != l2 ==> Recent(Access(d, l), s, l, Some(l1), l2)
  {
    if SetOf(l) != s {
      AccessElsewhere(d, l, l1);
      if l2.Some? {
        AccessElsewhere(d, l, l2.value);
      }
      if l3.Some? {
        AccessElsewhere(d, l, l3.value);
      }
    } else {
      var w1, w2 := WayOf(d, Some(l1)), WayOf(d, l2);
      AccessKeepsUnique(d, l);
      TouchKeepsPointingAway(d.plru[s], w1.value, w2, Lookup(d, l).way);
      if l != l1 {
        RecentWayIsNotTaken(d, l, w1.value, w2, l1);
        AccessKeepsOther(d, l, l1);
      }
      if l2.Some? && Some(l) != l2 {
        RecentWayIsNotTaken(d, l, w1.value, w2, l2.value);
        AccessKeepsOther(d, l, l2.value);
      }
      if l == l1 || Some(l) == l2 {
        HitMovesNothing(d, l);
      }
    }
  }

  lemma {:induction false} RunKeepsRecent(d: Dir, ls: seq<LineAddr>, s: SetIdx)
    requires Unique(d)
    ensures First(ls, s).Some? ==> Recent(Run(d, ls), s, First(ls, s).value, Second(ls, s), Third(ls, s))
  {
    if ls != [] {
      var n := |ls| - 1;
      RunKeepsRecent(d, ls[..n], s);
      RunKeepsUnique(d, ls[..n]);
      RecencyOneMore(ls[..n], ls[n], s);
      assert ls[..n] + [ls[n]] == ls;
      AccessKeepsUnique(Run(d, ls[..n]), ls[n]);
      if First(ls[..n], s).Some? {
        AccessKeepsRecent(Run(d, ls[..n]), ls[n], s, First(ls[..n], s).value, Second(ls[..n], s), Third(ls[..n], s));
      }
    }
  }

  /** Reuse guarantee: after any history, an access to one of the three most recently
      accessed distinct lines of its set hits. */
  lemma RecentLinesHit(d: Dir, ls: seq<LineAddr>, l: LineAddr)
    requires Unique(d)
    requires First(ls, SetOf(l)) == Some(l) || Second(ls, SetOf(l)) == Some(l) || Third(ls, SetOf(l)) == Some(l)
    ensures Lookup(Run(d, ls), l).hit
  {
    RunKeepsRecent(d, ls, SetOf(l));
  }

  // ------------------------------------------------------------ which way is next

  /** The ways through which set s has been accessed, oldest first. */
  function Touches(d: Dir, ls: seq<LineAddr>, s: SetIdx): seq<Way> {
    if ls == [] then []
    else
      var n := |ls| - 1;
      Touches(d, ls[..n], s) + if SetOf(ls[n]) == s then [Lookup(Run(d, ls[..n]), ls[n]).way] else []
  }

  lemma {:induction false} TreeRemembersTouches(d: Dir, ls: seq<LineAddr>, s: SetIdx)
    ensures Run(d, ls).plru[s] == PlruRun(d.plru[s], Touches(d, ls, s))
  {
    if ls != [] {
      var n := |ls| - 1;
      TreeRemembersTouches(d, ls[..n], s);
      var before, all := Touches(d, ls[..n], s), Touches(d, ls, s);
      if SetOf(ls[n]) == s {
        assert all[..|all| - 1] == before;
      } else {
        assert all == before;
      }
    }
  }

  lemma {:induction false} ResidentWaysWereTouched(ls: seq<LineAddr>, s: SetIdx, w: Way)
    requires Run(Empty(), ls).res[Cell(s, w)].Some?
    ensures w in Touches(Empty(), ls, s)
  {
    if ls != [] {
      var n := |ls| - 1;
      CellsDiffer(s, w, SetOf(ls[n]), Lookup(Run(Empty(), ls[..n]), ls[n]).way);
      if Run(Empty(), ls[..n]).res[Cell(s, w)].Some? {
        ResidentWaysWereTouched(ls[..n], s, w);
      }
    }
  }

  function Sibling(w: Way): Way { if w % 2 == 0 then w + 1 else w - 1 }

  /** The way that a miss in set s takes, when these cells of the set are in use and the set
      has been accessed through these ways: the lowest-numbered unused way, or else, of the
      pair not accessed last, the way not accessed last in that pair. */
  predicate Replaces(used: seq<bool>, touches: seq<Way>, w: Way)
    requires |used| == 4
  {
    if used == [true, true, true, true] then
      touches != [] && w / 2 != touches[|touches| - 1] / 2 && LastOfPair(touches, w / 2) == Some(Sibling(w))
    else !used[w] && forall v: Way :: v < w ==> used[v]
  }

  function UsedWays(d: Dir, s: SetIdx): (used: seq<bool>)
    ensures |used| == 4
  {
    seq(4, w requires 0 <= w < 4 => d.res[Cell(s, w)].Some?)
  }

  lemma VictimReplaces(p: Plru, touches: seq<Way>)
    requires forall w: Way :: w in touches
    ensures Replaces([true, true, true, true], touches, PlruVictim(PlruRun(p, touches)))
  {
    VictimIs(p, touches);
    var v := PlruVictim(PlruRun(p, touches));
    assert v in touches;
    assert LastOfPair(touches, v / 2).Some?;
  }

  lemma AllocationReplaces(d: Dir, s: SetIdx, touches: seq<Way>)
    requires (forall w: Way :: d.res[Cell(s, w)].Some?) ==>
               Replaces([true, true, true, true], touches, PlruVictim(d.plru[s]))
    ensures Replaces(UsedWays(d, s), touches, AllocWay(d, s))
  {
    var used := UsedWays(d, s);
    assert forall w: Way :: EmptyWays(d, s)[w] == !used[w];
    if forall w: Way :: d.res[Cell(s, w)].Some? {
      assert used == [true, true, true, true];
    }
  }

  /** Exact replacement, after any history out of reset. */
  lemma ReplacementIs(ls: seq<LineAddr>, l: LineAddr)
    requires !Lookup(Run(Empty(), ls), l).hit
    ensures var d := Run(Empty(), ls);
            Replaces(UsedWays(d, SetOf(l)), Touches(Empty(), ls, SetOf(l)), Lookup(d, l).way)
  {
    var d, s, touches := Run(Empty(), ls), SetOf(l), Touches(Empty(), ls, SetOf(l));
    if forall w: Way :: d.res[Cell(s, w)].Some? {
      forall w: Way ensures w in touches {
        ResidentWaysWereTouched(ls, s, w);
      }
      TreeRemembersTouches(Empty(), ls, s);
      VictimReplaces(Empty().plru[s], touches);
    }
    AllocationReplaces(d, s, touches);
  }

  /** A directory that holds tags 0 to n - 1 in the first ways of set 0, and nothing else. */
  function FilledSetZero(n: nat, p: Plru): Dir
    requires n <= NUM_WAYS
  {
    Dir(seq(256, c => if 0 <= c < n then Some(c) else None), Empty().plru[0 := p])
  }

  function FullSetZero(p: Plru): Dir { FilledSetZero(4, p) }

  lemma MissFillsNextWay(p: Plru, w: Way)
    ensures Access(FilledSetZero(w, p), w * NUM_SETS) == FilledSetZero(w + 1, PlruTouch(p, w))
  {
    var d, l := FilledSetZero(w, p), w * NUM_SETS;
    assert SetOf(l) == 0 && TagOf(l) == w;
    assert forall v: Way :: d.res[Cell(0, v)] == if v < w then Some(v) else None;
    assert Lookup(d, l) == Outcome(false, w);
    assert d.res[Cell(0, w) := Some(w)] == FilledSetZero(w + 1, p).res;
  }

  /** Out of reset, four lines fill set 0, and the tree is back where it was. */
  lemma FourLinesFillTheSet()
    ensures var p := Plru(false, false, false);
            Access(Access(Access(Access(Empty(), 0), 64), 128), 192) == FullSetZero(p)
  {
    var p := Plru(false, false, false);
    assert Empty().plru[0 := p] == Empty().plru;
    assert Empty() == FilledSetZero(0, p);
    MissFillsNextWay(p, 0);
    MissFillsNextWay(PlruTouch(p, 0), 1);
    MissFillsNextWay(PlruTouch(PlruTouch(p, 0), 1), 2);
    MissFillsNextWay(PlruTouch(PlruTouch(PlruTouch(p, 0), 1), 2), 3);
  }

  lemma HitInFullSet(p: Plru, w: Way)
    ensures Lookup(FullSetZero(p), w * NUM_SETS) == Outcome(true, w)
    ensures Access(FullSetZero(p), w * NUM_SETS) == FullSetZero(PlruTouch(p, w))
  {
    var d := FullSetZero(p);
    assert SetOf(w * NUM_SETS) == 0 && TagOf(w * NUM_SETS) == w;
    assert Lookup(d, w * NUM_SETS) == Outcome(true, w);
    HitMovesNothing(d, w * NUM_SETS);
  }

  lemma EvictedFromFullSet(p: Plru)
    requires PlruVictim(p) == 1
    ensures !Lookup(Access(FullSetZero(p), 256), 64).hit
  {
    assert Lookup(FullSetZero(p), 256) == Outcome(false, 1);
  }

  lemma RunTwoMore(d: Dir, h: seq<LineAddr>, a: LineAddr, b: LineAddr)
    ensures Run(d, h + [a, b]) == Access(Access(Run(d, h), a), b)
  {
    var h' := h + [a];
    assert h + [a, b] == h' + [b];
    RunOneMoreLine(d, h', b);
    RunOneMoreLine(d, h, a);
  }

  lemma TwoAndTwo<T>(h: seq<T>, a: T, b: T, c: T, e: T)
    ensures h + [a, b] + [c, e] == h + [a, b, c, e]
  {}

  lemma RunFourMore(d: Dir, h: seq<LineAddr>, a: LineAddr, b: LineAddr, c: LineAddr, e: LineAddr)
    ensures Run(d, h + [a, b, c, e]) == Access(Access(Access(Access(Run(d, h), a), b), c), e)
  {
    RunTwoMore(d, h, a, b);
    RunTwoMore(d, h + [a, b], c, e);
    TwoAndTwo(h, a, b, c, e);
  }

  lemma RunOneMoreLine(d: Dir, ls: seq<LineAddr>, l: LineAddr)
    ensures Run(d, ls + [l]) == Access(Run(d, ls), l)
  {
    assert (ls + [l])[..|ls|] == ls;
  }

  /** Three is the most the tree can promise: after these eight accesses out of reset, line 64
      is the fourth most recent distinct line and the last access has evicted it. */
  lemma FourthLineMayMiss()
    ensures !Lookup(Run(Empty(), [0, 64, 128, 192] + [64, 0, 128, 256]), 64).hit
  {
    var p := Plru(false, false, false);
    var four: seq<LineAddr> := [0, 64, 128, 192];
    RunFourMore(Empty(), [], 0, 64, 128, 192);
    assert [] + four == four;
    FourLinesFillTheSet();
    RunFourMore(Empty(), four, 64, 0, 128, 256);
    HitInFullSet(p, 1);
    HitInFullSet(PlruTouch(p, 1), 0);
    HitInFullSet(PlruTouch(PlruTouch(p, 1), 0), 2);
    EvictedFromFullSet(PlruTouch(PlruTouch(PlruTouch(p, 1), 0), 2));
  }
}
