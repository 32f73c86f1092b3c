/** Geometry, address codec, PLRU tree and line helpers of the D-cache (dcache_pkg.sv).
    Bit slices are written as division and remainder by the slice's weight. */
module DcachePkg {
  const NUM_WAYS: nat := 4
  const NUM_SETS: nat := 64
  const NUM_CELLS: nat := 256          // (set, way) pairs, in clean-all order
  const WORDS_PER_LINE: nat := 8
  const WORD_BYTES: nat := 8
  const LINE_BYTES: nat := 64
  const TAG_WEIGHT: nat := 4096        // 2^(INDEX_BITS + OFFSET_BITS)
  const MEM_DEPTH: nat := 0x1_0000     // words behind mem_idx
  const MEM_LINES: nat := 8192         // lines behind mem_idx
  const COUNTER_WRAP: nat := 0x1_0000_0000

  type Addr = a: nat | a < 0x1_0000_0000
  type LineAddr = l: nat | l < 0x400_0000
  type Tag = t: nat | t < 0x10_0000
  type SetIdx = s: nat | s < 64
  type Way = w: nat | w < 4
  type WordSel = k: nat | k < 8
  type MemIdx = x: nat | x < 0x1_0000
  type Word = w: seq<bv8> | |w| == 8 witness [0, 0, 0, 0, 0, 0, 0, 0]
  type Strb = s: seq<bool> | |s| == 8 witness [false, false, false, false, false, false, false, false]
  type Line = l: seq<Word> | |l| == 8
    witness [ZERO_WORD, ZERO_WORD, ZERO_WORD, ZERO_WORD, ZERO_WORD, ZERO_WORD, ZERO_WORD, ZERO_WORD]
  type MemWords = m: seq<Word> | |m| == 0x1_0000 witness seq(0x1_0000, _ => ZERO_WORD)

  const ZERO_WORD: Word := [0, 0, 0, 0, 0, 0, 0, 0]
  const ZERO_LINE: Line := [ZERO_WORD, ZERO_WORD, ZERO_WORD, ZERO_WORD, ZERO_WORD, ZERO_WORD, ZERO_WORD, ZERO_WORD]

  const NO_BYTES: Strb := [false, false, false, false, false, false, false, false]
  const ALL_BYTES: Strb := [true, true, true, true, true, true, true, true]

  datatype Option<+T> = None | Some(value: T)

  /** What an event adds to its count. */
  function One(happens: bool): nat { if happens then 1 else 0 }

  datatype Op = Read | Write

  /** A CPU access accepted on the load port or the store port. */
  datatype Request = LoadReq(addr: Addr) | StoreReq(addr: Addr, data: Word, strb: Strb)

  /** What the CPU gets back. */
  datatype Response = ReadResp(data: Word) | WriteResp

  // ------------------------------------------------------------ address codec

  function AddrToSet(a: Addr): SetIdx { a / LINE_BYTES % NUM_SETS }

  function AddrToTag(a: Addr): Tag { a / TAG_WEIGHT }

  function AddrToWordSel(a: Addr): WordSel { a / WORD_BYTES % WORDS_PER_LINE }

  function SetTagToAddr(s: SetIdx, t: Tag): Addr { s * LINE_BYTES + t * TAG_WEIGHT }

  /** Memory index of the first word of the line: low offset bits cleared, bits [18:3] kept. */
  function LineBase(a: Addr): MemIdx { a / LINE_BYTES * LINE_BYTES / WORD_BYTES % MEM_DEPTH }

  /** Memory index of the addressed word, as the testbench shadow model computes it. */
  function WordIdx(a: Addr): MemIdx { a / WORD_BYTES % MEM_DEPTH }

  function LineOf(a: Addr): LineAddr { a / LINE_BYTES }

  /** Which of the 8192 memory lines a cache line lands on. */
  function MemLineOf(l: LineAddr): nat { l % MEM_LINES }

  function Cell(s: SetIdx, w: Way): (c: nat)
    ensures c < NUM_CELLS
  {
    s * NUM_WAYS + w
  }

  lemma MulAtLeast(k: nat, m: nat)
    requires k >= 1
    ensures k * m >= m
  {}

  lemma Distribute(a: int, b: int, m: int)
    ensures (a + b) * m == a * m + b * m
  {}

  lemma DivMod(x: nat, m: nat, q: nat, r: nat)
    requires r < m && x == q * m + r
    ensures x / m == q && x % m == r
  {
    var d := x / m;
    assert x == d * m + x % m;
    if d < q {
      Distribute(d, q - d, m);
      MulAtLeast(q - d, m);
    }
    if d > q {
      Distribute(q, d - q, m);
      MulAtLeast(d - q, m);
    }
  }

  /** Tag, set, word select and byte offset are bits 31 to 12, 11 to 6, 5 to 3 and 2 to 0. */
  lemma CodecSplitsEveryAddress(a: Addr)
    ensures AddrToTag(a) * 4096 + AddrToSet(a) * 64 + AddrToWordSel(a) * 8 + a % 8 == a
    ensures SetTagToAddr(AddrToSet(a), AddrToTag(a)) == a - a % 64
  {
    var line := a / 8 / 8;
    assert a / 64 == line;
    assert a / 4096 == line / 64;
  }

  /** The converse of CodecSplitsEveryAddress: every choice of fields is some address's fields. */
  lemma CodecRebuildsEveryField(t: Tag, s: SetIdx, k: WordSel, b: nat, a: nat)
    requires b < 8 && a == t * 4096 + s * 64 + k * 8 + b
    ensures a < 0x1_0000_0000 && AddrToTag(a) == t && AddrToSet(a) == s && AddrToWordSel(a) == k && a % 8 == b
    ensures LineOf(a) == t * 64 + s && MemLineOf(LineOf(a)) == t % 128 * 64 + s
    ensures LineBase(a) == (t % 128 * 64 + s) * 8 && WordIdx(a) == LineBase(a) + k
    ensures SetTagToAddr(s, t) == t * 4096 + s * 64
  {
    var line := t * 64 + s;
    var hi, lo := t / 128, t % 128;
    DivMod(a, 4096, t, s * 64 + k * 8 + b);
    DivMod(a, 64, line, k * 8 + b);
    DivMod(line, 64, t, s);
    DivMod(a, 8, line * 8 + k, b);
    DivMod(line * 8 + k, 8, line, k);
    DivMod(line * 64, 8, line * 8, 0);
    DivMod(line, 8192, hi, lo * 64 + s);
    DivMod(line * 8, 65536, hi, (lo * 64 + s) * 8);
    DivMod(line * 8 + k, 65536, hi, (lo * 64 + s) * 8 + k);
  }

  /** The memory index of a line, and of a word in it, rebuilt from set and tag. */
  lemma LineBaseFacts(a: Addr)
    ensures LineOf(a) == AddrToTag(a) * NUM_SETS + AddrToSet(a)
    ensures LineBase(a) == MemLineOf(LineOf(a)) * WORDS_PER_LINE
    ensures LineBase(a) % WORDS_PER_LINE == 0 && LineBase(a) + WORDS_PER_LINE <= MEM_DEPTH
    ensures WordIdx(a) == LineBase(a) + AddrToWordSel(a)
    ensures LineBase(SetTagToAddr(AddrToSet(a), AddrToTag(a))) == LineBase(a)
  {
    var t, s, k, b := AddrToTag(a), AddrToSet(a), AddrToWordSel(a), a % WORD_BYTES;
    CodecSplitsEveryAddress(a);
    CodecRebuildsEveryField(t, s, k, b, a);
    CodecRebuildsEveryField(t, s, 0, 0, SetTagToAddr(s, t));
    DivMod(LineBase(a), 8, MemLineOf(LineOf(a)), 0);
  }

  /** The 512 KiB window of an address, from its line. */
  lemma WindowOfLine(a: Addr)
    ensures a / 0x8_0000 == LineOf(a) / MEM_LINES
    ensures var w := a / 0x8_0000; w * MEM_LINES <= LineOf(a) < w * MEM_LINES + MEM_LINES
  {
    var l := a / 64;
    assert l / 8192 * 8192 + l % 8192 == l;
    assert l * 64 + a % 64 == a;
    DivMod(a, 0x8_0000, l / 8192, l % 8192 * 64 + a % 64);
  }

  /** Two lines share backing words exactly when they lie a multiple of 512 KiB apart;
      within one 512 KiB window the map from lines to memory is injective, and no
      larger window will do. */
  lemma SharedBackingWords(a: Addr, b: Addr)
    ensures LineBase(a) == LineBase(b) <==> MemLineOf(LineOf(a)) == MemLineOf(LineOf(b))
    ensures LineBase(a) == LineBase(b) && a / 0x8_0000 == b / 0x8_0000 ==> LineOf(a) == LineOf(b)
    ensures a + 0x8_0000 == b ==> LineBase(a) == LineBase(b) && LineOf(a) != LineOf(b)
  {
    LineBaseFacts(a);
    LineBaseFacts(b);
    WindowOfLine(a);
    WindowOfLine(b);
    if a + 0x8_0000 == b {
      var l := a / 64;
      DivMod(b, 64, l + 8192, a % 64);
      DivMod(l + 8192, 8192, l / 8192 + 1, l % 8192);
    }
  }

  // -------------------------------------------------------------------- PLRU

  /** state[0] picks the pair, state[1] the way of pair {0,1}, state[2] that of {2,3}. */
  datatype Plru = Plru(top: bool, left: bool, right: bool)

  function PlruVictim(p: Plru): Way {
    if !p.top then (if p.left then 1 else 0) else (if p.right then 3 else 2)
  }

  function PlruTouch(p: Plru, w: Way): Plru {
    match w
    case 0 => p.(top := true, left := true)
    case 1 => p.(top := true, left := false)
    case 2 => p.(top := false, right := true)
    case _ => p.(top := false, right := false)
  }

  function PlruRun(p: Plru, touches: seq<Way>): Plru {
    if touches == [] then p else PlruTouch(PlruRun(p, touches[..|touches| - 1]), touches[|touches| - 1])
  }

  /** The most recent way in the history other than x. */
  function LastOther(touches: seq<Way>, x: Way): (before: Option<Way>)
    ensures before.Some? ==> before.value != x && before.value in touches
  {
    if touches == [] then None
    else if touches[|touches| - 1] != x then Some(touches[|touches| - 1])
    else LastOther(touches[..|touches| - 1], x)
  }

  /** What the tree remembers of the two last touched ways: it points away from both. */
  predicate PointsAway(p: Plru, last: Way, before: Option<Way>) {
    && (p.top <==> last < 2)
    && SideAway(p, last)
    && (before.Some? ==> before.value != last && ((before.value < 2) != (last < 2) ==> SideAway(p, before.value)))
  }

  predicate SideAway(p: Plru, w: Way) {
    match w case 0 => p.left case 1 => !p.left case 2 => p.right case _ => !p.right
  }

  lemma TouchKeepsPointingAway(p: Plru, last: Way, before: Option<Way>, w: Way)
    requires PointsAway(p, last, before)
    ensures PointsAway(PlruTouch(p, w), w, if w == last then before else Some(last))
    ensures PlruVictim(p) != last && (before.Some? ==> PlruVictim(p) != before.value)
  {}

  /** Whatever the touch history, the victim is neither of the last two distinct ways. */
  lemma {:induction false} VictimIsNotRecent(p: Plru, touches: seq<Way>)
    requires touches != []
    ensures var last := touches[|touches| - 1];
            var before := LastOther(touches, last);
            var q := PlruRun(p, touches);
            && PointsAway(q, last, before)
            && PlruVictim(q) != last
            && (before.Some? ==> PlruVictim(q) != before.value)
  {
    var n := |touches| - 1;
    var shorter, w := touches[..n], touches[n];
    assert LastOther(touches, w) == LastOther(shorter, w);
    if shorter != [] {
      VictimIsNotRecent(p, shorter);
      TouchKeepsPointingAway(PlruRun(p, shorter), shorter[n - 1], LastOther(shorter, shorter[n - 1]), w);
    }
    TouchKeepsPointingAway(PlruRun(p, touches), w, LastOther(touches, w), w);
  }

  /** The latest way of a pair in the history; pair 0 is ways 0 and 1. */
  function LastOfPair(touches: seq<Way>, pair: nat): (last: Option<Way>)
    ensures last.Some? ==> last.value / 2 == pair && last.value in touches
    ensures last.None? ==> forall k :: 0 <= k < |touches| ==> touches[k] / 2 != pair
  {
    if touches == [] then None
    else
      var n := |touches| - 1;
      assert forall k :: 0 <= k < n ==> touches[k] == touches[..n][k];
      if touches[n] / 2 == pair then Some(touches[n]) else LastOfPair(touches[..n], pair)
  }

  /** Exactly which way is next: of the pair not touched last, the way not touched last in
      that pair; what has never been touched is left to the start state. */
  lemma {:induction false} VictimIs(p: Plru, touches: seq<Way>)
    ensures var v := PlruVictim(PlruRun(p, touches));
            && v / 2 == (if touches == [] then if p.top then 1 else 0 else 1 - touches[|touches| - 1] / 2)
            && match LastOfPair(touches, v / 2)
               case Some(w) => v == (if w % 2 == 0 then w + 1 else w - 1)
               case None => v % 2 == if (if v < 2 then p.left else p.right) then 1 else 0
  {
    LeavesAre(p, touches, 0);
    LeavesAre(p, touches, 1);
    if touches != [] {
      var n := |touches| - 1;
      assert PlruRun(p, touches) == PlruTouch(PlruRun(p, touches[..n]), touches[n]);
    }
  }

  /** The leaf of each pair after any history: set if the pair's lower way was touched last. */
  lemma {:induction false} LeavesAre(p: Plru, touches: seq<Way>, pair: nat)
    requires pair < 2
    ensures var q := PlruRun(p, touches);
            (if pair == 0 then q.left else q.right) <==>
              match LastOfPair(touches, pair)
              case Some(w) => w % 2 == 0
              case None => if pair == 0 then p.left else p.right
  {
    if touches != [] {
      LeavesAre(p, touches[..|touches| - 1], pair);
    }
  }

  // ---------------------------------------------------------------- way masks

  type WayMask = m: seq<bool> | |m| == 4 witness [false, false, false, false]

  /** The RTL decode: exact on one-hot masks, 0 on everything else. */
  function OnehotToWay(m: WayMask): Way {
    if !m[0] && m[1] && !m[2] && !m[3] then 1
    else if !m[0] && !m[1] && m[2] && !m[3] then 2
    else if !m[0] && !m[1] && !m[2] && m[3] then 3
    else 0
  }

  predicate OneHotAt(m: WayMask, v: Way) { m[v] && forall u: Way :: u != v ==> !m[u] }

  /** The decode names the one way of a one-hot mask and answers 0 to any other mask. */
  lemma DecodeIs(m: WayMask)
    ensures forall v: Way :: OneHotAt(m, v) ==> OnehotToWay(m) == v
    ensures (forall v: Way :: !OneHotAt(m, v)) ==> OnehotToWay(m) == 0
  {
    assert OneHotAt(m, 1) <==> !m[0] && m[1] && !m[2] && !m[3];
    assert OneHotAt(m, 2) <==> !m[0] && !m[1] && m[2] && !m[3];
    assert OneHotAt(m, 3) <==> !m[0] && !m[1] && !m[2] && m[3];
  }

  function AnyWay(m: WayMask): bool { m[0] || m[1] || m[2] || m[3] }

  function LowestWay(m: WayMask): Way {
    if m[0] then 0 else if m[1] then 1 else if m[2] then 2 else if m[3] then 3 else 0
  }

  /** The core's downward scan for the lowest-numbered invalid way. */
  method FirstInvalidWay(invalid: WayMask) returns (w: Way)
    ensures w == LowestWay(invalid)
    ensures AnyWay(invalid) ==> invalid[w] && forall v :: 0 <= v < w ==> !invalid[v]
  {
    w := 0;
    var v := NUM_WAYS;
    while v > 0
      invariant 0 <= v <= NUM_WAYS
      invariant w == (if v == 4 then 0 else if v == 3 then (if invalid[3] then 3 else 0)
                      else if v == 2 then (if invalid[2] then 2 else if invalid[3] then 3 else 0)
                      else if v == 1 then
                        (if invalid[1] then 1 else if invalid[2] then 2 else if invalid[3] then 3 else 0)
                      else LowestWay(invalid))
    {
      v := v - 1;
      if invalid[v] {
        w := v;
      }
    }
  }

  // ------------------------------------------------------------- data helpers

  function MergeWord(word: Word, data: Word, strb: Strb): Word {
    seq(8, b requires 0 <= b < 8 => if strb[b] then data[b] else word[b])
  }

  function MergeLine(line: Line, k: WordSel, data: Word, strb: Strb): Line {
    line[k := MergeWord(line[k], data, strb)]
  }

  /** The byte-strobe loop of line_merge_word. */
  method LineMergeWord(line: Line, k: WordSel, data: Word, strb: Strb) returns (merged: Line)
    ensures merged == MergeLine(line, k, data, strb)
    ensures forall j, b :: 0 <= j < 8 && 0 <= b < 8 ==>
              merged[j][b] == if j == k && strb[b] then data[b] else line[j][b]
  {
    merged := line;
    for b := 0 to WORD_BYTES
      invariant forall j :: 0 <= j < 8 && j != k ==> merged[j] == line[j]
      invariant forall j :: 0 <= j < b ==> merged[k][j] == if strb[j] then data[j] else line[k][j]
      invariant forall j :: b <= j < 8 ==> merged[k][j] == line[k][j]
    {
      if strb[b] {
        var w: Word := merged[k][b := data[b]];
        merged := merged[k := w];
      }
    }
    assert merged[k] == MergeWord(line[k], data, strb);
    assert merged == MergeLine(line, k, data, strb);
  }
}
