/** The storage modules of the cache as clocked objects: tag, data and replacement arrays
    and the miss register. One Step is one clock edge. */
module RtlArrays {
  import opened DcachePkg
  import opened Directory
  import opened AtomicCache
  import opened Core

  /** dcache_tag_ram: split valid, dirty and tag arrays. */
  class TagRam {
    const valid: array2<bool>
    const dirty: array2<bool>
    const tag: array2<Tag>

    ghost predicate Valid() {
      && valid.Length0 == dirty.Length0 == tag.Length0 == NUM_SETS
      && valid.Length1 == dirty.Length1 == tag.Length1 == NUM_WAYS
      && valid != dirty
    }

    function Entry(s: SetIdx, w: Way): TagEntry
      requires Valid()
      reads valid, dirty, tag
    {
      TagEntry(valid[s, w], dirty[s, w], tag[s, w])
    }

    ghost function State(): TagArray
      requires Valid()
      reads valid, dirty, tag
    {
      seq(256, k requires 0 <= k < 256 && Valid() reads valid, dirty, tag => Entry(k / 4, k % 4))
    }

    lemma EntryAt(s: SetIdx, w: Way)
      requires Valid()
      ensures State()[Cell(s, w)] == Entry(s, w)
    {
      DivMod(Cell(s, w), 4, s, w);
    }

    /** Reset clears every entry. */
    constructor ()
      ensures Valid() && fresh(valid) && fresh(dirty) && fresh(tag)
      ensures forall k :: 0 <= k < NUM_CELLS ==> State()[k] == TagEntry(false, false, 0)
    {
      var v, d, t := new bool[NUM_SETS, NUM_WAYS], new bool[NUM_SETS, NUM_WAYS], new Tag[NUM_SETS, NUM_WAYS];
      valid, dirty, tag := v, d, t;
      new;
      for s := 0 to NUM_SETS
        invariant forall i, j :: 0 <= i < s && 0 <= j < NUM_WAYS ==> !valid[i, j] && !dirty[i, j] && tag[i, j] == 0
      {
        for w := 0 to NUM_WAYS
          invariant forall i, j :: 0 <= i < s && 0 <= j < NUM_WAYS ==> !valid[i, j] && !dirty[i, j] && tag[i, j] == 0
          invariant forall j :: 0 <= j < w ==> !valid[s, j] && !dirty[s, j] && tag[s, j] == 0
        {
          valid[s, w], dirty[s, w], tag[s, w] := false, false, 0;
        }
      }
    }

    /** The four ways of a set on the read port. */
    function Read(s: SetIdx): (row: TagRow)
      requires Valid()
      reads valid, dirty, tag
      ensures row == Row(State(), s)
    {
      EntryAt(s, 0);
      EntryAt(s, 1);
      EntryAt(s, 2);
      EntryAt(s, 3);
      [Entry(s, 0), Entry(s, 1), Entry(s, 2), Entry(s, 3)]
    }

    method Step(write: Option<TagWrite>)
      requires Valid()
      modifies valid, dirty, tag
      ensures State() == TagsNext(old(State()), write)
    {
      if write.Some? {
        var s, w, e := write.value.s, write.value.w, write.value.entry;
        valid[s, w] := e.valid;
        dirty[s, w] := e.dirty;
        tag[s, w] := e.tag;
        forall r: SetIdx, v: Way ensures Cell(r, v) == Cell(s, w) <==> r == s && v == w {
          CellsDiffer(r, v, s, w);
        }
        forall k | 0 <= k < NUM_CELLS ensures State()[k] == TagsNext(old(State()), write)[k] {
          var r: SetIdx, v: Way := k / 4, k % 4;
          assert k == Cell(r, v);
        }
      }
    }
  }

  /** dcache_data_ram: a line per set and way, never reset. */
  class DataRam {
    const lines: array2<Line>

    ghost predicate Valid() { lines.Length0 == NUM_SETS && lines.Length1 == NUM_WAYS }

    ghost function State(): LineArray
      requires Valid()
      reads lines
    {
      seq(256, k requires 0 <= k < 256 && Valid() reads lines => lines[k / 4, k % 4])
    }

    constructor ()
      ensures Valid() && fresh(lines)
    {
      lines := new Line[NUM_SETS, NUM_WAYS];
    }

    function Read(s: SetIdx, w: Way): (line: Line)
      requires Valid()
      reads lines
      ensures line == State()[Cell(s, w)]
    {
      DivMod(Cell(s, w), 4, s, w);
      lines[s, w]
    }

    method Step(write: Option<DataWrite>)
      requires Valid()
      modifies lines
      ensures State() == DataNext(old(State()), write)
    {
      if write.Some? {
        var s, w := write.value.s, write.value.w;
        lines[s, w] := write.value.line;
        forall k | 0 <= k < NUM_CELLS ensures State()[k] == DataNext(old(State()), write)[k] {
          var r: SetIdx, v: Way := k / 4, k % 4;
          CellsDiffer(r, v, s, w);
          assert k == Cell(r, v);
        }
      }
    }
  }

  /** dcache_plru: the replacement tree of every set. */
  class PlruRam {
    const states: array<Plru>

    ghost predicate Valid() { states.Length == NUM_SETS }

    ghost function State(): PlruArray
      requires Valid()
      reads states
    {
      states[..]
    }

    constructor ()
      ensures Valid() && fresh(states)
      ensures forall s :: 0 <= s < NUM_SETS ==> State()[s] == Plru(false, false, false)
    {
      states := new Plru[NUM_SETS];
      new;
      for s := 0 to NUM_SETS
        invariant forall r :: 0 <= r < s ==> states[r] == Plru(false, false, false)
      {
        states[s] := Plru(false, false, false);
      }
    }

    function Victim(s: SetIdx): (w: Way)
      requires Valid()
      reads states
      ensures w == PlruVictim(State()[s])
    {
      PlruVictim(states[s])
    }

    method Step(touch: Option<Touch>)
      requires Valid()
      modifies states
      ensures State() == PlruNext(old(State()), touch)
    {
      if touch.Some? {
        states[touch.value.s] := PlruTouch(states[touch.value.s], touch.value.w);
      }
    }
  }

  /** dcache_mshr: one outstanding miss with its captured victim; only the valid bit is reset. */
  class MissRegister {
    var valid: bool
    var op: Op
    var addr: Addr
    var wdata: Word
    var wstrb: Strb
    var way: Way
    var needsWb: bool
    var victimData: Line
    var victimEntry: TagEntry

    function State(): Mshr
      reads this
    {
      Mshr(valid, op, addr, wdata, wstrb, way, needsWb, victimData, victimEntry)
    }

    constructor ()
      ensures !State().valid
    {
      valid := false;
    }

    /** dealloc wins over alloc, and alloc over a busy register does nothing. */
    method Step(r: Regs, p: Probe, alloc: bool, dealloc: bool)
      modifies this
      ensures State() == MshrNext(old(State()), r, p, alloc, dealloc)
      ensures dealloc || !alloc || old(valid) ==> State() == old(State()).(valid := old(valid) && !dealloc)
    {
      if dealloc {
        valid := false;
      } else if alloc && !valid {
        valid := true;
        op, addr, wdata, wstrb := r.op, r.addr, r.wdata, r.wstrb;
        way := AllocateWay(p.row, p.victim);
        needsWb := p.row[way].valid && p.row[way].dirty;
        victimData, victimEntry := p.line, p.row[way];
      }
    }
  }
}
