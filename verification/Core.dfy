/** One clock cycle of dcache_core.sv with its tag, data, PLRU and miss registers, as
    next-state functions. Every right-hand side reads the state before the edge. */
module Core {
  import opened DcachePkg
  import opened Directory
  import opened AtomicCache
  import opened MemPort
  import opened Refill

  datatype TagEntry = TagEntry(valid: bool, dirty: bool, tag: Tag)
  type TagArray = t: seq<TagEntry> | |t| == 256 witness seq(256, _ => TagEntry(false, false, 0))
  type TagRow = t: seq<TagEntry> | |t| == 4 witness seq(4, _ => TagEntry(false, false, 0))
  type Counter = n: nat | n < 0x1_0000_0000

  datatype Fsm = Idle | MissWb | MissFill | MissFinish | FlushScan | FlushWb

  /** The core's own registers. */
  datatype Regs = Regs(
    fsm: Fsm, addr: Addr, op: Op, wdata: Word, wstrb: Strb, resolve: bool,
    holdR: bool, holdW: bool, holdData: Word, hits: Counter, misses: Counter,
    flushActive: bool, flushSet: SetIdx, flushWay: Way, flushDone: bool)

  /** The single miss register; only its valid bit is reset. */
  datatype Mshr = Mshr(
    valid: bool, op: Op, addr: Addr, wdata: Word, wstrb: Strb, way: Way, needsWb: bool,
    victimData: Line, victimEntry: TagEntry)

  datatype CoreState = CoreState(regs: Regs, tags: TagArray, data: LineArray, plru: PlruArray, mshr: Mshr, rf: Refill)

  /** The CPU side of one cycle. */
  datatype CpuIn = CpuIn(
    rvalid: bool, raddr: Addr, rrespReady: bool,
    wvalid: bool, waddr: Addr, wdata: Word, wstrb: Strb, wrespReady: bool, flushReq: bool)

  // -------------------------------------------------------------- array reads

  function Row(tags: TagArray, s: SetIdx): TagRow { tags[4 * s..4 * s + 4] }

  function HitMask(row: TagRow, t: Tag): WayMask {
    [row[0].valid && row[0].tag == t, row[1].valid && row[1].tag == t,
     row[2].valid && row[2].tag == t, row[3].valid && row[3].tag == t]
  }

  function InvalidMask(row: TagRow): WayMask { [!row[0].valid, !row[1].valid, !row[2].valid, !row[3].valid] }

  function AllocateWay(row: TagRow, victim: Way): Way {
    if AnyWay(InvalidMask(row)) then LowestWay(InvalidMask(row)) else victim
  }

  function TagReadSet(r: Regs, m: Mshr): SetIdx {
    if r.flushActive then r.flushSet else if r.fsm.Idle? then AddrToSet(r.addr) else AddrToSet(m.addr)
  }

  function PlruSet(r: Regs, m: Mshr): SetIdx {
    if r.fsm.MissFinish? then AddrToSet(m.addr) else AddrToSet(r.addr)
  }

  function LookupHit(r: Regs, row: TagRow): bool { AnyWay(HitMask(row, AddrToTag(r.addr))) }

  function HitWay(r: Regs, row: TagRow): Way { OnehotToWay(HitMask(row, AddrToTag(r.addr))) }

  function DataReadCell(r: Regs, row: TagRow, victim: Way): (c: nat)
    ensures c < NUM_CELLS
  {
    if r.flushActive then Cell(r.flushSet, r.flushWay)
    else Cell(AddrToSet(r.addr), if LookupHit(r, row) then HitWay(r, row) else AllocateWay(row, victim))
  }

  /** What the three arrays drive on their read ports. */
  datatype Probe = Probe(row: TagRow, victim: Way, line: Line)

  function ReadArrays(c: CoreState): Probe {
    var row := Row(c.tags, TagReadSet(c.regs, c.mshr));
    var victim := PlruVictim(c.plru[PlruSet(c.regs, c.mshr)]);
    Probe(row, victim, c.data[DataReadCell(c.regs, row, victim)])
  }

  // ------------------------------------------------------ combinational outputs

  datatype TagWrite = TagWrite(s: SetIdx, w: Way, entry: TagEntry)
  datatype DataWrite = DataWrite(s: SetIdx, w: Way, line: Line)
  datatype Touch = Touch(s: SetIdx, w: Way)

  /** Write ports and start pulses of the cycle; None is a deasserted enable. */
  datatype Wires = Wires(
    tagW: Option<TagWrite>, dataW: Option<DataWrite>, touch: Option<Touch>, alloc: bool, dealloc: bool, rf: RfIn)

  function FillLine(m: Mshr, rf: Refill): Line {
    if m.op.Write? then MergeLine(rf.line, AddrToWordSel(m.addr), m.wdata, m.wstrb) else rf.line
  }

  function FlushBase(r: Regs, row: TagRow): MemIdx { LineBase(SetTagToAddr(r.flushSet, row[r.flushWay].tag)) }

  function Comb(r: Regs, m: Mshr, rf: Refill, p: Probe): Wires {
    var source := if r.flushActive then p.line else m.victimData;
    var quiet := RfIn(false, false, LineBase(m.addr), source);
    var s := AddrToSet(r.addr);
    match r.fsm
    case Idle =>
      if r.resolve && LookupHit(r, p.row) then
        var w := HitWay(r, p.row);
        if r.op.Write? then
          Wires(Some(TagWrite(s, w, TagEntry(true, true, AddrToTag(r.addr)))),
                Some(DataWrite(s, w, MergeLine(p.line, AddrToWordSel(r.addr), r.wdata, r.wstrb))),
                Some(Touch(s, w)), false, false, quiet)
        else Wires(None, None, Some(Touch(s, w)), false, false, quiet)
      else Wires(None, None, None, r.resolve, false, quiet)
    case MissWb =>
      Wires(None, None, None, false, false,
            RfIn(false, rf.fsm.RfIdle?, LineBase(SetTagToAddr(AddrToSet(m.addr), m.victimEntry.tag)), source))
    case MissFill =>
      Wires(None, None, None, false, false, RfIn(rf.fsm.RfIdle?, false, LineBase(m.addr), source))
    case MissFinish =>
      var ms := AddrToSet(m.addr);
      Wires(Some(TagWrite(ms, m.way, TagEntry(true, m.op.Write?, AddrToTag(m.addr)))),
            Some(DataWrite(ms, m.way, FillLine(m, rf))),
            Some(Touch(ms, m.way)), false, true, quiet)
    case FlushScan =>
      var e := p.row[r.flushWay];
      Wires(None, None, None, false, false,
            if e.valid && e.dirty then RfIn(false, true, FlushBase(r, p.row), source) else quiet)
    case FlushWb =>
      var clean := TagWrite(r.flushSet, r.flushWay, TagEntry(true, false, p.row[r.flushWay].tag));
      var tagW := if rf.fsm.RfDone? then Some(clean) else None;
      Wires(tagW, None, None, false, false, RfIn(false, false, FlushBase(r, p.row), source))
  }

  // -------------------------------------------------------------- handshakes

  /** rready: free, nothing in flight or held, no clean-all asked for or running. */
  function ReadReady(c: CoreState, i: CpuIn): bool {
    && c.regs.fsm.Idle? && !c.regs.resolve && !c.mshr.valid && c.rf.fsm.RfIdle?
    && !c.regs.holdR && !c.regs.holdW && !i.flushReq && !c.regs.flushActive
  }

  /** wready: a store yields to a load in the same cycle. */
  function WriteReady(c: CoreState, i: CpuIn): bool { ReadReady(c, i) && !i.rvalid }

  /** The request that a ready cache takes. */
  function Offered(i: CpuIn): Request { if i.rvalid then LoadReq(i.raddr) else StoreReq(i.waddr, i.wdata, i.wstrb) }

  function Accepts(c: CoreState, i: CpuIn): Option<Request> {
    if i.rvalid && ReadReady(c, i) then Some(LoadReq(i.raddr))
    else if i.wvalid && WriteReady(c, i) then Some(StoreReq(i.waddr, i.wdata, i.wstrb))
    else None
  }

  /** The response consumed in this cycle. */
  function Delivers(c: CoreState, i: CpuIn): seq<Response> {
    (if c.regs.holdR && i.rrespReady then [ReadResp(c.regs.holdData)] else []) +
    (if c.regs.holdW && i.wrespReady then [WriteResp] else [])
  }

  // --------------------------------------------------------- clocked registers

  function Wrapped(n: nat): Counter { n % COUNTER_WRAP }

  function Bump(n: Counter): Counter { Wrapped(n + 1) }

  function NextCursor(r: Regs): Regs {
    r.(flushWay := (r.flushWay + 1) % NUM_WAYS,
       flushSet := if r.flushWay == 3 then (r.flushSet + 1) % NUM_SETS else r.flushSet)
  }

  /** Responses that the CPU takes are let go, and flush_done is a pulse. */
  function Consumed(r: Regs, i: CpuIn): Regs {
    r.(flushDone := false, holdR := r.holdR && !i.rrespReady, holdW := r.holdW && !i.wrespReady)
  }

  /** End of the walk, or on to the next (set, way). */
  function Advance(r: Regs): Regs {
    if r.flushSet == 63 && r.flushWay == 3 then r.(flushActive := false, flushDone := true, fsm := Idle)
    else NextCursor(r).(fsm := FlushScan)
  }

  /** The latched request has been looked up: answer a hit, or start a miss. */
  function Resolved(r: Regs, p: Probe): Regs {
    if LookupHit(r, p.row) then
      if r.op.Read? then
        r.(resolve := false, hits := Bump(r.hits), holdR := true, holdData := p.line[AddrToWordSel(r.addr)])
      else r.(resolve := false, hits := Bump(r.hits), holdW := true)
    else
      var victim := p.row[AllocateWay(p.row, p.victim)];
      r.(resolve := false, misses := Bump(r.misses), fsm := if victim.valid && victim.dirty then MissWb else MissFill)
  }

  /** The burst states of a miss wait for the engine; the last one answers. */
  function MissRegs(r: Regs, m: Mshr, rf: Refill): Regs {
    match r.fsm
    case MissWb => if rf.fsm.RfDone? then r.(fsm := MissFill) else r
    case MissFill => if rf.fsm.RfDone? then r.(fsm := MissFinish) else r
    case _ =>
      if m.op.Read? then r.(holdR := true, holdData := FillLine(m, rf)[AddrToWordSel(m.addr)], fsm := Idle)
      else r.(holdW := true, fsm := Idle)
  }

  /** A walk stops at a dirty cell until the engine has written it back. */
  function WalkRegs(r: Regs, p: Probe, rf: Refill): Regs {
    if r.fsm.FlushScan? then
      if p.row[r.flushWay].valid && p.row[r.flushWay].dirty then r.(fsm := FlushWb) else Advance(r)
    else if rf.fsm.RfDone? then Advance(r)
    else r
  }

  function RegsNext(c: CoreState, p: Probe, i: CpuIn): Regs {
    var r, m := Consumed(c.regs, i), c.mshr;
    match r.fsm
    case Idle =>
      (match Accepts(c, i)
       case Some(LoadReq(a)) => r.(addr := a, op := Read, resolve := true)
       case Some(StoreReq(a, d, b)) => r.(addr := a, op := Write, wdata := d, wstrb := b, resolve := true)
       case None =>
         if r.resolve then Resolved(r, p)
         else if i.flushReq then r.(flushActive := true, flushSet := 0, flushWay := 0, fsm := FlushScan)
         else r)
    case MissWb | MissFill | MissFinish => MissRegs(r, m, c.rf)
    case FlushScan | FlushWb => WalkRegs(r, p, c.rf)
  }

  function MshrNext(m: Mshr, r: Regs, p: Probe, alloc: bool, dealloc: bool): Mshr {
    if dealloc then m.(valid := false)
    else if alloc && !m.valid then
      var way := AllocateWay(p.row, p.victim);
      var victim := p.row[way];
      Mshr(true, r.op, r.addr, r.wdata, r.wstrb, way, victim.valid && victim.dirty, p.line, victim)
    else m
  }

  function TagsNext(t: TagArray, w: Option<TagWrite>): TagArray {
    if w.Some? then t[Cell(w.value.s, w.value.w) := w.value.entry] else t
  }

  function DataNext(d: LineArray, w: Option<DataWrite>): LineArray {
    if w.Some? then d[Cell(w.value.s, w.value.w) := w.value.line] else d
  }

  function PlruNext(p: PlruArray, t: Option<Touch>): PlruArray {
    if t.Some? then p[t.value.s := PlruTouch(p[t.value.s], t.value.w)] else p
  }

  function CoreNext(c: CoreState, i: CpuIn, mem: MemResp): CoreState {
    var p := ReadArrays(c);
    var w := Comb(c.regs, c.mshr, c.rf, p);
    CoreState(
      RegsNext(c, p, i), TagsNext(c.tags, w.tagW), DataNext(c.data, w.dataW), PlruNext(c.plru, w.touch),
      MshrNext(c.mshr, c.regs, p, w.alloc, w.dealloc), RefillNext(c.rf, w.rf, mem))
  }

  /** State while reset is asserted: line array and miss payload hold anything. */
  predicate CoreIsReset(c: CoreState) {
    && c.regs == Regs(Idle, 0, Read, ZERO_WORD, NO_BYTES, false, false, false, ZERO_WORD, 0, 0, false, 0, 0, false)
    && (forall k :: 0 <= k < NUM_CELLS ==> c.tags[k] == TagEntry(false, false, 0))
    && (forall s :: 0 <= s < NUM_SETS ==> c.plru[s] == Plru(false, false, false))
    && !c.mshr.valid && c.rf == RefillReset()
  }
}
