/** dcache_core as a clocked object over its arrays, miss register and burst engine. */
module RtlCore {
  import opened DcachePkg
  import opened MemPort
  import opened Engine = Refill
  import opened Core
  import opened RtlArrays
  import opened RtlMemory

  class DcacheCore {
    const tagRam: TagRam
    const dataRam: DataRam
    const plruRam: PlruRam
    const miss: MissRegister
    const engine: RefillEngine

    var fsm: Fsm
    var lookupAddr: Addr
    var lookupOp: Op
    var lookupWdata: Word
    var lookupWstrb: Strb
    var resolvePending: bool
    var holdRresp: bool
    var holdWresp: bool
    var holdRdata: Word
    var hits: Counter
    var misses: Counter
    var flushActive: bool
    var flushSet: SetIdx
    var flushWay: Way
    var flushDone: bool

    ghost predicate Valid() {
      tagRam.Valid() && dataRam.Valid() && plruRam.Valid()
    }

    function RegsNow(): Regs
      reads this
    {
      Regs(fsm, lookupAddr, lookupOp, lookupWdata, lookupWstrb, resolvePending, holdRresp, holdWresp, holdRdata,
           hits, misses, flushActive, flushSet, flushWay, flushDone)
    }

    ghost function State(): CoreState
      requires Valid()
      reads this, tagRam.valid, tagRam.dirty, tagRam.tag, dataRam.lines, plruRam.states, miss, engine
    {
      CoreState(RegsNow(), tagRam.State(), dataRam.State(), plruRam.State(), miss.State(), engine.State())
    }

    constructor ()
      ensures Valid() && CoreIsReset(State())
      ensures fresh(tagRam.valid) && fresh(tagRam.dirty) && fresh(tagRam.tag) && fresh(dataRam.lines)
      ensures fresh(plruRam.states)
      ensures fresh(miss) && fresh(engine)
    {
      fsm, resolvePending, holdRresp, holdWresp := Idle, false, false, false;
      lookupAddr, lookupOp, lookupWdata := 0, Read, ZERO_WORD;
      lookupWstrb := NO_BYTES;
      holdRdata, hits, misses := ZERO_WORD, 0, 0;
      flushActive, flushSet, flushWay, flushDone := false, 0, 0, false;
      tagRam := new TagRam();
      dataRam := new DataRam();
      plruRam := new PlruRam();
      miss := new MissRegister();
      engine := new RefillEngine();
    }

    /** The read ports of the three arrays. */
    method ReadPorts() returns (p: Probe)
      requires Valid()
      ensures p == ReadArrays(State())
    {
      var r, m := RegsNow(), miss.State();
      var row := tagRam.Read(TagReadSet(r, m));
      var victim := plruRam.Victim(PlruSet(r, m));
      var way := AllocWayOf(row, victim);
      if LookupHit(r, row) {
        way := HitWay(r, row);
      }
      var s := AddrToSet(lookupAddr);
      if flushActive {
        s, way := flushSet, flushWay;
      }
      p := Probe(row, victim, dataRam.Read(s, way));
    }

    /** Fill the lowest-numbered invalid way; once the set is full, evict the victim. */
    static method AllocWayOf(row: TagRow, victim: Way) returns (way: Way)
      ensures way == AllocateWay(row, victim)
    {
      var invalid := InvalidMask(row);
      way := victim;
      if AnyWay(invalid) {
        way := FirstInvalidWay(invalid);
      }
    }

    /** The combinational block: defaults first, then what the state overrides. */
    static method Combinational(r: Regs, m: Mshr, rf: Engine.Refill, p: Probe) returns (w: Wires)
      ensures w == Comb(r, m, rf, p)
    {
      var source := m.victimData;
      if r.flushActive {
        source := p.line;
      }
      w := Wires(None, None, None, false, false, RfIn(false, false, LineBase(m.addr), source));
      match r.fsm {
        case Idle => w := CombinationalIdle(r, p, w);
        case MissWb =>
          var base := LineBase(SetTagToAddr(AddrToSet(m.addr), m.victimEntry.tag));
          w := w.(rf := RfIn(false, rf.fsm.RfIdle?, base, source));
        case MissFill => w := w.(rf := RfIn(rf.fsm.RfIdle?, false, LineBase(m.addr), source));
        case MissFinish =>
          var line := rf.line;
          if m.op.Write? {
            line := LineMergeWord(rf.line, AddrToWordSel(m.addr), m.wdata, m.wstrb);
          }
          var s := AddrToSet(m.addr);
          w := w.(tagW := Some(TagWrite(s, m.way, TagEntry(true, m.op.Write?, AddrToTag(m.addr)))),
                  dataW := Some(DataWrite(s, m.way, line)), touch := Some(Touch(s, m.way)), dealloc := true);
        case FlushScan =>
          if p.row[r.flushWay].valid && p.row[r.flushWay].dirty {
            w := w.(rf := RfIn(false, true, FlushBase(r, p.row), source));
          }
        case FlushWb =>
          w := w.(rf := RfIn(false, false, FlushBase(r, p.row), source));
          if rf.fsm.RfDone? {
            w := w.(tagW := Some(TagWrite(r.flushSet, r.flushWay, TagEntry(true, false, p.row[r.flushWay].tag))));
          }
      }
    }

    static method CombinationalIdle(r: Regs, p: Probe, quiet: Wires) returns (w: Wires)
      requires quiet == Wires(None, None, None, false, false, quiet.rf)
      ensures forall m: Mshr, rf: Engine.Refill ::
                && r.fsm.Idle?
                && quiet.rf == RfIn(false, false, LineBase(m.addr), if r.flushActive then p.line else m.victimData) ==>
                  w == Comb(r, m, rf, p)
    {
      w := quiet;
      var s, way := AddrToSet(r.addr), HitWay(r, p.row);
      if r.resolve && LookupHit(r, p.row) && r.op.Write? {
        var line := LineMergeWord(p.line, AddrToWordSel(r.addr), r.wdata, r.wstrb);
        w := w.(dataW := Some(DataWrite(s, way, line)),
                tagW := Some(TagWrite(s, way, TagEntry(true, true, AddrToTag(r.addr)))),
                touch := Some(Touch(s, way)));
      } else if r.resolve && LookupHit(r, p.row) {
        w := w.(touch := Some(Touch(s, way)));
      } else if r.resolve && !LookupHit(r, p.row) {
        w := w.(alloc := true);
      }
    }

    /** One clock edge: all outputs are computed from the state before it, then every
        register and array is updated. */
    method Step(i: CpuIn, mem: MemResp)
      requires Valid()
      modifies this, tagRam.valid, tagRam.dirty, tagRam.tag, dataRam.lines, plruRam.states, miss, engine
      ensures State() == CoreNext(old(State()), i, mem)
    {
      ghost var c := State();
      var p, w, taken := Outputs(i);
      var r, m, rf := RegsNow(), miss.State(), engine.State();
      ClockSubmodules(w, p, mem, r, c);
      ClockRegs(p, i, taken, m, rf, c);
      Assembled(c, i, mem, State());
    }

    static lemma Assembled(c: CoreState, i: CpuIn, mem: MemResp, c': CoreState)
      requires var p := ReadArrays(c);
               var w := Comb(c.regs, c.mshr, c.rf, p);
               && c'.regs == RegsNext(c, p, i)
               && c'.tags == TagsNext(c.tags, w.tagW) && c'.data == DataNext(c.data, w.dataW)
               && c'.plru == PlruNext(c.plru, w.touch)
               && c'.mshr == MshrNext(c.mshr, c.regs, p, w.alloc, w.dealloc) && c'.rf == RefillNext(c.rf, w.rf, mem)
      ensures c' == CoreNext(c, i, mem)
    {}

    method Outputs(i: CpuIn) returns (p: Probe, w: Wires, taken: Option<Request>)
      requires Valid()
      ensures p == ReadArrays(State()) && w == Comb(State().regs, State().mshr, State().rf, p)
      ensures taken == Accepts(State(), i)
    {
      p := ReadPorts();
      w := Combinational(RegsNow(), miss.State(), engine.State(), p);
      var rready, wready;
      rready, wready, taken := Accept(i, miss.State(), engine.State());
    }

    method ClockSubmodules(w: Wires, p: Probe, mem: MemResp, r: Regs, ghost c: CoreState)
      requires Valid() && tagRam.State() == c.tags && dataRam.State() == c.data && plruRam.State() == c.plru
      requires miss.State() == c.mshr && engine.State() == c.rf
      modifies tagRam.valid, tagRam.dirty, tagRam.tag, dataRam.lines, plruRam.states, miss, engine
      ensures RegsNow() == old(RegsNow())
      ensures tagRam.State() == TagsNext(c.tags, w.tagW) && dataRam.State() == DataNext(c.data, w.dataW)
      ensures plruRam.State() == PlruNext(c.plru, w.touch)
      ensures miss.State() == MshrNext(c.mshr, r, p, w.alloc, w.dealloc)
      ensures engine.State() == RefillNext(c.rf, w.rf, mem)
    {
      tagRam.Step(w.tagW);
      dataRam.Step(w.dataW);
      plruRam.Step(w.touch);
      miss.Step(r, p, w.alloc, w.dealloc);
      engine.Step(w.rf, mem);
    }

    /** What the response outputs hand over to a CPU that is ready for them. */
    method Responses(i: CpuIn) returns (out: seq<Response>)
      requires Valid()
      ensures out == Delivers(State(), i)
    {
      out := [];
      if holdRresp && i.rrespReady {
        out := out + [ReadResp(holdRdata)];
      }
      if holdWresp && i.wrespReady {
        out := out + [WriteResp];
      }
    }

    /** The ready outputs, and the request whose handshake they complete: a store is ready
        only if no load competes, so no completed handshake is dropped. */
    method Accept(i: CpuIn, m: Mshr, rf: Engine.Refill) returns (rready: bool, wready: bool, taken: Option<Request>)
      ensures forall c: CoreState :: c.regs == RegsNow() && c.mshr == m && c.rf == rf ==>
                rready == ReadReady(c, i) && wready == WriteReady(c, i) && taken == Accepts(c, i)
      ensures i.rvalid && rready <==> taken == Some(LoadReq(i.raddr))
      ensures i.wvalid && wready <==> taken == Some(StoreReq(i.waddr, i.wdata, i.wstrb))
    {
      rready := fsm.Idle? && !resolvePending && !m.valid && rf.fsm.RfIdle? && !holdRresp && !holdWresp
                && !i.flushReq && !flushActive;
      wready := rready && !i.rvalid;
      taken := None;
      if i.rvalid && rready {
        taken := Some(LoadReq(i.raddr));
      } else if i.wvalid && wready {
        taken := Some(StoreReq(i.waddr, i.wdata, i.wstrb));
      }
    }

    method ClockRegs(p: Probe, i: CpuIn, taken: Option<Request>, m: Mshr, rf: Engine.Refill, ghost c: CoreState)
      requires c.regs == RegsNow() && c.mshr == m && c.rf == rf && taken == Accepts(c, i)
      modifies this
      ensures RegsNow() == RegsNext(c, p, i)
    {
      TakeResponses(i);
      if fsm.Idle? {
        ClockIdle(p, i, taken, c);
      } else if fsm.FlushScan? || fsm.FlushWb? {
        ClockWalk(p, rf);
      } else {
        ClockMiss(m, rf);
      }
    }

    method TakeResponses(i: CpuIn)
      modifies this`flushDone, this`holdRresp, this`holdWresp
      ensures RegsNow() == Consumed(old(RegsNow()), i)
    {
      flushDone := false;
      if holdRresp && i.rrespReady {
        holdRresp := false;
      }
      if holdWresp && i.wrespReady {
        holdWresp := false;
      }
    }

    method ClockMiss(m: Mshr, rf: Engine.Refill)
      requires fsm.MissWb? || fsm.MissFill? || fsm.MissFinish?
      modifies this
      ensures RegsNow() == MissRegs(old(RegsNow()), m, rf)
    {
      if fsm.MissFinish? {
        if m.op.Read? {
          holdRdata, holdRresp, fsm := FillLine(m, rf)[AddrToWordSel(m.addr)], true, Idle;
        } else {
          holdWresp, fsm := true, Idle;
        }
      } else if rf.fsm.RfDone? {
        fsm := if fsm.MissWb? then MissFill else MissFinish;
      }
    }

    method ClockWalk(p: Probe, rf: Engine.Refill)
      requires fsm.FlushScan? || fsm.FlushWb?
      modifies this
      ensures RegsNow() == WalkRegs(old(RegsNow()), p, rf)
    {
      if fsm.FlushScan? && p.row[flushWay].valid && p.row[flushWay].dirty {
        fsm := FlushWb;
      } else if fsm.FlushScan? || rf.fsm.RfDone? {
        AdvanceCursor();
      }
    }

    method ClockIdle(p: Probe, i: CpuIn, taken: Option<Request>, ghost c: CoreState)
      requires fsm.Idle? && taken == Accepts(c, i)
      requires RegsNow() == Consumed(c.regs, i)
      modifies this
      ensures RegsNow() == RegsNext(c, p, i)
    {
      match taken {
        case Some(LoadReq(a)) => lookupAddr, lookupOp, resolvePending := a, Read, true;
        case Some(StoreReq(a, d, b)) =>
          lookupAddr, lookupOp, lookupWdata, lookupWstrb, resolvePending := a, Write, d, b, true;
        case None =>
          if resolvePending {
            Resolve(p);
          } else if i.flushReq {
            flushActive, flushSet, flushWay, fsm := true, 0, 0, FlushScan;
          }
      }
    }

    /** Tag compare of the latched request: answer a hit, or start a miss. */
    method Resolve(p: Probe)
      modifies this
      ensures RegsNow() == Resolved(old(RegsNow()), p)
    {
      if LookupHit(RegsNow(), p.row) {
        AnswerHit(p);
      } else {
        StartMiss(p);
      }
    }

    method AnswerHit(p: Probe)
      requires LookupHit(RegsNow(), p.row)
      modifies this`resolvePending, this`hits, this`holdRdata, this`holdRresp, this`holdWresp
      ensures RegsNow() == Resolved(old(RegsNow()), p)
    {
      resolvePending, hits := false, Bump(hits);
      if lookupOp.Read? {
        holdRdata, holdRresp := p.line[AddrToWordSel(lookupAddr)], true;
      } else {
        holdWresp := true;
      }
    }

    method StartMiss(p: Probe)
      requires !LookupHit(RegsNow(), p.row)
      modifies this`resolvePending, this`misses, this`fsm
      ensures RegsNow() == Resolved(old(RegsNow()), p)
    {
      var way := AllocWayOf(p.row, p.victim);
      var next := if p.row[way].valid && p.row[way].dirty then MissWb else MissFill;
      resolvePending, misses, fsm := false, Bump(misses), next;
    }

    /** End of the walk, or on to the next way and, after way 3, the next set. */
    method AdvanceCursor()
      modifies this
      ensures RegsNow() == Advance(old(RegsNow()))
    {
      if flushSet == 63 && flushWay == 3 {
        flushActive, flushDone, fsm := false, true, Idle;
      } else {
        if flushWay == 3 {
          flushSet := (flushSet + 1) % NUM_SETS;
        }
        flushWay := (flushWay + 1) % NUM_WAYS;
        fsm := FlushScan;
      }
    }
  }
}
