/** The burst engine, the backing SRAM, the AXI bridge and the AXI monitor as clocked
    objects. */
module RtlMemory {
  import opened DcachePkg
  import opened MemPort
  import opened Engine = Refill
  import opened AxiBridge
  import opened AxiMonitor
  import opened BusRules

  /** dcache_refill. */
  class RefillEngine {
    var fsm: RfFsm
    var isWrite: bool
    var beat: WordSel
    var base: MemIdx
    var line: Line

    function State(): Refill
      reads this
    {
      Refill(fsm, isWrite, beat, base, line)
    }

    constructor ()
      ensures State() == RefillReset()
    {
      fsm, isWrite, beat, base, line := RfIdle, false, 0, 0, ZERO_LINE;
    }

    /** A write takes its line from the input; a read keeps the old register contents and
        overwrites one word per acknowledge. */
    method Step(i: RfIn, r: MemResp)
      modifies this
      ensures State() == RefillNext(old(State()), i, r)
    {
      match fsm {
        case RfIdle =>
          if i.startRead || i.startWrite {
            isWrite, beat, base := i.startWrite, 0, i.base;
            if i.startWrite {
              line := i.line;
            }
            fsm := RfReq;
          }
        case RfReq =>
          if r.Some? {
            if !isWrite {
              line := line[beat := r.value];
            }
            if beat == 7 {
              fsm := RfDone;
            } else {
              beat := beat + 1;
            }
          }
        case RfDone => fsm := RfIdle;
      }
    }
  }

  /** dcache_backing_mem with its preload port, which takes the cycle when it is used. */
  class BackingMem {
    const mem: array<Word>
    var pending: bool
    var rdata: Word

    ghost predicate Valid() { mem.Length == MEM_DEPTH }

    ghost function State(): Sram
      requires Valid()
      reads this, mem
    {
      Sram(mem[..], pending, rdata)
    }

    constructor ()
      ensures Valid() && fresh(mem) && !State().pending && State().rdata == ZERO_WORD
    {
      mem := new Word[MEM_DEPTH];
      pending, rdata := false, ZERO_WORD;
    }

    method Step(q: MemReq, init: Option<(MemIdx, Word)>)
      requires Valid()
      modifies this, mem
      ensures init.None? ==> State() == SramNext(old(State()), q)
      ensures init.Some? ==>
                State() == Sram(old(State()).words[init.value.0 := init.value.1], false, old(State()).rdata)
    {
      var wasPending := pending;
      pending := false;
      if init.Some? {
        mem[init.value.0] := init.value.1;
      } else if q.req && !wasPending {
        pending := true;
        if q.we {
          mem[q.idx] := q.wdata;
        } else {
          rdata := mem[q.idx];
        }
      }
    }
  }

  /** dcache_axi_master_bridge, and icache_axi_master_bridge with its base address. */
  class MasterBridge {
    const config: Config
    var fsm: BrFsm
    var addr: Addr
    var wdata: Word
    var rdata: Word
    var error: bool

    function State(): Bridge
      reads this
    {
      Bridge(fsm, addr, wdata, rdata, error)
    }

    constructor (g: Config)
      ensures State() == BridgeReset() && config == g
    {
      config := g;
      fsm, addr, wdata, rdata, error := BrIdle, 0, ZERO_WORD, ZERO_WORD, false;
    }

    method Step(q: MemReq, s: AxiSlave)
      modifies this
      ensures State() == BridgeNext(old(State()), config, q, s)
    {
      var o := Drive(State(), config);
      match fsm {
        case BrIdle =>
          if q.req {
            addr, wdata := ByteAddr(config, q.idx), q.wdata;
            if q.we {
              fsm := BrWriteAddr;
            } else {
              fsm := BrReadAddr;
            }
          }
        case BrWriteAddr =>
          if o.awvalid && s.awready {
            fsm := BrWriteData;
          }
        case BrWriteData =>
          if o.wvalid && s.wready {
            fsm := BrWriteResp;
          }
        case BrWriteResp =>
          if s.bvalid && o.bready {
            if BadB(config, s.b) {
              error := true;
            }
            fsm := BrAck;
          }
        case BrReadAddr =>
          if o.arvalid && s.arready {
            fsm := BrReadData;
          }
        case BrReadData =>
          if s.rvalid && o.rready {
            rdata := s.r.data;
            if BadR(config, s.r) {
              error := true;
            }
            fsm := BrAck;
          }
        case BrAck => fsm := BrIdle;
      }
    }
  }

  /** axi_assertions: the registers are updated in source order, every right-hand side
      reading the values before the sample; ok reports whether every check passed. */
  class ProtocolMonitor {
    var o: AxiMaster
    var s: AxiSlave
    var writeOpen: bool
    var dataDone: bool
    var bSeen: bool
    var writeBeats: Beats
    var writeId: AxiId
    var readOpen: bool
    var readBeats: Beats
    var readId: AxiId

    function WriteState(): Writes
      reads this
    {
      Writes(writeOpen, dataDone, bSeen, writeBeats, writeId)
    }

    function ReadState(): Reads
      reads this
    {
      Reads(readOpen, readBeats, readId)
    }

    function State(): Monitor
      reads this
    {
      Monitor(o, s, WriteState(), ReadState())
    }

    constructor ()
      ensures State() == MonitorReset()
    {
      o, s := MonitorReset().o, MonitorReset().s;
      writeOpen, dataDone, bSeen, writeBeats, writeId := false, false, false, 0, 0;
      readOpen, readBeats, readId := false, 0, 0;
    }

    method Sample(bus: AxiMaster, slave: AxiSlave) returns (ok: bool)
      modifies this
      ensures State() == MonitorNext(old(State()), bus, slave)
      ensures ok <==> MasterOk(old(State()), bus) && SlaveOk(old(State()), slave)
    {
      ok := MasterOk(State(), bus) && SlaveOk(State(), slave);
      SampleWrites();
      SampleReads();
      o, s := bus, slave;
    }

    /** A monitor out of reset that samples a whole trace: no check fails exactly when master
        and slave have kept every rule. */
    method Watch(os: seq<AxiMaster>, ss: seq<AxiSlave>) returns (ok: bool)
      requires |os| == |ss| && State() == MonitorReset()
      modifies this
      ensures State() == MonitorAfter(os, ss, |os|)
      ensures ok <==> forall n :: 0 <= n < |os| - 1 ==> KeepsRules(os, ss, n)
    {
      ok := true;
      for n := 0 to |os|
        invariant State() == MonitorAfter(os, ss, n)
        invariant ok <==> forall k :: 0 <= k < n ==> Passes(os, ss, k)
      {
        var passed := Sample(os[n], ss[n]);
        assert passed <==> Passes(os, ss, n);
        ok := ok && passed;
      }
      if os != [] {
        TracePassesIff(os, ss, |os| - 1);
      }
    }

    /** The write side: address, data and response handshakes of the previous sample. */
    method SampleWrites()
      modifies this`writeOpen, this`dataDone, this`bSeen, this`writeBeats, this`writeId
      ensures WriteState() == WritesNext(old(WriteState()), o, s)
    {
      var beats, wasSeen := writeBeats, bSeen;
      if o.awvalid && s.awready {
        writeOpen, writeBeats, writeId := true, o.aw.len + 1, o.aw.id;
      }
      if o.wvalid && s.wready {
        if beats == 1 {
          writeOpen, dataDone, writeBeats := false, true, 0;
        } else {
          writeBeats := Minus1(beats);
        }
      }
      if s.bvalid && !wasSeen {
        bSeen := true;
      }
      if s.bvalid && o.bready {
        dataDone := false;
      }
      if !s.bvalid {
        bSeen := false;
      }
    }

    method SampleReads()
      modifies this`readOpen, this`readBeats, this`readId
      ensures ReadState() == ReadsNext(old(ReadState()), o, s)
    {
      var beats := readBeats;
      if o.arvalid && s.arready {
        readOpen, readBeats, readId := true, o.ar.len + 1, o.ar.id;
      }
      if s.rvalid && o.rready {
        if beats == 1 {
          readOpen, readBeats := false, 0;
        } else {
          readBeats := Minus1(beats);
        }
      }
    }
  }
}
