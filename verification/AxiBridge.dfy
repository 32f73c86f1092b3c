/** The req/ack to AXI4 bridges (dcache_axi_master_bridge.sv, and icache_axi_master_bridge.sv
    with its base address) over a conforming AXI memory: another memory port. */
module AxiBridge {
  import opened DcachePkg
  import opened AtomicCache
  import opened MemPort

  const ADDRESS_SPACE: nat := 0x1_0000_0000
  const AXI_WORDS: nat := 0x2000_0000

  type AxiId = i: nat | i < 16
  type Len = n: nat | n < 256
  type AxiWords = m: seq<Word> | |m| == 0x2000_0000 witness seq(0x2000_0000, _ => ZERO_WORD)

  datatype RespCode = OKAY | EXOKAY | SLVERR | DECERR

  /** Payload of AW and AR; size is log2 of the bytes of a beat, burst 1 is INCR. */
  datatype AddrPayload = AddrPayload(
    id: AxiId, addr: Addr, len: Len, size: nat, burst: nat, lock: bool, cache: nat, prot: nat, qos: nat, region: nat)
  datatype WPayload = WPayload(data: Word, strb: Strb, last: bool)
  datatype BPayload = BPayload(id: AxiId, resp: RespCode)
  datatype RPayload = RPayload(id: AxiId, data: Word, resp: RespCode, last: bool)

  datatype AxiMaster = AxiMaster(
    awvalid: bool, aw: AddrPayload, wvalid: bool, w: WPayload, bready: bool,
    arvalid: bool, ar: AddrPayload, rready: bool)
  datatype AxiSlave = AxiSlave(
    awready: bool, wready: bool, bvalid: bool, b: BPayload, arready: bool, rvalid: bool, r: RPayload)

  datatype BrFsm = BrIdle | BrWriteAddr | BrWriteData | BrWriteResp | BrReadAddr | BrReadData | BrAck

  datatype Bridge = Bridge(fsm: BrFsm, addr: Addr, wdata: Word, rdata: Word, error: bool)

  /** The parameters AXI_ID and BASE_ADDR; the D-cache bridge has base 0. */
  datatype Config = Config(id: AxiId, base: Addr)

  predicate LegalConfig(g: Config) { g.base % WORD_BYTES == 0 }

  function BridgeReset(): Bridge { Bridge(BrIdle, 0, ZERO_WORD, ZERO_WORD, false) }

  function BridgeResp(b: Bridge): MemResp { if b.fsm.BrAck? then Some(b.rdata) else None }

  /** Byte address of memory word x, in 32-bit arithmetic. */
  function ByteAddr(g: Config, x: MemIdx): Addr { (g.base + x * WORD_BYTES) % ADDRESS_SPACE }

  function SingleBeat(g: Config, a: Addr): AddrPayload { AddrPayload(g.id, a, 0, 3, 1, false, 3, 0, 0, 0) }

  /** The combinational AXI outputs. */
  function Drive(b: Bridge, g: Config): AxiMaster {
    AxiMaster(
      b.fsm.BrWriteAddr?, SingleBeat(g, b.addr),
      b.fsm.BrWriteData?, WPayload(b.wdata, ALL_BYTES, true), b.fsm.BrWriteResp?,
      b.fsm.BrReadAddr?, SingleBeat(g, b.addr), b.fsm.BrReadData?)
  }

  predicate BadB(g: Config, p: BPayload) { p.resp != OKAY || p.id != g.id }

  predicate BadR(g: Config, p: RPayload) { p.resp != OKAY || !p.last || p.id != g.id }

  function BridgeNext(b: Bridge, g: Config, q: MemReq, s: AxiSlave): Bridge {
    match b.fsm
    case BrIdle =>
      if q.req then b.(addr := ByteAddr(g, q.idx), wdata := q.wdata, fsm := if q.we then BrWriteAddr else BrReadAddr)
      else b
    case BrWriteAddr => if s.awready then b.(fsm := BrWriteData) else b
    case BrWriteData => if s.wready then b.(fsm := BrWriteResp) else b
    case BrWriteResp => if s.bvalid then b.(fsm := BrAck, error := b.error || BadB(g, s.b)) else b
    case BrReadAddr => if s.arready then b.(fsm := BrReadData) else b
    case BrReadData => if s.rvalid then b.(fsm := BrAck, rdata := s.r.data, error := b.error || BadR(g, s.r)) else b
    case BrAck => b.(fsm := BrIdle)
  }

  // --------------------------------------------------------------- sticky error

  ghost predicate BridgeEdge(bs: seq<Bridge>, g: Config, qs: seq<MemReq>, ins: seq<AxiSlave>, n: nat)
    requires n < |ins| == |qs| < |bs|
  {
    bs[n + 1] == BridgeNext(bs[n], g, qs[n], ins[n])
  }

  ghost predicate IsBridgeRun(bs: seq<Bridge>, g: Config, qs: seq<MemReq>, ins: seq<AxiSlave>) {
    && |bs| == |ins| + 1 == |qs| + 1 && bs[0] == BridgeReset()
    && forall n: nat :: n < |ins| ==> BridgeEdge(bs, g, qs, ins, n)
  }

  /** A B or R handshake with a response that must be reported: a code other than OKAY, a
      foreign ID, or read data without RLAST. */
  predicate BadHandshake(b: Bridge, g: Config, s: AxiSlave) {
    || (b.fsm.BrWriteResp? && s.bvalid && (s.b.resp != OKAY || s.b.id != g.id))
    || (b.fsm.BrReadData? && s.rvalid && (s.r.resp != OKAY || s.r.id != g.id || !s.r.last))
  }

  lemma StickyEdge(b: Bridge, g: Config, q: MemReq, s: AxiSlave)
    ensures BridgeNext(b, g, q, s).error <==> b.error || BadHandshake(b, g, s)
  {}

  lemma ErrorHistory(bs: seq<Bridge>, g: Config, ins: seq<AxiSlave>, n: nat, error: bool)
    requires n < |ins| <= |bs| && (error <==> bs[n].error || BadHandshake(bs[n], g, ins[n]))
    requires bs[n].error <==> exists k :: 0 <= k < n && BadHandshake(bs[k], g, ins[k])
    ensures error <==> exists k :: 0 <= k < n + 1 && BadHandshake(bs[k], g, ins[k])
  {}

  /** Whatever the slave does, error_sticky is set exactly when some completed B or R
      handshake so far had a non-OKAY response, a foreign ID or a missing RLAST. */
  lemma {:induction false} StickyErrorRemembersBadHandshakes(
      bs: seq<Bridge>, g: Config, qs: seq<MemReq>, ins: seq<AxiSlave>, n: nat)
    requires IsBridgeRun(bs, g, qs, ins) && n <= |ins|
    ensures bs[n].error <==> exists k :: 0 <= k < n && BadHandshake(bs[k], g, ins[k])
  {
    if n > 0 {
      StickyErrorRemembersBadHandshakes(bs, g, qs, ins, n - 1);
      assert BridgeEdge(bs, g, qs, ins, n - 1);
      StickyEdge(bs[n - 1], g, qs[n - 1], ins[n - 1]);
      ErrorHistory(bs, g, ins, n - 1, bs[n].error);
    }
  }

  // ------------------------------------------------------ one transaction a request

  /** Requests taken, transfers on the five channels and acknowledge cycles so far. */
  datatype Tally = Tally(writesTaken: nat, readsTaken: nat, aw: nat, w: nat, b: nat, ar: nat, r: nat, acks: nat)

  function TallyEdge(t: Tally, b: Bridge, g: Config, q: MemReq, s: AxiSlave): Tally {
    var o, taken := Drive(b, g), b.fsm.BrIdle? && q.req;
    Tally(
      t.writesTaken + One(taken && q.we), t.readsTaken + One(taken && !q.we),
      t.aw + One(o.awvalid && s.awready), t.w + One(o.wvalid && s.wready), t.b + One(s.bvalid && o.bready),
      t.ar + One(o.arvalid && s.arready), t.r + One(s.rvalid && o.rready), t.acks + One(BridgeResp(b).Some?))
  }

  function TallyRun(bs: seq<Bridge>, g: Config, qs: seq<MemReq>, ins: seq<AxiSlave>, n: nat): Tally
    requires n <= |ins| == |qs| < |bs|
  {
    if n == 0 then Tally(0, 0, 0, 0, 0, 0, 0, 0)
    else TallyEdge(TallyRun(bs, g, qs, ins, n - 1), bs[n - 1], g, qs[n - 1], ins[n - 1])
  }

  /** The transfers that the request under way still owes. */
  ghost predicate Settled(t: Tally, f: BrFsm) {
    && t.writesTaken == t.aw + One(f.BrWriteAddr?)
    && t.aw == t.w + One(f.BrWriteData?)
    && t.w == t.b + One(f.BrWriteResp?)
    && t.readsTaken == t.ar + One(f.BrReadAddr?)
    && t.ar == t.r + One(f.BrReadData?)
    && t.b + t.r == t.acks + One(f.BrAck?)
  }

  /** One step of the FSM, the registers aside. */
  function NextFsm(f: BrFsm, q: MemReq, s: AxiSlave): BrFsm {
    match f
    case BrIdle => if !q.req then BrIdle else if q.we then BrWriteAddr else BrReadAddr
    case BrWriteAddr => if s.awready then BrWriteData else f
    case BrWriteData => if s.wready then BrWriteResp else f
    case BrWriteResp => if s.bvalid then BrAck else f
    case BrReadAddr => if s.arready then BrReadData else f
    case BrReadData => if s.rvalid then BrAck else f
    case BrAck => BrIdle
  }

  lemma FsmMoves(b: Bridge, g: Config, q: MemReq, s: AxiSlave)
    ensures BridgeNext(b, g, q, s).fsm == NextFsm(b.fsm, q, s)
  {}

  lemma EdgeKeepsSettled(t: Tally, b: Bridge, g: Config, q: MemReq, s: AxiSlave)
    requires Settled(t, b.fsm)
    ensures Settled(TallyEdge(t, b, g, q, s), NextFsm(b.fsm, q, s))
  {}

  /** Whatever the slave does: every write taken makes one AW, then one W, then one B
      transfer, every read one AR, then one R, and each is then acknowledged once; so
      nothing is ever outstanding but the request under way. */
  lemma {:induction false} OneTransactionPerRequest(bs: seq<Bridge>, g: Config, qs: seq<MemReq>, ins: seq<AxiSlave>,
      n: nat)
    requires IsBridgeRun(bs, g, qs, ins) && n <= |ins|
    ensures Settled(TallyRun(bs, g, qs, ins, n), bs[n].fsm)
  {
    if n > 0 {
      OneTransactionPerRequest(bs, g, qs, ins, n - 1);
      assert BridgeEdge(bs, g, qs, ins, n - 1);
      FsmMoves(bs[n - 1], g, qs[n - 1], ins[n - 1]);
      EdgeKeepsSettled(TallyRun(bs, g, qs, ins, n - 1), bs[n - 1], g, qs[n - 1], ins[n - 1]);
    }
  }

  // ------------------------------------------------------ what the transfers carry

  /** A request is taken in cycle t and still under way in cycle n. */
  predicate UnderWay(bs: seq<Bridge>, qs: seq<MemReq>, t: nat, n: nat)
    requires t < |qs| <= |bs| && n < |bs|
  {
    t < n && bs[t].fsm.BrIdle? && qs[t].req && forall j :: t < j <= n ==> !bs[j].fsm.BrIdle?
  }

  lemma {:induction false} RequestIsLatched(
      bs: seq<Bridge>, g: Config, qs: seq<MemReq>, ins: seq<AxiSlave>, t: nat, n: nat)
    requires IsBridgeRun(bs, g, qs, ins) && t < |qs| && n < |bs| && UnderWay(bs, qs, t, n)
    ensures bs[n].addr == ByteAddr(g, qs[t].idx) && bs[n].wdata == qs[t].wdata
    ensures qs[t].we ==> !bs[n].fsm.BrReadAddr? && !bs[n].fsm.BrReadData?
    ensures !qs[t].we ==> !bs[n].fsm.BrWriteAddr? && !bs[n].fsm.BrWriteData? && !bs[n].fsm.BrWriteResp?
  {
    assert BridgeEdge(bs, g, qs, ins, n - 1);
    if t < n - 1 {
      RequestIsLatched(bs, g, qs, ins, t, n - 1);
    }
  }

  /** Whatever the slave does, a request goes out as one beat of eight bytes at base plus eight
      times its index, modulo 2^32: no burst, no lock, normal memory, the ID of the bridge,
      its data with every byte strobed and WLAST, and on the channels of its own direction. */
  lemma TransfersCarryTheRequest(
      bs: seq<Bridge>, g: Config, qs: seq<MemReq>, ins: seq<AxiSlave>, t: nat, n: nat)
    requires IsBridgeRun(bs, g, qs, ins) && t < |qs| && n < |bs| && UnderWay(bs, qs, t, n)
    ensures var q, o := qs[t], Drive(bs[n], g);
            var a := AddrPayload(g.id, (g.base + q.idx * 8) % 0x1_0000_0000, 0, 3, 1, false, 3, 0, 0, 0);
            && (o.awvalid ==> q.we && o.aw == a) && (o.arvalid ==> !q.we && o.ar == a)
            && (o.wvalid ==> q.we && o.w.data == q.wdata && o.w.last && forall b :: 0 <= b < 8 ==> o.w.strb[b])
  {
    RequestIsLatched(bs, g, qs, ins, t, n);
  }

  /** The cache is acknowledged in exactly the cycles that follow a B or R handshake, and the
      data of an R handshake is handed over as it came, whatever its response code. */
  lemma AcknowledgeFollowsResponse(bs: seq<Bridge>, g: Config, qs: seq<MemReq>, ins: seq<AxiSlave>, n: nat)
    requires IsBridgeRun(bs, g, qs, ins) && n < |ins|
    ensures var o, s, ack := Drive(bs[n], g), ins[n], BridgeResp(bs[n + 1]);
            && (ack.Some? <==> (o.bready && s.bvalid) || (o.rready && s.rvalid))
            && (o.rready && s.rvalid ==> ack == Some(s.r.data))
  {
    assert BridgeEdge(bs, g, qs, ins, n);
  }

  // ------------------------------------------------------- when a write completes

  /** A slave takes an address in the cycles n..k, data after such an address, and answers
      after such data. */
  ghost predicate AddressTaken(ins: seq<AxiSlave>, n: nat, k: nat)
    requires k <= |ins|
  {
    exists a :: n <= a < k && ins[a].awready
  }

  ghost predicate DataTaken(ins: seq<AxiSlave>, n: nat, k: nat)
    requires k <= |ins|
  {
    exists w :: n <= w < k && ins[w].wready && AddressTaken(ins, n, w)
  }

  ghost predicate WriteAnswered(ins: seq<AxiSlave>, n: nat, k: nat)
    requires k <= |ins|
  {
    exists b :: n <= b < k && ins[b].bvalid && DataTaken(ins, n, b)
  }

  lemma TakenOneMore(ins: seq<AxiSlave>, n: nat, k: nat)
    requires n <= k < |ins|
    ensures AddressTaken(ins, n, k + 1) <==> AddressTaken(ins, n, k) || ins[k].awready
    ensures DataTaken(ins, n, k + 1) <==> DataTaken(ins, n, k) || (ins[k].wready && AddressTaken(ins, n, k))
    ensures WriteAnswered(ins, n, k + 1) <==> WriteAnswered(ins, n, k) || (ins[k].bvalid && DataTaken(ins, n, k))
  {}

  ghost predicate Acknowledged(bs: seq<Bridge>, n: nat, k: nat)
    requires k < |bs|
  {
    exists j :: n <= j <= k && BridgeResp(bs[j]).Some?
  }

  /** A write in its address state in cycle n waits for each transfer in turn. */
  lemma {:induction false} WriteFollowsTransfers(
      bs: seq<Bridge>, g: Config, qs: seq<MemReq>, ins: seq<AxiSlave>, n: nat, k: nat)
    requires IsBridgeRun(bs, g, qs, ins) && n <= k <= |ins| && bs[n].fsm.BrWriteAddr?
    ensures Acknowledged(bs, n, k) <==> WriteAnswered(ins, n, k)
    ensures !Acknowledged(bs, n, k) ==>
              bs[k].fsm == if DataTaken(ins, n, k) then BrWriteResp
                           else if AddressTaken(ins, n, k) then BrWriteData
                           else BrWriteAddr
  {
    if n < k {
      WriteFollowsTransfers(bs, g, qs, ins, n, k - 1);
      assert BridgeEdge(bs, g, qs, ins, k - 1);
      TakenOneMore(ins, n, k - 1);
      assert Acknowledged(bs, n, k) <==> Acknowledged(bs, n, k - 1) || BridgeResp(bs[k]).Some?;
    }
  }

  /** The three answers of the slave to a write, in these cycles. */
  predicate Answers(ins: seq<AxiSlave>, a: nat, w: nat, b: nat)
    requires a < |ins| && w < |ins| && b < |ins|
  {
    ins[a].awready && ins[w].wready && ins[b].bvalid
  }

  /** A write in its address state in cycle n is acknowledged by cycle k exactly when the
      slave in between takes an address, later takes data, and later answers. */
  lemma WriteCompletesIff(bs: seq<Bridge>, g: Config, qs: seq<MemReq>, ins: seq<AxiSlave>, n: nat, k: nat)
    requires IsBridgeRun(bs, g, qs, ins) && n <= k <= |ins| && bs[n].fsm.BrWriteAddr?
    ensures Acknowledged(bs, n, k) <==> exists a, w, b :: n <= a < w < b < k && Answers(ins, a, w, b)
  {
    WriteFollowsTransfers(bs, g, qs, ins, n, k);
    if WriteAnswered(ins, n, k) {
      var b :| n <= b < k && ins[b].bvalid && DataTaken(ins, n, b);
      var w :| n <= w < b && ins[w].wready && AddressTaken(ins, n, w);
      var a :| n <= a < w && ins[a].awready;
      assert Answers(ins, a, w, b);
    }
    if a, w, b :| n <= a < w < b < k && Answers(ins, a, w, b) {
      assert AddressTaken(ins, n, w);
      assert DataTaken(ins, n, b);
    }
  }

  /** A slave that takes a write address only together with write data, as the handshake
      dependencies of ARM IHI 0022, section A3.3.1, let it. */
  predicate TakesAddressWithData(b: Bridge, g: Config, s: AxiSlave) { s.awready ==> Drive(b, g).wvalid }

  lemma {:induction false} StaysInAddressState(bs: seq<Bridge>, g: Config, qs: seq<MemReq>, ins: seq<AxiSlave>, n: nat,
      k: nat)
    requires IsBridgeRun(bs, g, qs, ins) && n <= k <= |ins| && bs[n].fsm.BrWriteAddr?
    requires forall j {:trigger ins[j]} :: n <= j < k ==> TakesAddressWithData(bs[j], g, ins[j])
    ensures forall j :: n <= j <= k ==> bs[j].fsm.BrWriteAddr?
  {
    if n < k {
      StaysInAddressState(bs, g, qs, ins, n, k - 1);
      assert BridgeEdge(bs, g, qs, ins, k - 1);
      assert TakesAddressWithData(bs[k - 1], g, ins[k - 1]);
    }
  }

  /** The bridge offers no data before its address is taken, so over a slave that takes no
      address before it sees data, no write is acknowledged. */
  lemma AddressWithDataNeverCompletes(bs: seq<Bridge>, g: Config, qs: seq<MemReq>, ins: seq<AxiSlave>, n: nat, k: nat)
    requires IsBridgeRun(bs, g, qs, ins) && n <= k <= |ins| && bs[n].fsm.BrWriteAddr?
    requires forall j {:trigger ins[j]} :: n <= j < k ==> TakesAddressWithData(bs[j], g, ins[j])
    ensures !Acknowledged(bs, n, k)
  {
    StaysInAddressState(bs, g, qs, ins, n, k);
  }

  /** Ready for data, and for an address only in a cycle with data: none comes. */
  function DataFirst(): AxiSlave {
    AxiSlave(false, true, false, BPayload(0, OKAY), true, false, RPayload(0, ZERO_WORD, OKAY, false))
  }

  /** The bridge after a write request q has been held for one cycle or more. */
  function WaitingBridge(g: Config, q: MemReq): Bridge {
    BridgeReset().(fsm := BrWriteAddr, addr := ByteAddr(g, q.idx), wdata := q.wdata)
  }

  /** One such slave, and a write that it blocks for as long as one likes: AWREADY is WVALID
      and WREADY is high in every cycle. */
  lemma DataFirstSlaveBlocks(g: Config, q: MemReq, len: nat)
    requires q.req && q.we
    ensures var bs := [BridgeReset()] + seq(len, _ => WaitingBridge(g, q));
            var qs, ins := seq(len, _ => q), seq(len, _ => DataFirst());
            && IsBridgeRun(bs, g, qs, ins) && !Acknowledged(bs, 0, len)
            && forall j :: 0 <= j < len ==> ins[j].awready == Drive(bs[j], g).wvalid && ins[j].wready
  {
    var bs := [BridgeReset()] + seq(len, _ => WaitingBridge(g, q));
    var qs, ins := seq(len, _ => q), seq(len, _ => DataFirst());
    forall n: nat | n < len ensures BridgeEdge(bs, g, qs, ins, n) {
      assert bs[n] == if n == 0 then BridgeReset() else WaitingBridge(g, q);
      assert bs[n + 1] == WaitingBridge(g, q);
    }
    assert forall j :: 0 <= j <= len ==> BridgeResp(bs[j]).None?;
  }

  // ----------------------------------------------------------------- address map

  /** Distinct words get distinct aligned byte addresses: base plus eight times the index,
      less 2^32 where the window wraps. */
  lemma WordsAreDisjoint(g: Config, x: MemIdx, y: MemIdx)
    requires LegalConfig(g)
    ensures ByteAddr(g, x) == g.base + x * 8 - (if g.base + x * 8 < 0x1_0000_0000 then 0 else 0x1_0000_0000)
    ensures ByteAddr(g, x) % 8 == 0 && ByteAddr(g, x) / 8 < AXI_WORDS
    ensures x != y ==> ByteAddr(g, x) / 8 != ByteAddr(g, y) / 8
  {
    var w := g.base / 8;
    assert g.base == w * 8;
    forall z: MemIdx
      ensures ByteAddr(g, z) == (if w + z < AXI_WORDS then w + z else w + z - AXI_WORDS) * 8
    {
      var v := if w + z < AXI_WORDS then w + z else w + z - AXI_WORDS;
      DivMod(g.base + z * 8, ADDRESS_SPACE, if w + z < AXI_WORDS then 0 else 1, v * 8);
    }
  }

  /** The 64 K words of AXI memory that the port stands for. */
  function Window(g: Config, words: AxiWords): MemWords
    requires LegalConfig(g)
  {
    seq(0x1_0000, x requires 0 <= x < 0x1_0000 => (WordsAreDisjoint(g, x, x); words[ByteAddr(g, x) / WORD_BYTES]))
  }

  lemma WindowAfterWrite(g: Config, words: AxiWords, x: MemIdx, data: Word)
    requires LegalConfig(g)
    ensures ByteAddr(g, x) / WORD_BYTES < AXI_WORDS
    ensures Window(g, words[ByteAddr(g, x) / WORD_BYTES := data]) == Window(g, words)[x := data]
  {
    WordsAreDisjoint(g, x, x);
    var before, after := Window(g, words), Window(g, words[ByteAddr(g, x) / WORD_BYTES := data]);
    forall y: MemIdx ensures after[y] == before[x := data][y] {
      WordsAreDisjoint(g, x, y);
    }
  }

  // ------------------------------------------------------------- an AXI memory

  /** A memory slave with one write and one read outstanding: address taken, data taken,
      performed and about to answer. */
  datatype WritePhase = WIdle | WAddr(aw: AddrPayload) | WData(aw: AddrPayload, w: WPayload) | WAnswer(b: BPayload)
  datatype ReadPhase = RIdle | RAddr(ar: AddrPayload) | RAnswer(r: RPayload)
  datatype AxiMemory = AxiMemory(words: AxiWords, wr: WritePhase, rd: ReadPhase)

  /** What a conforming memory may drive: readies at will, and answers only to what it has
      performed. */
  predicate Conforms(m: AxiMemory, s: AxiSlave) {
    && (s.bvalid ==> m.wr.WAnswer? && s.b == m.wr.b)
    && (s.rvalid ==> m.rd.RAnswer? && s.r == m.rd.r)
  }

  /** Bytes of a beat: two to the power of AxSIZE. */
  function BeatBytes(size: nat): (bytes: nat)
    ensures bytes > 0
  {
    if size == 0 then 1 else 2 * BeatBytes(size - 1)
  }

  /** Byte lane b takes part in a beat at this address. */
  predicate InBeat(a: AddrPayload, b: nat) { a.addr % 8 <= b < a.addr % 8 + BeatBytes(a.size) }

  /** The transfers that a memory has to perform: one beat, no wider than the bus, aligned to
      its size, FIXED or INCR, not exclusive. To any other it may do and answer anything. */
  predicate IsPlain(a: AddrPayload) {
    a.len == 0 && a.size <= 3 && a.addr % BeatBytes(a.size) == 0 && a.burst <= 1 && !a.lock
  }

  /** Its data too: WLAST, and no strobe outside the beat. */
  predicate IsPlainWrite(a: AddrPayload, w: WPayload) {
    IsPlain(a) && w.last && forall b :: 0 <= b < 8 && w.strb[b] ==> InBeat(a, b)
  }

  /** Memory changes in the strobed bytes of the addressed word, and nowhere else. */
  predicate BytesWritten(m: AxiWords, a: AddrPayload, w: WPayload, m': AxiWords) {
    forall j, b :: 0 <= j < AXI_WORDS && 0 <= b < 8 ==>
      m'[j][b] == if j == a.addr / 8 && w.strb[b] then w.data[b] else m[j][b]
  }

  /** The write is done and answered with its ID, a plain one with OKAY. */
  predicate WritePerformed(m: AxiMemory, a: AddrPayload, w: WPayload, m': AxiMemory) {
    && m'.wr.WAnswer? && m'.wr.b.id == a.id
    && (IsPlainWrite(a, w) ==> m'.wr.b.resp == OKAY && BytesWritten(m.words, a, w, m'.words))
  }

  /** The read is answered with its ID, a plain one with OKAY, RLAST and the bytes of its beat. */
  predicate ReadPerformed(m: AxiMemory, a: AddrPayload, r: RPayload) {
    && r.id == a.id
    && (IsPlain(a) ==>
          && r.resp == OKAY && r.last
          && forall b :: 0 <= b < 8 && InBeat(a, b) ==> r.data[b] == m.words[a.addr / 8][b])
  }

  /** One edge of the write channels: every transfer and the write itself after any delay. */
  predicate WriteSideNext(m: AxiMemory, o: AxiMaster, s: AxiSlave, m': AxiMemory) {
    match m.wr
    case WIdle => m'.words == m.words && m'.wr == if o.awvalid && s.awready then WAddr(o.aw) else WIdle
    case WAddr(a) =>
      if o.wvalid && s.wready then
        (m'.words == m.words && m'.wr == WData(a, o.w)) || WritePerformed(m, a, o.w, m')
      else m'.words == m.words && m'.wr == m.wr
    case WData(a, w) => (m'.words == m.words && m'.wr == m.wr) || WritePerformed(m, a, w, m')
    case WAnswer(_) => m'.words == m.words && m'.wr == if s.bvalid && o.bready then WIdle else m.wr
  }

  predicate ReadSideNext(m: AxiMemory, o: AxiMaster, s: AxiSlave, m': AxiMemory) {
    match m.rd
    case RIdle =>
      if o.arvalid && s.arready then
        m'.rd == RAddr(o.ar) || (m'.rd.RAnswer? && ReadPerformed(m, o.ar, m'.rd.r))
      else m'.rd == RIdle
    case RAddr(a) => m'.rd == m.rd || (m'.rd.RAnswer? && ReadPerformed(m, a, m'.rd.r))
    case RAnswer(_) => m'.rd == if s.rvalid && o.rready then RIdle else m.rd
  }

  // -------------------------------------------------- bridge and memory as a port

  /** idx is the word the bridge has latched, log the words moved so far. */
  datatype Path = Path(b: Bridge, m: AxiMemory, idx: MemIdx, log: seq<Beat>)

  ghost predicate PathNext(p: Path, g: Config, q: MemReq, s: AxiSlave, p': Path) {
    && Conforms(p.m, s)
    && WriteSideNext(p.m, Drive(p.b, g), s, p'.m) && ReadSideNext(p.m, Drive(p.b, g), s, p'.m)
    && p'.b == BridgeNext(p.b, g, q, s)
    && p'.idx == (if p.b.fsm.BrIdle? && q.req then q.idx else p.idx)
    && p'.log == p.log + Moved(p, p')
  }

  /** The transfer the memory performs at this edge. */
  function Moved(p: Path, p': Path): seq<Beat> {
    if !p.m.wr.WAnswer? && p'.m.wr.WAnswer? then [WriteBeat(p.idx, p.b.wdata)]
    else if !p.m.rd.RAnswer? && p'.m.rd.RAnswer? then [ReadBeat(p.idx, p'.m.rd.r.data)]
    else []
  }

  /** The bridge's data beat, and the answers it gets. */
  function FullBeat(b: Bridge): WPayload { WPayload(b.wdata, ALL_BYTES, true) }

  predicate WriteAnswer(wr: WritePhase, g: Config) { wr.WAnswer? && wr.b == BPayload(g.id, OKAY) }

  predicate ReadAnswer(rd: ReadPhase, g: Config) { rd.RAnswer? && rd.r == RPayload(g.id, rd.r.data, OKAY, true) }

  /** Bridge FSM and memory in step. */
  ghost predicate PathInv(p: Path, g: Config) {
    && LegalConfig(g) && !p.b.error
    && (!p.b.fsm.BrIdle? && !p.b.fsm.BrAck? ==>
          p.b.addr == ByteAddr(g, p.idx))
    && match p.b.fsm
       case BrWriteData => p.m.wr == WAddr(SingleBeat(g, p.b.addr)) && p.m.rd == RIdle
       case BrWriteResp =>
         && (p.m.wr == WData(SingleBeat(g, p.b.addr), FullBeat(p.b)) || WriteAnswer(p.m.wr, g))
         && p.m.rd == RIdle
       case BrReadData =>
         (p.m.rd == RAddr(SingleBeat(g, p.b.addr)) || ReadAnswer(p.m.rd, g)) && p.m.wr == WIdle
       case _ => p.m.wr == WIdle && p.m.rd == RIdle
  }

  function PortOf(p: Path, g: Config): Port
    requires LegalConfig(g)
  {
    Port(
      Backing(Window(g, p.m.words), p.log),
      match p.b.fsm
      case BrIdle => Free
      case BrAck => Acking(p.b.rdata)
      case BrReadAddr => Busy(false, p.idx, p.b.wdata)
      case BrReadData => if p.m.rd.RAnswer? then Performed(p.m.rd.r.data) else Busy(false, p.idx, p.b.wdata)
      case _ => if p.m.wr.WAnswer? then Performed(p.b.rdata) else Busy(true, p.idx, p.b.wdata))
  }

  lemma WindowWord(g: Config, words: AxiWords, x: MemIdx)
    requires LegalConfig(g)
    ensures ByteAddr(g, x) / WORD_BYTES < AXI_WORDS && Window(g, words)[x] == words[ByteAddr(g, x) / WORD_BYTES]
  {
    WordsAreDisjoint(g, x, x);
  }

  lemma EightBytes()
    ensures BeatBytes(3) == 8
  {
    assert BeatBytes(2) == 4;
  }

  /** The bridge's address payload is plain, and its beat covers every lane. */
  lemma SingleBeatIsPlain(g: Config, a: Addr)
    requires a % 8 == 0
    ensures IsPlain(SingleBeat(g, a)) && forall b :: 0 <= b < 8 ==> InBeat(SingleBeat(g, a), b)
  {
    EightBytes();
  }

  /** So a write of the bridge replaces the whole word. */
  lemma SingleBeatWrites(m: AxiMemory, g: Config, x: MemIdx, data: Word, m': AxiMemory)
    requires LegalConfig(g)
    requires WritePerformed(m, SingleBeat(g, ByteAddr(g, x)), WPayload(data, ALL_BYTES, true), m')
    ensures WriteAnswer(m'.wr, g) && ByteAddr(g, x) / 8 < AXI_WORDS && m'.words == m.words[ByteAddr(g, x) / 8 := data]
    ensures Window(g, m'.words) == Window(g, m.words)[x := data]
  {
    WordsAreDisjoint(g, x, x);
    SingleBeatIsPlain(g, ByteAddr(g, x));
    var k, a, w := ByteAddr(g, x) / 8, SingleBeat(g, ByteAddr(g, x)), WPayload(data, ALL_BYTES, true);
    assert IsPlainWrite(a, w) && BytesWritten(m.words, a, w, m'.words);
    forall j | 0 <= j < AXI_WORDS ensures m'.words[j] == m.words[k := data][j] {
      forall b | 0 <= b < 8 ensures m'.words[j][b] == m.words[k := data][j][b] {
        assert w.strb[b];
      }
    }
    WindowAfterWrite(g, m.words, x, data);
  }

  /** And a read gets it. */
  lemma SingleBeatReads(m: AxiMemory, g: Config, x: MemIdx, r: RPayload)
    requires LegalConfig(g) && ReadPerformed(m, SingleBeat(g, ByteAddr(g, x)), r)
    ensures r == RPayload(g.id, Window(g, m.words)[x], OKAY, true)
  {
    WindowWord(g, m.words, x);
    WordsAreDisjoint(g, x, x);
    SingleBeatIsPlain(g, ByteAddr(g, x));
    assert forall b :: 0 <= b < 8 ==> r.data[b] == Window(g, m.words)[x][b];
  }

  lemma WritePathNext(p: Path, g: Config, q: MemReq, s: AxiSlave, p': Path)
    requires PathInv(p, g) && PathNext(p, g, q, s, p')
    requires p.b.fsm.BrWriteAddr? || p.b.fsm.BrWriteData? || p.b.fsm.BrWriteResp?
    ensures PathInv(p', g) && PortNext(PortOf(p, g), q, PortOf(p', g))
    ensures forall j :: 0 <= j < AXI_WORDS && p'.m.words[j] != p.m.words[j] ==> j == ByteAddr(g, p.idx) / WORD_BYTES
  {
    if !p.m.wr.WAnswer? && p'.m.wr.WAnswer? {
      SingleBeatWrites(p.m, g, p.idx, p.b.wdata, p'.m);
    }
    assert p.log + [] == p.log;
  }

  lemma ReadPathNext(p: Path, g: Config, q: MemReq, s: AxiSlave, p': Path)
    requires PathInv(p, g) && PathNext(p, g, q, s, p') && (p.b.fsm.BrReadAddr? || p.b.fsm.BrReadData?)
    ensures PathInv(p', g) && PortNext(PortOf(p, g), q, PortOf(p', g)) && p'.m.words == p.m.words
  {
    if !p.m.rd.RAnswer? && p'.m.rd.RAnswer? {
      SingleBeatReads(p.m, g, p.idx, p'.m.rd.r);
    }
    assert p.log + [] == p.log;
  }

  /** The bridge over a conforming AXI memory meets the port contract: each request held by
      the cache becomes exactly one AXI write or read of word idx, performed once, in order,
      and is acknowledged only after its B or R handshake, with the right data; and a
      conforming memory never sets the sticky error. The memory goes by the address payload,
      the strobes and WLAST that the bridge drives. */
  lemma BridgeMeetsContract(p: Path, g: Config, q: MemReq, s: AxiSlave, p': Path)
    requires PathInv(p, g) && PathNext(p, g, q, s, p')
    ensures PathInv(p', g) && PortNext(PortOf(p, g), q, PortOf(p', g))
    ensures Respond(PortOf(p, g)) == BridgeResp(p.b)
    ensures Drive(p.b, g).awvalid ==> Drive(p.b, g).aw.addr == ByteAddr(g, p.idx)
    ensures Drive(p.b, g).arvalid ==> Drive(p.b, g).ar.addr == ByteAddr(g, p.idx)
    ensures forall j :: 0 <= j < AXI_WORDS && p'.m.words[j] != p.m.words[j] ==> j == ByteAddr(g, p.idx) / WORD_BYTES
    ensures p'.b.fsm.BrAck? ==> (Drive(p.b, g).bready && s.bvalid) || (Drive(p.b, g).rready && s.rvalid)
  {
    if p.b.fsm.BrWriteAddr? || p.b.fsm.BrWriteData? || p.b.fsm.BrWriteResp? {
      WritePathNext(p, g, q, s, p');
    } else if p.b.fsm.BrReadAddr? || p.b.fsm.BrReadData? {
      ReadPathNext(p, g, q, s, p');
    } else {
      assert p.log + [] == p.log;
    }
  }

  // ---------------------------------------------------- the quickest such memory

  /** Always ready, and answering as soon as the transfer is performed. */
  function Obliging(m: AxiMemory): AxiSlave {
    AxiSlave(
      true, true, m.wr.WAnswer?, if m.wr.WAnswer? then m.wr.b else BPayload(0, OKAY),
      true, m.rd.RAnswer?, if m.rd.RAnswer? then m.rd.r else RPayload(0, ZERO_WORD, OKAY, true))
  }

  /** It writes the strobed bytes of any write, and reads whole words. */
  function StrobedWords(m: AxiWords, a: AddrPayload, w: WPayload): AxiWords {
    m[a.addr / 8 := seq(8, b requires 0 <= b < 8 => if w.strb[b] then w.data[b] else m[a.addr / 8][b])]
  }

  function WholeWord(m: AxiWords, a: AddrPayload): RPayload { RPayload(a.id, m[a.addr / 8], OKAY, true) }

  function ObligingNext(m: AxiMemory, o: AxiMaster): AxiMemory {
    var wr := match m.wr
              case WIdle => if o.awvalid then WAddr(o.aw) else WIdle
              case WAddr(a) => if o.wvalid then WAnswer(BPayload(a.id, OKAY)) else m.wr
              case WData(a, _) => WAnswer(BPayload(a.id, OKAY))
              case WAnswer(_) => if o.bready then WIdle else m.wr;
    var words := match m.wr
                 case WAddr(a) => if o.wvalid then StrobedWords(m.words, a, o.w) else m.words
                 case WData(a, w) => StrobedWords(m.words, a, w)
                 case _ => m.words;
    var rd := match m.rd
              case RIdle => if o.arvalid then RAnswer(WholeWord(m.words, o.ar)) else RIdle
              case RAddr(a) => RAnswer(WholeWord(m.words, a))
              case RAnswer(_) => if o.rready then RIdle else m.rd;
    AxiMemory(words, wr, rd)
  }

  function ObligingPath(p: Path, g: Config, q: MemReq): Path {
    var b := BridgeNext(p.b, g, q, Obliging(p.m));
    var p' := Path(b, ObligingNext(p.m, Drive(p.b, g)), if p.b.fsm.BrIdle? && q.req then q.idx else p.idx, p.log);
    p'.(log := p.log + Moved(p, p'))
  }

  /** Cycles from taking a request to acknowledging it. */
  function EdgesLeft(p: Path): nat {
    match p.b.fsm
    case BrIdle => 0
    case BrWriteAddr => 3
    case BrWriteData => 2
    case BrWriteResp => if p.m.wr.WAnswer? then 1 else 2
    case BrReadAddr => 2
    case BrReadData => if p.m.rd.RAnswer? then 1 else 2
    case BrAck => 0
  }

  /** There are conforming memories: over this one every edge of a request brings its
      acknowledge closer, so a write takes four cycles and a read three. */
  lemma ObligingMemoryConforms(p: Path, g: Config, q: MemReq)
    requires PathInv(p, g)
    ensures PathNext(p, g, q, Obliging(p.m), ObligingPath(p, g, q))
    ensures var p' := ObligingPath(p, g, q);
            if p.b.fsm.BrIdle? then q.req ==> EdgesLeft(p') == if q.we then 3 else 2
            else if EdgesLeft(p) == 1 then BridgeResp(p'.b).Some?
            else EdgesLeft(p) > 0 ==> EdgesLeft(p') == EdgesLeft(p) - 1 && BridgeResp(p'.b).None?
  {
    ObligingEdge(p.m, Drive(p.b, g));
    assert p.log + [] == p.log;
  }

  /** Whatever the master drives. */
  lemma ObligingEdge(m: AxiMemory, o: AxiMaster)
    ensures var s, m' := Obliging(m), ObligingNext(m, o);
            Conforms(m, s) && WriteSideNext(m, o, s, m') && ReadSideNext(m, o, s, m')
  {}
}
