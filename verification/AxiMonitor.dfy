/** The AXI protocol monitor (axi_assertions.sv) watching the bridge: what it can and
    cannot object to. One sample is taken per clock cycle. */
module AxiMonitor {
  import opened DcachePkg
  import opened MemPort
  import opened AxiBridge

  type Beats = n: nat | n < 512

  /** The outstanding write and the outstanding read. */
  datatype Writes = Writes(open: bool, dataDone: bool, bSeen: bool, beats: Beats, id: AxiId)
  datatype Reads = Reads(open: bool, beats: Beats, id: AxiId)

  /** The sample before this one, and what is outstanding. */
  datatype Monitor = Monitor(o: AxiMaster, s: AxiSlave, w: Writes, r: Reads)

  function MonitorReset(): Monitor {
    var a := AddrPayload(0, 0, 0, 0, 0, false, 0, 0, 0, 0);
    Monitor(
      AxiMaster(false, a, false, WPayload(ZERO_WORD, NO_BYTES, false), false, false, a, false),
      AxiSlave(false, false, false, BPayload(0, OKAY), false, false, RPayload(0, ZERO_WORD, OKAY, false)),
      Writes(false, false, false, 0, 0), Reads(false, 0, 0))
  }

  /** One less, in nine bits. */
  function Minus1(n: Beats): (r: Beats)
    ensures (r + 1) % 512 == n
  {
    if n == 0 then 511 else n - 1
  }

  /** The checks on what the master drives. */
  predicate MasterOk(m: Monitor, o: AxiMaster) {
    && (m.o.awvalid && !m.s.awready ==> o.awvalid && o.aw == m.o.aw)
    && (m.o.wvalid && !m.s.wready ==> o.wvalid && o.w == m.o.w)
    && (m.o.arvalid && !m.s.arready ==> o.arvalid && o.ar == m.o.ar)
    && (m.o.awvalid && m.s.awready ==> !m.w.open && !m.w.dataDone)
    && (m.o.wvalid && m.s.wready ==> m.w.open && m.o.w.last == (m.w.beats == 1))
    && (m.o.arvalid && m.s.arready ==> !m.r.open)
  }

  /** The checks on what the slave drives. */
  predicate SlaveOk(m: Monitor, s: AxiSlave) {
    && (m.s.bvalid && !m.o.bready ==> s.bvalid && s.b == m.s.b)
    && (m.s.rvalid && !m.o.rready ==> s.rvalid && s.r == m.s.r)
    && (m.s.bvalid && !m.w.bSeen ==> m.w.dataDone && m.s.b.id == m.w.id)
    && (m.s.rvalid ==> m.r.open && m.s.r.id == m.r.id && m.s.r.last == (m.r.beats == 1))
  }

  /** Of several assignments to a register in one sample the last one wins. */
  function WritesNext(w: Writes, o: AxiMaster, s: AxiSlave): Writes {
    var aw, data := o.awvalid && s.awready, o.wvalid && s.wready;
    var last := data && w.beats == 1;
    Writes(
      if last then false else w.open || aw,
      if s.bvalid && o.bready then false else w.dataDone || last,
      s.bvalid,
      if last then 0 else if data then Minus1(w.beats) else if aw then o.aw.len + 1 else w.beats,
      if aw then o.aw.id else w.id)
  }

  function ReadsNext(r: Reads, o: AxiMaster, s: AxiSlave): Reads {
    var ar, data := o.arvalid && s.arready, s.rvalid && o.rready;
    var last := data && r.beats == 1;
    Reads(
      if last then false else r.open || ar,
      if last then 0 else if data then Minus1(r.beats) else if ar then o.ar.len + 1 else r.beats,
      if ar then o.ar.id else r.id)
  }

  function MonitorNext(m: Monitor, o: AxiMaster, s: AxiSlave): Monitor {
    Monitor(o, s, WritesNext(m.w, m.o, m.s), ReadsNext(m.r, m.o, m.s))
  }

  /** The monitor after n samples of a bus. */
  function MonitorAfter(os: seq<AxiMaster>, ss: seq<AxiSlave>, n: nat): Monitor
    requires n <= |os| == |ss|
  {
    if n == 0 then MonitorReset() else MonitorNext(MonitorAfter(os, ss, n - 1), os[n - 1], ss[n - 1])
  }

  // --------------------------------------------------------- monitor and bridge

  /** The monitor after it has sampled bridge state p: a write or read is open exactly in
      the states that expect its data, and one beat of it is left. */
  ghost predicate Follows(m: Monitor, p: Bridge, g: Config) {
    && m.o == Drive(p, g)
    && m.w.open == p.fsm.BrWriteData? && m.w.dataDone == p.fsm.BrWriteResp? && m.r.open == p.fsm.BrReadData?
    && (m.w.open ==> m.w.beats == 1) && (m.r.open ==> m.r.beats == 1)
    && (m.w.open || m.w.dataDone ==> m.w.id == g.id) && (m.r.open ==> m.r.id == g.id)
  }

  lemma FollowsNext(m: Monitor, p: Bridge, g: Config, q: MemReq, s: AxiSlave)
    requires Follows(m, p, g)
    ensures var b := BridgeNext(p, g, q, m.s);
            Follows(MonitorNext(m, Drive(b, g), s), b, g) && MasterOk(m, Drive(b, g))
  {}

  ghost predicate SampleEdge(ms: seq<Monitor>, bs: seq<Bridge>, g: Config, ins: seq<AxiSlave>, n: nat)
    requires n < |ins| && |ins| < |ms| == |bs|
  {
    ms[n + 1] == MonitorNext(ms[n], Drive(bs[n], g), ins[n])
  }

  ghost predicate IsMonitored(ms: seq<Monitor>, bs: seq<Bridge>, g: Config, ins: seq<AxiSlave>) {
    && |ms| == |bs| == |ins| + 1 && ms[0] == MonitorReset()
    && forall n: nat :: n < |ins| ==> SampleEdge(ms, bs, g, ins, n)
  }

  lemma {:induction false} MonitorFollows(
      ms: seq<Monitor>, bs: seq<Bridge>, g: Config, qs: seq<MemReq>, ins: seq<AxiSlave>, n: nat)
    requires IsBridgeRun(bs, g, qs, ins) && IsMonitored(ms, bs, g, ins) && n < |ins|
    ensures Follows(ms[n + 1], bs[n], g) && ms[n + 1].s == ins[n]
  {
    assert SampleEdge(ms, bs, g, ins, n);
    if n > 0 {
      MonitorFollows(ms, bs, g, qs, ins, n - 1);
      assert BridgeEdge(bs, g, qs, ins, n - 1);
      FollowsNext(ms[n], bs[n - 1], g, qs[n - 1], ins[n]);
    }
  }

  /** Conformance of the master: whatever the slave drives, no AW, W or AR payload changes
      while stalled, no data goes before its address, WLAST marks the one beat, and no
      second write or read is outstanding. */
  lemma MasterNeverFails(ms: seq<Monitor>, bs: seq<Bridge>, g: Config, qs: seq<MemReq>, ins: seq<AxiSlave>, n: nat)
    requires IsBridgeRun(bs, g, qs, ins) && IsMonitored(ms, bs, g, ins) && n < |ins|
    ensures MasterOk(ms[n], Drive(bs[n], g))
  {
    if n > 0 {
      MonitorFollows(ms, bs, g, qs, ins, n - 1);
      assert BridgeEdge(bs, g, qs, ins, n - 1);
      FollowsNext(ms[n], bs[n - 1], g, qs[n - 1], ins[n]);
    }
  }

  // ------------------------------------------------------------ monitor and slave

  ghost predicate PathEdge(ps: seq<Path>, g: Config, qs: seq<MemReq>, axi: seq<AxiSlave>, n: nat)
    requires n < |axi| == |qs| < |ps|
  {
    PathNext(ps[n], g, qs[n], axi[n], ps[n + 1])
  }

  ghost predicate IsPathRun(ps: seq<Path>, g: Config, qs: seq<MemReq>, axi: seq<AxiSlave>) {
    && |ps| == |axi| + 1 == |qs| + 1 && PathInv(ps[0], g) && ps[0].b == BridgeReset()
    && forall n: nat :: n < |axi| ==> PathEdge(ps, g, qs, axi, n)
  }

  function Bridges(ps: seq<Path>): (bs: seq<Bridge>)
    ensures |bs| == |ps|
  {
    seq(|ps|, k requires 0 <= k < |ps| => ps[k].b)
  }

  lemma {:induction false} PathRunKeepsInv(ps: seq<Path>, g: Config, qs: seq<MemReq>, axi: seq<AxiSlave>, n: nat)
    requires IsPathRun(ps, g, qs, axi) && n <= |axi|
    ensures PathInv(ps[n], g)
  {
    if n > 0 {
      PathRunKeepsInv(ps, g, qs, axi, n - 1);
      assert PathEdge(ps, g, qs, axi, n - 1);
      BridgeMeetsContract(ps[n - 1], g, qs[n - 1], axi[n - 1], ps[n]);
    }
  }

  lemma ConformingSampleIsOk(m: Monitor, p: Path, g: Config, s: AxiSlave)
    requires Follows(m, p.b, g) && PathInv(p, g) && Conforms(p.m, m.s)
    ensures SlaveOk(m, s)
  {}

  /** Conformance of the slave: no check on the slave ever fails over a conforming memory. */
  lemma ConformingSlaveNeverFails(ms: seq<Monitor>, ps: seq<Path>, g: Config, qs: seq<MemReq>, axi: seq<AxiSlave>,
      n: nat)
    requires IsPathRun(ps, g, qs, axi) && IsMonitored(ms, Bridges(ps), g, axi) && n < |axi|
    ensures SlaveOk(ms[n], axi[n]) && MasterOk(ms[n], Drive(ps[n].b, g))
  {
    PathRunIsBridgeRun(ps, g, qs, axi);
    MasterNeverFails(ms, Bridges(ps), g, qs, axi, n);
    if n > 0 {
      MonitorFollows(ms, Bridges(ps), g, qs, axi, n - 1);
      PathRunKeepsInv(ps, g, qs, axi, n - 1);
      assert PathEdge(ps, g, qs, axi, n - 1);
      ConformingSampleIsOk(ms[n], ps[n - 1], g, axi[n]);
    }
  }

  lemma PathRunIsBridgeRun(ps: seq<Path>, g: Config, qs: seq<MemReq>, axi: seq<AxiSlave>)
    requires IsPathRun(ps, g, qs, axi)
    ensures IsBridgeRun(Bridges(ps), g, qs, axi)
  {
    forall n: nat | n < |axi| ensures BridgeEdge(Bridges(ps), g, qs, axi, n) {
      assert PathEdge(ps, g, qs, axi, n);
    }
  }

  // --------------------------------------------------------------- a blind spot

  /** What the slave checks on the sample of cycle n demand, in terms of the run: stalled
      responses stay, a read response answers an open read, and a write response answers a
      finished write unless BVALID was already high in the cycle before. */
  predicate SampleOk(bs: seq<Bridge>, g: Config, ins: seq<AxiSlave>, n: nat)
    requires n + 1 < |ins| && |ins| < |bs|
  {
    var f, s, s' := bs[n].fsm, ins[n], ins[n + 1];
    && (s.bvalid && !f.BrWriteResp? ==> s'.bvalid && s'.b == s.b)
    && (s.bvalid && !(n > 0 && ins[n - 1].bvalid) ==> f.BrWriteResp? && s.b.id == g.id)
    && (s.rvalid ==> f.BrReadData? && s.r.id == g.id && s.r.last)
  }

  lemma SeenBefore(ms: seq<Monitor>, bs: seq<Bridge>, g: Config, qs: seq<MemReq>, ins: seq<AxiSlave>, n: nat)
    requires IsBridgeRun(bs, g, qs, ins) && IsMonitored(ms, bs, g, ins) && n < |ins|
    ensures ms[n + 1].w.bSeen <==> n > 0 && ins[n - 1].bvalid
  {
    assert SampleEdge(ms, bs, g, ins, n);
    if n > 0 {
      MonitorFollows(ms, bs, g, qs, ins, n - 1);
    }
  }

  /** In every run, the checks on the slave pass exactly when the sample is as demanded. */
  lemma SlaveChecksAre(ms: seq<Monitor>, bs: seq<Bridge>, g: Config, qs: seq<MemReq>, ins: seq<AxiSlave>, n: nat)
    requires IsBridgeRun(bs, g, qs, ins) && IsMonitored(ms, bs, g, ins) && n + 1 < |ins|
    ensures SlaveOk(ms[n + 1], ins[n + 1]) <==> SampleOk(bs, g, ins, n)
  {
    MonitorFollows(ms, bs, g, qs, ins, n);
    SeenBefore(ms, bs, g, qs, ins, n);
  }

  /** A write response that no write is waiting for. */
  predicate SpuriousB(b: Bridge, s: AxiSlave) { s.bvalid && !b.fsm.BrWriteResp? }

  /** A spurious write response goes unreported exactly when BVALID was already high in the
      cycle before and the response stays, the read channel being in order: a response held
      on after its own handshake is not noticed. */
  lemma SpuriousResponseIsReportedOnce(
      ms: seq<Monitor>, bs: seq<Bridge>, g: Config, qs: seq<MemReq>, ins: seq<AxiSlave>, n: nat)
    requires IsBridgeRun(bs, g, qs, ins) && IsMonitored(ms, bs, g, ins) && n + 1 < |ins|
    requires SpuriousB(bs[n], ins[n])
    ensures SlaveOk(ms[n + 1], ins[n + 1]) <==>
              && n > 0 && ins[n - 1].bvalid && ins[n + 1].bvalid && ins[n + 1].b == ins[n].b
              && (ins[n].rvalid ==> bs[n].fsm.BrReadData? && ins[n].r.id == g.id && ins[n].r.last)
  {
    SlaveChecksAre(ms, bs, g, qs, ins, n);
  }

  /** A completed handshake that sets error_sticky and that no check of the monitor objects
      to: a bad response code, or a foreign ID on a write response that was already high in
      the cycle before. */
  predicate Escapes(bs: seq<Bridge>, g: Config, ins: seq<AxiSlave>, n: nat)
    requires n < |ins| && |ins| < |bs|
  {
    var o, s := Drive(bs[n], g), ins[n];
    || (o.bready && s.bvalid && (s.b.resp != OKAY || (n > 0 && ins[n - 1].bvalid && s.b.id != g.id)))
    || (o.rready && s.rvalid && s.r.resp != OKAY)
  }

  lemma CheckedHandshake(m: Monitor, p: Bridge, g: Config, s: AxiSlave)
    requires Follows(m, p, g) && SlaveOk(m, s)
    ensures BadHandshake(p, g, m.s) <==>
              || (m.o.bready && m.s.bvalid && (m.s.b.resp != OKAY || (m.w.bSeen && m.s.b.id != g.id)))
              || (m.o.rready && m.s.rvalid && m.s.r.resp != OKAY)
  {}

  /** In any run, a sample that passes the checks on the slave holds a bad handshake exactly
      when it is one that escapes them. */
  lemma WhatEscapesTheMonitor(
      ms: seq<Monitor>, bs: seq<Bridge>, g: Config, qs: seq<MemReq>, ins: seq<AxiSlave>, n: nat)
    requires IsBridgeRun(bs, g, qs, ins) && IsMonitored(ms, bs, g, ins) && n + 1 < |ins|
    requires SlaveOk(ms[n + 1], ins[n + 1])
    ensures BadHandshake(bs[n], g, ins[n]) <==> Escapes(bs, g, ins, n)
  {
    MonitorFollows(ms, bs, g, qs, ins, n);
    SeenBefore(ms, bs, g, qs, ins, n);
    CheckedHandshake(ms[n + 1], bs[n], g, ins[n + 1]);
  }

  /** In a run whose slave checks have all passed, error_sticky is set exactly when some
      handshake so far has escaped them. */
  lemma ErrorsOfCheckedRun(ms: seq<Monitor>, bs: seq<Bridge>, g: Config, qs: seq<MemReq>, ins: seq<AxiSlave>, n: nat)
    requires IsBridgeRun(bs, g, qs, ins) && IsMonitored(ms, bs, g, ins) && n < |ins|
    requires forall k :: 0 < k <= n ==> SlaveOk(ms[k], ins[k])
    ensures bs[n].error <==> exists k :: 0 <= k < n && Escapes(bs, g, ins, k)
  {
    StickyErrorRemembersBadHandshakes(bs, g, qs, ins, n);
    forall k: nat | k < n ensures BadHandshake(bs[k], g, ins[k]) <==> Escapes(bs, g, ins, k) {
      assert SlaveOk(ms[k + 1], ins[k + 1]);
      WhatEscapesTheMonitor(ms, bs, g, qs, ins, k);
    }
  }

  // ------------------------------------------------- a run in the blind spot

  /** The monitor in every cycle of a run. */
  function Monitors(bs: seq<Bridge>, g: Config, ins: seq<AxiSlave>): (ms: seq<Monitor>)
    requires |bs| == |ins| + 1
    ensures IsMonitored(ms, bs, g, ins)
  {
    var os := seq(|ins|, k requires 0 <= k < |ins| => Drive(bs[k], g));
    var ms := seq(|ins| + 1, n requires 0 <= n <= |ins| => MonitorAfter(os, ins, n));
    assert forall n: nat :: n < |ins| ==> SampleEdge(ms, bs, g, ins, n);
    ms
  }

  /** A slave that drives these readies and, unless id is None, an OKAY write response. */
  function SlaveCycle(awready: bool, wready: bool, id: Option<AxiId>): AxiSlave {
    AxiSlave(
      awready, wready, id.Some?, BPayload(if id.Some? then id.value else 0, OKAY),
      false, false, RPayload(0, ZERO_WORD, OKAY, false))
  }

  /** It answers a first write properly, then keeps BVALID high with a foreign ID until the
      second write takes that answer. */
  function HeldOnResponse(own: AxiId, id: AxiId): seq<AxiSlave> {
    [SlaveCycle(false, false, None), SlaveCycle(true, false, None), SlaveCycle(false, true, None),
     SlaveCycle(false, false, Some(own)), SlaveCycle(false, false, Some(id)), SlaveCycle(false, false, Some(id)),
     SlaveCycle(true, false, Some(id)), SlaveCycle(false, true, Some(id)), SlaveCycle(false, false, Some(id)),
     SlaveCycle(false, false, None)]
  }

  /** The bridge over it, a write request being held in every cycle. */
  function TwoWrites(g: Config, q: MemReq): seq<Bridge> {
    var b := WaitingBridge(g, q);
    [BridgeReset(), b, b.(fsm := BrWriteData), b.(fsm := BrWriteResp), b.(fsm := BrAck), b.(fsm := BrIdle),
     b, b.(fsm := BrWriteData), b.(fsm := BrWriteResp),
     b.(fsm := BrAck, error := true), b.(fsm := BrIdle, error := true)]
  }

  lemma TwoWritesIsARun(g: Config, q: MemReq, id: AxiId)
    requires q.req && q.we && id != g.id
    ensures IsBridgeRun(TwoWrites(g, q), g, seq(10, _ => q), HeldOnResponse(g.id, id))
  {
    var bs, qs, ins := TwoWrites(g, q), seq(10, _ => q), HeldOnResponse(g.id, id);
    forall n: nat | n < 10 ensures BridgeEdge(bs, g, qs, ins, n) {
      assert qs[n] == q;
    }
  }

  /** A foreign ID reaches error_sticky unreported: on this run every check on master and
      slave passes, and the second write takes a response with a foreign ID, held on since
      the first one. The response is spurious in cycle 4 and sets the error in cycle 8. */
  lemma ForeignIdEscapes(g: Config, q: MemReq, id: AxiId)
    requires q.req && q.we && id != g.id
    ensures var bs, qs, ins := TwoWrites(g, q), seq(10, _ => q), HeldOnResponse(g.id, id);
            var ms := Monitors(bs, g, ins);
            && IsBridgeRun(bs, g, qs, ins) && IsMonitored(ms, bs, g, ins)
            && (forall n: nat :: n < 10 ==> SlaveOk(ms[n], ins[n]) && MasterOk(ms[n], Drive(bs[n], g)))
            && SpuriousB(bs[4], ins[4])
            && Drive(bs[8], g).bready && ins[7].bvalid && ins[8].b == BPayload(id, OKAY)
            && Escapes(bs, g, ins, 8) && !bs[8].error && bs[9].error
  {
    var bs, qs, ins := TwoWrites(g, q), seq(10, _ => q), HeldOnResponse(g.id, id);
    var ms := Monitors(bs, g, ins);
    TwoWritesIsARun(g, q, id);
    forall n: nat | n < 10 ensures SlaveOk(ms[n], ins[n]) && MasterOk(ms[n], Drive(bs[n], g)) {
      MasterNeverFails(ms, bs, g, qs, ins, n);
      if n > 0 {
        SlaveChecksAre(ms, bs, g, qs, ins, n - 1);
        SamplesAreOk(g, q, id, n - 1);
      }
    }
  }

  lemma SamplesAreOk(g: Config, q: MemReq, id: AxiId, n: nat)
    requires n < 9
    ensures SampleOk(TwoWrites(g, q), g, HeldOnResponse(g.id, id), n)
  {}
}
