/** What the checks of the AXI protocol monitor amount to on any bus traffic whatever: rules
    of ARM IHI 0022 in terms of the transfers on the five channels, with no monitor state. */
module BusRules {
  import opened AxiBridge
  import opened AxiMonitor

  // --------------------------------------------------------- transfers of a trace

  predicate AwAt(os: seq<AxiMaster>, ss: seq<AxiSlave>, k: nat)
    requires k < |os| == |ss|
  {
    os[k].awvalid && ss[k].awready
  }

  predicate WAt(os: seq<AxiMaster>, ss: seq<AxiSlave>, k: nat)
    requires k < |os| == |ss|
  {
    os[k].wvalid && ss[k].wready
  }

  predicate BAt(os: seq<AxiMaster>, ss: seq<AxiSlave>, k: nat)
    requires k < |os| == |ss|
  {
    ss[k].bvalid && os[k].bready
  }

  predicate ArAt(os: seq<AxiMaster>, ss: seq<AxiSlave>, k: nat)
    requires k < |os| == |ss|
  {
    os[k].arvalid && ss[k].arready
  }

  predicate RAt(os: seq<AxiMaster>, ss: seq<AxiSlave>, k: nat)
    requires k < |os| == |ss|
  {
    ss[k].rvalid && os[k].rready
  }

  /** Data beats that the write addresses taken before cycle n still call for. */
  function WriteOwed(os: seq<AxiMaster>, ss: seq<AxiSlave>, n: nat): int
    requires n <= |os| == |ss|
  {
    if n == 0 then 0
    else
      WriteOwed(os, ss, n - 1)
      + (if AwAt(os, ss, n - 1) then os[n - 1].aw.len + 1 else 0) - (if WAt(os, ss, n - 1) then 1 else 0)
  }

  function ReadOwed(os: seq<AxiMaster>, ss: seq<AxiSlave>, n: nat): int
    requires n <= |os| == |ss|
  {
    if n == 0 then 0
    else
      ReadOwed(os, ss, n - 1)
      + (if ArAt(os, ss, n - 1) then os[n - 1].ar.len + 1 else 0) - (if RAt(os, ss, n - 1) then 1 else 0)
  }

  /** Some write has sent its last beat before cycle n and has had no response since. */
  ghost predicate Unanswered(os: seq<AxiMaster>, ss: seq<AxiSlave>, n: nat)
    requires n <= |os| == |ss|
  {
    exists k :: 0 <= k < n && WAt(os, ss, k) && os[k].w.last && forall j :: k <= j < n ==> !BAt(os, ss, j)
  }

  /** The ID of the latest address taken. */
  function WriteId(os: seq<AxiMaster>, ss: seq<AxiSlave>, n: nat): AxiId
    requires n <= |os| == |ss|
  {
    if n == 0 then 0 else if AwAt(os, ss, n - 1) then os[n - 1].aw.id else WriteId(os, ss, n - 1)
  }

  function ReadId(os: seq<AxiMaster>, ss: seq<AxiSlave>, n: nat): AxiId
    requires n <= |os| == |ss|
  {
    if n == 0 then 0 else if ArAt(os, ss, n - 1) then os[n - 1].ar.id else ReadId(os, ss, n - 1)
  }

  // ------------------------------------------------------------------------ rules

  /** What the master owes in cycles n and n + 1: a stalled AW, W or AR stays as it is; an
      address goes out only when nothing of its direction is outstanding; data goes out only
      for an address, and WLAST with the last beat called for and no other. */
  ghost predicate MasterRules(os: seq<AxiMaster>, ss: seq<AxiSlave>, n: nat)
    requires n + 1 < |os| == |ss|
  {
    && (os[n].awvalid && !ss[n].awready ==> os[n + 1].awvalid && os[n + 1].aw == os[n].aw)
    && (os[n].wvalid && !ss[n].wready ==> os[n + 1].wvalid && os[n + 1].w == os[n].w)
    && (os[n].arvalid && !ss[n].arready ==> os[n + 1].arvalid && os[n + 1].ar == os[n].ar)
    && (AwAt(os, ss, n) ==> WriteOwed(os, ss, n) == 0 && !Unanswered(os, ss, n))
    && (WAt(os, ss, n) ==> WriteOwed(os, ss, n) > 0 && (os[n].w.last <==> WriteOwed(os, ss, n) == 1))
    && (ArAt(os, ss, n) ==> ReadOwed(os, ss, n) == 0)
  }

  /** What the slave owes: a stalled B or R stays as it is; a write response that was not
      there in the cycle before answers a write, with its ID; read data answers a read, with
      its ID, and RLAST with the last beat called for and no other. */
  ghost predicate SlaveRules(os: seq<AxiMaster>, ss: seq<AxiSlave>, n: nat)
    requires n + 1 < |os| == |ss|
  {
    && (ss[n].bvalid && !os[n].bready ==> ss[n + 1].bvalid && ss[n + 1].b == ss[n].b)
    && (ss[n].rvalid && !os[n].rready ==> ss[n + 1].rvalid && ss[n + 1].r == ss[n].r)
    && (ss[n].bvalid && !(n > 0 && ss[n - 1].bvalid) ==>
          Unanswered(os, ss, n) && ss[n].b.id == WriteId(os, ss, n))
    && (ss[n].rvalid ==>
          && ReadOwed(os, ss, n) > 0 && ss[n].r.id == ReadId(os, ss, n)
          && (ss[n].r.last <==> ReadOwed(os, ss, n) == 1))
  }

  // ------------------------------------------------------ what the monitor remembers

  ghost predicate WritesTracked(w: Writes, owed: int, unanswered: bool, id: AxiId, seen: bool) {
    && 0 <= owed <= 256 && (w.open <==> owed > 0) && (w.open ==> w.beats == owed)
    && (w.dataDone <==> unanswered) && w.id == id && (w.bSeen <==> seen)
  }

  ghost predicate ReadsTracked(r: Reads, owed: int, id: AxiId) {
    0 <= owed <= 256 && (r.open <==> owed > 0) && (r.open ==> r.beats == owed) && r.id == id
  }

  /** The monitor after it has sampled cycle n: that sample, and the transfers before it. */
  ghost predicate Tracks(os: seq<AxiMaster>, ss: seq<AxiSlave>, n: nat, m: Monitor)
    requires n < |os| == |ss|
  {
    && m.o == os[n] && m.s == ss[n]
    && WritesTracked(m.w, WriteOwed(os, ss, n), Unanswered(os, ss, n), WriteId(os, ss, n), n > 0 && ss[n - 1].bvalid)
    && ReadsTracked(m.r, ReadOwed(os, ss, n), ReadId(os, ss, n))
  }

  lemma ChecksOfTracked(os: seq<AxiMaster>, ss: seq<AxiSlave>, n: nat, m: Monitor)
    requires n + 1 < |os| == |ss| && Tracks(os, ss, n, m)
    ensures MasterOk(m, os[n + 1]) <==> MasterRules(os, ss, n)
    ensures SlaveOk(m, ss[n + 1]) <==> SlaveRules(os, ss, n)
  {}

  lemma UnansweredOneMore(os: seq<AxiMaster>, ss: seq<AxiSlave>, n: nat)
    requires n < |os| == |ss|
    ensures Unanswered(os, ss, n + 1) <==>
              !BAt(os, ss, n) && (Unanswered(os, ss, n) || (WAt(os, ss, n) && os[n].w.last))
  {
    if !BAt(os, ss, n) && Unanswered(os, ss, n) {
      var k :| 0 <= k < n && WAt(os, ss, k) && os[k].w.last && forall j :: k <= j < n ==> !BAt(os, ss, j);
      assert forall j :: k <= j < n + 1 ==> !BAt(os, ss, j);
    }
    if !BAt(os, ss, n) && WAt(os, ss, n) && os[n].w.last {
      assert forall j :: n <= j < n + 1 ==> !BAt(os, ss, j);
    }
    if Unanswered(os, ss, n + 1) {
      var k :| 0 <= k < n + 1 && WAt(os, ss, k) && os[k].w.last && forall j :: k <= j < n + 1 ==> !BAt(os, ss, j);
      assert !BAt(os, ss, n);
      assert k == n || forall j :: k <= j < n ==> !BAt(os, ss, j);
    }
  }

  lemma WritesKeepTrack(m: Monitor, owed: int, unanswered: bool, id: AxiId, seen: bool, o: AxiMaster, s: AxiSlave)
    requires WritesTracked(m.w, owed, unanswered, id, seen) && MasterOk(m, o)
    ensures var aw, w := m.o.awvalid && m.s.awready, m.o.wvalid && m.s.wready;
            WritesTracked(
                WritesNext(m.w, m.o, m.s), owed + (if aw then m.o.aw.len + 1 else 0) - (if w then 1 else 0),
                !(m.s.bvalid && m.o.bready) && (unanswered || (w && m.o.w.last)), if aw then m.o.aw.id else id,
                m.s.bvalid)
  {}

  lemma ReadsKeepTrack(m: Monitor, owed: int, id: AxiId, o: AxiMaster, s: AxiSlave)
    requires ReadsTracked(m.r, owed, id) && MasterOk(m, o) && SlaveOk(m, s)
    ensures var ar, r := m.o.arvalid && m.s.arready, m.s.rvalid && m.o.rready;
            ReadsTracked(
                ReadsNext(m.r, m.o, m.s), owed + (if ar then m.o.ar.len + 1 else 0) - (if r then 1 else 0),
                if ar then m.o.ar.id else id)
  {}

  lemma TrackOneMore(os: seq<AxiMaster>, ss: seq<AxiSlave>, n: nat, m: Monitor)
    requires n + 1 < |os| == |ss| && Tracks(os, ss, n, m) && MasterOk(m, os[n + 1]) && SlaveOk(m, ss[n + 1])
    ensures Tracks(os, ss, n + 1, MonitorNext(m, os[n + 1], ss[n + 1]))
  {
    UnansweredOneMore(os, ss, n);
    WritesKeepTrack(m, WriteOwed(os, ss, n), Unanswered(os, ss, n), WriteId(os, ss, n), n > 0 && ss[n - 1].bvalid,
        os[n + 1], ss[n + 1]);
    ReadsKeepTrack(m, ReadOwed(os, ss, n), ReadId(os, ss, n), os[n + 1], ss[n + 1]);
  }

  // --------------------------------------------------------- checks and rules agree

  /** Every check passes on the sample of cycle k. */
  predicate Passes(os: seq<AxiMaster>, ss: seq<AxiSlave>, k: nat)
    requires k < |os| == |ss|
  {
    MasterOk(MonitorAfter(os, ss, k), os[k]) && SlaveOk(MonitorAfter(os, ss, k), ss[k])
  }

  lemma {:induction false} MonitorTracks(os: seq<AxiMaster>, ss: seq<AxiSlave>, n: nat)
    requires n < |os| == |ss| && forall k :: 0 <= k <= n ==> Passes(os, ss, k)
    ensures Tracks(os, ss, n, MonitorAfter(os, ss, n + 1))
  {
    if n > 0 {
      MonitorTracks(os, ss, n - 1);
      assert Passes(os, ss, n);
      TrackOneMore(os, ss, n - 1, MonitorAfter(os, ss, n));
    } else {
      FirstSample(os, ss, n);
    }
  }

  lemma FirstSample(os: seq<AxiMaster>, ss: seq<AxiSlave>, n: nat)
    requires n == 0 < |os| == |ss|
    ensures Passes(os, ss, n) && Tracks(os, ss, n, MonitorAfter(os, ss, n + 1))
  {
    assert MonitorAfter(os, ss, n) == MonitorReset();
    assert MonitorAfter(os, ss, n + 1) == MonitorNext(MonitorReset(), os[0], ss[0]);
  }

  /** On any bus traffic, the first sample to fail a check is the first to break a rule, and
      it fails on the side that broke it: until then, the checks on the master pass exactly
      when it keeps its rules, and those on the slave exactly when it keeps its own. */
  lemma ChecksAreTheRules(os: seq<AxiMaster>, ss: seq<AxiSlave>, n: nat)
    requires n + 1 < |os| == |ss| && forall k :: 0 <= k <= n ==> Passes(os, ss, k)
    ensures MasterOk(MonitorAfter(os, ss, n + 1), os[n + 1]) <==> MasterRules(os, ss, n)
    ensures SlaveOk(MonitorAfter(os, ss, n + 1), ss[n + 1]) <==> SlaveRules(os, ss, n)
  {
    MonitorTracks(os, ss, n);
    ChecksOfTracked(os, ss, n, MonitorAfter(os, ss, n + 1));
  }

  ghost predicate KeepsRules(os: seq<AxiMaster>, ss: seq<AxiSlave>, n: nat)
    requires n + 1 < |os| == |ss|
  {
    MasterRules(os, ss, n) && SlaveRules(os, ss, n)
  }

  /** So a whole trace passes every check exactly when it keeps every rule. */
  lemma {:induction false} TracePassesIff(os: seq<AxiMaster>, ss: seq<AxiSlave>, n: nat)
    requires n < |os| == |ss|
    ensures (forall k :: 0 <= k <= n ==> Passes(os, ss, k)) <==> (forall k :: 0 <= k < n ==> KeepsRules(os, ss, k))
  {
    if n == 0 {
      FirstSample(os, ss, n);
    } else {
      TracePassesIff(os, ss, n - 1);
      if forall k :: 0 <= k < n ==> Passes(os, ss, k) {
        ChecksAreTheRules(os, ss, n - 1);
        assert Passes(os, ss, n) <==> KeepsRules(os, ss, n - 1);
        if forall k :: 0 <= k < n ==> KeepsRules(os, ss, k) {
          assert KeepsRules(os, ss, n - 1);
        }
      }
    }
  }
}
