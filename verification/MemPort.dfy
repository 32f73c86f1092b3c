/** The contract of the 64-bit req/ack memory port, and the one-cycle SRAM that meets it. */
module MemPort {
  import opened DcachePkg
  import opened AtomicCache

  /** mem_req, mem_we, mem_idx, mem_wdata of one cycle. */
  datatype MemReq = MemReq(req: bool, we: bool, idx: MemIdx, wdata: Word)

  /** mem_ack with mem_rdata; read data means nothing in a cycle without ack. */
  type MemResp = Option<Word>

  /** Where the one outstanding request is: not taken, taken, performed, acknowledged now. */
  datatype Phase = Free | Busy(we: bool, idx: MemIdx, wdata: Word) | Performed(rdata: Word) | Acking(rdata: Word)

  datatype Port = Port(store: Backing, phase: Phase)

  function Respond(p: Port): MemResp { if p.phase.Acking? then Some(p.phase.rdata) else None }

  function Perform(st: Backing, we: bool, idx: MemIdx, wdata: Word): Backing {
    if we then Backing(st.words[idx := wdata], st.log + [WriteBeat(idx, wdata)])
    else Backing(st.words, st.log + [ReadBeat(idx, st.words[idx])])
  }

  /** The request is performed, and a read has its data. */
  ghost predicate Performs(p: Port, we: bool, idx: MemIdx, wdata: Word, p': Port) {
    && p'.store == Perform(p.store, we, idx, wdata)
    && (p'.phase.Performed? || p'.phase.Acking?)
    && (!we ==> p'.phase.rdata == p.store.words[idx])
  }

  /** One clock edge: a request is taken, performed exactly once and acknowledged for one
      cycle, each after any delay; nothing else touches the memory. */
  ghost predicate PortNext(p: Port, q: MemReq, p': Port) {
    match p.phase
    case Free =>
      if q.req then p' == p || p' == p.(phase := Busy(q.we, q.idx, q.wdata)) || Performs(p, q.we, q.idx, q.wdata, p')
      else p' == p
    case Busy(we, idx, wdata) => p' == p || Performs(p, we, idx, wdata, p')
    case Performed(rdata) => p' == p || p' == p.(phase := Acking(rdata))
    case Acking(_) => p' == p.(phase := Free)
  }

  // --------------------------------------------------------- the backing SRAM

  /** dcache_backing_mem with its preload port idle. */
  datatype Sram = Sram(words: MemWords, pending: bool, rdata: Word)

  function SramNext(m: Sram, q: MemReq): Sram {
    if q.req && !m.pending then
      if q.we then Sram(m.words[q.idx := q.wdata], true, m.rdata)
      else Sram(m.words, true, m.words[q.idx])
    else m.(pending := false)
  }

  function SramResp(m: Sram): MemResp { if m.pending then Some(m.rdata) else None }

  /** The port that an SRAM is, given the transfers it has performed so far. */
  function SramPort(m: Sram, log: seq<Beat>): Port {
    Port(Backing(m.words, log), if m.pending then Acking(m.rdata) else Free)
  }

  function SramLog(m: Sram, log: seq<Beat>, q: MemReq): seq<Beat> {
    if q.req && !m.pending then Perform(Backing(m.words, log), q.we, q.idx, q.wdata).log else log
  }

  /** The SRAM meets the port contract, and never lets a request wait. */
  lemma SramMeetsContract(m: Sram, log: seq<Beat>, q: MemReq)
    ensures PortNext(SramPort(m, log), q, SramPort(SramNext(m, q), SramLog(m, log, q)))
    ensures Respond(SramPort(m, log)) == SramResp(m)
    ensures q.req ==> SramNext(m, q).pending == !m.pending
    ensures SramNext(m, q).rdata != m.rdata ==> q.req && !q.we && !m.pending
  {}
}
