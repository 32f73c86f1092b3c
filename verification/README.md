# The L1 data cache and its path to memory

This project models the blocking, write-back, write-allocate L1 data cache (16 KiB, 4 ways,
64 sets, 64-byte lines, tree PLRU, one outstanding miss), the burst engine that moves its
lines, the one-cycle backing SRAM, the AXI4 master bridges and the AXI protocol monitor. The
main result is that the clocked cache, in any run and over any memory that meets a small port
contract, shows the CPU exactly what a flat byte-strobed memory would, whenever the accessed
lines do not share backing words, and only then.

## How it is layered

- `Pkg.dfy` — geometry, address codec, PLRU tree, way decode, byte-strobed merge.
- `Directory.dfy` — which line sits in which way and which way goes next: a function of the
  accessed lines alone. Tag uniqueness and the reuse guarantee are proved here.
- `AtomicCache.dfy`, `AtomicTheorems.dfy` — the cache as a transaction-level machine whose
  steps are "serve a request" and "clean a cell", the flat memory (the shadow model of
  `L1DCache/tb/dcache_core_tb.sv`), and the theorems that relate the two.
- `MemPort.dfy`, `Refill.dfy` — the exactly-once contract of the req/ack port, the SRAM that
  meets it, and the eight-beat burst engine over any port.
- `Core.dfy` — one clock cycle of the controller as next-state functions.
- `CoreRefinement.dfy` — the simulation relation (half-written victim, half-filled line,
  half-cleaned array included) and the proof that every clock edge is one step, or none, of
  the transaction-level cache.
- `Transparency.dfy`, `Timing.dfy`, `Aliasing.dfy`, `AckWindow.dfy` — the theorems about whole
  runs from reset.
- `CpuPort.dfy` — what runs look like at the ports of the core, in terms of the port signals
  alone: handshakes, response bytes, the flush_done pulse, statistics, replaced ways.
- `AxiBridge.dfy`, `AxiMonitor.dfy`, `BusRules.dfy`, `Systems.dfy`, `BridgeTiming.dfy` — the
  bridges, the monitor, the bus rules that its checks amount to on any traffic, the whole
  cache over the SRAM and over AXI, and its latencies over AXI.
- `RtlArrays.dfy`, `RtlMemory.dfy`, `RtlCore.dfy`, `RtlBoard.dfy` — the same modules as
  objects that update their registers and arrays in place. Each `Step` is proved to be the
  next-state function of `Core.dfy`, `Refill.dfy`, `MemPort.dfy`, `AxiBridge.dfy` or
  `AxiMonitor.dfy`; `RtlBoard.CacheOnSram.Simulate` clocks core and SRAM over a whole input
  sequence and carries the state sequence and the transparency theorem over to them.

One step is one rising clock edge; reset happens only at the start. A `Sys` is the core
together with the memory port; `IsRun` is a run of it from reset under any CPU inputs and any
memory delays. The line array and the payload of the miss register hold arbitrary values
after reset. `mem_rdata` means something only in a cycle with `mem_ack`, which is the only
cycle in which the burst engine reads it. A port also records the transfers it has
performed, so that "exactly once, in order" can be stated.

## What the proofs found

- The memory index keeps address bits 18 to 3 while tags keep bits 31 to 12, so two lines a
  multiple of 512 KiB apart share backing words. The cache is a memory for all runs over a set
  of lines if and only if no two of them do (`Aliasing.ClockTransparentIffAliasFree`).
- The PLRU tree keeps the three most recently accessed distinct lines of a set, not only two;
  a fourth may be gone (`Directory.RecentLinesHit`, `Directory.FourthLineMayMiss`).
- The bound assertion that every cycle with `mem_req` is acknowledged within the next eight
  (`L1DCache/sva/dcache_assertions.sv`, lines 37 to 43) does not hold even over the one-cycle
  SRAM, because the cycle that acknowledges the last beat of a line still shows `mem_req`.
  `AckWindow.AckWindowIff` says exactly when the window of a cycle is met: always before that
  last cycle; after it always if a fill follows a write-back; after a fill only if the CPU
  asks for a near enough walk or a miss at once; in a walk only if one of the next five cells
  is dirty, or, where fewer than four are left, if the CPU asks for a miss, or for a store hit
  and a new walk, at once. So a lone miss breaks it (`AckWindow.OneLoadBreaksAckWindow` is one
  load out of reset), and so does a walk by itself after a lone dirty line, whatever the CPU
  drives.
- The bridges offer write data only after the write address has been taken: a write completes
  exactly when the slave takes an address, later takes data, and later answers
  (`AxiBridge.WriteCompletesIff`). ARM IHI 0022, section A3.3.1, lets a slave wait for the data
  before it takes the address, and over such a slave no write is ever acknowledged
  (`AxiBridge.AddressWithDataNeverCompletes`, `AxiBridge.DataFirstSlaveBlocks`).
- The monitor misses a write response that a slave holds on after its handshake
  (`AxiMonitor.SpuriousResponseIsReportedOnce`), so besides bad response codes a foreign ID on
  such a response reaches `error_sticky` unreported (`AxiMonitor.ErrorsOfCheckedRun`; the run
  of `AxiMonitor.ForeignIdEscapes` does it, with every check passing).

## Model

| member | source | states |
|---|---|---|
| DcachePkg.CodecSplitsEveryAddress | L1DCache/rtl/dcache_pkg.sv:67-87 | tag, set, word select and byte offset are bits 31 to 12, 11 to 6, 5 to 3 and 2 to 0, and set_tag_to_addr clears the low six bits |
| DcachePkg.CodecRebuildsEveryField | L1DCache/rtl/dcache_pkg.sv:67-95 | every choice of fields is the fields of exactly the address they add up to, and its line maps to memory word 8 * (set + 64 * the low seven tag bits), its word that many words on |
| DcachePkg.LineBaseFacts | L1DCache/rtl/dcache_pkg.sv:79-95 | the line base rebuilt from set and tag is the base of the original address, aligned, with room for eight beats |
| DcachePkg.SharedBackingWords | L1DCache/rtl/dcache_pkg.sv:37-41 | lines share backing words exactly when their memory lines agree; never within one 512 KiB window, always 512 KiB apart |
| DcachePkg.TouchKeepsPointingAway | L1DCache/rtl/dcache_pkg.sv:97-117 | a touch makes the tree point away from the touched way and keeps it away from the one before |
| DcachePkg.VictimIsNotRecent | L1DCache/rtl/dcache_pkg.sv:97-117 | after any touch history the victim is neither of the last two distinct ways |
| DcachePkg.VictimIs | L1DCache/rtl/dcache_pkg.sv:97-117 | exactly which way is next after any touch history: in the pair not touched last, the way not touched last in it; the start state decides what was never touched |
| DcachePkg.DecodeIs | L1DCache/rtl/dcache_pkg.sv:119-127 | the decode names the one way of a one-hot mask and answers 0 to any other mask |
| DcachePkg.FirstInvalidWay | L1DCache/rtl/dcache_core.sv:301-310 | the downward scan finds the lowest-numbered invalid way |
| DcachePkg.LineMergeWord | L1DCache/rtl/dcache_pkg.sv:137-150 | byte b of word j becomes byte b of the data exactly where j is the selected word and strobe b is set; every other byte stays |
| Directory.AccessKeepsUnique | L1DCache/rtl/dcache_core.sv:288-316 | an access duplicates no tag, empties no cell, leaves its line resident in the way it reported, and evicts only from a full set |
| Directory.RunKeepsUnique | L1DCache/rtl/dcache_core.sv:288-316 | no history of accesses puts one tag in two ways of a set |
| Directory.RecentLinesHit | L1DCache/rtl/dcache_pkg.sv:97-117 | after any history the three most recently accessed distinct lines of a set are resident |
| Directory.FourthLineMayMiss | L1DCache/rtl/dcache_pkg.sv:97-117 | three is the most: eight accesses out of reset after which the fourth most recent line is evicted |
| Directory.ReplacementIs | L1DCache/rtl/dcache_core.sv:301-310 | exact replacement after any history out of reset: the lowest-numbered unused way, or in a full set the way not used last in the pair not used last |
| AtomicCache.DirectoryDependsOnLinesOnly | L1DCache/rtl/dcache_core.sv:288-310 | residents, replacement state, hits and misses of a transaction run are a function of the accessed lines |
| AtomicCache.CleanKeepsView | L1DCache/rtl/dcache_core.sv:412-433 | cleaning a line changes nothing the CPU can see and keeps coherence |
| AtomicCache.PartialWriteBackIsInvisible | L1DCache/rtl/dcache_core.sv:374-379 | any number of write-back beats of a resident line leave the view unchanged |
| AtomicCache.ServeIsFlatStep | L1DCache/rtl/dcache_core.sv:346-410 | serving a request answers like the flat memory and changes the view as the flat memory changes |
| AtomicTheorems.RunIsFlat | L1DCache/tb/dcache_core_tb.sv:112-128 | every transaction run over alias-free lines, with cleans anywhere, answers and looks like the flat memory |
| AtomicTheorems.FlatStepIs | L1DCache/tb/dcache_core_tb.sv:112-128 | one request on the flat memory, byte by byte: byte b of word x changes exactly for a store with bits 18 to 3 of its address equal to x and strobe b set, and then to byte b of its data |
| AtomicTheorems.FlatMemoryIsLastWrite | L1DCache/tb/dcache_core_tb.sv:112-128 | over any requests every byte that a load returns is the one that the last earlier store to strobe it wrote, or the initial one |
| AtomicTheorems.TransparentIffAliasFree | L1DCache/rtl/dcache_pkg.sv:89-95 | at transaction level the cache is a memory for all programs over a set of lines exactly when no two share backing words |
| AtomicTheorems.CleansAreInvisible | L1DCache/rtl/dcache_core.sv:412-433 | two runs with the same requests and any cleans agree on replies, residents, contents, counters and view |
| AtomicTheorems.CleanCacheMatchesMemory | L1DCache/rtl/dcache_core.sv:421-433 | with no dirty line left, memory is the view at every word |
| AtomicTheorems.WriteBacksAreConserved | L1DCache/rtl/dcache_core.sv:374-433 | write beats pay exactly for lines that became dirty and no longer are; every miss reads one line; lines become dirty at most once per store |
| MemPort.SramMeetsContract | L1DCache/tb/dcache_backing_mem.sv:31-53 | the SRAM performs each request once, acknowledges it next cycle, meets the port contract, and changes its read register only for a read |
| Refill.BeatStaysInLine | L1DCache/rtl/dcache_refill.sv:51-54 | the 16-bit beat index of an aligned line never leaves the line |
| Refill.BurstBegins | L1DCache/rtl/dcache_refill.sv:65-74 | a start pulse opens a burst without touching memory |
| Refill.BurstContinues | L1DCache/rtl/dcache_refill.sv:75-84 | each edge of a burst keeps: memory has performed exactly the first beats, and a read has collected their words |
| Refill.BurstEnds | L1DCache/rtl/dcache_refill.sv:85-87 | when done pulses all eight beats are performed and the line register holds the line |
| Refill.BurstIsCorrect | L1DCache/rtl/dcache_refill.sv:51-91 | over any port, a whole read burst returns the eight aligned words whatever the register held, a whole write burst changes exactly them, each beat once and in order |
| CoreRefinement.ProbeIsLookup | L1DCache/rtl/dcache_core.sv:288-316 | the one-hot decode, lowest-invalid scan and victim choice of the tag compare are the lookup of the directory |
| CoreRefinement.EdgeRefines | L1DCache/rtl/dcache_core.sv:325-554 | every clock edge of core and memory is one step, or none, of the transaction-level cache, answers with its reply, and conserves requests |
| Transparency.RunRefines | L1DCache/rtl/dcache_core.sv:325-554 | every run is, cycle by cycle, a run of the transaction-level cache |
| Transparency.ResponsesAreThoseOfAFlatMemory | L1DCache/tb/dcache_core_tb.sv:112-128 | in every run over alias-free lines the delivered responses are, in order, those of the flat memory executing the accepted requests; at most one is outstanding |
| Transparency.OneWindowIsTransparent | L1DCache/rtl/dcache_pkg.sv:37-41 | the same for all addresses in one 512 KiB window |
| Transparency.ViewChangesOnlyByStores | L1DCache/rtl/dcache_core.sv:346-433 | the view of memory changes only at the edge where a store takes effect, by exactly its strobed bytes |
| Transparency.WalkCleansInOrder | L1DCache/rtl/dcache_core.sv:493-549 | during a walk nothing is accepted and every cell before the cursor is clean |
| Transparency.FlushDoneMeansClean | L1DCache/rtl/dcache_core.sv:35-42 | in every run, when flush_done pulses no line is dirty and every accepted request has taken effect |
| Transparency.FlushDoneMeansMemoryIsCurrent | L1DCache/rtl/dcache_core.sv:35-42 | over alias-free lines, when flush_done pulses memory is at every word the view and the flat memory after all accepted requests |
| Transparency.EveryLookupDependsOnLinesOnly | L1DCache/rtl/dcache_core.sv:288-310 | in every lookup of every run, hit or miss and the hit or allocated way are those that the accepted line addresses alone lead to |
| Transparency.OutcomesDependOnLinesOnly | L1DCache/rtl/dcache_core.sv:169-173 | with nothing in flight, the directory and the replacement state are those of the accepted line addresses, and the counters their hits and misses modulo 2^32 |
| Transparency.TimingAndCleansAreInvisible | L1DCache/rtl/dcache_core.sv:412-433 | two runs that accepted the same requests, however timed and flushed, have answered alike and agree on everything but dirty bits and memory |
| Transparency.RecentlyUsedLinesHit | L1DCache/rtl/dcache_core.sv:298-310 | in every run a lookup of one of the three most recently served distinct lines of its set hits |
| Transparency.HitMaskIsOneHot | L1DCache/rtl/dcache_core.sv:290-299 | in every cycle every hit mask is zero or one-hot and its decode is the matching way |
| Transparency.LinesAreReplacedOnlyInFullSets | L1DCache/rtl/dcache_core.sv:301-310 | a valid entry never becomes invalid, and its tag changes only in a full set |
| Transparency.RequestsAreConserved | L1DCache/rtl/dcache_core.sv:188-193 | accepted is delivered plus held plus in flight, at most one of the latter, and each response is of its request's kind |
| Transparency.CountersCountRequests | L1DCache/rtl/dcache_core.sv:169-173 | the statistics are the hits and misses of the transaction-level cache modulo 2^32, and those add up to the requests looked up |
| Transparency.HeldResponsesAreStable | L1DCache/sva/dcache_assertions.sv:17-51 | held responses and their data stay until consumed and the two kinds are never held together |
| Transparency.BusTrafficIsConserved | L1DCache/rtl/dcache_core.sv:374-433 | whenever the core is idle, write beats plus eight per dirty line are eight per line ever dirtied, read beats are eight per miss, and lines are dirtied at most once per store |
| Transparency.AliasingRunIsStale | L1DCache/rtl/dcache_pkg.sv:89-95 | a run that stores to one line and loads another line of the same words shows the old word |
| CpuPort.HandshakesAreAcceptances | L1DCache/rtl/dcache_core.sv:175-189 | in every cycle, rvalid with rready is exactly the acceptance of that load, wvalid with wready exactly the acceptance of that store, and nothing else is accepted |
| CpuPort.HandshakesAreConserved | L1DCache/rtl/dcache_core.sv:175-189 | the completed handshakes on both ports are, in order, the accepted requests: load handshakes plus store handshakes are their number |
| CpuPort.HandshakesAreAnswered | L1DCache/rtl/dcache_core.sv:175-193 | in every run completed handshakes are delivered plus held plus in flight, at most one of the latter, each response of its own kind |
| CpuPort.ReadyWhenAllIsAnswered | L1DCache/rtl/dcache_core.sv:175-186 | in every run rready is high exactly when every accepted request is answered and its response taken, no walk runs and none is asked for; wready exactly when, besides, no load is offered |
| CpuPort.ResponsesAreHandedOver | L1DCache/rtl/dcache_core.sv:191-193 | in every cycle of every run the CPU takes exactly the held response of the kind it is ready for, with its data, and it is then gone |
| CpuPort.LoadsReturnLastWrites | L1DCache/tb/dcache_core_tb.sv:112-128 | in every run over alias-free lines, response k answers accepted request k, and each byte of a load is the one that the last store accepted before it to strobe that byte wrote |
| CpuPort.CleanMemoryHoldsLastWrites | L1DCache/rtl/dcache_core.sv:35-42 | and when flush_done is high every byte of memory is the one that the last accepted store to strobe it wrote |
| CpuPort.FlushDoneIsAPulse | L1DCache/rtl/dcache_core.sv:457-499 | in every cycle of every run flush_done is high exactly if a walk has ended at the edge before, and a walk starts exactly when flush_req meets an idle core with nothing to look up |
| CpuPort.OnePulseAWalk | L1DCache/rtl/dcache_core.sv:35-42 | the cycles that show flush_done are as many as the walks begun, less the one that runs |
| CpuPort.StatisticsCountLookups | L1DCache/rtl/dcache_core.sv:169-173 | stat_hits and stat_misses are the numbers of lookups that hit and that missed, modulo 2^32; below 2^32 requests they add up to the requests looked up |
| CpuPort.MissReplaces | L1DCache/rtl/dcache_core.sv:301-310 | in every run a lookup that misses picks the lowest-numbered invalid way, or in a full set the way not used last in the pair not used last |
| CpuPort.MissRegisterIs | L1DCache/rtl/dcache_mshr.sv:61-77 | in every run the miss register is busy exactly during a miss and then holds the request; it asks for a write-back exactly for a valid dirty victim, and exactly then one is made |
| CpuPort.EightReadsAMiss | L1DCache/rtl/dcache_core.sv:381-385 | whenever the core is idle, memory has been read eight times for every lookup that missed |
| Aliasing.ClockTransparentIffAliasFree | L1DCache/rtl/dcache_pkg.sv:37-41 | the clocked cache shows a flat memory in all runs over a set of lines exactly when no two share backing words |
| Timing.ResponseLatency | L1DCache/tb/dcache_backing_mem.sv:31-53 | over the one-cycle memory a response appears exactly 2, 21 or 39 cycles after acceptance: hit, clean miss, dirty miss |
| Timing.WalkCost | L1DCache/rtl/dcache_core.sv:493-549 | over the one-cycle memory a walk that starts with d dirty lines spends exactly 256 + 17 d cycles with flush_done low and then shows flush_done for exactly one cycle |
| Timing.EveryEdgeWorks | L1DCache/rtl/dcache_core.sv:500-549 | every edge of a miss or a walk waits for memory, lowers the work left, or completes with a response or flush_done |
| Timing.OnlyMemoryDelays | L1DCache/rtl/dcache_core.sv:500-549 | a request or walk under way for k cycles has spent all but 40 * 256 of them waiting for memory |
| Timing.HeldFlushStarts | L1DCache/rtl/dcache_core.sv:493-499 | over the one-cycle memory a flush_req held for 39 cycles has its walk running, whatever was in flight or held |
| Timing.HeldFlushIsServed | L1DCache/rtl/dcache_core.sv:35-42 | and flush_done pulses within 39 + 18 * 256 cycles of the request |
| AckWindow.QuietBusIsDecided | L1DCache/rtl/dcache_core.sv:458-549 | from a quiet bus, tag entries, held responses and CPU inputs decide exactly whether an acknowledge comes within w cycles |
| AckWindow.EndWindowIs | L1DCache/rtl/dcache_core.sv:458-549 | with nothing dirty and at most six cycles left, the bus acknowledges in time exactly on a miss accepted with four left, or a store hit that a new walk reaches in time |
| AckWindow.AckWindowIff | L1DCache/sva/dcache_assertions.sv:37-43 | for every cycle with mem_req of every run over the one-cycle memory: an acknowledge follows within eight cycles if and only if it is not the last of its line, or a fill follows, or the CPU asks at once, or a dirty cell is near enough |
| AckWindow.RequestsAreAcknowledged | L1DCache/sva/dcache_assertions.sv:37-43 | a request is acknowledged within two cycles, except in the cycle of a line's last acknowledge |
| AckWindow.LoneMissBreaksAckWindow | L1DCache/sva/dcache_assertions.sv:37-43 | every miss that the CPU follows with five idle cycles breaks the window in the last cycle of its fill |
| AckWindow.LoneDirtyLineBreaksAckWindow | L1DCache/sva/dcache_assertions.sv:37-43 | a walk breaks the window, whatever the CPU drives, after a dirty line with no dirty line in the next five cells |
| AckWindow.OneLoadBreaksAckWindow | L1DCache/tb/dcache_core_tb.sv:78-94 | a concrete run of core and SRAM that breaks it: one load out of reset, then idle |
| AxiBridge.StickyErrorRemembersBadHandshakes | L1ICache/rtl/icache_axi_master_bridge.sv:128-150 | error_sticky is set exactly when some completed B or R handshake had a non-OKAY code, a foreign ID or, on R, no RLAST |
| AxiBridge.OneTransactionPerRequest | L1DCache/integration/dcache_axi_master_bridge.sv:95-153 | whatever the slave does, each request taken makes one AW, W and B or one AR and R transfer, in order, and one acknowledge |
| AxiBridge.TransfersCarryTheRequest | L1DCache/integration/dcache_axi_master_bridge.sv:51-82 | whatever the slave does, a request goes out on the channels of its direction as one eight-byte INCR beat at base + idx * 8 modulo 2^32, not locked, with its data, every strobe and WLAST |
| AxiBridge.AcknowledgeFollowsResponse | L1DCache/integration/dcache_axi_master_bridge.sv:125-150 | the cache is acknowledged exactly after a B or R handshake, with the R data as it came, whatever its code |
| AxiBridge.WriteCompletesIff | L1DCache/integration/dcache_axi_master_bridge.sv:115-134 | a write waiting with its address in cycle n is acknowledged by cycle k if and only if AWREADY, later WREADY and later BVALID come in between |
| AxiBridge.AddressWithDataNeverCompletes | L1DCache/integration/dcache_axi_master_bridge.sv:115-134 | over a slave that takes addresses only with data, no write is acknowledged |
| AxiBridge.DataFirstSlaveBlocks | L1DCache/integration/dcache_axi_master_bridge.sv:104-123 | one such slave, with AWREADY equal to WVALID and WREADY high, and a write from reset that it blocks for any length of time |
| AxiBridge.WordsAreDisjoint | L1ICache/rtl/icache_axi_master_bridge.sv:107-115 | base plus idx * 8, less 2^32 where it wraps, gives distinct indices distinct aligned words, for any aligned base |
| AxiBridge.BridgeMeetsContract | L1DCache/integration/dcache_axi_master_bridge.sv:51-153 | over a memory with any delays that goes by the driven address, length, size, burst, lock, strobes and WLAST, the bridge meets the port contract, changes the requested word only, acknowledges only after B or R, and records no error |
| AxiBridge.ObligingMemoryConforms | L1DCache/integration/dcache_axi_master_bridge.sv:95-153 | conforming memories exist: over the quickest one every edge brings the acknowledge closer, a write taking four cycles and a read three |
| AxiMonitor.MasterNeverFails | AXISoC/sva/axi_assertions.sv:83-156 | whatever the slave drives, no check on the master fails: stability, data after address, WLAST, one outstanding write and read |
| AxiMonitor.ConformingSlaveNeverFails | AXISoC/sva/axi_assertions.sv:95-173 | over a conforming memory no check at all fails |
| AxiMonitor.SlaveChecksAre | AXISoC/sva/axi_assertions.sv:95-165 | in every run the slave checks on a sample pass exactly when stalled responses stay, a read answers an open read, and a write response with BVALID newly high answers a finished write, with IDs and RLAST |
| AxiMonitor.SpuriousResponseIsReportedOnce | AXISoC/sva/axi_assertions.sv:138-148 | a write response no write waits for goes unreported exactly when BVALID was high in the cycle before and the response stays, the read channel being in order |
| AxiMonitor.WhatEscapesTheMonitor | AXISoC/sva/axi_assertions.sv:138-165 | in any run, a sample that passes the slave checks holds a bad handshake exactly when its code is bad, or its B has a foreign ID and BVALID was already high in the cycle before |
| AxiMonitor.ErrorsOfCheckedRun | AXISoC/sva/axi_assertions.sv:138-165 | in a run whose slave checks have all passed, error_sticky is set exactly when such a handshake has occurred |
| AxiMonitor.ForeignIdEscapes | AXISoC/sva/axi_assertions.sv:138-148 | a concrete run of two writes on which every check passes, a spurious response goes unreported, and a foreign ID sets error_sticky |
| BusRules.ChecksAreTheRules | AXISoC/sva/axi_assertions.sv:83-173 | on any bus traffic, until a check fails: the master checks pass exactly when the master keeps its rules (stalled payloads stay, one outstanding write and read, data only for an address, WLAST on the last beat of AWLEN + 1), and the slave checks exactly when the slave keeps its own |
| BusRules.TracePassesIff | AXISoC/sva/axi_assertions.sv:83-173 | any trace of any length passes every check exactly when master and slave keep every rule at every cycle |
| Systems.BoardIsPromptRun | L1DCache/tb/dcache_core_tb.sv:78-94 | the core on the SRAM is, on every input sequence, a run over a port that never waits |
| Systems.CacheOverSramIsAMemory | L1DCache/tb/dcache_core_tb.sv:78-128 | on every input sequence over alias-free lines the core on the SRAM delivers the replies of the flat memory, all but at most one |
| Systems.CacheOverBridgeIsAMemory | L1DCache/integration/dcache_axi_master_bridge.sv:95-153 | the whole cache over the bridge and a conforming AXI memory answers like a flat memory, records no error and never writes outside its window |
| BridgeTiming.BridgedLatency | L1DCache/integration/dcache_axi_master_bridge.sv:95-153 | over the bridge and any conforming memory a response appears after exactly 2, 37 or 79 cycles (hit, clean miss, dirty miss) plus the cycles in which a channel waits |
| BridgeTiming.BridgedWalkCost | L1DCache/rtl/dcache_core.sv:493-549 | over the bridge a walk with d dirty lines takes exactly 256 + 41 d cycles plus the cycles in which a channel waits |
| BridgeTiming.BridgedRequestIsAnswered | L1DCache/integration/dcache_axi_master_bridge.sv:95-153 | if every transfer the bridge waits for is made within D cycles, every accepted request is answered within 1 + 78 D |
| BridgeTiming.BridgedWalkEnds | L1DCache/rtl/dcache_core.sv:493-549 | and every walk with d dirty lines ends within (256 + 41 d) D |
| BridgeTiming.ObligingLatency | L1DCache/integration/dcache_axi_master_bridge.sv:95-153 | over the quickest conforming memory the latencies are exactly 2, 37 and 79 |
| BridgeTiming.ObligingWalkCost | L1DCache/rtl/dcache_core.sv:493-549 | and a walk with d dirty lines takes exactly 256 + 41 d cycles |
| RtlArrays.TagRam.constructor | L1DCache/rtl/dcache_tag_ram.sv:36-43 | reset clears every entry |
| RtlArrays.TagRam.Read | L1DCache/rtl/dcache_tag_ram.sv:27-34 | the read port shows the four ways of the set |
| RtlArrays.TagRam.Step | L1DCache/rtl/dcache_tag_ram.sv:44-48 | a write changes exactly one entry of the three split arrays |
| RtlArrays.DataRam.Read | L1DCache/rtl/dcache_data_ram.sv:24-25 | the read port shows the line of the cell |
| RtlArrays.DataRam.Step | L1DCache/rtl/dcache_data_ram.sv:27-30 | a write changes exactly one line |
| RtlArrays.PlruRam.constructor | L1DCache/rtl/dcache_plru.sv:27-29 | reset clears the tree of every set |
| RtlArrays.PlruRam.Step | L1DCache/rtl/dcache_plru.sv:30-32 | a touch updates the tree of one set in place |
| RtlArrays.MissRegister.Step | L1DCache/rtl/dcache_mshr.sv:61-77 | dealloc wins over alloc, and alloc captures request and victim only when free |
| RtlMemory.RefillEngine.Step | L1DCache/rtl/dcache_refill.sv:56-91 | the clocked registers follow the engine's next-state function |
| RtlMemory.BackingMem.Step | L1DCache/tb/dcache_backing_mem.sv:31-53 | the clocked memory follows the SRAM next-state function, and a preload takes the cycle |
| RtlMemory.MasterBridge.Step | L1ICache/rtl/icache_axi_master_bridge.sv:98-157 | the clocked registers follow the bridge's next-state function for any base |
| RtlMemory.ProtocolMonitor.Sample | AXISoC/sva/axi_assertions.sv:49-203 | updates in source order give the monitor's next state, and ok reports every check |
| RtlMemory.ProtocolMonitor.Watch | AXISoC/sva/axi_assertions.sv:49-203 | a monitor out of reset that samples a whole trace reports no failure exactly when master and slave have kept every rule |
| RtlCore.DcacheCore.constructor | L1DCache/rtl/dcache_core.sv:440-456 | the reset state, with line array and miss payload unconstrained |
| RtlCore.DcacheCore.ReadPorts | L1DCache/rtl/dcache_core.sv:195-206 | what the three arrays show in a cycle, in every state of the FSM |
| RtlCore.DcacheCore.Accept | L1DCache/rtl/dcache_core.sv:175-189 | the ready outputs, and that each handshake they complete takes its own request |
| RtlCore.DcacheCore.Combinational | L1DCache/rtl/dcache_core.sv:325-437 | the defaults-and-overrides block gives the cycle's write ports and start pulses |
| RtlCore.DcacheCore.ClockRegs | L1DCache/rtl/dcache_core.sv:457-553 | the clocked updates of the core's own registers |
| RtlCore.DcacheCore.Step | L1DCache/rtl/dcache_core.sv:208-554 | one clock edge of registers, arrays, miss register and engine together is the core's next-state function |
| RtlBoard.CacheOnSram.Clock | L1DCache/tb/dcache_core_tb.sv:78-94 | core and SRAM objects clocked together make the board's next state |
| RtlBoard.CacheOnSram.Simulate | L1DCache/tb/dcache_core_tb.sv:78-128 | core and SRAM objects clocked over an input sequence reach the states of the board and, out of reset over alias-free lines, hand the CPU the replies of the flat memory, each byte that of the last store to strobe it |
| RtlBoard.CacheOnBridge.Clock | L1DCache/integration/dcache_axi_master_bridge.sv:20-33 | core and bridge objects clocked together exchange request and acknowledge of the cycle before the edge |

## Left out

- RtlMemory.BackingMem.Step: models the preload port, but the theorems about whole runs keep it idle and make the cache the only writer of its memory.
- AxiBridge.BridgeMeetsContract: the conforming memory is a contract (one write and one read outstanding, any delays; aligned single beats are performed in their strobed bytes and answered with OKAY, any other transfer may be answered and performed in any way), not the AXI SRAM or the crossbar of the SoC.
- Reset in the middle of a run, unknown values, clock-edge races and combinational delays.
- The I-cache core; its bridge is the second instance of `AxiBridge` through the base address.
- `dcache_top.sv`, `dcache_if.sv` and `dcache_tomasulo_wrap.sv`: port pass-through, composed directly.
- The Tomasulo CPU core (reorder buffer, register renaming, issue queues, load-store buffer) and the FENCE.I coherence controller: the CPU side is any sequence of inputs.
- The AXI crossbar, the AXI SRAM, the AXI-Lite parts and the bus functional models.
- Multi-beat bursts on AXI: the bridges never issue one; the monitor's beat counter is modelled in full.
- The DMA: only a register map exists.
- Build scripts, log parsing, generated coverage pages and the bare-metal C programs.
