# Verified kernels of the HPLC workbench

The workbench reads, flashes and judges power-line meter networks. Most of it is web plumbing around a
dozen small algorithms that have to be right on every input and in every interleaving. This project models those
algorithms in Dafny and proves what they promise. `dafny verify dfyconfig.toml` checks all of it.

| file | models |
|---|---|
| `Bits.dfy`, `Crc.dfy` | bits of integers; the CRC-16 of XMODEM as division of polynomials over GF(2) |
| `Xmodem.dfy`, `XmodemSender.dfy` | packets, a receiver after Forsberg's *XMODEM/YMODEM Protocol Reference* (sections 4.3, 7 and 8), and a link that loses, damages and delays as an arbitrary script says; the stop-and-wait sender |
| `SequenceMatcher.dfy` | the greedy matcher of ordered log observations |
| `FrameSplitter.dfy` | the 7E stream splitter and the buffer kept between chunks |
| `OperationStore.dfy` | the operation store: idempotent creation, state changes, persistence, reload |
| `VerifyGuard.dfy` | the guard of the verify lane: submitters, workers and watchdogs as a transition system over the store |
| `NetworkClock.dfy` | unwrapping times of day across midnights: loop, tracker and window query |
| `GroupBy.dfy`, `NetworkAggregate.dfy`, `NetworkCycles.dfy`, `NetworkFastPath.dfy` | group-by rows; the streaming and the pre-aggregated network assessment; cycles and congestion; the one path against the other |
| `TraceCluster.dfy`, `TraceFlow.dfy`, `TraceRound.dfy`, `TraceStage.dfy` | the trace engine: rounds, flows, meter table, stages, summary |
| `ReadAttempts.dfy` | pairing logged requests and answers into reading attempts |
| `NwkScan.dfy`, `TimeBuckets.dfy` | the incremental frame scan; the adaptive display buckets |
| `ModuleLog.dfy` | the module log: line assembly, bounded line buffer, polling |
| `Wrappers.dfy`, `Counting.dfy`, `Sorting.dfy`, `Arithmetic.dfy` | optional values; how many members of a list have a property; stable sorting and the order of strings; multiples and remainders |

## How the code is represented

- A class whose methods change fields in the code is a Dafny class with the same fields; loops that change local
  state are methods with loops. Each is proved equal to a function of its inputs or to a property of the new state,
  and the laws are lemmas about these.
- A dictionary is a `map`; where the code goes through one, the model takes its keys in any order, so what is
  proved does not depend on the order. A SQL table is a sequence of rows or a map.
- Threads are steps. In `VerifyGuard` each region under the gate is one step and each store write outside it is a
  step of its own; an execution is any sequence of enabled steps.
- Clocks, uuids, the serial line, the frame decoder, the pattern matchers and digests are inputs.

## Where the code differs from its own text

- `apps/listener/serial_service.py:67` takes 7D 7E and 7D 7D as escape pairs; the comment and section 4.2 of
  RFC 1662 speak of 7D 5E. The model follows the code. `FrameSplitter.ChunksAreHarmless` says for which chunks it makes
  no difference where the stream is cut; what counts is each time the kept buffer and the chunk, not the stream so far
  (`FrameSplitter.LaterCut`).
- `apps/listener/log_service.py:1834` reads the milliseconds from the decimal point on and gets 0, so the bucket query
  works on whole seconds. Its buckets are those of the stream exactly under the condition in
  `NetworkFastPath.FastPathRefines`; `NetworkFastPath.FractionLost` is a frame on which they differ.
- `apps/listener/nwk_service.py:685` promises at most 60 buckets. `TimeBuckets.SixtyOneBuckets` is an input with 61, and
  the contract of `TimeBuckets.TimeBuckets` says exactly when that happens. Labels (line 702) count from another origin
  than keys (line 697): `TimeBuckets.LabelShift`.
- `apps/listener/trace_service.py:837-840` calls a flow denied when every answering meter denied at least once, even
  if it answered normally later; the meter rows do not: `TraceStage.DeniedStageAgainstRows`, `TraceStage.DeniedThenNormal`.
- `apps/module_log/module_serial_service.py:438` has the default `after=0`, which passes over line 0:
  `ModuleLog.DefaultSkipsFirst`.
- The greedy matcher is optimal at a limit, whatever the steps, exactly when no line strays there: when of any two lines
  that fit the limit every line between fits after the first. `SequenceMatcher.OptimalExactly` says so for each limit,
  so also for those the code takes (`apps/workbench/ai_operations.py:544`).
- `apps/workbench/ai_operations.py:793` and `:800` may raise. When the thread cannot be started the guard stays set
  until the service restarts (`VerifyGuard.GuardIsFreeable`, `VerifyGuard.ThreadCanFail`); when the watchdog cannot, a
  stuck worker keeps the lane (`VerifyGuard.GuardIsFreeableAlone`, `VerifyGuard.WatchdogCanFail`).
- `apps/module_log/xmodem_flash.py:330-331` does not purge the input before a packet is sent again. A late answer can be
  taken for the answer to the next packet: `XmodemSender.LateAnswerDropsBlock` is a transfer that is reported as delivered
  with a block missing. A delivered transfer is whole exactly when no ACK was heard for a packet of which no write had
  arrived (`XmodemSender.DeliveredWhole`).
- Block sizes other than 128 and 1024 are sent under the header of 1024: `XmodemSender.OddSizeNeverArrives`.
- `_absolute_ms` is right up to whole days exactly when no step of the timeline crosses midnight with half a day or
  more, and no step skips a day: `NetworkClock.UnwrapExact`.

## Assumptions

- XMODEM: packets are not delayed, answers are; text printed by the module holds none of the bytes ACK, NAK and CAN;
  damage is noticed by the receiver. The last is proved for bursts of up to 16 bits behind the header and for the two
  number bytes. The model records which packets have arrived, whether an ACK was heard early, that is, for a packet of
  which no write had arrived, and whether a stale answer was read, one to another packet than the last written.
- Verify lane: uuids are fresh; equal request digests mean equal kinds. Audit entries are not modelled.
- Assessment: frames have a readable time of day, and both paths work with the same period.
- Scan: frame ids are positive and later frames have larger ids.

## Model

| member | source | states |
|---|---|---|
| Crc.Crc16Xmodem | apps/module_log/xmodem_flash.py:81-96 | The byte loop returns the remainder of message·x^16 on division by x^16+x^12+x^5+1 over GF(2). |
| Crc.ShiftBits | apps/module_log/xmodem_flash.py:91-95 | One turn of the inner integer loop is one step of a feedback shift register on the 16 bits of the value. |
| Crc.CrcIsTheRemainder | apps/module_log/xmodem_flash.py:81-96 | A 16-bit value is the remainder if and only if it is the CRC. |
| Crc.RemainderUnique | apps/module_log/xmodem_flash.py:81-96 | Division by the generator leaves only one remainder of degree below 16. |
| Crc.BurstDetected | apps/module_log/xmodem_flash.py:81-96 | Equal-length strings that agree outside some 16 consecutive bits have one CRC if and only if they are equal. |
| Crc.CollisionBits | apps/module_log/xmodem_flash.py:81-96 | Different equal-length strings with one CRC differ at two bits at least 16 apart. |
| Crc.CrcLinear | apps/module_log/xmodem_flash.py:81-96 | The CRC of the xor of two strings is the xor of their CRCs. |
| Crc.CrcResidue | apps/module_log/xmodem_flash.py:113-116 | A block followed by two bytes has CRC 0 if and only if the bytes are its CRC, high byte first. |
| Xmodem.ParseBuilt | apps/module_log/xmodem_flash.py:99-119 | A receiver parses every built packet back to its number modulo 256 and its block, in both modes. |
| Xmodem.BurstIsBad | apps/module_log/xmodem_flash.py:99-119 | Damage within any 16 bits behind the header of a CRC packet is noticed. |
| Xmodem.NumberDamageIsBad | apps/module_log/xmodem_flash.py:109-110 | Damage to either number byte is noticed in both modes. |
| Xmodem.SumNotices | apps/module_log/xmodem_flash.py:117-118 | Changing one byte of a block changes its checksum. |
| Xmodem.OneByteIsBad | apps/module_log/xmodem_flash.py:99-119 | Damage to any one byte of a packet, header, numbers, block or trailer, is noticed in both modes. |
| Xmodem.ReadResponse | apps/module_log/xmodem_flash.py:275-300 | The answer is the first ACK, NAK or CAN among all bytes that come in time, whatever the chunks; -1 when there is none. |
| Xmodem.WriteAndRead | apps/module_log/xmodem_flash.py:329-331 | One write and read: the receiver moves as the protocol says, its answer joins those under way, and the first answer to arrive is heard while those behind it in the chunk are thrown away. |
| XmodemSender.ExchangeSafe | apps/module_log/xmodem_flash.py:329-357 | Around one packet: the receiver takes it in when its first write arrives and never again, and an ACK that is not early means that it has. |
| XmodemSender.ExchangeRefused | apps/module_log/xmodem_flash.py:329-357 | A packet that the receiver cannot read changes nothing and is never acknowledged. |
| XmodemSender.BlockTakes | apps/module_log/xmodem_flash.py:321-344 | The packet of every block takes the receiver exactly one block further, past 255 blocks too. |
| XmodemSender.SendBlock | apps/module_log/xmodem_flash.py:328-359 | The packet is written until ACK or CAN is heard and never after, at most `max_retries` times: sent if and only if the last answer is ACK, cancelled if and only if it is CAN, unanswered only after all tries. |
| XmodemSender.RetriedStops | apps/module_log/xmodem_flash.py:328-359 | The same of the recursion on which the packet laws are proved, over the chain of exchanges. |
| XmodemSender.RetriedSafe | apps/module_log/xmodem_flash.py:328-359 | Over all retries: the receiver takes the packet in at most once, and has done so when it counts as sent without an early ACK; a cancel comes only from the receiver. |
| XmodemSender.SendEot | apps/module_log/xmodem_flash.py:361-372 | The same for the end byte. |
| XmodemSender.SendBlocks | apps/module_log/xmodem_flash.py:316-359 | The block loop computes `Transferred`. |
| XmodemSender.TransferredSafe | apps/module_log/xmodem_flash.py:316-359 | Without an early ACK the receiver holds a number of whole blocks of the padded image from its start, and all of them when every block was sent. |
| XmodemSender.TransferredShort | apps/module_log/xmodem_flash.py:316-359 | When every block was sent, at most all blocks are stored, and at least one fewer if an ACK was heard early: later packets cannot make up for it, past 255 blocks too. |
| XmodemSender.RetriedEot | apps/module_log/xmodem_flash.py:361-372 | The end byte leaves what is stored alone and finishes the receiver exactly when it arrives. |
| XmodemSender.DeliveredWhole | apps/module_log/xmodem_flash.py:303-372 | A delivered transfer has stored the padded image and finished the receiver if and only if no ACK was heard for a packet of which no write had arrived. |
| XmodemSender.EarlyIsStale | apps/module_log/xmodem_flash.py:329-357 | An ACK that is heard early was an answer to another packet. |
| XmodemSender.SendXmodem | apps/module_log/xmodem_flash.py:303-372 | For every block size: at most `max_retries` writes for each block and the end byte. Told from what was heard after each write: cancelled if and only if the last answer is CAN, with no write after a CAN; delivered if and only if there was an ACK for each block and the end byte; otherwise failed after `max_retries` writes without either, at the packet after the last ACK. A delivered transfer is whole, the image padded with 0x1A stored and the receiver finished, if and only if no ACK was heard early. Without an early ACK whole blocks from the start are stored whatever the outcome. Of a size other than 128 and 1024 nothing is stored or delivered. An early ACK is stale; when answers are lost or prompt none is, and a link that serves one in any `max_retries` writes delivers. |
| XmodemSender.DeliveryAccounts | apps/module_log/xmodem_flash.py:328-372 | The outcome is what the answers heard say: their number of ACKs, a CAN at the end, or neither. |
| XmodemSender.LateAnswerDropsBlock | apps/module_log/xmodem_flash.py:329-357 | For any two blocks, a script with one late answer on which the transfer is delivered after a stale answer: if the second block was lost the ACK is early and the block not stored; if it arrived the image is whole. |
| XmodemSender.OddSizeNeverArrives | apps/module_log/xmodem_flash.py:105-108 | With another block size than 128 and 1024 no image but the empty one is delivered, and nothing of it stored, whatever the link does. |
| SequenceMatcher.MatchingSequenceGroups | apps/workbench/ai_operations.py:626-657 | Whatever the clocks do: groups are disjoint completions within the interval, each the earliest chain from its start, and a line whose earliest chain is a completion lies in one. When no line strays no family of disjoint completions is larger. |
| SequenceMatcher.ModuleMatchLines | apps/workbench/ai_operations.py:659-662 | For a sequence match: no line is reported twice, lines come in order, and there is one line for each group and step. |
| SequenceMatcher.SelectFrom | apps/workbench/ai_operations.py:636-645 | The inner loops select the earliest hit of each step after the one before, or fail exactly when there is none. |
| SequenceMatcher.EarliestIsEarliest | apps/workbench/ai_operations.py:632-645 | No chain starting at or after a line is ahead of the earliest chain from it at any step. |
| SequenceMatcher.KeepsUp | apps/workbench/ai_operations.py:632-656 | When no line strays, the first m groups end no later than the first m members of any family of disjoint completions. |
| SequenceMatcher.OptimalExactly | apps/workbench/ai_operations.py:626-657 | At every limit: the greedy finds as many groups as any family of disjoint completions, whatever the steps, if and only if no line strays at that limit. |
| SequenceMatcher.OneResult | apps/workbench/ai_operations.py:626-657 | What is said of the result determines it. |
| SequenceMatcher.StraySpoils | apps/workbench/ai_operations.py:648-651 | For any line that strays at a limit, two steps on which the greedy finds nothing at that limit although a completion exists. |
| FrameSplitter.Split7eFrames | apps/listener/serial_service.py:51-92 | The index scan returns the frames and the tail of the token-by-token scan of the bytes. |
| FrameSplitter.FramesAreSlices | apps/listener/serial_service.py:61-84 | Frames are disjoint slices in stream order, with a flag at both ends, at least two bytes between and no boundary inside. |
| FrameSplitter.TailIsSettled | apps/listener/serial_service.py:86-92 | Splitting a returned tail gives no frame and the same tail. |
| FrameSplitter.ResumeInFrame | apps/listener/serial_service.py:348-356 | When a frame is open the kept tail is all that a continuation needs, even for a cut inside an escape pair. |
| FrameSplitter.CutIsSafe | apps/listener/serial_service.py:348-356 | One cut of a stream that starts with nothing kept changes nothing for any continuation in one piece if and only if the part before it does not end, outside a frame, in a lone escape byte or an escaped flag with no frame found. |
| FrameSplitter.UnsafeCut | apps/listener/serial_service.py:91 | After every other cut some continuation yields a frame in pieces that the whole stream does not have. |
| FrameSplitter.ChunksAreHarmless | apps/listener/serial_service.py:338-358 | For any buffer and chunks: up to every chunk and for every continuation the pieces give the frames of the whole if and only if buffer and chunk together never lose state. |
| FrameSplitter.LaterCut | apps/listener/serial_service.py:91 | Three chunks that give two frames where the stream has one, although no cut of the stream loses state. |
| FrameSplitter.ChunkIndependence | apps/listener/serial_service.py:348-358 | A stream with no escape pair outside a frame gives the same frames in the same order and the same buffer in any chunks. |
| FrameSplitter.SentComesOut | apps/listener/serial_service.py:51-92 | Any payloads of at least two bytes between the flags, sent one after the other with flags and escape bytes inside them escaped, come out one frame each, in order, in whatever chunks, and nothing is kept. |
| FrameSplitter.SerialCapture.OnChunk | apps/listener/serial_service.py:348-358 | One chunk: the frames of buffer and chunk together go out, their tail stays. |
| FrameSplitter.SerialCapture.OnChunks | apps/listener/serial_service.py:338-342 | The read loop puts out, chunk after chunk, what `Feed` says, on which the chunk laws are proved. |
| OperationStore.OperationStore.Create | apps/workbench/ai_store.py:98-124 | A used request id replays its operation or conflicts by the digest, and nothing changes; otherwise one operation is added that carries the request, in state created, version 1, without result or error. File and memory stay in step. |
| OperationStore.OperationStore.SetState | apps/workbench/ai_store.py:142-158 | Unknown ids are refused; an operation that has ended stays; any other gets the state, the result if one is given, the error if one is given, and the next version, and every other operation stays. |
| OperationStore.OperationStore.Persist | apps/workbench/ai_store.py:76-88 | The file lists every operation exactly once. |
| OperationStore.OperationStore.Load | apps/workbench/ai_store.py:38-74 | A restart keeps ids and request ids and what has ended; it interrupts the rest with its own error, keeping results; the file is sound. |
| OperationStore.ReadOperations | apps/workbench/ai_store.py:46-60 | The reading loop yields the operations restored one after the other, and tells whether one was interrupted. |
| OperationStore.LoadIsReload | apps/workbench/ai_store.py:38-74 | Reading a persisted list, in any order, gives the store back with the unfinished operations interrupted and the request ids intact. |
| OperationStore.StepEvolves | apps/workbench/ai_store.py:98-158 | Any step keeps the store valid, every identity and every request id; an accepted change writes its state, and its result and error where given, and counts the version; otherwise the operation is unchanged. |
| OperationStore.RunEvolves | apps/workbench/ai_store.py:38-158 | The same over whole runs: the version grows by exactly the number of accepted changes. |
| OperationStore.RunRemembers | apps/workbench/ai_store.py:142-158 | After any run an operation has the state of the last accepted change, the result of the last one that gave a result and the error of the last one that gave an error. |
| OperationStore.TerminalFrozen | apps/workbench/ai_store.py:147-148 | A terminal operation never changes again, in any run. |
| OperationStore.ReplayForever | apps/workbench/ai_store.py:103-107 | However long after, a repeated request gets its operation back, and another one under that request id is refused; the store stays. |
| OperationStore.ReloadInterrupts | apps/workbench/ai_store.py:50-60 | Reloading interrupts exactly the unfinished operations, with the error of a restart and their results, keeps the rest and is idempotent. |
| VerifyGuard.VerifyLane.Submit | apps/workbench/ai_operations.py:775-788 | Busy if and only if the flag is set; a known request is refused or repeated by its digest; otherwise the flag is set, a generation starts and its operation, made from the request, waits. Nothing else changes. |
| VerifyGuard.VerifyLane.Register | apps/workbench/ai_operations.py:801-802 | The watchdog is entered under its generation. |
| VerifyGuard.VerifyLane.Expire | apps/workbench/ai_operations.py:824-828 | The watchdog releases the guard if and only if it is set and of its generation, and takes itself out. |
| VerifyGuard.VerifyLane.Finish | apps/workbench/ai_operations.py:852-857 | The worker clears the flag, and takes out its watchdog to cancel it, if and only if its generation is the newest. |
| VerifyGuard.RestartIsInitial | apps/workbench/ai_store.py:38-74 | The lane may start on what a restart makes of any store, interrupted verifies and their request ids included, and on an empty one. |
| VerifyGuard.InvNext | apps/workbench/ai_operations.py:773-857 | Every enabled step of any thread, a failing start included, keeps the invariant of the lane. |
| VerifyGuard.GuardIsExact | apps/workbench/ai_operations.py:773-857 | In every interleaving from any start the flag is set exactly while the newest generation is released by neither its worker nor its watchdog; at most one generation is unreleased. |
| VerifyGuard.StaleIsHarmless | apps/workbench/ai_operations.py:824-828 | Steps of an older generation never touch the flag, the generation or the newest verify. |
| VerifyGuard.NoneForgotten | apps/workbench/ai_operations.py:789-848 | A released operation has ended unless its watchdog stands between release and write; while the flag is set the newest watchdog is armed and not disarmed, or still to be armed, unless its start or the thread's failed. |
| VerifyGuard.EndedStays | apps/workbench/ai_store.py:142-158 | What a verify ended with never changes, whatever late workers, watchdogs or other lanes do. |
| VerifyGuard.EndedBecause | apps/workbench/ai_operations.py:824-848 | In every interleaving a verify that has ended did so by the first write of its own worker or watchdog, and its operation says what that write said: succeeded with the result, or error with the error. |
| VerifyGuard.GuardCanBeFreed | apps/workbench/ai_operations.py:794-833 | A stuck worker cannot keep the lane: from any state of the invariant with the flag set, unless starting the thread or the watchdog failed, at most four steps of the submitter and the timer alone clear it. |
| VerifyGuard.WorkerFrees | apps/workbench/ai_operations.py:840-857 | A worker that was started clears the flag with at most two steps of its own. |
| VerifyGuard.StuckForever | apps/workbench/ai_operations.py:785-802 | After a failed thread start no step of anyone clears the flag or takes a submission; after a failed watchdog start none but the end of the worker does. |
| VerifyGuard.GuardIsFreeable | apps/workbench/ai_operations.py:785-857 | Some run of the lane clears the flag if and only if the thread of the newest verify could be started. |
| VerifyGuard.GuardIsFreeableAlone | apps/workbench/ai_operations.py:785-833 | Some run in which the newest worker does not end clears the flag if and only if its thread and its watchdog could be started. |
| VerifyGuard.ThreadCanFail | apps/workbench/ai_operations.py:789-793 | From every start any new request may end with a thread that does not start, after which no run clears the flag. |
| VerifyGuard.WatchdogCanFail | apps/workbench/ai_operations.py:795-800 | From every start any new request may end with a watchdog that does not start, after which the flag is cleared by the worker or by no one. |
| NetworkClock.AbsoluteMs | apps/listener/network_assessment.py:198-213 | Readable times get their unwrapped value, unreadable ones stay None and are skipped. |
| NetworkClock.AbsTimeTracker.AbsMs | apps/listener/network_assessment.py:1500-1510 | The tracker gives each reading the value the whole list would give it. |
| NetworkClock.TrackStep | apps/listener/network_assessment.py:1441-1448 | The inline step of the stream computes the same unwrapping one reading at a time. |
| NetworkClock.WindowFormAgrees | apps/listener/log_service.py:1828-1854 | LAG and the running sum over the rows unwrap as the loop does. |
| NetworkClock.RollsBySecond | apps/listener/log_service.py:1831-1841 | In whole seconds the query starts a new day on the same steps, except a step back of half a day in seconds and more with the milliseconds. |
| NetworkClock.QueryLags | apps/listener/log_service.py:1828-1854 | The query places each reading before the loop by the midnights it has missed and the milliseconds. |
| NetworkClock.UnwrapExact | apps/listener/network_assessment.py:198-213 | On a timeline that does not go back the result differs from the truth by one whole number of days if and only if every step stays on its day or crosses one midnight in less than twelve hours. |
| NetworkClock.UnwrapShortGaps | apps/listener/network_assessment.py:198-213 | Gaps under twelve hours are enough. |
| GroupBy.GroupTally | apps/listener/log_service.py:1759-1767 | Counting group-by rows with their counts, even merging groups, is counting the items one by one. |
| NetworkAggregate.AssessStream | apps/listener/network_assessment.py:1400-1472 | The row loop finds out each row's network and type and accumulates every network's frames at their unwrapped times; counted = unassigned + filtered + assigned. A network is there if and only if a row of it passes the filter, and its count of a type is the number of its rows of that type, materialised or else in the summary; rows without a type count as UNKNOWN. |
| NetworkAggregate.BucketCounters | apps/listener/network_assessment.py:1263-1272 | A bucket is there if and only if an entry of the timeline falls into its period, and its count of a type is the number of those of that type. |
| NetworkAggregate.AggregateCounts | apps/listener/network_assessment.py:1531-1541 | For every network that passes the filter the count of a type is the weight of its rows of that type, UNKNOWN for rows without one; no other network is there. |
| NetworkAggregate.AggregateBuckets | apps/listener/network_assessment.py:1576-1588 | For every known network that passes the filter the count of a type in a bucket is the weight of its rows of that type and bucket; nothing else is counted. |
| NetworkAggregate.StreamCountsAt | apps/listener/network_assessment.py:1176-1181 | A network's type totals in the stream are the tally of its frames. |
| NetworkAggregate.StreamBucketsAt | apps/listener/network_assessment.py:1263-1272 | A network's bucket counters in the stream are the tally of its frames in that bucket. |
| NetworkAggregate.StreamBucketsMean | apps/listener/network_assessment.py:1263-1272 | In the stream the count of a type in a bucket is the number of the network's frames of that type whose time falls into the period. |
| NetworkAggregate.AggCountsAt | apps/listener/network_assessment.py:1531-1541 | A network's type totals on the fast path are the tally of its rows, and of no other network's. |
| NetworkAggregate.AggBucketsAt | apps/listener/network_assessment.py:1576-1591 | A network's bucket counters on the fast path are the tally of its rows in that bucket. |
| NetworkFastPath.QueryStampAt | apps/listener/log_service.py:1828-1854 | The bucket query works on the frames of the stream, each placed earlier by its lag. |
| NetworkFastPath.BucketsExactly | apps/listener/network_assessment.py:1263-1272 | Stamps moved back keep the buckets of every network if and only if each stays in its bucket: no other frame can make up for one that leaves. |
| NetworkFastPath.FastPathRefines | apps/listener/network_assessment.py:1374-1607 | For group-by rows of what the queries read, in any order, the fast path finds the stream's networks and type totals; it finds the same bucket counters in every network if and only if every frame is further into its bucket than its lag. |
| NetworkFastPath.StayInBucketMeans | apps/listener/log_service.py:1828-1854 | For periods of up to a day that is: the query misses no midnight and every frame is at least its milliseconds into its bucket. |
| NetworkFastPath.WholeSecondsAgree | apps/listener/log_service.py:1828-1854 | For periods of whole seconds it is: the query misses no midnight. |
| NetworkFastPath.FractionLost | apps/listener/log_service.py:1834 | A frame at 1.7 s with period 1.6 s, which stream and query put into different buckets. |
| NetworkCycles.BuildCycles | apps/listener/network_assessment.py:1274-1322 | One cycle for each bucket in order of time with its frames, beacons, associations and proxy changes; the level is fault if a known level is, else degraded if one is, else healthy. |
| NetworkCycles.CyclesMean | apps/listener/network_assessment.py:1282-1296 | Each cycle counts the frames of one period by type, the two beacon types together; a period has a cycle if and only if it has a frame. |
| NetworkCycles.CyclesUnique | apps/listener/network_assessment.py:1282-1322 | Equal bucket counters give equal cycles in whatever order the dictionaries were filled. |
| NetworkCycles.CyclesConserve | apps/listener/network_assessment.py:1282-1286 | The cycles together hold the frames of the buckets. |
| NetworkCycles.BuildCsma | apps/listener/network_assessment.py:1324-1365 | The running peak is the highest non-beacon density of all buckets in any order, and the level says whether some bucket is above either limit. |
| NetworkCycles.CongestionMeans | apps/listener/network_assessment.py:1341-1356 | The level is fault if and only if some period has more than 100 frames a second that are not beacons, degraded if and only if it is not and some period has more than 50. |
| NetworkCycles.BucketsConserve | apps/listener/network_assessment.py:1263-1286 | The frame counts of the cycles add up to the frames of the network. |
| NetworkCycles.CountsConserve | apps/listener/network_assessment.py:1176-1181 | The type totals of a network add up to its frames. |
| NetworkCycles.NetworksConserve | apps/listener/network_assessment.py:1450-1465 | The networks together hold each assigned frame exactly once. |
| TraceCluster.Cluster | apps/listener/trace_service.py:538-553 | The method returns the timed frames, sorted, cut at the gaps, and then the untimed frames. |
| TraceCluster.ClustersAreComponents | apps/listener/trace_service.py:540-549 | Two timed frames share a cluster if and only if a chain of frames with steps of at most the gap joins them. |
| TraceCluster.ClustersPartition | apps/listener/trace_service.py:540-549 | Every timed frame is in exactly one cluster, and the clusters list exactly the timed frames in order of time, then id. |
| TraceCluster.OrderDoesNotMatter | apps/listener/trace_service.py:540-549 | The timed clusters do not depend on the order of the input. |
| TraceCluster.UntimedAlone | apps/listener/trace_service.py:550-552 | Each untimed frame is a cluster of its own. |
| TraceFlow.BuildFlows | apps/listener/trace_service.py:641-655 | Of the frames sorted by id: one flow for each sequence number, with exactly its frames by direction and in order, listed by first frame and sorted by least id. |
| TraceFlow.FlowsPartition | apps/listener/trace_service.py:644-654 | A frame with a sequence number is in exactly one flow, one without is in none. |
| TraceFlow.AlreadySorted | apps/listener/trace_service.py:655 | The flows of sorted frames come in order of their least ids, so the final sort changes nothing. |
| TraceFlow.FlowNotEmpty | apps/listener/trace_service.py:644-654 | No flow is empty. |
| TraceRound.FlowTargets | apps/listener/trace_service.py:790-796 | Exactly the addresses asked in the requests, each once. |
| TraceRound.ReportsMean | apps/listener/trace_service.py:802-808 | The reports of a flow are the items of its answering frames, each with its frame and as a denial only where the item says so. |
| TraceRound.FlowResponses | apps/listener/trace_service.py:799-815 | The loops compute the fold that `FoldMeans` and `FoldFrame` describe. |
| TraceRound.FoldMeans | apps/listener/trace_service.py:800-815 | A meter has an answer if and only if some report names it, and it is a denial if and only if all its reports are. |
| TraceRound.FoldFrame | apps/listener/trace_service.py:809-814 | The frame kept is that of the first denial, or of the last normal answer. |
| TraceRound.MergeIsFold | apps/listener/trace_service.py:866-869 | Folding each flow and merging the results is one fold over all reports. |
| TraceRound.RoundAnswers | apps/listener/trace_service.py:861-869 | The answers of a round are the fold over everything said in it. |
| TraceRound.RoundReport | apps/listener/trace_service.py:860-919 | In order of addresses every expected target has exactly one row, and then every other meter that answered one extra row; a row is denied if and only if all its answers in the round were; via and flow are those of the first flow; ok, denied and missing rows add up to the targets, and the printed counters to targets plus denied extras. |
| TraceStage.JudgeFlow | apps/listener/trace_service.py:826-854 | Stage, verdict and evidence in every branch: denied if and only if there are answers and, for a request, somebody answered and all who answered normally also denied, or, without a request, the receipt is a denial; confirmed if and only if answered, not denied, and the receipt is normal or a request was not repeated after all answers; otherwise responded; without answers by acknowledgement. Explicit evidence for denials and normal receipts, retransmission for unconfirmed requests, inference for the rest. |
| TraceStage.RetxAfterResponse | apps/listener/trace_service.py:818-824 | True if and only if there is an answer and some request after the first is later than every answer. |
| TraceStage.DeniedStageMeans | apps/listener/trace_service.py:837-840 | An answered request is denied if and only if somebody answered and everybody who answered normally also denied once. |
| TraceStage.ConfirmedMeans | apps/listener/trace_service.py:829-842 | An answered request that is not denied is confirmed if and only if it has a normal receipt or no request is later than all answers. |
| TraceStage.SilentStage | apps/listener/trace_service.py:843-854 | A flow of a round is at the sent or acknowledged stage if and only if no frame of the round answers under its sequence number. |
| TraceStage.VerdictAgrees | apps/listener/trace_service.py:826-854 | Verdict and stage agree; not confirmed needs a request later than all answers and no normal receipt; armed means no frame. |
| TraceStage.DeniedStageAgainstRows | apps/listener/trace_service.py:809-840 | At that stage the meters are all kept as denied if and only if none answered normally. |
| TraceStage.DeniedThenNormal | apps/listener/trace_service.py:809-840 | An input with a denied flow whose only meter is kept as normal. |
| TraceStage.SummaryCloses | apps/listener/trace_service.py:922-935 | The five stage counters add up to the number of flows: no flow grouped from frames is left armed. |
| TraceStage.SummaryMeans | apps/listener/trace_service.py:922-935 | Each of the five counters is the number of flows, over all rounds, at the stage it is named for. |
| TraceStage.SummaryUnanswered | apps/listener/trace_service.py:929-930 | The two counters of unanswered flows count exactly the flows to whose sequence number their round holds no answer, without and with acknowledgement. |
| ReadAttempts.CollectAttempts | apps/listener/concurrent_readonly.py:87-135 | Of the rows sorted by stamp and id: first the attempts that events end, in the order of these events, and then the sends left open for 300 s or more before the latest end, in the order of the sends; for every address these are the attempts its own events end and perhaps its last send. When times do not go back the attempts of no address overlap. A successful attempt ends at the time of a normal answer of its address, and there are as many as such rows. |
| ReadAttempts.EndedExactly | apps/listener/concurrent_readonly.py:106-127 | Every answer, and every send after a send, ends one attempt and nothing else does: it starts with the open send, or alone; it succeeds only by a normal answer; it is a duplicate only when a repeated send. |
| ReadAttempts.SweptExactly | apps/listener/concurrent_readonly.py:129-134 | The last send is swept if and only if the latest end is 300 s or more after it, and then as a failure of 300 s. |
| ReadAttempts.EventsMean | apps/listener/concurrent_readonly.py:96-121 | The events of an address are what the rows ask it and what it answers, each at the time of its row; a row without addresses asks "?". |
| ReadAttempts.RowsInOrder | apps/listener/concurrent_readonly.py:96 | Rows are read in order of stamps by code points, then of ids. |
| ReadAttempts.RowOrderDoesNotMatter | apps/listener/concurrent_readonly.py:96 | Rows of different stamps and ids give the same events in whatever order they come. |
| ReadAttempts.OnSend | apps/listener/concurrent_readonly.py:106-118 | A send keeps open sends, their order, duplicate flags and attempts in step with the events of every address. |
| ReadAttempts.OnReply | apps/listener/concurrent_readonly.py:119-127 | So does an answer, expected or not. |
| ReadAttempts.AttemptsConserve | apps/listener/concurrent_readonly.py:94-135 | Sends = superseded + answered + swept + left open; attempts + left open = sends + answers nobody asked for. |
| ReadAttempts.DuplicatesAreSupersessions | apps/listener/concurrent_readonly.py:108-118 | As many attempts carry the duplicate mark as were superseded, one fewer while the last such send is open. |
| ReadAttempts.EndedOfOne | apps/listener/concurrent_readonly.py:94-127 | Of the attempts of all addresses together, those of one address are what its own events end. |
| ReadAttempts.AttemptsDisjoint | apps/listener/concurrent_readonly.py:94-135 | When times do not go back, attempts of one address never overlap, the swept one included. |
| NwkScan.CountFrame | apps/listener/nwk_service.py:364-388 | The branches add one to exactly the counters whose kind the frame is. |
| NwkScan.TotalsMean | apps/listener/nwk_service.py:364-388 | Each of the ten totals is the number of frames that the code counts under its name. |
| NwkScan.Scanner.Consume | apps/listener/nwk_service.py:360-395 | The table gains the frame's last event as its row, and the counters the frame's share. |
| NwkScan.Scanner.Refresh | apps/listener/nwk_service.py:293-352 | A call scans the next frames up to the budget; afterwards table and totals are those of one scan of that prefix, and `pending` is true if and only if a frame is left. |
| NwkScan.Run | apps/listener/nwk_service.py:293-352 | Any run of calls with any budgets and any logging in between leaves what one scan of the first frames leaves. |
| NwkScan.LastIdFixesState | apps/listener/nwk_service.py:322-351 | Two scanners with one last id have one table and one set of totals. |
| NwkScan.ScansCatchUp | apps/listener/nwk_service.py:313-317 | As many calls as frames are left scan everything, whatever their budgets. |
| TimeBuckets.TimeBuckets | apps/listener/nwk_service.py:682-713 | One bucket for each key with rows, in order, holding their sums; both sums are conserved; at most 61 buckets, more than 60 if and only if the span is a positive whole number of hours without an empty bucket. |
| TimeBuckets.BucketCount | apps/listener/nwk_service.py:688-697 | The bound on the number of keys and its exact condition. |
| TimeBuckets.WidthIsLeast | apps/listener/nwk_service.py:690-693 | The width is the least positive number of whole minutes of which sixty cover the span. |
| TimeBuckets.BetweenInSpan | apps/listener/nwk_service.py:688-697 | Seconds between the first and the last one, over midnight too, lie in the span. |
| TimeBuckets.SixtyOneBuckets | apps/listener/nwk_service.py:685-693 | An input that makes 61 buckets. |
| TimeBuckets.LabelShift | apps/listener/nwk_service.py:696-709 | Every row lies in the stretch of its key; the label starts earlier by `min % width`, and the exact condition for a row to lie in its label. |
| ModuleLog.LinesKeepBytes | apps/module_log/module_serial_service.py:285-294 | Lines and rest make up the bytes; each line has its only newline at its end; the rest has none. |
| ModuleLog.ChunksDoNotMatter | apps/module_log/module_serial_service.py:285-294 | Lines and rest are the same for any chunks. |
| ModuleLog.Channel.Push | apps/module_log/module_serial_service.py:263-270 | Lines in memory are the last 5000 logged, numbered without a gap. |
| ModuleLog.Channel.LogEvent | apps/module_log/module_serial_service.py:263-270 | An event line takes the next number between the assembled lines and disturbs neither direction. |
| ModuleLog.Channel.Ingest | apps/module_log/module_serial_service.py:285-294 | A chunk logs the lines of buffer and chunk and leaves their rest; logged text and buffers always make up the bytes heard in each direction. |
| ModuleLog.Channel.IngestAll | apps/module_log/module_serial_service.py:285-294 | Chunk after chunk logs the lines of the whole stream. |
| ModuleLog.Channel.Flush | apps/module_log/module_serial_service.py:296-301 | What is left in a buffer becomes one line; no byte is lost. |
| ModuleLog.Channel.Logs | apps/module_log/module_serial_service.py:438-449 | A poll returns the retained lines numbered above `after`, all of them below 0, and the number of the last line logged. |
| ModuleLog.PollingIsComplete | apps/module_log/module_serial_service.py:438-449 | A client polling from -1 gets every line once and in order if and only if at most 5000 lines come between two polls. |
| ModuleLog.PollingKeepsOrder | apps/module_log/module_serial_service.py:438-449 | Even when lines are dropped nothing comes twice or out of order. |
| ModuleLog.DefaultSkipsFirst | apps/module_log/module_serial_service.py:438-447 | Polling from the default 0 answers as polling from -1 if and only if line 0 is not in memory. |

## Left out

- Web routes, static files, desktop and run entry points, sessions, grants, file rotation and progress text: plumbing.
- The flash dialogue before and after the transfer (boot loader text, baud changes): heuristics on free text.
- The start of an XMODEM transfer (`C` or NAK from the receiver) and the choice of CRC or checksum: the mode is an input.
- Console text that looks like an answer: the sender cannot tell it apart.
- Pattern and rule matching of single log lines: a step is the set of lines it accepts.
- The frame decoder and the field extraction of frames: their results are fields of a frame.
- Audit entries, artifacts and the digest function of the store: the digest is an input of `create`.
- A damaged storage file, which the store answers by starting empty: no property would survive it.
- NetworkFastPath.FastPathRefines: the choice of the period, detail rows and beacon fields are not modelled; networks that only a detail row names do not occur.
- NetworkAggregate.AssessStream: per-network accumulators are values in a map, not objects; detail rows and rows without a readable time are not modelled (`AbsoluteMs` and the tracker cover such times on their own).
- NetworkCycles.BuildCsma: the mean density, ratios, rounding and texts are not modelled.
- The rollover rule of the minute reports (`apps/listener/log_service.py:628-630`), which compares a time of day with an absolute time: `_absolute_ms` is the reference here.
- TraceRound.RoundReport: the choice of acknowledgement and receipt frames is an input of the stage; times and ids of the report are not modelled.
- NwkScan.Scanner.Refresh: the transaction around a call is one step; a negative budget, which the database reads as no limit, is not modelled.
- TimeBuckets.TimeBuckets: labels are seconds of the day before formatting as hours and minutes.
- ModuleLog.Channel.Ingest: lines are bytes; decoding them as UTF-8 with replacement, time stamps, the log file and hooks are not modelled, nor bytes diverted to the flash dialogue.
