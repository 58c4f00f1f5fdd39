# TraceMux: verified models

TraceMux collects logs from serial ports, sockets, files, packet captures and remote instances, stores them, streams them
to browsers and exports them. This project models the parts of it whose correctness is not visible from any one function,
and proves what they promise. Every result is a statement about all inputs, all runs or all reachable states.

* **Export archives.** The server streams a stored ZIP to disk and the browser builds one in memory. `ZipFormat` holds the
  layout of both (sections 4.3.7, 4.3.12 and 4.3.16 of the .ZIP File Format Specification) and an independent reader that
  goes end record, central directory, local header. Both writers are proved against it. `Crc32` ties the server's bitwise
  checksum, the browser's table and a one-bit-at-a-time shift register together, and proves which damage the checksum must
  notice; `CrcDivision` proves, over the polynomials of `Gf2`, that it is the CRC-32 remainder. `EntryNames` and `Bundle` cover the names in the archive and the whole bundle download.
* **Remote write-back.** `RemoteWrite` is a step system of callers, the mirror task, two FIFO channels and the edge server;
  `Wire` holds the envelopes they exchange.
* **Subscriptions.** `Subscription` is a step system of the browser's listener table, its sockets (including stale ones
  whose events arrive late) and the server's subscription map.
* **Limits.** `RateLimit` is the token bucket, `ConnectionCap` the lock-free connection counter in every interleaving.
* **Sources.** `Pipeline` is content sampling, replay of the sampled frames and the runner loop with any framer;
  `Lifecycle` is the source manager's table under start, resume, restart, wait, stop, remove, reap and write.
* **Tickets.** `Tickets` is the one-time download ticket table, one step per clock reading or critical section.
* **Text.** `Utf8`, `Percent`, `Text`, `ChannelSpec` and `UnescapedSpecs` are lossy text conversion, percent-encoding and the channel URIs;
  `Lines` is line-ending detection and splitting; `Substrings` is match counting; `EncodingChoice` is encoding
  detection.

Code that works by updating state is modelled as classes and methods with loops, each proved against a function on values.
Concurrent code is modelled as a step system: a datatype of steps, a function that applies one, and a function that runs a
list of them; the theorems speak about every run.

Properties that turned out not to hold in full are given with a concrete counterexample and the exact condition:

* The browser's archive writer checks each file but not the totals. `BrowserOverflow` gives a list it accepts and whose
  archive the reader refuses; `BrowserReadsBackIff` says exactly which accepted lists read back.
* A write can reach the edge and still be reported as failed (`AppliedButTimedOut`). `OkIffAckRead` says exactly when a
  caller is told Ok: when the mirror had read the acknowledgement by the time the caller was answered.
* The token bucket's bound fails when the clock steps back (`BackwardClockBreaksBound`). `PromiseIffNeverStepsBack` says
  that this is the only way it can fail; `AdmittedIff` says what is admitted under any clock.
* TCP, UDP and mock strings, file and pipe paths, and the strings of serial and process specs are rendered without
  escaping; `PlainRoundTripIff`, `PathRoundTripIff`, `SerialRoundTripIff` and `ProcessRoundTripIff` are the exact conditions
  for them, and `PcapRoundTripIff` the one for captures, whose strings are trimmed on the way back.
* The comment on line detection says ties favour LF, and the one in the line iterator says automatic mode avoids flips in
  mid-stream. The code gives a CRLF tie to CRLF and looks again before every line; the model follows the code, and
  `AutoFlips` shows both on one buffer. `AutoIff` is the exact condition for a buffer to be cut by one convention, and
  `AutoOnPureIff` what it comes to for buffers with one kind of line ending.

`dafny verify dfyconfig.toml` checks the whole project.

## Model

| member | source | states |
|---|---|---|
| ZipFormat.RoundTrip | crates/server/src/export_api.rs:796-911 | For every list of files whose sizes fit the fields, reading the archive through its end record, central directory and local headers gives back exactly the names, bodies and CRCs, in order |
| ZipFormat.OverflowUnreadable | crates/server/src/export_api.rs:851-911 | If the local part or the directory outgrows 32 bits, the truncated end record makes the reader refuse the archive, so the writer's size checks are necessary |
| ZipFormat.LocalFields | crates/server/src/export_api.rs:796-849 | Every field of a local header, among them signature, version, flags, time and date, is found at its place with its value cut to the field's width |
| ZipFormat.CentralFields | crates/server/src/export_api.rs:851-888 | The same for every field of a directory header |
| ZipFormat.EndFields | crates/server/src/export_api.rs:899-906 | The same for every field of the end record |
| ZipFormat.ReadCentralBack | crates/server/src/export_api.rs:851-888 | Walking the directory from any entry on visits exactly the remaining files, each local header at the recorded offset |
| ZipWriters.StoredZipWriter.Create | crates/server/src/export_api.rs:786-794 | A new writer holds no files and its offset is the number of bytes written |
| ZipWriters.StoredZipWriter.AppendFile | crates/server/src/export_api.rs:796-849 | Succeeds exactly when the name fits 16 bits and body and offset fit 32; adds exactly the normalized name and the body, and keeps offset equal to bytes written |
| ZipWriters.StoredZipWriter.WriteDirectory | crates/server/src/export_api.rs:851-888 | Appends the directory of exactly the files so far and returns its size |
| ZipWriters.StoredZipWriter.Finish | crates/server/src/export_api.rs:851-911 | Succeeds exactly when everything fits its field, and then the bytes written are the archive stamped 1980-01-01 00:00 and read back as the files appended |
| ZipWriters.BrowserEntry | web/src/adapters/sessionExportZip.ts:254-263 | Accepts a file exactly when name, body and offset fit their fields, with the server's checksum |
| ZipWriters.CreateStoredZip | web/src/adapters/sessionExportZip.ts:246-322 | Succeeds exactly when the count and every single file fit, and then yields the same archive layout as the server |
| ZipWriters.BrowserReadsBackIff | web/src/adapters/sessionExportZip.ts:246-322 | An accepted list reads back if and only if the total of the local parts and the total of the directory fit 32 bits |
| ZipWriters.BrowserOverflow | web/src/adapters/sessionExportZip.ts:254-262 | A list the browser accepts whose archive the reader refuses, because the directory no longer ends at the end record |
| ZipWriters.DosRoundTrip | web/src/adapters/sessionExportZip.ts:215-221 | The 16-bit date and time keep every moment to the even second, with the year drawn into 1980 to 2107; the server's fixed stamp is the first moment they can express |
| Crc32.UpdateAllIsSerial | crates/server/src/export_api.rs:926-937 | Eight steps per byte over any input equal a shift register fed the input bit by bit; CrcIsRemainder says what that register computes |
| Crc32.StepsInjective | crates/server/src/export_api.rs:926-937 | Any number of update steps is injective in the register |
| Crc32.BurstDetected | crates/server/src/export_api.rs:913-938 | Inputs that differ only inside a window of at most 32 bits always have different checksums |
| Crc32.FourOctetsDetected | crates/server/src/export_api.rs:913-938 | Replacing up to four consecutive bytes by different ones always changes the checksum |
| Gf2.RemainderUnique | crates/server/src/export_api.rs:926-937 | A polynomial over GF(2) has at most one remainder by a generator of given degree |
| CrcDivision.PolynomialIsGenerator | crates/server/src/export_api.rs:926-937 | Bit i of the constant is set exactly when 31 - i is one of the exponents 26, 23, 22, 16, 12, 11, 10, 8, 7, 5, 4, 2, 1, 0 of the CRC-32 generator |
| CrcDivision.CrcIsRemainder | crates/server/src/export_api.rs:913-938 | The complement of the checksum of any file is the remainder, and the only one, of its bits times x^32, the first 32 complemented, by the CRC-32 generator; division is written over exponents |
| CrcDivision.SelfCheckWord | crates/server/src/export_api.rs:913-938 | The checksum over any body followed by its stored checksum is 0x2144DF1C |
| Crc32.Crc32File | crates/server/src/export_api.rs:913-938 | However the file is cut into reads, the result is the length of the whole and its checksum, which CrcIsRemainder identifies |
| Crc32.TableLookup | web/src/adapters/sessionExportZip.ts:206-212 | One table lookup and shift equals eight bitwise steps, for every register and byte |
| Crc32.Crc32Table | web/src/adapters/sessionExportZip.ts:192-204 | Entry i of the table is eight steps applied to i |
| Crc32.Crc32ByTable | web/src/adapters/sessionExportZip.ts:206-213 | The table-driven checksum equals the bitwise one, and so the CRC-32 remainder, on every byte string |
| Octets.LE32RoundTrip | crates/server/src/export_api.rs:814-825 | A 32-bit little-endian field reads back as the value modulo 2 to the 32 |
| EntryNames.CandidateInjective | crates/server/src/export_api.rs:754-769 | The numbered variants of one name are pairwise different |
| EntryNames.CandidateForm | crates/server/src/export_api.rs:754-769 | A numbered variant is the name cut at its last dot, unless that is its first character, with a dash and the number between stem and extension |
| EntryNames.CandidatesNeedRoom | crates/server/src/export_api.rs:760-770 | Exhausting n variants takes n used names |
| EntryNames.NameSet.Unique | crates/server/src/export_api.rs:749-771 | Fails exactly when all 9,999 variants are used, which takes at least 9,999 names; otherwise returns the first free variant, so names returned over a run are pairwise distinct |
| Bundle.PlanMeans | crates/server/src/export_api.rs:618-637 | The plan of a bundle lists the exports in request order, bit for bit, each under the first free variant of its own file name, with no name twice |
| Bundle.PathsDistinct | crates/server/src/export_api.rs:618-637 | Distinct entry names stay distinct as archive paths |
| Bundle.CreateBundleZip | crates/server/src/export_api.rs:608-639 | Succeeds if and only if every export gets a name and the planned files fit; then the archive reads back as exactly the planned files. A bundle can run out of names only from 10,000 exports on |
| Wire.WriteFrameArrives | crates/server/src/remote_mirror.rs:252-268 | What the edge parses from a write frame is the sid, channel, body and target that were sent |
| Wire.RepliesAreDistinguished | crates/server/src/ws.rs:925-981 | Acknowledgement and error carry the request's sequence number and are told apart by their event |
| Wire.ReplyFields | crates/server/src/ws.rs:925-981 | A reader finds message, session, channel and byte count in an acknowledgement, and message, error id and session in an error |
| Wire.WriteRefusedIff | crates/server/src/ws.rs:370-398 | A write frame is refused if and only if it lacks a session or a binary body, under its own sequence number and with E-2001; without a channel it means channel 0 |
| RemoteWrite.OkMeansApplied | crates/server/src/remote_mirror.rs:92-109 | In every run, a caller gets Ok only if the edge completed the sink write of exactly that body and target under that sequence number |
| RemoteWrite.OkIffAckRead | crates/server/src/remote_mirror.rs:103-108 | In every run, a caller that has been answered was told Ok if and only if the mirror had read the acknowledgement of its write by then |
| RemoteWrite.OkIffDelivered | crates/server/src/remote_mirror.rs:103-108 | The same as a statement about the steps: told Ok if and only if some step delivers its sender after the acknowledgement was read |
| RemoteWrite.SenderOkIffAckRead | crates/server/src/remote_mirror.rs:270-284 | A waiting sender carries Ok if and only if the mirror has read the acknowledgement of that write |
| RemoteWrite.AnsweredByStep | crates/server/src/remote_mirror.rs:103-108 | A caller is answered once, by its own time-out or by the delivery of what its sender carried |
| RemoteWrite.AppliedButTimedOut | crates/server/src/remote_mirror.rs:92-109 | A run in which the edge completes a write whose caller has timed out |
| RemoteWrite.ResolvedExactlyOnce | crates/server/src/remote_mirror.rs:187-250 | When the run has ended, every write taken into the queue has been resolved exactly once |
| RemoteWrite.EdgeFollowsCallers | crates/server/src/ws.rs:362-430 | At every moment the edge has acted on a prefix of the callers' writes, in order, each once, each with its own body and target |
| RemoteWrite.RunInv | crates/server/src/remote_mirror.rs:187-250 | The invariants on queue, sent frames, handled writes, replies, acknowledgements and outcomes hold in every reachable state; RunningIff and the rows after it say what a run did |
| RemoteWrite.RunningIff | crates/server/src/remote_mirror.rs:190-250 | The mirror runs if and only if no step so far was one that ends it: a closed connection, a send that fails, or an error reply that it reads |
| RemoteWrite.RunningReadNoError | crates/server/src/remote_mirror.rs:220-250 | As long as it runs, the mirror has read no error reply |
| RemoteWrite.OkHadNoErrorBefore | crates/server/src/remote_mirror.rs:220-250 | The acknowledgement behind an Ok was read with no error reply before it |
| RemoteWrite.WritesAreCalls | crates/server/src/remote_mirror.rs:92-109 | The writes of a run are exactly the calls made, in order, each with its own body and target |
| RemoteWrite.EdgeAnswers | crates/server/src/ws.rs:362-430 | The edge answers a write it acted on under its sequence number, with an acknowledgement exactly if the sink completed and with an error otherwise |
| RemoteWrite.EdgeRefuses | crates/server/src/ws.rs:804-829 | A subscription to an unknown session is answered with an error under the sequence number of its frame |
| RemoteWrite.StoppedEdgeIsSilent | crates/server/src/ws.rs:362-430 | Once the edge has stopped, it takes nothing up, acts on nothing and answers nothing |
| RemoteWrite.EndFailsAll | crates/server/src/remote_mirror.rs:187-250 | A running mirror may end at any time; if it saw the connection close, every sender that waits for an answer is told so, otherwise and for queued requests it is dropped, and nobody is told Ok by an end |
| RemoteWrite.OkReachable | crates/server/src/remote_mirror.rs:187-250 | For every body there is a run in which its caller is told Ok |
| RemoteWrite.RemoteWriteSink.Ctl | crates/server/src/remote_mirror.rs:111-118 | Only the next-target control changes the pending target, and an empty target clears it |
| RemoteWrite.RemoteWriteSink.Write | crates/server/src/remote_mirror.rs:92-109 | The request carries the pending target, which is used up even if the mirror is gone |
| RemoteWrite.RemoteWriteSink.WriteFor | crates/server/src/source_manager.rs:1243-1250 | A target travels with its own body and with no other, and none is left over |
| Subscription.KeyInjective | web/src/state/index.ts:581-590 | Different channels have different keys in the listener table |
| Subscription.KeySplits | web/src/state/index.ts:415-424 | Splitting a key at its last slash gives back the sid and channel it was made from; a key without a sid is skipped |
| Subscription.ChannelTable.UseChannel | web/src/state/index.ts:581-593 | Registers the listener and asks for a subscription only when the channel had none |
| Subscription.ChannelTable.DisposeChannel | web/src/state/index.ts:594-605 | Drops the listener and asks to unsubscribe only when it was the last |
| Subscription.ChannelTable.Resubscribe | web/src/state/index.ts:415-424 | Asks for exactly the channels whose keys parse, in table order |
| Subscription.ReplayResubscribe | web/src/state/index.ts:415-452 | Replaying the frames sent on open adds exactly the channels of the table |
| Subscription.TableIsSubscribed | web/src/state/index.ts:581-605 | A listener is in the table exactly when the last thing a run did with it was to register it |
| Subscription.Converges | web/src/adapters/wss.ts:214-335 | In every run over subscribes, unsubscribes, disconnects, reconnects and stale socket events, the in-flight frames of the open connection turn the server's map into exactly the channels with a live listener |
| Subscription.ConnectMakesOne | web/src/adapters/wss.ts:214-335 | Connecting keeps a current socket that is connecting or open, and otherwise adds a new one and leaves the old ones as they are |
| Subscription.Recovers | web/src/adapters/wss.ts:214-335 | After every run, when the connection is lost, by the user or by itself, connecting again, opening and letting the server catch up makes its map exactly the channels with a listener, for all sessions at once |
| RateLimit.TokenBucket.constructor | crates/server/src/ratelimit.rs:38-46 | A new bucket is full |
| RateLimit.TokenBucket.TryConsume | crates/server/src/ratelimit.rs:50-62 | Admits exactly when the refilled level covers the cost, and keeps the level between zero and capacity |
| RateLimit.Serve | crates/server/src/ratelimit.rs:50-62 | A run of calls on one bucket admits exactly the calls whose cost the level covers |
| RateLimit.LevelIsTightest | crates/server/src/ratelimit.rs:50-62 | The level is the least allowance over all windows of calls ending now, and stays between zero and capacity |
| RateLimit.AdmittedIff | crates/server/src/ratelimit.rs:50-62 | For every clock, a call is admitted if and only if no window ending with it would exceed capacity plus what the clock earned in it |
| RateLimit.WindowBound | crates/server/src/ratelimit.rs:50-62 | With a clock that does not step back, the cost admitted over any window is at most capacity plus rate times its length |
| RateLimit.BackwardClockBreaksBound | crates/server/src/ratelimit.rs:50-56 | Three calls on a clock that steps back and forth exceed the bound |
| RateLimit.StepBackBreaksBound | crates/server/src/ratelimit.rs:50-62 | Wherever the clock steps back, a burst of one bucket right before it exceeds the bound |
| RateLimit.PromiseIffNeverStepsBack | crates/server/src/ratelimit.rs:50-62 | For given clock readings and a positive rate, every window of every sequence of costs is within capacity plus rate times length if and only if no reading is below the one before |
| ConnectionCap.CounterStep | crates/server/src/ratelimit.rs:90-104 | No atomic action overflows the counter, under-runs it or takes it past the cap |
| ConnectionCap.CounterCountsGuards | crates/server/src/ratelimit.rs:90-167 | In every interleaving, with spurious exchange failures, the counter equals the number of live guards and never exceeds the cap |
| ConnectionCap.HistoryAt | crates/server/src/ratelimit.rs:90-104 | The recorded value at moment k is the counter after the first k steps |
| ConnectionCap.RefusedOnlyWhenFull | crates/server/src/ratelimit.rs:90-104 | An acquire that is refused overlapped a moment, between its start and its end, at which the counter was at the cap |
| ConnectionCap.AcquireUndisturbed | crates/server/src/ratelimit.rs:90-104 | From every reachable state, an acquire that nobody disturbs takes a slot if one is free, however often its exchange fails spuriously, and is refused without a trace otherwise |
| Pipeline.PrefetchedSource.Open | crates/server/src/source_manager.rs:249-255 | Opens the inner source unless that has been done, and loses no frame |
| Pipeline.PrefetchedSource.Recv | crates/server/src/source_manager.rs:257-262 | Hands out the frames still to come, sampled ones first, then what the inner source says |
| Pipeline.Prefetch | crates/server/src/source_manager.rs:1021-1060 | Takes frames up to the sample limit, the end of input or the first timeout; the sample is the first 64 KiB of their payloads; the frames still to come are the source's own; fails exactly when opening fails or the source fails while being sampled |
| Pipeline.Run | crates/server/src/runner.rs:78-138 | For every framer and decoder, with any state of their own, what is logged, published, framed and recorded, and how the run ends, is the function of the pending frames that RunAccounts and RunFrames describe; the source is opened at most once and closed only after a commit |
| Pipeline.RunKeepsStep | crates/server/src/runner.rs:113-138 | However a run ends, the raw log is a prefix of the payloads, published bodies are that prefix numbered from 1, those that reached the fan-out are the ones published while the session was known, the log is at most one ahead, the bytes the framer has taken and those still buffered are the published bytes in order, and the log is committed only when it holds everything |
| Pipeline.RunAccounts | crates/server/src/runner.rs:115-138 | However a run ends, the records are exactly the emitted frames that the decoder makes a record of, in order, less a last one that could not be written; it stops only for a listed failure and at the first; it is committed exactly when it did not stop, the source ended well and the log could be committed |
| Pipeline.FramesAccount | crates/server/src/runner.rs:125-131 | The same for the inner loop |
| Pipeline.RunFrames | crates/server/src/runner.rs:115-138 | The emitted frames are the first that the framer, asked on its own, makes of the payloads, and all of them if nothing stopped the run |
| Pipeline.StopsIffStuck | crates/server/src/runner.rs:115-138 | Where nothing else can fail, a run stops if and only if its framer gives up on what it has been given |
| Pipeline.HandleAllKeeps | crates/server/src/runner.rs:115-132 | The same at every step: between two receives, log and stream agree completely and the framer has asked for more |
| Pipeline.DrainFramer | crates/server/src/runner.rs:125-131 | The inner loop ends, having handed every frame the framer can make to the decoder, up to the first error; FramesAccount says what it has recorded |
| Pipeline.FramesKeep | crates/server/src/runner.rs:124-131 | The inner loop only moves bytes from the buffer to the framer, and goes on until the framer asks for more |
| Pipeline.PassthroughFramesAll | crates/core/src/framer/passthrough.rs:12-18 | With the default framer, a committed run has framed every byte the source delivered |
| Pipeline.PassthroughEmits | crates/core/src/framer/passthrough.rs:12-18 | The default framer emits every payload that is not empty, as it came |
| Pipeline.DefaultPipelineRecords | crates/server/src/runner.rs:115-138 | With the default framer, a run that nothing stopped has recorded exactly the non-empty payloads that the decoder makes a record of, in order |
| Pipeline.RunPipeline | crates/server/src/source_manager.rs:966-1060 | In every detection mode, wherever sampling stops, the source is opened once and the run is that of all its frames with the decoder chosen from the sample; it does not start exactly when sampling fails or the log cannot be opened; RunAccounts and DefaultPipelineRecords say what it records |
| Pipeline.DecoderShowsInRecordsOnly | crates/server/src/source_manager.rs:978-1012 | Runs of one source with two decoders, neither of which stops the run, agree on raw log, stream, framing and outcome, and differ in records at most |
| Lifecycle.MergeMonoid | crates/server/src/source_manager.rs:1383-1394 | Merging options is associative and the empty options are its identity |
| Lifecycle.SourceRemembersItsStarts | crates/server/src/source_manager.rs:504-568 | In every run, a spec-backed source has the spec and directory of its first start, and each option is the last value any successful start of it supplied |
| Lifecycle.SinkNeedsTask | crates/server/src/source_manager.rs:1217-1305 | In every run, an entry that holds a sink holds a task |
| Lifecycle.NoTaskIsLost | crates/server/src/source_manager.rs:1217-1305 | In every run, each started task is held by exactly one entry or has been retired (aborted, awaited or found finished), never both and never neither |
| Lifecycle.HeldIff | crates/server/src/source_manager.rs:504-608 | In every run, a source holds a given task, with or without a sink, if and only if an operation launched it so for that source and none since has taken it away |
| Lifecycle.SinkAsLaunched | crates/server/src/source_manager.rs:570-608 | In every run, an entry has a sink exactly as the operation that launched its task provided |
| Lifecycle.WriteAcceptedIff | crates/server/src/source_manager.rs:1217-1254 | In every run, a write is accepted if and only if some operation launched a task with a sink for that source, none since has taken it away, and it has not finished |
| Lifecycle.OpKeeps | crates/server/src/source_manager.rs:504-568 | Every operation, successful or not, keeps those invariants |
| Lifecycle.SourceManager.constructor | crates/server/src/source_manager.rs:281-292 | A new manager is the empty state and meets the invariants |
| Lifecycle.SourceManager.Start | crates/server/src/source_manager.rs:440-448 | Starts under a new sid, whose entry is spelled out, or changes nothing if opening fails |
| Lifecycle.SourceManager.LaunchSpec | crates/server/src/source_manager.rs:570-608 | Reuses the given directory, records the entry only if the source opens, with a sink exactly if the source offers one, and says which |
| Lifecycle.SourceManager.Resume | crates/server/src/source_manager.rs:504-526 | Succeeds exactly for a known spec-backed source without a running task whose opening succeeds |
| Lifecycle.SourceManager.Restart | crates/server/src/source_manager.rs:542-568 | Succeeds exactly for a known spec-backed source whose opening succeeds; a failed restart has still aborted the task and keeps the old options |
| Lifecycle.SourceManager.Wait | crates/server/src/source_manager.rs:1256-1273 | Awaits exactly when there is a task, and then drops the entry of a source without a spec |
| Lifecycle.SourceManager.Stop | crates/server/src/source_manager.rs:1277-1291 | True exactly when there was a task to abort; task and sink are gone afterwards |
| Lifecycle.SourceManager.Remove | crates/server/src/source_manager.rs:1294-1305 | True exactly when entry or session existed; both are gone afterwards |
| Lifecycle.SourceManager.ReapFinished | crates/server/src/source_manager.rs:1368-1376 | Drops finished tasks, and entries that then have neither task nor spec |
| Lifecycle.SourceManager.Write | crates/server/src/source_manager.rs:1217-1254 | Reaches a sink exactly when the source has one and its task has not finished |
| Tickets.DownloadTickets.Issue | crates/server/src/export_api.rs:1021-1033 | Adds the ticket with 60 seconds to live after pruning |
| Tickets.DownloadTickets.Consume | crates/server/src/export_api.rs:1035-1052 | On its own, succeeds exactly for a ticket in force and the scope it was issued for, and removes it whatever the answer |
| Tickets.AcceptedOnce | crates/server/src/export_api.rs:1035-1052 | In every interleaving, an accepted ticket had been issued for that scope, was in force at the time read, and no other attempt ever found it |
| Tickets.FoundOnce | crates/server/src/export_api.rs:1035-1052 | In every interleaving, the first attempt that finds a ticket uses it up, also when it is a mismatch or too late |
| Tickets.LiveTicketAccepted | crates/server/src/export_api.rs:1020-1058 | In every interleaving, a ticket issued and not found before, tried with its scope and taken before it expires, is accepted |
| Tickets.AcceptedWithinAMinute | crates/server/src/export_api.rs:1020-1058 | After every run, a new ticket can be issued and tried at any later time; it is accepted if and only if that is within 60 seconds, and otherwise it is gone |
| Tickets.RunKeeps | crates/server/src/export_api.rs:1020-1058 | In every interleaving the table holds exactly the tickets issued and not found, except expired ones, and every attempt was judged accordingly |
| Percent.PctEncode | crates/cli/src/cmd/spec.rs:356-368 | The loop computes the encoding: unreserved characters of section 2.3 of RFC 3986 kept, every other byte as an upper-case escape |
| Percent.PctDecode | crates/cli/src/cmd/spec.rs:232-248 | The CLI's loop and the conversion after it compute the text-decoding function |
| Percent.PercentDecode | crates/server/src/remote_mirror.rs:357-385 | The server's differently branching loop and the conversion after it compute the same function, so both decoders agree on all inputs |
| Percent.DecodeEncode | crates/cli/src/cmd/spec.rs:356-368 | Decoding undoes encoding for every byte string, whatever text follows it |
| Percent.DecodeSpelled | crates/cli/src/cmd/spec.rs:232-258 | However its bytes are spelled, as themselves, as plus signs or as escapes in either case, a string decodes to what they mean |
| Percent.StrayPercent | crates/cli/src/cmd/spec.rs:232-248 | A percent sign without two hexadecimal digits after it stands for itself |
| Percent.LiteralIff | crates/cli/src/cmd/spec.rs:232-248 | Decoding leaves a string alone if and only if it is well-formed text without plus sign and escape |
| Percent.RoundTripIff | crates/cli/src/cmd/spec.rs:356-368 | A byte string survives encoding and text decoding if and only if it is well-formed UTF-8 |
| Utf8.LossyIff | crates/cli/src/cmd/spec.rs:247 | The lossy conversion leaves exactly the well-formed strings alone |
| Utf8.LossyIsUtf8 | crates/cli/src/cmd/spec.rs:247 | The lossy conversion always yields well-formed text |
| Utf8.Utf8Iff | crates/cli/src/cmd/spec.rs:247 | The strings taken as well-formed are exactly the encodings of sequences of code points |
| Percent.EncodeSafe | crates/cli/src/cmd/spec.rs:356-368 | Encoded text holds only unreserved characters and percent signs |
| Text.TrimIdempotent | crates/cli/src/cmd/spec.rs:176-181 | Trimming white space twice is trimming it once |
| Text.TrimParts | crates/cli/src/cmd/spec.rs:176-181 | Trimming takes off white-space characters at both ends, nothing else, and all of them |
| Text.SpaceIff | crates/cli/src/cmd/spec.rs:176-181 | White-space characters are the encodings of the code points with the White_Space property |
| Text.TrimUtf8 | crates/cli/src/cmd/spec.rs:176-181 | Trimming never cuts a character in two |
| Text.SplitJoin | crates/cli/src/cmd/spec.rs:126-135 | Splitting at a separator undoes joining parts that do not contain it |
| ChannelSpec.SplitSchemeMeans | crates/cli/src/cmd/spec.rs:33-36 | A URI is cut at its first `://`, and refused if it has none |
| ChannelSpec.ParseQuery | crates/cli/src/cmd/spec.rs:126-135 | The loop computes the query map: empty pieces skipped, the first piece without an equals sign is an error, later keys win |
| ChannelSpec.UnsignedIff | crates/cli/src/cmd/spec.rs:137-147 | A number is accepted if and only if it is one or more digits, perhaps after a plus sign, with a value within the bound |
| ChannelSpec.QueryRoundTrip | crates/cli/src/cmd/spec.rs:126-135 | A rendered list of parameters parses to the map that binds each name to its decoded value |
| ChannelSpec.NameInjective | crates/cli/src/cmd/spec.rs:183-214 | The seventeen parameter names of a capture URI are pairwise different |
| ChannelSpec.ParsePcapBack | crates/cli/src/cmd/spec.rs:183-214 | A query that describes a capture parses to its normal form, or to an error exactly when the capture is invalid |
| ChannelSpec.PcapLaw | crates/cli/src/cmd/spec.rs:370-402 | Rendering any capture and parsing the result gives its normal form if it is valid, and an error if not |
| ChannelSpec.PcapRoundTripIff | crates/cli/src/cmd/spec.rs:370-402 | A capture comes back unchanged if and only if it is valid, its strings are trimmed and not empty, and its path is well-formed text |
| ChannelSpec.PcapStable | crates/cli/src/cmd/spec.rs:370-402 | What one round trip returns survives every further one |
| ChannelSpec.CaptureText | crates/cli/src/cmd/spec.rs:370-402 | The rendered text of a capture, parameter by parameter |
| ChannelSpec.DefaultCapture | crates/cli/src/cmd/spec.rs:183-214 | An interface alone gives snap length 65535, time-out 1000 ms, no promiscuous or immediate mode, session directory and statistics only |
| ChannelSpec.AliasesAgree | crates/cli/src/cmd/spec.rs:183-214 | Each of the seven parameters with two spellings means the same under either |
| ChannelSpec.LongWins | crates/cli/src/cmd/spec.rs:183-214 | With both spellings present, the long one decides; but a short buffer size that is no number is still an error |
| ChannelSpec.SaveWords | crates/cli/src/cmd/spec.rs:200-205 | The words for the save mode, and no others |
| ChannelSpec.PublishWords | crates/cli/src/cmd/spec.rs:208-213 | The words for the publish mode, and no others |
| ChannelSpec.BoolWords | crates/cli/src/cmd/spec.rs:163-174 | The words that switch a flag on, and no others |
| ChannelSpec.RemoteRoundTripIff | crates/cli/src/cmd/spec.rs:262-296 | A remote URL comes back unchanged whatever characters it holds: if and only if it is well-formed text |
| ChannelSpec.PlainRoundTripIff | crates/cli/src/cmd/spec.rs:262-296 | A TCP, UDP or mock spec comes back unchanged if and only if its string has no space and no question mark |
| ChannelSpec.PathRoundTripIff | crates/cli/src/cmd/spec.rs:262-291 | A file or pipe spec comes back unchanged if and only if its path has no space, no question mark and no leading slash |
| UnescapedSpecs.SettingsIff | crates/cli/src/cmd/spec.rs:126-135 | A query of unescaped values is read back in full if and only if no value holds an ampersand, a plus sign or an escape |
| UnescapedSpecs.DefaultSerial | crates/cli/src/cmd/spec.rs:56-69 | A port alone means 115200 baud, 8 data bits, 1 stop bit, no parity and no flow control |
| UnescapedSpecs.SerialRoundTripIff | crates/cli/src/cmd/spec.rs:262-296 | A serial spec comes back unchanged if and only if its port has no space and no question mark, and its parity and flow words have no ampersand, plus sign or escape |
| UnescapedSpecs.ProcessRoundTripIff | crates/cli/src/cmd/spec.rs:216-296 | A process spec comes back unchanged if and only if it has a program without question mark, leading slash, plus sign and escape, and no argument is empty or holds a semicolon, ampersand, plus sign or escape |
| Lines.Detect | crates/core/src/codec.rs:34-61 | The counting loop's answer is the one told from the number of CRLF, lone CR and lone LF places in the first 64 KiB |
| Lines.DetectedIsMost | crates/core/src/codec.rs:54-60 | No convention ends more lines of the sample than the detected one; CRLF wins every tie, and LF wins against CR |
| Lines.EndsPartition | crates/core/src/codec.rs:38-53 | Every carriage return and every line feed belongs to exactly one line ending |
| Lines.LineIter.Next | crates/core/src/codec.rs:111-144 | Returns the next line of the remaining cut and leaves the rest, or reports the end |
| Lines.SplitLines | crates/core/src/codec.rs:94-144 | The iterator ends, having returned all lines of the cut |
| Lines.Partition | crates/core/src/codec.rs:91-144 | In every mode, lines and terminators put together are the buffer: no byte lost, repeated or moved |
| Lines.EndsAreTerminators | crates/core/src/codec.rs:120-142 | Every line was ended by a terminator, except that the last may be a non-empty rest |
| Lines.SplitUndoesJoinIff | crates/core/src/codec.rs:120-142 | For a fixed convention, joined lines come back if and only if none of them contains the terminator |
| Lines.AutoFlips | crates/core/src/codec.rs:115-119 | A buffer that automatic mode cuts by two conventions, after a tie that goes to CRLF |
| Lines.AutoIff | crates/core/src/codec.rs:111-144 | Automatic mode cuts the whole buffer by one convention if and only if at every line start the look finds that convention, or neither it nor the one found has anything to cut |
| Lines.AutoOnPureIff | crates/core/src/codec.rs:34-144 | A buffer with one kind of line ending is cut by that kind if and only if it is LF or no terminated line is longer than the 64 KiB sample |
| Substrings.CountSubstrings | crates/core/src/classify.rs:314-319 | The count is the size of a set of pairwise disjoint occurrences, and no such set is larger; an empty needle counts zero |
| EncodingChoice.TextConfidence | crates/core/src/detect/content.rs:320-352 | The eight-bit steps compute one unsaturated formula with values from 0 to 93, so no step overflows or is cut off at 100; CleanScores and the rows after it say what the formula is worth |
| EncodingChoice.ScoreEncoding | crates/core/src/detect/content.rs:281-318 | The eight-bit steps compute the score formula, which stays between 0 and 100 and is bounded for each kind of text by the rows below |
| EncodingChoice.CleanScores | crates/core/src/detect/content.rs:281-352 | Text decoded without errors, replacements or controls, from a sample without NUL, scores at least 93 |
| EncodingChoice.CleanScoresExactly | crates/core/src/detect/content.rs:281-318 | Without a mark, such text scores exactly 93, four more as valid UTF-8 and four more with kana or kanji |
| EncodingChoice.BrokenScores | crates/core/src/detect/content.rs:320-352 | A decoding with errors and no mark scores at most 57 |
| EncodingChoice.NulScores | crates/core/src/detect/content.rs:320-352 | A sample with NUL and no mark scores at most 33 |
| EncodingChoice.PenaltiesBite | crates/core/src/detect/content.rs:320-352 | Five replacement characters, or eight control characters, keep a score without a mark at or below 61, or 69 |
| EncodingChoice.PenaltiesExactly | crates/core/src/detect/content.rs:320-352 | The first five replacement characters cost eight points each and the first eight controls four each, and no score falls below zero |
| EncodingChoice.CleanIff | crates/core/src/detect/content.rs:320-328 | A text is clean if and only if none of its characters is counted as a replacement or a control |
| EncodingChoice.DamageNeverHelps | crates/core/src/detect/content.rs:320-352 | More replacement or control characters, or errors, never raise a score |
| EncodingChoice.MarksScore | crates/core/src/detect/content.rs:281-318 | An empty sample scores 0; a byte order mark gives UTF-8 a score of 100, an escape sequence gives ISO-2022-JP 95, or 99 with kana or kanji |
| EncodingChoice.DetectEncodings | crates/core/src/detect/content.rs:197-209 | The result is a permutation of the five labels with their own scores, ranked by score and then by label order |
| EncodingChoice.FirstOtherIsBest | crates/core/src/detect/content.rs:250-254 | In a ranking, the first candidate of another family is the strongest of all other families |
| EncodingChoice.EffectiveIff | crates/core/src/detect/content.rs:239-262 | The best label is taken if and only if the mode is automatic, it meets the threshold, and it is ahead of every other family by the gap |
| EncodingChoice.OnlyCleanWins | crates/core/src/detect/content.rs:239-262 | If the labels of one family alone decode cleanly, there is a winner and it is of that family |
| EncodingChoice.AmbiguousHasNoWinner | crates/core/src/detect/content.rs:239-262 | Text that every label reads alike has no winner |
| EncodingChoice.ChooseEncoding | crates/core/src/detect/content.rs:154-195 | From sample to label: in automatic mode the result is the label that ranks first, meets the threshold and beats every label of another family by the gap, if there is one; in every other case it is the configured label; so a sample that one family alone decodes cleanly gets a label of that family, and one that all read alike keeps the configured one |

## Left out

- Files, sockets, HTTP, TLS, authentication and CLI plumbing: bodies are byte sequences, connections are FIFO queues.
- MessagePack, JSON, TOML, regular expressions and the encoding tables are libraries: envelopes and decoded text are values.
- UUIDs, tickets and clock readings are inputs; new identifiers are assumed to be new.
- ZipWriters.StoredZipWriter.AppendFile: assumes the file is the same in the checksum pass and in the copy.
- RateLimit.TokenBucket.TryConsume: computes in reals, so it does not capture the rounding of `f64`.
- RemoteWrite.OkMeansApplied: does not model sequence numbers beyond 64 bits.
- RemoteWrite.EdgeAnswers: leaves out the cause in the text of an error reply, and error ids other than the generic one.
- RemoteWrite.ResolvedExactlyOnce: does not fix the order in which the pending writes are failed at the end of a run.
- Subscription.Converges: speaks of sids that stay registered; socket events are steps of the run, not a class, and a send that throws is not modelled.
- ConnectionCap.CounterCountsGuards: treats each atomic action as one step, so it does not model weaker memory orders.
- Pipeline.Run: a framer takes at least one byte per frame and none otherwise, as all framers of the repository do; what the fan-out does with a body it has received, registration, statistics queries and timestamps are not modelled.
- Pipeline.Prefetch: a receive that times out takes no frame, and a source at its end keeps saying so.
- Lifecycle.OpKeeps: treats each operation as one step; operations on the same sid that overlap between two lock sections are not modelled, nor are pipeline metadata and snapshots.
- Tickets.AcceptedOnce: covers single-export tickets; bundle tickets work the same way without a scope.
- Substrings.CountSubstrings: leaves out case folding, tag lists and their deduplication.
- EncodingChoice.DetectEncodings: leaves out the evidence strings and log-type candidates.
- Session registry, fan-out, write-ahead log and exporters keep or forward what they are given; the models stop at what is handed to them. Packet decoding, browser panels and settings, metrics and configuration precedence do not take part in any of the protocols above.
