# Proofs about the browser's state machines, wire protocols and byte transformations

This project models, in Dafny 4.11, the parts of the browser that keep their own books: registries
with reference counts, schedulers, framed protocols between processes, container admission, font
rebuilding, rendering bookkeeping and crash-safe storage. Code that works by changing things in
place is a class or a method with the source's own loops; each such method is proved equal to a
specification function, and what the source promises is proved about that function over every
input, every run or every interleaving. `dafny verify dfyconfig.toml` checks everything.

| part | modules |
|---|---|
| BroadcastChannel registry | `BroadcastModel`, `BroadcastSteps`, `BroadcastRegistry` (the registry), `BroadcastCalls` (each call by counts, lists and queues), `BroadcastLetters`, `BroadcastRuns` (the plain letter log it refines) |
| Event-loop scheduler | `Agenda`, `EventLoop`, `EventOrder` (the eager sorted list), `EventTimes` (when tasks run), `Scheduler` (the heap with lazy cancellation) |
| Capture processes | `CaptureCodec`, `CaptureLayout`, `CaptureFrames` (frames), `CaptureMailbox`, `CapturePipeline` (samples across threads), `CaptureLifecycle` (start and stop across processes) |
| Media data pipe | `MediaData`, `MediaDataLayout`, `MediaDataPipe` |
| WOFF to SFNT | `Woff`, `WoffLayout`, `WoffReadBack`, `WoffDecoder` |
| WebM admission | `Ebml`, `EbmlExact`, `WebmTiming`, `WebmModel`, `WebmShape`, `WebmDocument`, `WebmWalker` |
| Ogg admission, Opus trimming | `OggPages`, `OggEnvelope`, `OggDocument`, `OpusTrim`, `OpusStream` |
| Snapshots and Cache API store | `Snapshots`, `CacheModel`, `CacheAnswers`, `CacheStorage` |
| Rendering bookkeeping | `Impacts`, `Invalidation`, `MergedWork`, `RenderInvalidation`, `Damage`, `Refresh` |
| Shared | `Outcome`, `Totals`, `Bytes` |

How to read the model:

- Failure of the world is data. Files, pipes, clocks, cancellation, devices and threads that stop
  are arguments (`Faults`, `Round`, `Wait`, `patience`, `steps`) or events of a run, and the
  theorems hold for all of them unless their row names a condition. Threads are atomic steps on queues.
- Code that is not modelled is a function the theorems hold for, whatever it computes: inflating,
  CRC-32, the Ogg page parser, the Opus decoder, the time base of the WebM demuxer, request matching
  and entry validation of the Cache API. What a theorem needs of such a function is one of its
  preconditions.
- Executors of the event loop are finite scripts of commands; a script may queue, cancel, clear,
  advance the clock and re-enter the loop. The trace of a run records for each task what the clock
  was when it was handed out.
- Beside each specification function that a method is proved equal to stand lemmas that say what it
  does without it: on bytes, positions, counts, list elements and field values (`BroadcastCalls`,
  `EventTimes`, `CaptureLayout`, `MediaDataLayout`, `WoffReadBack`, `EbmlExact`, `WebmDocument`,
  `OggDocument`, `CacheAnswers`, `MergedWork`, and the lemmas named `...Exact` and `...Exactly`).
- Three properties one might expect are false of the code, and are proved in their exact form
  instead. Recovery of a good backup: the code removes the backup before it has installed anything,
  contrary to the aim of "recoverable" persistence (`Snapshots.AtomicExactlyWhenSafe`,
  `Snapshots.BackupLost`). An error leaving the stored state alone: an existence check that fails
  answers "no", and a failing write may then put an older backup over the primary
  (`Snapshots.AtomicUnderEveryFault`, `Snapshots.AtomicFromEverySafeDisk`, `Snapshots.FallsBack`).
  Refusal by the WebM envelope meaning that some block overflows (`WebmTiming.EnvelopeExact`,
  `WebmTiming.EnvelopeCanBeTooStrict`).
- Union of impacts is associative on every value the code makes (`Impacts.UnionLaws`); where it is on
  arbitrary bits is `Impacts.AssociativeExactly`.
- `hide` statements in proofs only narrow what the solver looks at.

## Model

| member | source | states |
|---|---|---|
| BroadcastRuns.EveryRun | src/broadcast_channel.rs:59-260 | Over every sequence of open, post, close, retire and take calls from the empty registry: each batch counts exactly the queue entries that name it and is never zero, the pending totals are exact, all three budgets hold, the queues stay in step with a log of private letters, and every delivery is accounted for, so each call of the run is really taken, no `expect` can fail and no subtraction underflow. |
| BroadcastRuns.LetterFate | src/broadcast_channel.rs:100-247 | At the end of every run, a letter of an accepted post whose channel is still the opening it was written to was handed over exactly when the tab has read past it, and otherwise still waits, in step with the real queue. |
| BroadcastRuns.ClosedNeverHanded | src/broadcast_channel.rs:100-247 | A letter whose channel was closed or retired before it was handed over is never handed over, however the run goes on: not by a channel opened again under the same id either. |
| BroadcastRuns.OfferedExactly | src/broadcast_channel.rs:218-247 | After every run, a take offers the oldest letter not handed over whose channel is still open, with its own content, and hands it over exactly if it is accepted; no other tab gets anything. |
| BroadcastRuns.NothingOffered | src/broadcast_channel.rs:218-247 | After every run in which no such letter is left, a take changes nothing. |
| BroadcastRuns.StepGood | src/broadcast_channel.rs:59-260 | Every single call, whatever its arguments, keeps the counters exact, the shared batches in line with the private letters, and each letter delivered at most once and in order. |
| BroadcastSteps.ApplySound | src/broadcast_channel.rs:59-199 | Every command keeps the global invariant, and any outcome other than `Ok(true)` leaves the whole registry untouched. |
| BroadcastCalls.PostDecision | src/broadcast_channel.rs:101-154 | Which posts are accepted, deferred and refused, by counts alone: accepted exactly if nobody is addressed, or at most 65,536 channels are, every addressed tab has room within 256 entries, both totals within 65,536 recipients and 32 MiB, and an identifier is left. |
| BroadcastCalls.PostEffect | src/broadcast_channel.rs:151-174 | An accepted post adds one batch counting its addressees, and to each tab one entry for each channel addressed there, behind the old ones and in the order the channels were opened. |
| BroadcastCalls.OpenExact | src/broadcast_channel.rs:78-100 | Opening is refused exactly for a channel that is open already or a document with 128 channels, and otherwise adds the channel at the end. |
| BroadcastCalls.CloseExact | src/broadcast_channel.rs:176-197 | Closing takes the channel off the list and its entries, and no others, out of its tab's queue. |
| BroadcastCalls.RetireExact | src/broadcast_channel.rs:201-209 | Retiring leaves exactly the channels and queues of the other tabs. |
| BroadcastCalls.TakeExact | src/broadcast_channel.rs:218-247 | A take returns the front entry with its batch's payload exactly if it is accepted, and drops exactly that entry. |
| BroadcastCalls.InvalidExact | src/renderer_protocol/broadcast_channel.rs:26-50 | A command is refused as invalid exactly for channel 0, a message over 128 KiB, or a name that is over 4 KiB, not a multiple of four long, or not all hexadecimal digits. |
| BroadcastSteps.TargetsExact | src/broadcast_channel.rs:107-117 | The recipients of a post are exactly the other open channels of the same origin and name. |
| BroadcastSteps.TargetsDistinct | src/broadcast_channel.rs:107-117 | No channel is addressed twice by one post. |
| BroadcastSteps.PostedCounted | src/broadcast_channel.rs:151-174 | Sharing one batch among all recipients leaves every count and both totals exact. |
| BroadcastModel.ReleaseCounted | src/broadcast_channel.rs:249-260 | Giving back one owed reference is always possible (nothing missing, nothing below zero) and leaves the counts exact for what is still owed; the last reference frees the batch and its bytes. |
| BroadcastModel.ReleaseKeepsQueued | src/broadcast_channel.rs:249-260 | Giving back a reference never frees or alters a batch that a queue still names. |
| BroadcastLetters.LinkedClose | src/broadcast_channel.rs:176-197 | Closing a channel removes exactly the entries whose letters can no longer be delivered, in every tab. |
| BroadcastLetters.LinkedRetire | src/broadcast_channel.rs:201-209 | Retiring a tab drops its channels and queue and nothing of any other tab. |
| BroadcastLetters.LinkedTake | src/broadcast_channel.rs:218-247 | A successful take hands over the next undelivered letter of that tab whose channel is still open, with that letter's own content. |
| BroadcastLetters.TakenTab | src/broadcast_channel.rs:218-247 | The front of a tab's queue is its first letter still open, and taking it leaves exactly the later ones. |
| BroadcastRegistry.Registry.Apply | src/broadcast_channel.rs:59-199 | The in-place command equals the specified state change and result, branch by branch, and keeps the invariant. |
| BroadcastRegistry.Registry.Close | src/broadcast_channel.rs:176-197 | The in-place removal of a channel and of its queued deliveries, with every reference given back. |
| BroadcastRegistry.Registry.RetireTab | src/broadcast_channel.rs:201-209 | The in-place removal of a tab. |
| BroadcastRegistry.Registry.TakeIf | src/broadcast_channel.rs:218-247 | The oldest entry of the tab is offered with the origin and payload of its batch; the call returns true exactly if there is one and it is accepted. A refused or empty take changes nothing; an accepted one leaves the tail of that queue and gives back one reference. |
| BroadcastRegistry.Registry.ReleaseBatchReference | src/broadcast_channel.rs:249-260 | Both decrements and the removal are within bounds whenever a reference is owed. |
| Scheduler.EventLoopScheduler.Cancel | src/engine/scheduler.rs:153-156 | True exactly when work was pending under the handle, and the pending work afterwards is the sorted list without it, although the heap entry stays. |
| Scheduler.EventLoopScheduler.QueueTaskInternal | src/engine/scheduler.rs:241-260 | Exactly one task is added, with the next handle and number, due at the lesser of now plus the delay and the longest duration; it is inserted into the sorted list behind everything due no later. |
| Scheduler.EventLoopScheduler.PopRunnableTask | src/engine/scheduler.rs:262-296 | The heap pop that skips cancelled entries and re-queues repeats yields the first entry of the sorted list if it is due, and the specified rest. |
| Scheduler.EventLoopScheduler.NextDueTime | src/engine/scheduler.rs:179-186 | The due time of the first entry of the sorted list of active work. |
| Scheduler.EventLoopScheduler.ScheduledFor | src/engine/scheduler.rs:188-200 | The due time of the pending work under a handle, and nothing for a handle without any. |
| Scheduler.EventLoopScheduler.PerformMicrotaskCheckpoint | src/engine/scheduler.rs:223-239 | Draining with executors that may call back into the scheduler equals the specified drain, including what each microtask adds and the count; a nested call does nothing. |
| Scheduler.EventLoopScheduler.RunOneTask | src/engine/scheduler.rs:203-221 | A task runs exactly if the first of the sorted list is due; the trace starts with that task as it was queued, then comes one checkpoint, with the summary the source returns, for every re-entrant executor. |
| Scheduler.EventLoopScheduler.Clear | src/engine/scheduler.rs:171-177 | No task, microtask or render request stays; the clock and the counters do. |
| Scheduler.EagerFront | src/engine/scheduler.rs:74-84 | The greatest active entry of the heap is the first of the eager sorted list. |
| Scheduler.EagerDrop | src/engine/scheduler.rs:298-306 | Discarding cancelled entries from the heap does not show in the eager list. |
| Scheduler.EagerPush | src/engine/scheduler.rs:241-260 | Pushing an active entry on the heap is inserting it into the eager list in order. |
| Scheduler.EagerCancel | src/engine/scheduler.rs:153-156 | Forgetting a handle is removing it, and only it, from the eager list. |
| EventLoop.CancelledNeverRuns | src/engine/scheduler.rs:153-177 | A handle that was cancelled or cleared never runs again, whatever any later executors do. |
| EventOrder.QueueOrder | src/engine/scheduler.rs:74-84 | Of two tasks, the one queued earlier with no longer a delay runs first: whatever executors do before, between and after, the second never runs before the first run of the first. A first task that does not repeat runs at most once, never after the second, and is not pending any more once the second has run. |
| EventTimes.QueuedExactly | src/engine/scheduler.rs:129-151 | Queueing adds one task, due at now plus its delay or at the end of time, repeating after at least a nanosecond, and touches no other. |
| EventTimes.QueuedRuns | src/engine/scheduler.rs:241-296 | Over every later run of commands and every script: the task runs only once the clock has reached the time it was due, first for now plus its delay, each repeat for the previous run's time plus the interval (both capped), unchanged; one that does not repeat runs at most once; and unless it was cancelled or cleared it is still pending or has had its run. |
| EventTimes.MicrotasksInOrder | src/engine/scheduler.rs:223-239 | Microtasks are handed out in the order they were queued. |
| EventTimes.CheckpointExact | src/engine/scheduler.rs:223-239 | A checkpoint within another does nothing; any other leaves no microtask and reports exactly as many as it gave out. |
| EventTimes.RequestsCoalesce | src/engine/scheduler/render.rs:16-47 | Any run of render requests is one request, for a layout if any of them asked for that. |
| EventLoop.NoMicrotaskLeft | src/engine/scheduler.rs:203-239 | A run outside a checkpoint returns with no microtask queued and no checkpoint open. |
| EventLoop.IdleRunOne | src/engine/scheduler.rs:262-296 | With an executor that queues nothing and the clock short of its end, one run consumes exactly one ready task: a repeat goes behind everything ready. |
| EventLoop.RunReadyExact | src/engine/scheduler.rs:203-296 | Repeated runs with an idle executor terminate after every task that is due and no other, each once and in order. |
| WoffLayout.RebuiltFile | src/engine/font.rs:110-213 | A successful rebuild is well laid out: header, one record per table, every table its decoded bytes at its recorded offset (except the adjusted four bytes), zeros everywhere else; and with a `head` table of 12 or more bytes the big-endian word sum of the whole file is 0xB1B0AFBA modulo 2^32. |
| WoffReadBack.FileReadsBack | src/engine/font.rs:110-213 | Read back from the rebuilt bytes: the flavor, the count and the search fields; in every record the tag, checksum, offset and length, each big-endian in its own four bytes, and at that offset so many bytes of the table (the stored bytes, or what inflating them gave) but for the four adjusted ones; zeros between the tables; and the word sum 0xB1B0AFBA if a `head` table has the field. |
| WoffReadBack.RebuildsExactly | src/engine/font.rs:110-187 | A rebuild succeeds exactly on a container with the signature, 1 to 256 tables and a permitted size, whose directory and tables lie within it, whose tables fit the declared size, and unpack to their declared lengths. |
| WoffReadBack.WordSumExact | src/engine/font.rs:199-205 | The sum of the first word, big-endian, and of the rest, modulo 2^32. |
| WoffLayout.Disjoint | src/engine/font.rs:161-197 | Tables start at multiples of four after the directory and never overlap. |
| WoffLayout.SearchFields | src/engine/font.rs:152-159 | The three search fields of the header are those of the largest power of two within the table count. |
| WoffLayout.DecodedTables | src/engine/font.rs:163-187 | Each table of a successful rebuild is the stored bytes, or what inflating them gave, of its declared length; `WoffReadBack.FileReadsBack` says the same on the bytes of container and file. |
| Woff.AdjustedSum | src/engine/font.rs:199-212 | Zeroing the adjustment field, summing and writing the difference makes the words of the file sum to the format's constant. |
| Woff.WordSumPatch | src/engine/font.rs:199-212 | Writing a word where zeros were adds it to the word sum, wherever in the file it stands. |
| WoffDecoder.DecodeWoff | src/engine/font.rs:110-213 | The decoder over one output buffer gives exactly the specified file, which `WoffReadBack.FileReadsBack` reads back field by field, or exactly the specified error. |
| WoffDecoder.WriteTables | src/engine/font.rs:161-197 | Filling the buffer table by table keeps what is written equal to the first tables' part of the file. |
| WoffDecoder.Checksum | src/engine/font.rs:199-205 | The wrapping sum over four-byte chunks, the last one padded with zeros. |
| WoffDecoder.AdjustInPlace | src/engine/font.rs:199-212 | The in-place adjustment equals the specified one. |
| WebmShape.AdmittedShape | src/encoded_audio/webm.rs:17-208 | Every admitted file is one document: its elements tile every master payload exactly and nest no deeper than 12 below the top; every simple block or block group is in a Cluster and has that Cluster's one Timestamp among its earlier siblings, every other block is in a block group, and every Cluster has a Timestamp; one EBML header, one Segment, one Track, at least one block. |
| WebmDocument.AdmittedExactly | src/encoded_audio/webm.rs:17-208 | A file is admitted if and only if there is a tree of elements that tiles it and is a document: every element proper where it stands, nothing repeated that may occur once, one EBML header with DocType "webm", one Segment, one track, some block, at most twelve levels, and accepted times. |
| WebmDocument.AdmittedElement | src/encoded_audio/webm.rs:97-208 | On the elements of an admitted file: a track has exactly one type, which is 2 (audio), exactly one codec, A_OPUS or A_VORBIS as asked, and exactly one private data, which the codec accepts; a Cluster exactly one Timestamp; versions and widths are in range; video, encodings and operations occur nowhere; a CRC-32 is a first child and matches what follows it. |
| WebmDocument.TakeExactly | src/encoded_audio/webm.rs:97-208 | One step of the walk accepts an element exactly if it is proper among its siblings, was not seen before where once is all, and a Segment follows a header. |
| WebmDocument.MetadataExactly | src/encoded_audio/webm_timing.rs:24-68 | Which timing metadata is accepted, element by element. |
| WebmDocument.MetadataEffect | src/encoded_audio/webm_timing.rs:24-68 | Each accepted value goes where it belongs and nowhere else. |
| WebmShape.AdmittedBlocksPlay | src/encoded_audio/webm.rs:17-45 | In an admitted file every block, at the time of any Cluster and for any duration it may have, stays within 64-bit signed range at each intermediate sum. |
| WebmShape.SamePayload | src/encoded_audio/webm.rs:210-248 | A Cluster of finite children that is followed by the end or by a Segment-level element has the same payload under unknown-size as under finite-size encoding (sections 4 and 6.2 of RFC 8794). |
| WebmShape.WalkTiles | src/encoded_audio/webm.rs:57-208 | The recursive walk accepts only payloads its elements tile exactly, within the depth limit. |
| WebmShape.WalkPlaced | src/encoded_audio/webm.rs:57-208 | Blocks and timestamps stand only where they may. |
| WebmWalker.Walk | src/encoded_audio/webm.rs:57-208 | The recursive walk with mutable policy and budget equals the specified walk (whose every step `WebmDocument.TakeExactly` characterizes), ends for every input, and visits no more elements than it spends of its 65,536 steps. |
| WebmWalker.ValidateProfile | src/encoded_audio/webm.rs:21-45 | The verdict on a file is the specified one, that is, whether it is a `WebmDocument.Document`, unless the budget or a cancellation cut it short. |
| WebmWalker.ValidateChecksum | src/encoded_audio/webm_checksum.rs:6-33 | A CRC-32 element is judged by the checksum of everything after it in its master, in budgeted chunks. |
| Ebml.UnknownClusterLength | src/encoded_audio/webm.rs:210-248 | The scan for the end of an unknown-size Cluster equals its specification, or stops for the budget or a cancellation. |
| Ebml.ClusterLengthExact | src/encoded_audio/webm.rs:210-248 | The scan reports a length exactly when that many bytes are finite non-Segment children and the end or a Segment-level id follows. |
| Ebml.ReadVint | src/encoded_audio/webm.rs:250-268 | The bit-scanning reader of variable-length integers equals their value. |
| Ebml.SizeRoundTrip | src/encoded_audio/webm.rs:250-268 | Every size at every width reads back as itself, whatever follows. |
| EbmlExact.IdExact | src/encoded_audio/webm.rs:250-268 | An id is read exactly from one to four bytes, as many as the first announces, with its marker bit. |
| EbmlExact.SizeExact | src/encoded_audio/webm.rs:250-268 | A size is read exactly from one to eight bytes, as many as the first announces, without its marker bit. |
| EbmlExact.UintExact | src/encoded_audio/webm.rs:270-277 | A number is one to eight bytes, most significant first. |
| Ebml.Budget.Step | src/encoded_audio.rs:148-160 | A step is granted exactly within the first 65,536 and without a cancellation. |
| WebmTiming.EnvelopeExact | src/encoded_audio/webm_timing.rs:87-132 | Validation on extrema accepts exactly when every recorded cluster time (or zero), combined with every recorded relative time and every duration of the file, stays in range and the lace sums fit. |
| WebmTiming.BlockHeadExact | src/encoded_audio/webm_timing.rs:70-85 | A block head is the track number, a signed big-endian time and flags, and a lace count exactly if a lacing bit is set. |
| WebmTiming.TicksExact | src/encoded_audio/webm_timing.rs:135-146 | Scaled cluster times are rounded to nearest, and refused exactly outside 0 to 2^63 - 1. |
| WebmTiming.UnitsExact | src/encoded_audio/webm_timing.rs:87-132 | The defaults of the scales, the delay in whole ticks, and which time bases are usable. |
| WebmTiming.AcceptedTimeline | src/encoded_audio/webm_timing.rs:87-132 | If validation accepts, then for every recorded cluster and block the sum, the start after codec delay and the end after its duration fit in i64, although only extrema were kept. |
| WebmTiming.EnvelopeCanBeTooStrict | src/encoded_audio/webm_timing.rs:87-132 | The converse of the previous row fails: a file whose blocks all play on their own is refused when a late cluster and a long duration occur apart. |
| WebmTiming.Recorded | src/encoded_audio/webm_timing.rs:24-68 | Whatever metadata comes in whatever order, the extrema stay those of everything recorded. |
| WebmTiming.Timing.Record | src/encoded_audio/webm_timing.rs:24-68 | The in-place recorder equals the specified one. |
| WebmTiming.Timing.RecordBlock | src/encoded_audio/webm_timing.rs:70-85 | A block's relative time and frame count enter the extrema. |
| CaptureCodec.FrameExact | src/capture_protocol/codec.rs:166-191 | A stream reads as a frame exactly when it begins with the bytes the writer makes of that frame at that sequence number; nothing else is accepted. |
| CaptureCodec.HeaderExact | src/capture_protocol/codec.rs:295-333 | A header passes all checks exactly when it is the writer's header for the expected session and sequence. |
| CaptureLayout.FrameLayout | src/capture_protocol/codec.rs:166-191 | A frame read back byte by byte: magic, version, kind, length, session and sequence, each little-endian in its place, then the payload. |
| CaptureLayout.SampleLayout | src/capture_protocol/sample.rs:31-98 | Where each field of a sample stands. |
| CaptureLayout.BrowserLayout | src/capture_protocol/codec.rs:76-96 | Where each field of a browser message stands. |
| CaptureLayout.WorkerLayout | src/capture_protocol/codec.rs:98-134 | Where each field of a worker message stands. |
| CaptureLayout.ValidExactly | src/capture_protocol/sample.rs:31-98 | Which shapes a sample may have, in numbers. |
| CaptureCodec.ReadBrowserExact | src/capture_protocol/codec.rs:76-96 | Browser messages: a bijection between valid messages and accepted frames, so re-encoding reproduces the bytes. |
| CaptureCodec.ReadWorkerExact | src/capture_protocol/codec.rs:98-134 | Worker messages: the same bijection. |
| CaptureCodec.ReadSampleExact | src/capture_protocol/codec.rs:266-293 | Samples: the same bijection, including every shape check. |
| CaptureCodec.SampleExact | src/capture_protocol/sample.rs:31-98 | Decoding a sample gives it exactly when encoding it gives those bytes; invalid shapes have neither. |
| CaptureCodec.BrowserExact | src/capture_protocol.rs:29-50 | Device bits and message payloads decode to a message exactly when it encodes to them. |
| CaptureCodec.SamplesRoundTrip | src/capture_protocol/codec.rs:136-191 | Any run of valid samples is read back unchanged, in order, with matching sequence numbers, and exactly its bytes are consumed. |
| CaptureFrames.FrameWriter.WriteFrame | src/capture_protocol/codec.rs:166-191 | Appends exactly the frame and advances the sequence, or changes nothing. |
| CaptureFrames.FrameWriter.SendSample | src/capture_protocol/codec.rs:136-164 | What is sent reads back as the sample whatever follows it. |
| CaptureFrames.FrameReader.NextFrame | src/capture_protocol/codec.rs:295-333 | The reader over a byte stream equals the specification and leaves exactly the rest. |
| CaptureFrames.FrameReader.NextSample | src/capture_protocol/codec.rs:266-293 | The same for samples. |
| CapturePipeline.LosslessAudio | src/capture_process/child.rs:149-225 | Over every interleaving of provider, child queue, writer thread, byte pipe, reader thread, mailbox and consumer, with threads dying at any moment and bytes arriving in any pieces: the audio heard is a gap-free prefix of the audio produced, the video seen a subsequence in order, frames only from a granted camera on track 1 and packets only from a granted microphone on track 2, all of the assigned capture, at most eight packets waiting; and while nothing has ended, nothing is lost. |
| CapturePipeline.EveryInterleaving | src/capture_process/broker.rs:277-320 | The invariant behind it: the unread bytes are exactly the frames of the samples in flight, and heard, stored and upstream audio concatenate to what was produced. |
| CapturePipeline.LossIsReported | src/capture_process/broker.rs:352-378 | Once the writer has ended for whatever reason, a reader that keeps reading ends and has marked the mailbox failed unless the capture was retired: audio is never lost silently. |
| CapturePipeline.ProducedGranted | src/capture_process/child.rs:149-219 | Over every interleaving all that is handed over is of the active capture and of a device that was granted: frames only with the camera, packets only with the microphone. |
| CapturePipeline.ProvideExact | src/capture_process/child.rs:149-219 | A granted sample of the active capture is handed on unless the queue of two is full, which drops a frame and ends the child for a packet; any other ends the child. |
| CapturePipeline.ReadsOldest | src/capture_process/broker.rs:352-378 | A sample read off the pipe is the oldest in flight, whole and unchanged. |
| CaptureMailbox.PushSound | src/capture_process/broker.rs:285-320 | Whatever is pushed, every stored or last seen frame has camera granted and track 1, every stored or last heard packet microphone granted and track 2, all of the assigned capture and valid, in strictly increasing order, and at most eight packets wait. |
| CaptureMailbox.PushExact | src/capture_process/broker.rs:285-320 | A push succeeds exactly for a valid sample of the assigned capture, of a granted device on its own track, beyond both marks and with fewer than eight packets waiting; what it stores and which marks move in every case, retired mailboxes included. |
| CaptureMailbox.SampleMailbox.PushSample | src/capture_process/broker.rs:285-320 | The in-place push equals the specified one in every branch (`CaptureMailbox.PushExact` says when it succeeds), including the marks that move when the queue overflows. |
| CaptureMailbox.SampleMailbox.NextAudio | src/capture_process/broker.rs:139-143 | The oldest packet, once; nothing after a failure. |
| CaptureMailbox.SampleMailbox.LatestVideo | src/capture_process/broker.rs:133-137 | The newest frame, once; nothing after a failure. |
| CaptureMailbox.SampleQueue.Enqueue | src/capture_process/child.rs:208-219 | A full queue drops video but fails for audio; it never blocks. |
| CaptureLifecycle.EveryConversation | src/capture_process/child.rs:72-174 | Over every run of the child's control loop, with each reply, each report of a device failure, the sample pipe and the device failing or not on their own: only the first capture asked for is ever started, the messages form one of seven conversations, samples are only of that capture and within the grant, and the device is off at every regular end. |
| CaptureLifecycle.TurnExact | src/capture_process/child.rs:72-174 | What each command makes of a running child: what it answers, whether the device runs on, and how it ends. |
| CaptureLifecycle.SampleExact | src/capture_process/child.rs:140-174 | What each outcome of the device makes of a running capture; a sample outside the grant ends it and is not offered. |
| CaptureLifecycle.EveryWordCaused | src/capture_process/child.rs:72-174 | Over every conversation, each word of the child is the answer to a command it received, or reports a failure of the device. |
| CaptureLifecycle.StartVerdictExact | src/capture_process/broker.rs:181-239 | The verdict on a start is decided by the first wait that does not merely pass time: success exactly for the start of this capture without a cancellation, a device refusal exactly for one of this capture, anything else not readable. |
| CaptureLifecycle.RunProtocol | src/capture_process/child.rs:72-174 | The loop equals the specified run, and refuses any other greeting. |
| CaptureLifecycle.StartAgreed | src/capture_process/broker.rs:94-126 | Across both processes: a start that succeeds in the browser means this child started this capture, and a device refusal that it refused this one. |
| CaptureLifecycle.WaitForStart | src/capture_process/broker.rs:181-239 | The polling wait equals the verdict of the first word heard. |
| CaptureLifecycle.CaptureSession.Start | src/capture_process/broker.rs:94-126 | One capture per session; a failed start ends the child and retires the mailbox, which then stores none of the samples still arriving. |
| CaptureLifecycle.CaptureSession.Stop | src/capture_process/broker.rs:145-166 | Stopping the assigned capture hides everything at once and for good, whatever the child answers or still sends; any other id changes nothing. |
| MediaData.SourcesRoundTrip | src/media_data_protocol.rs:102-217 | Every list of valid sources written to one pipe is read back unchanged, and exactly its frames are consumed. |
| MediaData.ReadSourceExact | src/media_data_protocol.rs:183-217 | A read succeeds exactly on chunks of permitted size at contiguous offsets that add up to the declared, permitted length, followed by one end frame. |
| MediaData.PrefixRejected | src/media_data_protocol.rs:183-217 | No strict prefix of a source's wire form is accepted, under any declared length. |
| MediaData.TruncationRejected | src/media_data_protocol.rs:183-217 | Cutting any byte off whatever was accepted makes the read fail. |
| MediaData.HeaderExact | src/media_data_protocol.rs:219-262 | A header passes exactly when it is the writer's for that place, whatever its two reserved bytes are. |
| MediaDataLayout.WireLayout | src/media_data_protocol.rs:102-180 | The bytes a source travels as: frame i of 256 KiB or what is left at 72 + 262,144 bytes per frame, each header with the offset of its first byte, its own length and no flag, one end frame with the whole length as offset, and nothing else. |
| MediaDataPipe.MediaDataWriter.SendSource | src/media_data_protocol.rs:102-116 | The chunking loop puts out exactly the wire form, or nothing for a length that is not permitted. |
| MediaDataPipe.MediaDataReader.ReadOne | src/media_data_protocol.rs:183-217 | The reading loop equals the specification and leaves exactly the rest. |
| Snapshots.AtomicUnderEveryFault | src/cache_storage/persistence.rs:67-103 | A write is atomic under every failure and crash, false existence checks included (done: the new state; error: the old; crash: either), if and only if the primary is not unreadable beside a good backup, and a good primary has no backup or an identical one. |
| Snapshots.AtomicFromEverySafeDisk | src/cache_storage/persistence.rs:67-103 | A pattern of failures is survived from every disk but the ones with an unreadable primary and a good backup, if and only if it is not the one that deceives: the existence check says no, the final rename fails, and putting the backup back works. |
| Snapshots.AtomicExactly | src/cache_storage/persistence.rs:67-103 | For each disk and each pattern of failures and crashes, the exact condition under which one write is atomic: neither deceived over a good primary with another backup, nor stopped after spending the good backup of an unreadable primary. |
| Snapshots.AtomicExactlyWhenSafe | src/cache_storage/persistence.rs:67-103 | All failures and crashes that do not deceive are survived if and only if the disk is not in the one bad state: primary unreadable while the backup is good. |
| Snapshots.WriteAtomic | src/cache_storage/persistence.rs:67-103 | From every other disk each write that is not deceived is atomic and leaves such a disk again. |
| Snapshots.WriteExact | src/cache_storage/persistence.rs:67-103 | A write is done exactly if every step it needs works, and then leaves the new state as primary and the old primary as backup; a state that is too large changes nothing, an unfinished temporary file touches neither of the others, and only a crash kills. |
| Snapshots.LoadExact | src/cache_storage/persistence.rs:15-45 | Loading finds a readable primary, else a readable backup, else the empty state exactly if both are absent, and otherwise the error of the backup, or of the primary if there is no backup. |
| Snapshots.BackupLost | src/cache_storage/persistence.rs:88-94 | From the bad state a crash before the last rename loses the good backup, because it was removed first: the recovery the module comment promises fails there. |
| Snapshots.DeceivedWrite | src/cache_storage/persistence.rs:88-101 | A deceived write always reports an error, and leaves what was the backup in place of the primary, which loses the last state exactly if a good primary had another backup. |
| Snapshots.FallsBack | src/cache_storage/persistence.rs:88-101 | The condition is reached in ordinary use: from an empty directory, after two good writes, a third one that is deceived fails and the next start finds the first state instead of the second. |
| Snapshots.UnvalidatedIsLost | src/cache_storage/persistence.rs:47-72 | Writing a state that fits in total but that reading would refuse is lost at the next start, so it must be validated first. |
| Snapshots.SnapshotFiles.WriteState | src/cache_storage/persistence.rs:67-103 | The write, operation by operation, equals the specification for every failing operation and every crash point. |
| Snapshots.SnapshotFiles.LoadState | src/indexed_db/persistence.rs:16-22 | Primary, else backup, else the empty state, with the source's choice of error. |
| CacheStorage.RunsLikeAMap | src/cache_storage/model.rs:318-347 | Over every run of calls, with failures and crashes anywhere that deceive no write (the exact condition of `Snapshots.AtomicFromEverySafeDisk`), the store behaves as a plain map on which exactly the calls that replied, and some of those during which the process died, took effect, each reply being the one the map gives; memory always equals what loading would return. |
| CacheStorage.LivingRun | src/cache_storage/model.rs:318-347 | While the process lives, every reply and the state in memory are those of a plain map on which exactly the calls that replied took effect, under every failure, deceived writes included. |
| CacheStorage.ExecuteLawful | src/cache_storage/model.rs:172-347 | Every call that is not deceived keeps memory and disk together: a reply means it took effect, a refusal that nothing changed, a crash either. |
| CacheStorage.FaultlessCall | src/cache_storage/model.rs:172-347 | Without faults a call of a loaded store replies with its meaning, and is refused exactly for the error it means or for a state beyond the limits. |
| CacheStorage.MeaningExact | src/cache_storage/model.rs:172-347 | Untrusted origins are refused; queries answer from the origin's own caches and change nothing; only opening, deleting and putting change the state, and only that of the origin. |
| CacheStorage.EditLands | src/cache_storage/model.rs:318-338 | After a successful edit the origin holds what the edit produced and other origins what they held, although an edit that changed nothing is not committed. |
| CacheStorage.FoldedIsolated | src/cache_storage/model.rs:172-300 | Over every run an origin that no call names keeps its caches, and cache names stay distinct everywhere. |
| CacheStorage.Storage.Perform | src/cache_storage/model.rs:172-347 | The locked operation equals the specification. |
| CacheStorage.Storage.EnsureLoaded | src/cache_storage/model.rs:340-347 | Loading happens on first use and is remembered only when it succeeds. |
| CacheModel.StoreBatch | src/cache_storage/model.rs:264-282 | Storing a batch entry by entry leaves the old entries none of its requests matches, then the whole batch in order: the duplicate check is what keeps later entries from removing earlier ones. |
| CacheAnswers.HasExact | src/cache_storage/model.rs:196-198 | A cache is there exactly if its name is in the list. |
| CacheAnswers.NamesExact | src/cache_storage/model.rs:199-201 | All names, in the order the caches were opened. |
| CacheAnswers.MatchExact | src/cache_storage/model.rs:208-219 | A match is the response of the first matching entry of the first such cache, and none exactly if nothing matches. |
| CacheAnswers.MatchAllExact | src/cache_storage/model.rs:220-237 | All responses of matching entries, each once and in stored order. |
| CacheAnswers.KeysExact | src/cache_storage/model.rs:238-255 | The same for requests. |
| CacheAnswers.OpenExact | src/cache_storage/model.rs:185-195 | Opening adds an empty cache at the end exactly if there is none of that name and the name is short enough. |
| CacheAnswers.DeleteCacheExact | src/cache_storage/model.rs:202-207 | Deleting removes exactly the cache of that name and tells whether there was one. |
| CacheAnswers.PutExact | src/cache_storage/model.rs:256-282 | Exactly when a batch is stored, refused, a duplicate or has no cache; and what the cache holds then. |
| CacheAnswers.DeleteEntryExact | src/cache_storage/model.rs:283-297 | Deleting leaves exactly the entries that do not match, in order, and tells whether one was removed. |
| CacheModel.EditKeepsDistinct | src/cache_storage/model.rs:187-299 | Every edit keeps the names of an origin's caches distinct. |
| CacheModel.EditIsLocal | src/cache_storage/model.rs:187-299 | Only the named cache changes. |
| OggEnvelope.Inspect | src/encoded_audio/ogg_envelope.rs:19-104 | The page and lace scan admits exactly the complete streams within the step budget and reports their envelope; everything else is refused. |
| OggDocument.AdmittedExactly | src/encoded_audio/ogg_envelope.rs:19-104 | A file is admitted with an envelope if and only if its bytes are at least three pages, page k with the capture pattern, sequence number k, the serial of the first, and as flags exactly "goes on with a packet", "first" and "last"; its packets are whole and within their limits; and the envelope gives serial, granules, segment and packet counts of these pages. |
| OggEnvelope.AdmittedPackets | src/encoded_audio/ogg_envelope.rs:66-84 | In an admitted stream the flattened lace list splits into whole packets with nothing left over, the per-page counts add up to them, each keeps its own limit, and the end flag is on the last page alone (section 6 of RFC 3533). |
| OggEnvelope.ScanLaces | src/encoded_audio/ogg_envelope.rs:66-81 | The lace loop, given what earlier pages carried over, keeps the running size, count and continuation of the flattened list. |
| OggPages.CutExact | src/encoded_audio/ogg_envelope.rs:32-97 | A stream is cut into pages in exactly one way, and they tile it. |
| OggPages.WithinPackets | src/encoded_audio/ogg_envelope.rs:66-81 | Checking the running size at every lace is checking every whole packet against its own limit. |
| OggPages.SplitUnique | src/encoded_audio/ogg_envelope.rs:66-81 | There is only one way to group laces into packets. |
| OpusTrim.HeardExactly | src/opus_audio.rs:131-212 | For an admitted source whose decoder honours the admitted durations, calling until the end hands over exactly raw frames [start, end), the completeness check never fails, and one call more than there are packets, or frames to hear, is enough (sections 4.2 and 4.4 of RFC 7845). |
| OpusTrim.EndsExactly | src/opus_audio.rs:131-212 | Decoding reaches its end without an error if and only if every packet was as admitted: as many as there are durations, each of its own, all adding up, and finite wherever they are heard. |
| OpusTrim.CallsExact | src/opus_audio.rs:131-212 | After any number of calls exactly the presented part has been handed over, in order and without gaps. |
| OpusTrim.CallExact | src/opus_audio.rs:146-212 | One call ends well within its own 65,536 steps even if it skips every one of 16,384 packets. |
| OpusTrim.FailureIsPermanent | src/opus_audio.rs:131-144 | After an error every later call errs and nothing moves. |
| OpusTrim.EndIsPermanent | src/opus_audio.rs:146-170 | After the end every later call reports the end, unless it is cancelled before its first step, which is then a permanent failure. |
| OpusStream.OggStream.NextBlock | src/opus_audio.rs:131-144 | The in-place call over one scratch buffer equals the specification. |
| OpusStream.OggStream.DecodeLoop | src/opus_audio.rs:146-212 | The decoding loop equals the specification. |
| Impacts.CombinedExact | src/engine/invalidation.rs:41-67 | Over any non-empty run of mutations an evidence bit survives exactly when every one of them carries that evidence, and an effect bit when some one does. |
| Impacts.ImpactExact | src/engine/invalidation.rs:140-191 | Each mutation kind has exactly the effects listed for it, at least one, and carries exactly the evidence that holds of it. |
| Impacts.UnionLaws | src/engine/invalidation.rs:41-67 | On impacts with an effect, and on none, union is commutative, associative and idempotent. |
| Impacts.AssociativeExactly | src/engine/invalidation.rs:41-67 | On arbitrary bits, the exact condition under which the grouping of three does not matter; it fails only where two pieces of evidence without any effect cancel and the third keeps evidence. |
| Invalidation.MergedMeaning | src/engine/invalidation.rs:281-335 | Merging non-empty well-formed work is the pointwise maximum of restyle levels, the union of what changed per element, and the rest joined, or collapses to a full restyle of the document. |
| MergedWork.RestMerged | src/engine/invalidation.rs:325-334 | Merged impact, saturating count, rebuild, removed elements and whether they are local, from those of either side. |
| MergedWork.OverflowMerged | src/engine/invalidation.rs:315-324 | Work at the document, or of more roots or changed elements than the limit, becomes one full restyle of the document. |
| MergedWork.RootsMerged | src/engine/invalidation.rs:294-324 | Other work keeps the roots of both; one is whole if it is on either side, else lighter as the heavier side had it. |
| MergedWork.ChangesKept | src/engine/invalidation/attribute_changes.rs:86-101 | Other work keeps, per element, exactly the tokens and attribute names changed on either side. |
| Invalidation.FoldedExact | src/engine/invalidation.rs:281-335 | Folding two or more pieces of work is their pointwise maximum, bounded once at the end: collapsing early makes no difference. |
| Invalidation.OrderDoesNotMatter | src/engine/invalidation.rs:276-335 | Two or more pieces of work mean the same merged in any order. |
| Invalidation.EmptySkipped | src/engine/invalidation.rs:287-293 | Empty work leaves no trace. |
| Invalidation.OneIsNotBounded | src/engine/invalidation.rs:291-294 | One piece alone is not bounded, even where merging it with itself would be. |
| Invalidation.MergeChangesMap | src/engine/invalidation/attribute_changes.rs:86-101 | Merging attribute changes one by one unites, per element, the tokens and the attribute names. |
| RenderInvalidation.Pending.MergeConservatively | src/engine/invalidation.rs:276-335 | The in-place merge equals the specified one, and so the bounded pointwise maximum. |
| Damage.PartialRepaintExact | src/engine/display_list.rs:13-65 | For every painter whose items alter nothing but nesting outside their bounds, and lists that nest alike, repainting only the damage gives at every pixel what repainting everything gives. |
| Damage.DamageExact | src/engine/display_list.rs:30-65 | Damage that is not full has the least rectangle that contains the bounds of every changed item of both lists, and is empty exactly when nothing changed. |
| Damage.DamagedExactly | src/engine/display_list.rs:13-65 | With the changed slices singled out in the only way there is: everything if painted anew or three quarters changed, nothing if nothing changed, else the least rectangle that holds every item of both slices; and how many changed. |
| Damage.DifferExact | src/engine/display_list.rs:27-44 | The slices are the only ones that neither start nor end with a common item. |
| Damage.EdgesAgree | src/engine/display_list.rs:27-44 | Both lists are the same before and after the changed slices. |
| Damage.FullExact | src/engine/display_list.rs:13-65 | Everything is repainted exactly when there was nothing before, the background differs, only the height differs, or at least three quarters of the items changed. |
| Damage.UnionLeast | src/engine/display_list.rs:148-157 | The union of bounds is the least rectangle containing them all. |
| Refresh.NextAfterExact | src/engine/rendering.rs:45-59 | The next frame is the smallest rounded-up grid point strictly after now, unless that lies beyond the longest duration, which is then given. |
| Refresh.NextOnTime | src/engine/rendering.rs:45-59 | In plain numbers: the next frame is some cycle's time rounded up to a nanosecond, later than now, and no cycle that ends after now rounds up to an earlier one. |
| Refresh.NothingSaturates | src/engine/rendering.rs:45-50 | Neither 128-bit product saturates, for any rate and any elapsed time. |
| Refresh.NoDrift | src/engine/rendering.rs:45-59 | At up to 10^9 Hz, asking frame after frame visits every grid point once: frame n is within a nanosecond of its exact time however large n is. |
| Refresh.EveryPointExactlyBelowGigahertz | src/engine/rendering.rs:45-50 | Every grid point is visited if and only if the rate is at most one cycle a nanosecond. |

## Left out

- Scheduler.EventLoopScheduler.QueueTaskInternal: handles and sequence numbers are unbounded; the panics when 2^64 of them are used up are not modelled.
- Scheduler.EventLoopScheduler.PopRunnableTask: the standard library's binary heap is a sequence whose pop takes the greatest entry by the source's order; sifting inside the heap is not modelled.
- BroadcastRegistry.Registry.Apply: strings count UTF-8 bytes or UTF-16 hex digits as the source does, but are sequences of numbers; the batch identifier running out at 2^64 is modelled, hash map iteration order has no effect and is not.
- WebmTiming.Timing.Record: an error leaves the recorder as it was, while the source may already have changed a field; callers drop the recorder on any error. Track scales are exact reals, not rounded f64.
- CapturePipeline.LosslessAudio: the producer is the child's provider; what a device loses before handing samples over is not modelled. The two ends of the control pipe are in CaptureLifecycle instead.
- CaptureLifecycle.RunProtocol: a partly written message of a failing write is not modelled; the loop ends there in both.
- CaptureLifecycle.CaptureSession.Start: timeouts are a list of waits that runs out; process launch, tokens, jobs and handles are not modelled.
- CaptureFrames.FrameReader.NextFrame: after an error the place in the stream is not specified, and write errors of the underlying pipe are not modelled; every caller stops there.
- CaptureFrames.FrameReader.NextSample: the same, after an error of the frame or of the sample in it.
- MediaDataPipe.MediaDataReader.ReadOne: the same; also the vector's growth ahead of a payload that then fails to arrive.
- WoffDecoder.DecodeWoff: inflate is a function of the stored bytes and the declared bound; allocation failure is not modelled.
- Error texts: every error is modelled by its kind.
- OggEnvelope.Inspect: which of several errors is reported is not specified, only that there is one; additions of counts bounded by the input's length are not checked against the 64-bit range.
- OpusTrim.HeardExactly: admission of the packets' durations happens elsewhere and is a precondition; samples are reals or not finite.
- Snapshots.WriteAtomic: writes that are deceived by a false existence check are not covered, because the property is false for them (`Snapshots.DeceivedWrite`); also, a rename is atomic and durable once it has happened, and a file that was not touched reads the same every time; reordering by a file system after power loss and transient read errors are not modelled.
- CacheStorage.ExecuteLawful: calls whose write is deceived are not covered: their refusal may leave an older state on disk than in memory. `CacheStorage.LivingCall` is what still holds.
- CacheStorage.RunsLikeAMap: the same, for runs with such a call; `CacheStorage.LivingRun` is what still holds.
- CacheModel.StoreBatch: request matching and entry validation are arbitrary functions; URLs, Vary rules, base64 and JSON sizes are not modelled.
- CacheStorage.Storage.Perform: the lock is the atomicity of a call; lock poisoning is not modelled.
- Invalidation.MergedMeaning: token and attribute lists are sets, since the source keeps them sorted and unique; node identities are numbers.
- How invalidations are collected from the document, and the extra roots of validation state.
- Damage.PartialRepaintExact: rectangles are over reals; glyph runs that share storage are taken to be equal, so the painter treats items that compare the same alike. A bracket (clip, opacity, transform, mask) only counts nesting outside its bounds.
- Frame pacing by the platform, and how a display's rate is found out.
- IndexedDB's transactions, keys and ranges: only its snapshot protocol, which is the same as CacheStorage's, is modelled.
- Web font discovery, style parsing, DOM, layout, CSS, scripting, networking and the Windows shell: large, and mostly case by case.
- URL, CORS, CSP and header predicates, MIME tables, user-agent strings and metrics: they would only add easy members.
- Format sniffing, AAC, MP3 and Ogg FLAC admission: thin beside the WebM and Ogg walks.
