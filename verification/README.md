# octoconv, modelled and proved

A Dafny model of the parts of octoconv's Go back end whose correctness cannot be read off one
function, with proofs about every run or every input.

**Job recovery.** `RetryBudget` and `Lanes` model asynq's retries and the per-job unique lock,
`Jobs` the job rows and their append-only event log, and `Protocol` a step system in which the API,
the conversion workers, the webhook worker, the clock and the reconciler's sweep interleave at every
store transaction and every queue call. Any call may fail, and may fail after it has committed
(`Report`). `Safety`, `Exclusion`, `Outcomes`, `Caps` and `Coverage` prove theorems about all its runs;
`Witnesses` builds runs that show which hypotheses cannot be dropped. `Reconciler` is the sweep as it
is written, a class whose calls are proved to be steps of that system, so that the theorems hold of it.

**Bounded parsers.** `Ebml`, `Cfb`, `Jpeg`, `Tiff`, `Isobmff` and `Raster` (PNG and WebP) model the
parsers that look at a bounded prefix of an upload. Each loop is proved against a specification, and
the specification against the file grammar: what is written is read back, what is accepted was
written so, and an answer on a prefix is the answer for every longer file. `Sniffing` and `Upload`
model detection and the chain of readers that peek into one shared stream and stitch back what they read.

**Presets and transcoding.** `Presets` models the versioned preset table with its shadowing views and
their use in job creation, `Transcode` the choice of a video plan.

`dafny verify dfyconfig.toml` checks everything.

## Where the code needs a hypothesis

- The unique lock's lifetime covers attempts and backoff, but of the time a task waits in the queue
  only the two-minute margin. `Exclusion.NoDuplicateTask` therefore assumes, of the job in question
  only, that each attempt stays within its timeout and that a task's whole waiting stays below the
  margin (`TimelyIn`), and `Witnesses.QueueWaitDuplicates` shows, for every configuration with a
  positive cap, a run in which a longer wait yields a second live task.
- `RequeueStale` is tried twice. If it can commit and yet report failure, one recovery is recorded
  twice: the cap is exceeded by at most one (`Caps.RecoveryCap`), and for every positive cap some run
  exceeds it (`Witnesses.LostAckOvercounts`).
- A recovery is not counted if its task is enqueued and reported as not, if the sweeper dies between
  the enqueue and the event, or if both tries to record it are lost. `Caps.AttemptsBounded` has no
  hypothesis and counts these instead: each allows one task's worth of attempts beyond
  (MaxRecoveries+1)*(maxRetry+1). Without an allowance the bound is false: with a sweeper that dies
  there again and again, attempts grow without bound (`Witnesses.DyingSweeperUnbounded`).
- The sweeper ignores the error of the `MarkFailed` that exhausts a job, so a webhook can be enqueued
  for an unfinished job only when that write is lost (`Safety.WebhooksOnlyForFinishedJobs`), and for
  every configuration some run does so (`Witnesses.LostExhaustionNotifies`). The workers check the
  error and need no hypothesis.
- `RecordWebhookGapRecovered` writes its event without the transition guard, from a status read
  earlier. On its own it keeps the log a chain exactly when that status is still the job's and is not
  `active` (`Jobs.RecordGapExact`); in every run it is, because terminal statuses never change.
- A read fault in the video peek, and only there, loses bytes: the handler goes on with the drained
  reader. The uploaded stream is the original file exactly when that peek loses nothing
  (`Upload.Screen`); `Upload.VideoFaultShortens` gives an upload that passes screening five bytes
  short. The handler then hands the shorter stream to storage together with the declared size; what
  storage makes of the difference is not part of this model.
- The magic numbers of different formats can coexist in one file, which the comments on the brand
  tables do not say: a JPEG, TIFF or Ogg start leaves room for an `ftyp` brand
  (`Sniffing.AmbiguousOnlyByBrand`, `Sniffing.JpegThenBrand`); the tables themselves are disjoint.
- `codec: "h264"` on a webm target is accepted and the output is VP9 all the same. It is not without
  effect: it disables the stream copy, so a large VP9 source is refused instead of copied.
- Preset creation checks and inserts in two statements; preset operations are taken to be serial.

## Model

| member | source | states |
|---|---|---|
| `RetryBudget.BackoffSum` | internal/queue/queue.go:408-414 | the accumulating loop gives the sum of the budgeted delays, zero for a non-positive retry count |
| `RetryBudget.UniqueTTL` | internal/queue/queue.go:449-451 | for any retry count, negative ones included, the lock lifetime is (maxRetry+1) attempts, the whole backoff and the margin |
| `RetryBudget.DelayWithinCeiling` | internal/queue/queue.go:218-236 | no jitter sample, and no retry index past the table's ends, gives a delay below zero or above the budgeted one |
| `RetryBudget.JitterIsEven` | internal/queue/queue.go:228-231 | jitter takes at most a quarter off, leaves the delay alone at its middle sample, and opposite samples shift it equally, to a nanosecond |
| `RetryBudget.BaseFollowsSchedule` | internal/queue/queue.go:218-226 | delays follow the schedule entry by entry, stay at its last entry past its end, and do not shrink where it does not |
| `RetryBudget.TtlCoversLifetime` | internal/queue/queue.go:416-451 | for every schedule, retry count, attempt durations and delays, the lifetime exceeds the whole retry history by the safety margin |
| `RetryBudget.TtlIsTight` | internal/queue/queue.go:400-403 | for every policy some retry history uses up everything but the margin, to a nanosecond a retry where delays are jittered, so nothing else is left for waiting |
| `RetryBudget.DocumentedLifetimes` | internal/queue/queue.go:656-662 | the lifetimes the comments quote: 757 s for images, 2477.5 s for webhooks |
| `Lanes.LockOutlivesTask` | internal/queue/queue.go:431-448 | a task whose attempts are within their timeout and whose waiting is below the margin still holds an unexpired lock |
| `Lanes.EnqueueExclusive` | internal/queue/queue.go:431-436 | an enqueue keeps a lane at one live task that owns the lock, and is refused whenever a task lives |
| `Lanes.RetryExclusive` | internal/queue/queue.go:418-429 | a failed attempt, retried after any allowed delay or archived when the budget is spent, keeps the time a task has used accounted for |
| `Jobs.Repo.Create` | internal/jobs/repo.go:91-148 | a new row is queued with the single event NULL to queued and nothing else changes; a repeated id fails and changes nothing |
| `Jobs.Repo.Change` | internal/jobs/repo.go:415-458 | not found, illegal transition or success; row and event change together or not at all |
| `Jobs.Repo.Activate` | internal/jobs/repo.go:155-161 | the exact new table; the log invariant of every row is kept |
| `Jobs.Repo.Finish` | internal/jobs/repo.go:164-175 | likewise for MarkDone |
| `Jobs.Repo.Fail` | internal/jobs/repo.go:177-190 | succeeds exactly for an existing unfinished job, with the exact new table and the log invariant |
| `Jobs.Repo.Requeue` | internal/jobs/repo.go:193-199 | succeeds exactly for an existing unfinished job, with the exact new table and the log invariant |
| `Jobs.MarkActiveOk` | internal/jobs/repo.go:155-161 | activation is possible exactly from queued and active; it adds one attempt and one event into active, pins started_at, and counts as no recovery |
| `Jobs.MarkDoneOk` | internal/jobs/repo.go:164-170 | finishing is possible exactly from active; it keeps the chain, attempts and recoveries, and makes the row terminal |
| `Jobs.MarkFailedOk` | internal/jobs/repo.go:177-190 | failing is possible exactly for unfinished rows and keeps the chain, attempts and recoveries |
| `Jobs.RequeueOk` | internal/jobs/repo.go:193-213 | requeueing is possible exactly for unfinished rows and adds exactly one recovery |
| `Jobs.RecordGapExact` | internal/jobs/repo.go:293-306 | the unguarded gap event keeps the log sound if and only if the status it carries is current and not active |
| `Safety.StepSound` | internal/worker/worker.go:1040-1114 | every step of anybody, under every fault, keeps the global invariant: rows agree with their logs, no handler is ahead of its row, the sweeper's readings are still true |
| `Safety.ReachableRows` | internal/jobs/repo.go:135-199 | in every state of every run the log is a chain from NULL to the current status, finished_at is set exactly for terminal jobs, attempts counts the events into active, started_at is set exactly once attempted, a done job has an output |
| `Safety.RowsEvolve` | internal/jobs/repo.go:415-458 | between any two states of a run done and failed are absorbing, started_at is pinned, the log is append-only |
| `Safety.WebhooksOnlyForFinishedJobs` | internal/reconciler/reconciler.go:262-273 | a webhook task exists only for a committed done or failed job, unless an exhaustion's MarkFailed of that job lost its write |
| `Safety.NewHookTask` | internal/worker/worker.go:460-491 | apart from the sweeper, only a worker's notification creates a webhook task, and only for a finished job, without any hypothesis on faults |
| `Safety.DeliveredNeverGap` | internal/jobs/repo.go:256-283 | once a delivery row exists, no later gap scan of the run returns the job |
| `Exclusion.NoDuplicateTask` | internal/queue/queue.go:416-451 | in every run, a job that has been timely, however late others are, never has two live conversion tasks or two live webhook tasks, and its live task's lock is unexpired |
| `Exclusion.RecoveryOnlyIfStranded` | internal/reconciler/reconciler.go:276-328 | in every run, a step that adds a recovery event to a job that has been timely follows a successful enqueue of that job at a moment when it had no live task, with nothing but requeueing by the sweeper in between |
| `Exclusion.RecoveryOnlyByRequeue` | internal/jobs/repo.go:193-213 | no act but the sweeper's RequeueStale changes a recovery count |
| `Outcomes.ConvOrder` | internal/worker/worker.go:441-493 | in every run, two consecutive acts on a conversion task follow the handler's script: each outcome of each call leads to the call it asks for, a passing error to a retry alone, a return to nothing |
| `Outcomes.HookOrder` | internal/worker/worker.go:921-998 | the same for webhook tasks: delivered leads to the return, undelivered to a retry, and on a recorded last attempt to the dead-letter flag |
| `Outcomes.FailedOnlyIfDamned` | internal/worker/worker.go:461-478 | in every run a worker fails a job only in the call right after, in the same attempt, bad options, a terminal engine error or a terminal recording error |
| `Outcomes.DamnedFails` | internal/worker/worker.go:461-478 | after such an outcome the task's next act, unless its worker dies, fails the job, at once where that commits on an unfinished job |
| `Outcomes.PassingRetries` | internal/worker/worker.go:480-484 | after a passing error the row and the lock are left alone and the task's next act is its retry: it waits out an allowed delay with one retry more, or, its budget spent, is gone |
| `Outcomes.DelayHonoured` | internal/queue/queue.go:381-397 | a retried task starts again no sooner than its delay after the retry |
| `Outcomes.ReturnFreesLock` | internal/queue/queue.go:431-436 | a task's own lock is freed by its return from a finished conversion and kept by its return from a failed one; the task is gone either way |
| `Outcomes.DeliveryFreesLock` | internal/worker/worker.go:989-997 | a webhook task's own lock is freed by its return after a delivery, and only then |
| `Outcomes.DeadLettersAreLast` | internal/worker/worker.go:989-993 | in every reachable state a dead letter is the row of an undelivered last attempt |
| `Outcomes.WebhooksOnlyForCallbacks` | internal/worker/worker.go:475-491 | in every reachable state a webhook task belongs to a job with a callback |
| `Caps.RecoveryCap` | internal/reconciler/reconciler.go:256-371 | in every run a job's recovery events never exceed MaxRecoveries+1, nor MaxRecoveries if its own RequeueStale never commits and reports failure |
| `Caps.AttemptsBounded` | internal/reconciler/reconciler.go:262-342 | in every run, under every fault, a job's attempts never exceed (MaxRecoveries+1+U)*(maxRetry+1), where U counts its recoveries that went unrecorded so far |
| `Caps.MeasureLowered` | internal/queue/queue.go:418-429 | in every run the measure behind that bound is never negative, raised only by an unrecorded recovery and then by one task's attempts, and strictly lowered by every attempt and every recovery |
| `Coverage.StaleJobsSettled` | internal/reconciler/reconciler.go:248-379 | in a sweep whose calls succeed, every job found stale is handled, and the very step that takes it off the list leaves it finished, locked by a conversion task, or of an engine without a queue, whatever interleaves |
| `Coverage.GapsHeld` | internal/reconciler/reconciler.go:385-411 | in a sweep whose calls succeed, every webhook gap is handled, and the very step that takes it off the list leaves its webhook locked |
| `Coverage.ScanExact` | internal/jobs/repo.go:221-246 | in every run a scan finds exactly the jobs queued for longer than the queued threshold since creation and active for longer than the active one since first activation, and no finished job |
| `Coverage.GapsExact` | internal/jobs/repo.go:256-283 | in every run a gap scan finds exactly the done and failed jobs with a callback, no delivery row, and a finish older than the active threshold, with their statuses |
| `Witnesses.LapsedLockDuplicates` | internal/reconciler/reconciler.go:276-295 | from any state of any run, a stale job under the cap whose live task's lock has lapsed can be given a second live task |
| `Witnesses.QueueWaitDuplicates` | internal/queue/queue.go:400-403 | such a state is reached, in every configuration with a positive cap, by waiting alone |
| `Witnesses.LostAckOvercounts` | internal/reconciler/reconciler.go:352-369 | for every positive cap, a run with a lost acknowledgement writes one recovery event more than the cap |
| `Witnesses.LostExhaustionNotifies` | internal/reconciler/reconciler.go:267-272 | for every configuration, a run in which a webhook task exists for a job that is not finished |
| `Witnesses.DyingSweeperUnbounded` | internal/reconciler/reconciler.go:323-342 | for every positive cap and every n, a run with n attempts of one job and no recovery event, in which the sweeper dies after each enqueue |
| `Reconciler.Backend.ScanStale` | internal/jobs/repo.go:221-246 | the selected rows are exactly those past their threshold, by status and time, each once, with their engines |
| `Reconciler.Backend.ScanGaps` | internal/jobs/repo.go:256-283 | the selected rows are exactly the finished ones past the threshold with a callback and no delivery, each once, with their statuses |
| `Reconciler.Sweeper.Exhaust` | internal/reconciler/reconciler.go:262-273 | under any faults and interference, the calls are steps of the protocol that take the sweeper from the cap test to the next job |
| `Reconciler.Sweeper.Requeue` | internal/reconciler/reconciler.go:276-371 | likewise for enqueue first, record second, retry once |
| `Reconciler.Sweeper.Sweep` | internal/reconciler/reconciler.go:248-412 | the whole call is exactly one complete pass of the protocol's sweeper: the history stays a run, one sweep begins, and it ends |
| `Ebml.VintLength` | internal/convert/avsniff.go:77-84 | the bit loop gives the length whose marker range holds the byte, 0 exactly for byte 0 |
| `Ebml.ReadSizeVint` | internal/convert/avsniff.go:92-107 | reads the size that RFC 8794 section 4 gives those bytes, always below 2^56 and within the buffer |
| `Ebml.ReadIdVint` | internal/convert/avsniff.go:113-128 | reads the element id with its marker, of at most four bytes, within the buffer |
| `Ebml.FindDocType` | internal/convert/avsniff.go:153-189 | the loop terminates with the first DocType element of the walk, or none where the walk breaks |
| `Ebml.MatchEbml` | internal/convert/avsniff.go:141-191 | the whole matcher equals the specification on every input |
| `Ebml.SizeEncodes` | internal/convert/avsniff.go:92-107 | every size that fits a width has a legal encoding of that width, read back as that size |
| `Ebml.HeaderReads` | internal/convert/avsniff.go:141-191 | round trip: any legal header, with any vint widths and any elements before the DocType, reads as mkv for "matroska", as webm for "webm", and as nothing for any other DocType |
| `Ebml.RecognisedIffHeader` | internal/convert/avsniff.go:141-191 | a prefix is recognised as mkv, or webm, if and only if it is such a header, followed by anything, with the DocType "matroska", or "webm" |
| `Ebml.HeaderBytes` | internal/convert/avsniff.go:64-71 | a legal header starts with the bytes 1A 45 DF A3, and its DocType element has the id 42 82 and no other |
| `Ebml.RecognitionStable` | internal/convert/avsniff.go:54-62 | a recognised prefix is recognised alike however the file continues |
| `Cfb.BuildFat` | internal/convert/cfb.go:110-145 | succeeds exactly when every used slot names a readable sector, and then the map is direct addressing by slot s/n and entry s%n |
| `Cfb.WalkDirectory` | internal/convert/cfb.go:150-210 | at most 4096 sector reads, all in bounds; succeeds exactly when an acyclic chain from the start to a sentinel exists, with its entries' names in chain order |
| `Cfb.ReadNames` | internal/convert/cfb.go:174-198 | the names are those of the sector's entries, in order |
| `Cfb.NameReads` | internal/convert/cfb.go:178-197 | round trip: the entry written for a Unicode name, with its terminating zero counted, yields exactly that name |
| `Cfb.EntryReads` | internal/convert/cfb.go:190-197 | an allocated entry yields the name its units spell, whether or not they are terminated |
| `Cfb.EntryExact` | internal/convert/cfb.go:178-188 | an entry yields no name exactly when it is unallocated or its length is odd, below 2 or above 64 |
| `Cfb.DecodeEncode` | internal/convert/cfb.go:197-197 | every sequence of Unicode characters survives UTF-16 encoding and decoding |
| `Cfb.OnePath` | internal/convert/cfb.go:150-210 | there is one way to follow the table from a start sector |
| `Cfb.OneDirectory` | internal/convert/cfb.go:64-104 | table, chain and names of a file are unique, so the classification is a property of the bytes |
| `Cfb.ClassifyNames` | internal/convert/cfb.go:215-234 | encrypted if and only if an encryption marker occurs, legacy if and only if a legacy marker and no encryption marker occurs |
| `Cfb.Classify` | internal/convert/cfb.go:64-104 | the class of the whole file, as its well-formed directory says |
| `Cfb.ClassifiedIff` | internal/convert/cfb.go:64-251 | from the bytes: encrypted if and only if header, table, chain and entries are laid out as the format says and an entry is named "EncryptionInfo" or "EncryptedPackage"; legacy if and only if so with one of the four legacy names and neither of those |
| `Cfb.AsciiNamesAreTheirUnits` | internal/convert/cfb.go:186-200 | a decoded name equals an ASCII marker exactly when its UTF-16 units do |
| `Jpeg.ReadDimensions` | internal/convert/dimensions.go:135-182 | the marker loop terminates, reads in bounds, and equals the specification |
| `Jpeg.MarkerClasses` | internal/convert/dimensions.go:150-167 | the frame headers are exactly the thirteen of T.81, the markers without a length exactly TEM, RSTn and SOI, and EOI and SOS end the search |
| `Jpeg.PiecesComeFrom` | internal/convert/dimensions.go:140-180 | whatever the scan steps over before the frame header is a sequence of legal pieces |
| `Jpeg.FileReads` | internal/convert/dimensions.go:135-182 | round trip: whatever stray bytes, fill bytes, markers and segments precede the frame header, its size is read |
| `Jpeg.AnsweredIffFrame` | internal/convert/dimensions.go:135-182 | a size is answered if and only if the bytes are such a file declaring it |
| `Jpeg.DimensionsStable` | internal/convert/dimensions.go:45-68 | an answer on a prefix is the answer for every longer file |
| `Tiff.ReadDimensions` | internal/convert/dimensions.go:192-242 | the entry loop, with its 32-bit offsets, reads in bounds and equals the specification, for buffers under 4 GiB |
| `Tiff.AnswersIffDeclared` | internal/convert/dimensions.go:209-241 | a size is answered if and only if two entries of the opened directory declare it: the later one the first of its tag, the earlier one the last of its tag before it |
| `Tiff.FileReads` | internal/convert/dimensions.go:192-242 | round trip: after "II" with every field little-endian or "MM" with every field big-endian, the width of tag 256 and the height of tag 257, SHORT or LONG, are read whatever other entries surround them |
| `Tiff.AnsweredIffWritten` | internal/convert/dimensions.go:192-242 | a size is answered if and only if the bytes hold such a written directory that declares it |
| `Tiff.DimensionsStable` | internal/convert/dimensions.go:184-191 | an answer on a prefix is the answer for every longer file |
| `Isobmff.FindBox` | internal/convert/dimensions.go:295-322 | a walk stopped by its callback finds the first box of a type that is long enough |
| `Isobmff.LargestExtent` | internal/convert/dimensions.go:270-280 | the innermost walk's running maximum is the fold over all well-sized ispe boxes, and its factors stay in 32 bits |
| `Isobmff.ReadDimensions` | internal/convert/dimensions.go:255-288 | the four nested walks equal the specification |
| `Isobmff.AnswerIsLargest` | internal/convert/dimensions.go:244-254 | the answer's area is at least that of every well-sized ispe box of the walked ipco, and it is one of their sizes unless all are empty |
| `Isobmff.AnswersIffExtent` | internal/convert/dimensions.go:255-288 | there is an answer if and only if the walked ipco holds a well-sized ispe box |
| `Isobmff.AreaFits` | internal/convert/dimensions.go:274-276 | the products compared never exceed 64 bits |
| `Isobmff.FileReads` | internal/convert/dimensions.go:255-322 | round trip: whatever boxes and bytes surround the path meta, iprp, ipco and whatever unreadable tail follows the properties, with 32-bit or 64-bit sizes, the largest written extent is read |
| `Isobmff.AnsweredIffWritten` | internal/convert/dimensions.go:255-322 | a size is answered if and only if the bytes are such a file and it is the largest extent written in it |
| `Isobmff.NodeEncodes` | internal/convert/dimensions.go:298-313 | every box type and payload has a legal header of either width |
| `Isobmff.DimensionsStable` | internal/convert/dimensions.go:290-294 | an answer on a prefix is the answer for every longer file |
| `Png.FileReads` | internal/convert/dimensions.go:83-90 | round trip: a written IHDR size is read |
| `Png.DimensionsStable` | internal/convert/dimensions.go:83-90 | an answer on a prefix is the answer for every longer file |
| `Webp.FileReads` | internal/convert/dimensions.go:97-128 | round trip for all three sub-formats, whatever flags, scaling bits and reserved bits are written |
| `Webp.DimensionsStable` | internal/convert/dimensions.go:97-128 | an answer on a prefix is the answer for every longer file |
| `Sniffing.MatchSignature` | internal/convert/sniff.go:105-110 | the loop gives the first signature of the table that matches |
| `Sniffing.SignedIff` | internal/convert/sniff.go:20-85 | every signature matches exactly the files that start with the bytes, brand or form type its format is known by |
| `Sniffing.BrandsDisjoint` | internal/convert/avsniff.go:8-21 | no file matches two of the brand tables, nor two RIFF form types |
| `Sniffing.AmbiguousOnlyByBrand` | internal/convert/sniff.go:49-85 | two different signatures match one file only as an ftyp brand behind a JPEG, TIFF or Ogg start |
| `Sniffing.JpegThenBrand` | internal/convert/sniff.go:65-85 | a file that matches two signatures, and which one wins |
| `Sniffing.TaggedMp3Reads` | internal/convert/audiosniff.go:70-87 | behind a tag of any synchsafe size, with or without footer, the frame sync is looked for exactly where the tag ends |
| `Sniffing.AudioRecognised` | internal/convert/audiosniff.go:99-120 | a positive answer on a bounded peek holds of the whole file |
| `Sniffing.VideoIsNamed` | internal/convert/avsniff.go:200-213 | SniffVideo says mkv exactly for headers of DocType "matroska" and webm exactly for "webm" |
| `Sniffing.DimensionsOfWhole` | internal/convert/dimensions.go:50-68 | for every image format, a positive answer on a bounded peek is the answer for the whole file |
| `Sniffing.PixelsFit` | internal/api/handlers.go:396-396 | declared width and height fit 32 bits and their product 64 |
| `Upload.Reader.Drain` | internal/convert/sniff.go:97-103 | a read through any chain of stitched readers takes exactly the next bytes and leaves exactly the rest |
| `Upload.Peek` | internal/convert/sniff.go:96-111 | the returned reader yields everything the given one did; on a read fault there is none and the bytes read are gone |
| `Upload.SniffVideo` | internal/convert/avsniff.go:200-213 | the EBML matcher on the first 4096 bytes, with the full stream returned |
| `Upload.SniffAudio` | internal/convert/audiosniff.go:99-120 | the audio matchers on the first 512 KiB, with the full stream returned |
| `Upload.DetectLate` | internal/api/handlers.go:308-331 | the video reader is always taken over and the audio reader only on a match, and the stream lacks exactly what a faulting video peek took |
| `Upload.Detect` | internal/api/handlers.go:200-341 | the detection chain, with its three refusals of OLE files told apart, answers as specified on the file from its first byte |
| `Upload.CheckPixels` | internal/api/handlers.go:387-403 | the pixel check answers as specified and hands on the full stream |
| `Upload.Screen` | internal/api/handlers.go:200-403 | the verdict is the specified one, and the stream given to Upload is the original file, shorter by exactly what the video peek lost, so the whole of it if and only if that is nothing |
| `Upload.AcceptedIsRecognised` | internal/api/handlers.go:342-360 | an intact accepted upload is what its extension claims, by its own detector on the whole file |
| `Upload.AcceptedWithinPixels` | internal/api/handlers.go:379-403 | an intact accepted image declares, on the whole file, no more pixels than the limit |
| `Upload.DocumentsScreened` | internal/api/handlers.go:205-238 | an archive that unpacks to too much is refused, then a document with macros, and an accepted document is neither |
| `Upload.DetectedScreened` | internal/api/handlers.go:342-403 | a detected upload is refused for a false extension, then a missing engine, then its size, then its pixels, and accepted exactly when none applies |
| `Upload.OleRefused` | internal/api/handlers.go:251-278 | a compound file is refused by its class whatever it claims to be, unless it claims and passes for HTML |
| `Upload.VideoFaultShortens` | internal/api/handlers.go:308-331 | an upload that passes screening five bytes short, and without the fault is rejected |
| `Presets.Repo.Create` | internal/presets/repo.go:89-130 | the method is the serial call `Effect`, whose guarantees the rows below state: refused with an active version, else a row at MAX(version)+1 |
| `Presets.Repo.Update` | internal/presets/repo.go:137-188 | likewise: refused without an active version, else the old one retired and a row at version+1 |
| `Presets.Repo.Deactivate` | internal/presets/repo.go:193-215 | likewise: refused without an active version, else that one retired |
| `Presets.EffectKeeps` | internal/presets/repo.go:89-215 | every call keeps the table invariant and changes no row except by retiring an active one |
| `Presets.CallTakesEffect` | internal/presets/repo.go:89-215 | a refused call changes nothing; a successful one touches only its key and leaves exactly the requested row active, or none after a deactivation |
| `Presets.OwnCallResolves` | internal/presets/repo.go:40-62 | what a client creates or updates is what its next Resolve returns |
| `Presets.NoCollision` | internal/presets/repo.go:76-88 | with a fresh id each error is answered only for its documented reason, so neither MAX(version)+1 nor version+1 ever hits the unique index, and a success names the right version |
| `Presets.ReachableTables` | internal/presets/repo.go:25-30 | after any serial calls on the empty table each key has versions exactly 1 to n in insertion order, and an active row is version n |
| `Presets.RunKeeps` | internal/presets/repo.go:132-136 | over every run no row disappears, moves or changes its content |
| `Presets.ResolveExact` | internal/presets/repo.go:50-62 | resolving succeeds exactly when an active row is visible, gives the client's own exactly when it has one, and the newest version of its key |
| `Presets.ListedIffResolved` | internal/presets/repo.go:296-336 | a row is in the active merged list if and only if it is what Resolve returns for its name |
| `Presets.ListIsResolved` | internal/presets/repo.go:287-369 | the active merged list has exactly one row per resolvable name and no other, the one Resolve and GetForClient return |
| `Presets.FullListIs` | internal/presets/repo.go:287-311 | the full list is the client's own rows and the system rows of names that do not resolve to the client's own; its active rows are the active list |
| `Presets.PresetJobIsCurrent` | internal/api/handlers.go:581-618 | whatever calls come between the two lookups and whatever the option validators do, a job is created exactly when both lookups give the same row and it is valid, and it carries that row's validated target and options, name and version |
| `Transcode.PrimaryStream` | internal/convert/avduration.go:116-137 | the first of the largest streams that are not cover art, of all if all are |
| `Transcode.OnePrimary` | internal/convert/avduration.go:111-115 | that stream is unique |
| `Transcode.MaxHeight` | internal/convert/avduration.go:144-152 | the tallest stream, cover art included |
| `Transcode.CheckStreams` | internal/convert/avduration.go:83-109 | no stream, an implausible one, or neither, each exactly |
| `Transcode.Guard` | internal/convert/av.go:545-580 | the guards on streams, duration, height and disk refuse exactly in their order, with defaults for limits left at zero |
| `Transcode.PlanTranscode` | internal/convert/av.go:545-704 | for any source, limits and validated applicable options: refused by the first guard that refuses, or when it would have to be encoded and is above 1920x1080; otherwise the plan maps the primary stream, stays in the container's codec contract, gives a requested height, and delivers a requested codec except h264 on webm |
| `Transcode.CopyOnlyWhenNothingAsked` | internal/convert/av.go:690-704 | a stream copy is chosen if and only if the source already meets the contract and every option |
| `Transcode.IgnoredCodecStillRefuses` | internal/convert/avopts.go:159-161 | the h264 option on webm turns the copy of a large source into a refusal |

## Left out

- `PGAdvisoryLock` and `RunWithLock`: that at most one sweep runs at a time is built into the step system, not derived from the lock.
- Liveness that needs a fair scheduler; bounds and measures are proved instead.
- asynq, Redis and Postgres themselves: the lock, the retry count and the atomic transaction are taken as the comments describe them. One clock serves all of them.
- The worker handlers are steps of `Protocol`, not methods of their own; conversion is a given outcome (success, terminal or transient error), and the tables of stderr fragments that decide it are not modelled.
- Error codes, messages, reasons and other detail of job events beyond the action tag.
- Concurrent preset operations, deletion of a client's presets with the client, and presets of operations other than convert.
- `Presets.PresetJobIsCurrent`: takes the option validators as a given function of the preset's content.
- `Presets.ListIsResolved`: says nothing about the order of the list, which SQL sorts by name.
- `RetryBudget.DelayWithinCeiling`: computes jitter in real numbers, without the rounding of 64-bit floats.
- `Lanes.LockOutlivesTask`: assumes the whole attempt is within the timeout, though the code bounds process() for conversions and only the HTTP call for webhooks.
- `Tiff.ReadDimensions`: buffers of 4 GiB and more, where 32-bit slice bounds wrap and the program panics; its caller passes at most 64 KiB.
- `Upload.Detect`: takes the ZIP inspection and the HTML check as given functions of the file.
- `Upload.Screen`: stops before the call of storage, which receives the declared size beside the stream.
- `Upload.VideoFaultShortens`: shows what passes screening; whether storage notices that the stream is shorter than declared is not modelled.
- `Upload.AcceptedIsRecognised`: says nothing more about Office and HTML uploads, which the inspections decide.
- `Transcode.PlanTranscode`: planning only; ffmpeg's arguments are the fields of a plan, areas are unbounded integers, and the disk guard's factor is a real number.
- Thumbnails and audio extraction, option parsing from JSON, HTTP, authentication, callback URL checks, storage, metrics, rate limiting, the front end and the MCP server.
