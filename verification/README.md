# Deployment and stream-verification model

This project models the parts of the camera-log platform's `scripts/` directory that have to be right
under crashes, interleavings and arbitrary input, and proves what they promise.

* **Replacing the Worker** (`worker_recovery.dfy`). A deployer that prepares a database token, writes a
  journal, stops the old container, confirms the stop, completes the token and starts the new
  container, and that may die between any two of these. Containers may exit, be woken or be removed at
  any time. A history is any sequence of actions.
* **Reading a log that rolls over** (`rolling_log.dfy`, `rolling_schedule.dfy`, `tail_logs.dfy`,
  `tail_schedule.dfy`).
  Observers poll while a writer appends, seals and publishes. The writer's only promise is that a file
  no longer changes once its successor is listed.
* **Checking the streams** (`bytes.dfy`, `log_line.dfy`, `load_source.dfy`, `line_check.dfy`,
  `download_check.dfy`, `realtime.dfy`, `visibility.dfy`, `tail_visibility.dfy`, `batch_latency.dfy`). The tick schedule of the
  load source, line reassembly over chunks, members, files and frames, per-route numbering, the
  two-stream visibility check, and the latency histogram.
* **Configuration text** (`dotenv.dfy`, `percent.dfy`, `url.dfy`, `mongo_uri.dfy`, `platform.dfy`,
  `native_env.dfy`). Writers and readers of dotenv files, systemd environment files and MongoDB
  addresses.
* **Native installations over time** (`native_deploy.dfy`, `native_resume.dfy`, `native_files.dfy`,
  `mongo_bootstrap.dfy`, `nfs_teardown.dfy`).
  The installation marker and the address migration, the resumable database bootstrap, and the guarded
  teardown of the NFS check.

Code that changes state step by step is a class or a method with loops, proved equal to a specification
function (or against a stated postcondition); the theorems are about those functions over every
input, every schedule and every history. `results.dfy` holds the two shared result types.

What the environment does is a parameter: commands have outcomes, a history holds the events of the
environment, and the methods in `rolling_log.dfy` and `worker_recovery.dfy` let it act before every
step. Time is real, SHA-256 is represented by the bytes it has absorbed, a digest of a configuration
by the configuration, and a byte by the character with its code.

## Findings

These are properties that hold only under a condition; each is stated with its exact condition.

* `scripts/benchmark_read_latency.py:81-113` switches files on an empty read made before the catalogue
  was asked. A schedule that skips bytes exists as soon as any file but the last holds data
  (`RollingSchedule.SkippingExact`). `observe_read_latency` reads again after every discovery and never
  skips.
* The dotenv reader does not undo every escape the writer produces: a value survives exactly when all
  its characters are printable ASCII, newline, carriage return or tab (`Dotenv.QuoteDecodes`). The
  writer edits the first assignment of a key and the reader keeps the last, so on a file that sets the
  key twice a write has no effect on what is read (`Dotenv.ReplaceReads`, `Dotenv.ReplaceExact`).
* Dying between any two steps of the Worker replacement is always recoverable by a retry with the same
  settings, as long as no second worker is started and nobody removes a container the protocol still
  needs (`WorkerRecovery.CrashesRecover`). A retry is stuck exactly when the state is not
  `Recoverable` (`WorkerRecovery.RecoveryExact`); there are histories to each of the three causes: a
  journal of another Compose prefix, a removed container, two running workers
  (`WorkerRecovery.StuckOnOtherSettings`, `StuckOnRemoval`, `StuckOnTwoWorkers`).
* A first native deployment that stops between making its directories and writing its marker leaves a
  root every later deployment refuses (`NativeDeploy.HalfPreparedIsStuck`). A crash inside an atomic
  write leaves a temporary file that blocks its component for good (`NativeDeploy.TornWriteIsStuck`).
  Deployments with one configuration resume exactly where neither is in the way
  (`NativeResume.InterruptedResumes`), and so do migrations (`NativeResume.MigrationResumes`); a first
  start cut off inside a write is stuck (`NativeResume.BootstrapCanTear`).
* A configuration file gives back the settings it was created from exactly when no value holds a control
  character, outer white space, or one of the further characters at which the reader splits lines, such as
  U+2028 (`NativeEnv.CreatedReads`).
* A mount recorded as mounted but no longer mounted is never given up by the NFS teardown, because
  `umount` then fails: its directory and the root are preserved (`NfsTeardown.CleanupExact`).
* `scripts/benchmark_file_visibility.py:283` calls the tail reader's last pass a final scan. The code
  looks at the stop flag after a pass. Everything written before the flag is certain to be read exactly
  when the flag was set while the reader was about to list (`TailSchedule.FlagExact`, with a run that
  ends well and misses bytes for every other place in `TailSchedule.LateFlag`). Behind a complete
  aggregator this does no harm, because completeness alone proves that every byte was read
  (`TailVisibility.CompleteMeansAllRead`).
* The sizes of the reads are irrelevant to the download verdict exactly when the undivided text is
  rejected anyway, no line exceeds the pending limit of 65558 bytes, or some line is longer than 131093
  bytes and so rejected by every sequence of reads (`LineCheck.ChunkingExact`).

## Model

| member | source | states |
|---|---|---|
| WorkerRecovery.CompleteOnlyAfterStopSeen | scripts/deploy_component.py:176-257 | in every history, with crashes anywhere, each `complete` directly follows an inspect that saw the one container stopped that was listed when that token was prepared, and every other command comes only where the program issues it: a journal is written directly behind a listing and a `prepare` that succeeded, a stop directly behind the journal, an inspect behind a stop that succeeded, another inspect or an own journal found |
| WorkerRecovery.NothingAfterRefusal | scripts/deploy_component.py:151-152 | behind a `prepare`, stop, `complete` or `up` that failed the next command, if there is any, is the listing of a new run |
| WorkerRecovery.NoUpWhileJournaled | scripts/deploy_component.py:241-257 | while a journal exists, no `up` has been issued since it was written |
| WorkerRecovery.JournaledTokenSurvives | scripts/deploy_component.py:188-198 | a journaled token is forgotten only after it was completed, or when a later run journaled a token of its own |
| WorkerRecovery.NeverTwoWorkers | scripts/deploy_component.py:213-255 | if only the deployer starts containers there is never more than one worker, and none when `up` is about to be issued |
| WorkerRecovery.RecoversFrom | scripts/deploy_component.py:201-257 | from every recoverable idle state, however it came about, one uninterrupted cooperative run ends with exactly the new worker, no journal, and any journaled stopped-but-uncompleted token completed |
| WorkerRecovery.AlwaysResumable | scripts/deploy_component.py:201-257 | at every step of every history with one setting, at most one worker at a time and no removal of a container the protocol still needs, what a retry will need is there |
| WorkerRecovery.CrashesRecover | scripts/deploy_component.py:201-257 | from every point where such a history can be interrupted, one uninterrupted cooperative run ends with exactly the new worker up, the journal gone and a journaled stopped token completed |
| WorkerRecovery.OwnCrashesRecover | scripts/deploy_component.py:201-257 | in particular after any number of runs with the same settings, crashed anywhere, while nobody else starts or removes containers |
| WorkerRecovery.StuckOnOtherSettings | scripts/deploy_component.py:216-217 | a history whose retry is stuck because the journal belongs to other settings |
| WorkerRecovery.StuckOnRemoval | scripts/deploy_component.py:176-185 | a history whose retry is stuck because the journaled container was removed |
| WorkerRecovery.StuckOnTwoWorkers | scripts/deploy_component.py:209-212 | a history whose deployment is stuck because two workers run |
| WorkerRecovery.OtherwiseStuck | scripts/deploy_component.py:213-218 | from any other state no outcomes of the run's own commands ever lead to `up` or `complete` |
| WorkerRecovery.RecoveryExact | scripts/deploy_component.py:201-257 | some uninterrupted run deploys a worker if and only if the state is recoverable |
| WorkerRecovery.Deployer.StoppedContainer | scripts/deploy_component.py:176-185 | polling: true only after an inspect that saw the container stopped; gives up on an unreadable container or on time |
| WorkerRecovery.Deployer.ResumeOrStart | scripts/deploy_component.py:213-233 | without a running worker: a first start happens only without a journal, a replacement completes the journaled token, and a failure never follows a successful `up` |
| WorkerRecovery.Deployer.Resume | scripts/deploy_component.py:218-226 | an own journal: the result fits the commands issued behind the listing, and success completes exactly the journaled token |
| WorkerRecovery.Deployer.ReplaceRunning | scripts/deploy_component.py:234-257 | with a running worker: a `prepare`, stop, `complete` or `up` that fails ends the run as failed; success names the token this run prepared behind its listing and ends in completed, unlinked, started; every execution is a history of the protocol |
| WorkerRecovery.Deployer.StopAndFinish | scripts/deploy_component.py:243-257 | success names the very token that was journaled and ends in completed, unlinked, started |
| WorkerRecovery.Deployer.CompleteAndStart | scripts/deploy_component.py:218-226 | success means the token was completed, then the journal unlinked, then the worker started; otherwise no `up` succeeded |
| WorkerRecovery.Deployer.DeployWorkerWithRecovery | scripts/deploy_component.py:201-257 | every execution, with the environment acting between steps, is a history of the protocol; a failed build or an unanswered listing issues nothing; success means that no command of this run failed and that it listed nothing and started the worker, or completed a token, unlinked the journal and started the worker; a failure ends behind a command that failed, a stop not confirmed, or a foreign journal |
| Bytes.SplitRebuilds | scripts/service_benchmark_io.py:198-203 | the pieces of `split` rebuild the buffer and hold no newline |
| Bytes.SplitUnique | scripts/service_benchmark_io.py:198-203 | there is only one such list of lines and rest |
| Bytes.SplitAcross | scripts/service_benchmark_io.py:198-203 | carrying the half line and splitting it with the next chunk finds exactly the lines of the whole |
| LogLine.HeaderExact | scripts/service_benchmark_realtime.py:37-41 | the header expression matches exactly the texts written with two digit strings, and captures their values |
| LogLine.StampExact | scripts/service_benchmark_io.py:153-162 | a line is stamped exactly when it begins with a written-out second of the calendar, in brackets and followed by a space |
| LogLine.MonthLengths | scripts/service_benchmark_io.py:158-160 | which dates there are: the lengths of the months and the century rule |
| LogLine.CompleteExact | scripts/service_benchmark_realtime.py:27-45 | a line is complete for a route, width and sequence number exactly when it begins with a written-out time, has the width behind it, and goes on with that route and number in digits |
| LogLine.HexPaddedReads | scripts/service_benchmark_io.py:55-55 | the filling token tells the route and the sequence number in hexadecimal |
| LogLine.LineText | scripts/service_benchmark_io.py:50-58 | every character behind the prefix of an emitted line is that of the token, over and over, up to the newline |
| LogLine.LineReadsBack | scripts/service_benchmark_io.py:50-58 | an emitted line behind any valid stamp is read back as its route, sequence number and exact body |
| LoadSource.SpanBytes | scripts/service_benchmark_io.py:50-58 | n sent lines are exactly n times the configured width |
| LoadSource.DueShare | scripts/service_benchmark_io.py:104-105 | at every tick the lines due are the share of the second, rounded down |
| LoadSource.Source.Payload | scripts/service_benchmark_io.py:107-113 | one tick's payload is the consecutive lines due, or an error when one does not fit |
| LoadSource.Source.Tick | scripts/service_benchmark_io.py:104-121 | one tick sends and counts exactly the lines due and reports them as one contiguous batch; if the connection or the callback fails, exactly those lines were handed over |
| LoadSource.Source.Emit | scripts/service_benchmark_io.py:91-127 | succeeds once, exactly when every line due fits and nothing failed; has then sent exactly seconds times rate lines; wherever it stops, exactly the share of the seconds passed, rounded down, is counted and at most one more tick was handed over |
| LineCheck.AcceptsNumbered | scripts/service_benchmark_io.py:153-174 | a text is accepted exactly when every line is readable and per route numbered from zero without a gap; counts and digests are then those of each route's projection |
| LineCheck.ReadableText | scripts/service_benchmark_io.py:153-168 | which lines are readable, and as which route and sequence number: a written-out time, then these in digits |
| LineCheck.BodyBytes | scripts/service_benchmark_io.py:153-204 | stored bytes are the body bytes plus 22 for each line |
| LineCheck.CarriedAlways | scripts/service_benchmark_io.py:197-204 | what is carried between chunks is always a half line within the limit |
| LineCheck.AcceptedIsWhole | scripts/service_benchmark_io.py:197-204 | an accepted cutting of a text gives the same books as the undivided text |
| LineCheck.ShortIsWhole | scripts/service_benchmark_io.py:197-204 | with no line over the limit, every cutting gives the verdict and the books of the whole |
| LineCheck.ReadableExact | scripts/service_benchmark_io.py:197-204 | some sequence of reads of at most 64 KiB is accepted if and only if the whole is acceptable and no line is longer than 131093 bytes |
| LineCheck.ChunkingExact | scripts/service_benchmark_io.py:197-204 | the results of all sequences of reads of at most 64 KiB agree if and only if the whole is rejected, or no line exceeds the limit, or some line is longer than 131093 bytes |
| DownloadCheck.MembersExact | scripts/service_benchmark_io.py:177-204 | the members are read exactly when each is an admissible, unrepeated, consecutively numbered part and their chunks are accepted as one stream |
| DownloadCheck.VerifyExact | scripts/service_benchmark_io.py:224-241 | with no line over the limit a download is accepted if and only if it is well made and its text is gapless on every route, complete, and has the expected digest and count |
| DownloadCheck.VerifySound | scripts/service_benchmark_io.py:224-241 | what any returned report proves about the downloaded text, without assumptions on line lengths |
| DownloadCheck.EmittedAccepted | scripts/service_benchmark_io.py:91-241 | whatever the source emitted, however stamped, chunked and packed into well made downloads, is accepted with the source's own digest and count |
| DownloadCheck.Checker.Line | scripts/service_benchmark_io.py:153-174 | the dictionary updates of one line are the specified step, and a rejected line reports failure |
| DownloadCheck.Checker.Members | scripts/service_benchmark_io.py:177-221 | the nested loops over archives and members are the specified reading of all members |
| DownloadCheck.VerifyDownload | scripts/service_benchmark_io.py:224-241 | the mutable verifier returns exactly the specified verdict and report |
| DownloadCheck.PartNumberExact | scripts/service_benchmark_io.py:21-21 | a name is that of part n exactly when it is anything empty or ending in a hyphen, then `part-`, digits of value n and `.log` |
| DownloadCheck.PackedExact | scripts/service_benchmark_io.py:177-197 | archives are well packed exactly when in each the i-th member is a regular log file within the limit named as part i, and no two archives of one file name share a member name |
| DownloadCheck.WellMadeExact | scripts/service_benchmark_io.py:207-230 | a download list is well made exactly when there is one, every ZIP is a non-empty bundle of distinct stored hour archives, and all archives together are well packed |
| DownloadCheck.CollectedAccepted | scripts/service_benchmark_io.py:91-241 | what the source emitted is accepted from any archives of different names whose members are named as the collector names them, a stem and the part number padded to six digits |
| BatchLatency.RankBucket | scripts/service_benchmark_latency.py:46-50 | the scan over the buckets has reached its rank exactly from the bucket of the true nearest-rank percentile on |
| BatchLatency.NothingLost | scripts/service_benchmark_latency.py:24-40 | under any interleaving, settled batches followed by pending ones are the recorded ones; settled samples plus pending lines are the recorded lines |
| BatchLatency.Watermark | scripts/service_benchmark_latency.py:31-40 | the watermark is the largest line count observed |
| BatchLatency.HeadOnlyIsExact | scripts/service_benchmark_latency.py:34-40 | looking only at the head of the queue settles exactly the batches read completely |
| BatchLatency.FinishedCanReport | scripts/service_benchmark_latency.py:42-54 | once everything the source sent is recorded and read, nothing is pending and the samples are seconds times lines per second: the report cannot fail |
| BatchLatency.NoteRead | scripts/service_benchmark_latency.py:94-94 | reporting how far was read keeps the books those of one forward history |
| BatchLatency.Produce | scripts/service_benchmark_io.py:109-121 | the emitter records consecutive batches beside the observer while the tracker takes them, and reports itself finished only behind the last line |
| BatchLatency.ReportAtEnd | scripts/service_benchmark_latency.py:95-98 | with everything sent and read the report fails exactly where nothing was expected, and otherwise is true of every line sent |
| BatchLatency.Tracker.Settle | scripts/service_benchmark_latency.py:34-40 | settles exactly the ripe batches and keeps the histogram equal to their weights |
| BatchLatency.Tracker.ObserveAt | scripts/service_benchmark_latency.py:31-40 | the new books are the specified ones |
| BatchLatency.Tracker.RecordBatch | scripts/service_benchmark_latency.py:24-29 | refused exactly when the queue is full, and then nothing changes; the queue never exceeds its bound |
| BatchLatency.Tracker.FindBucket | scripts/service_benchmark_latency.py:46-51 | the loop always ends in a bucket, and it is the one of the true percentile |
| BatchLatency.Tracker.MakeReport | scripts/service_benchmark_latency.py:42-54 | fails exactly without samples or with something pending; otherwise, counted over the lines themselves, at least 99 of 100 lines were settled within `p99Ms`, `within200Ms` says whether at least 99 of 100 were within 0.2 seconds, `p99Ms` is then the least such whole number and otherwise `maxMs`, and `maxMs` is the longest wait |
| BatchLatency.RankWeights | scripts/benchmark_read_latency.py:23-26 | the reference percentile, the nearest-rank element of the sorted latencies of all lines, is told by counting: fewer than the rank lie below it and at least the rank do not exceed it |
| BatchLatency.RankShares | scripts/benchmark_read_latency.py:23-26 | the reference percentile in shares: fewer than 99 of 100 lines lie below it, at least 99 do not exceed it |
| BatchLatency.SettledWhen | scripts/service_benchmark_latency.py:24-40 | a batch is settled with the time of the observation that made it complete, or, recorded only after that, of the latest one; nothing settled before changes |
| RollingLog.UptoStable | scripts/service_benchmark_latency.py:65-117 | what was read before a position is not changed by anything the writer may still do |
| RollingLog.EndIsFinal | scripts/service_benchmark_latency.py:107-112 | an empty read made after the successor was discovered is final: whatever is written later, what lies before that offset is the stream through the whole file |
| RollingLog.Switch | scripts/service_benchmark_latency.py:113-116 | leaving a file read to that end loses nothing |
| RollingLog.CheckLines | scripts/service_benchmark_latency.py:84-93 | the lines accepted so far are those of everything consumed, in order |
| RollingLog.Poll | scripts/service_benchmark_latency.py:66-83 | an answer passes if and only if it is about the file asked for, ends behind its data and is of the one session; it then extends what was consumed by exactly the bytes behind the offset, and an empty one is the end of the file at that moment |
| RollingLog.Discover | scripts/service_benchmark_latency.py:99-107 | one catalogue request queues exactly the new files, in order |
| RollingLog.Advance | scripts/service_benchmark_latency.py:99-117 | the end of a pass keeps what was consumed: behind an empty read a new file is looked for, the old one is read again once something new was seen, and it is left only for the next in the queue |
| RollingLog.ObserveReadLatency | scripts/service_benchmark_latency.py:57-119 | under every interleaving with the writer what was consumed is a prefix of the writer's stream; when it verifies, that prefix is exactly the expected lines with the source's digest and nothing more, it spans exactly the files counted, and the tracker's report, which the emitter fed beside it, is true of every line; when it fails there is a cause: an unfitting answer, a wrong line, a wrong digest, nothing expected, or the time |
| RollingSchedule.RereadingNeverSkips | scripts/service_benchmark_latency.py:107-112 | reading again after every discovery is lossless for every plan of files and every schedule |
| RollingSchedule.SkippingExact | scripts/benchmark_read_latency.py:81-113 | without the second read, all schedules are lossless if and only if every file but the last is empty |
| Visibility.InterleavingFree | scripts/benchmark_file_visibility.py:103-128 | the verdict and the final books of any interleaving are those computed from each stream alone |
| Visibility.AlwaysConsistent | scripts/benchmark_file_visibility.py:114-128 | seen sequences of a route are always 0 to next minus one, and nothing is seen before it was received |
| Visibility.AcceptedInOrder | scripts/benchmark_file_visibility.py:114-128 | what was accepted of a route is, byte for byte, its expected lines in order: a line skipped anywhere is rejected |
| Visibility.AcceptedExact | scripts/benchmark_file_visibility.py:103-128 | a sequence of events is accepted if and only if each one is lawful on its own account of what came before (known, unrepeated, in order, unaltered, not seen before received), and the books then hold exactly what happened |
| Visibility.CompleteCanReport | scripts/benchmark_file_visibility.py:130-149 | once complete, no latency is negative, no sequence is missing, and every route was seen whole |
| Visibility.Aggregator.Receive | scripts/benchmark_file_visibility.py:103-112 | accepts exactly what the specified step accepts |
| Visibility.Aggregator.See | scripts/benchmark_file_visibility.py:114-128 | accepts exactly what the specified step accepts |
| Visibility.Aggregator.Digests | scripts/benchmark_file_visibility.py:143-149 | there is exactly one digest for each expected route |
| Visibility.PercentileCounts | scripts/benchmark_file_visibility.py:159-161 | in shares of the lines and in seconds: fewer than the fraction were seen sooner than the reported latency, and at least the fraction within it |
| Visibility.Aggregator.NeverFires | scripts/benchmark_file_visibility.py:138-142 | in a complete aggregator the checks for negative latency and missing sequences cannot fire |
| Visibility.Aggregator.MakeReport | scripts/benchmark_file_visibility.py:134-161 | fails exactly when incomplete or when nothing was expected; the percentiles and the maximum are the nearest-rank values of the lines' latencies, and each route's digest is that of what was seen of it |
| TailLogs.ParseVisibleLines | scripts/benchmark_file_visibility.py:78-91 | the append loop parses exactly the complete lines and returns the half line, or rejects |
| TailLogs.ReadFile | scripts/benchmark_file_visibility.py:182-206 | one listed file is read to its end, unless it has vanished, and what was read stays, file by file and in order, a prefix of what was written |
| TailLogs.ReportLines | scripts/benchmark_file_visibility.py:205-207 | one read reports exactly the lines it completes, across volumes and half lines; nothing when one of them cannot be parsed, and a first part of them when the queue stays full; it says which |
| TailLogs.TailLogs | scripts/benchmark_file_visibility.py:173-216 | whenever and however it ends, a full queue between two lines included, under every interleaving with the collector, deletions and the flag, the reports are exactly the complete lines of a prefix of what was read; on a good end of all of it, and everything the last listing could show was read except from vanished files, and with the flag set before that listing everything written before the flag; every other end has its cause: an unparsable line, a full queue, a half line left over, or the passes being used up |
| TailVisibility.CompleteMeansAllRead | scripts/benchmark_file_visibility.py:114-132 | if any interleaving of a first part of the reports with other events is accepted and complete, every byte of every file of the route was read and nothing else |
| TailVisibility.LossNeverCompletes | scripts/benchmark_file_visibility.py:186-199 | if a file vanished unread, or any byte is unread, no interleaving completes, whatever half lines were glued over the gap |
| TailVisibility.ToldLater | scripts/benchmark_file_visibility.py:173-216 | what a reader told stays true of the files as they are later |
| TailSchedule.AlwaysCovered | scripts/benchmark_file_visibility.py:181-216 | on every schedule, a flag set before a listing makes that pass read all that was written before it |
| TailSchedule.LateFlag | scripts/benchmark_file_visibility.py:181-216 | for every place behind the listing, a schedule that ends well with bytes unread that were written before the flag |
| TailSchedule.FlagExact | scripts/benchmark_file_visibility.py:181-216 | a good end means that everything written before the flag was read if and only if the flag was set while the reader was about to list |
| TailLogs.ProbeLineParses | scripts/benchmark_file_visibility.py:70-91 | a probe line is reported with its route, number and text if and only if the route has at most four digits and the sequence at most nine |
| TailLogs.ParseExact | scripts/benchmark_file_visibility.py:78-91 | a line is reported exactly when it is a stamp, four digits of this route, nine digits of a sequence number and any text; it is then reported with that number and everything behind the stamp |
| Realtime.Receive | scripts/service_benchmark_realtime.py:80-144 | one pass of the receiving loop is the specified step |
| Realtime.RunExact | scripts/service_benchmark_realtime.py:75-144 | frames are accepted exactly when they are a well-formed cutting whose text is correctly numbered complete lines with bounded halves; the state is then their summary |
| Realtime.OneSession | scripts/service_benchmark_realtime.py:112-115 | a well-formed cutting has one session |
| Realtime.NoRevisit | scripts/service_benchmark_realtime.py:121-126 | a file once left is never seen again |
| Realtime.Contiguous | scripts/service_benchmark_realtime.py:116-129 | every frame begins exactly where the delivered bytes of its file end, from offset zero |
| Realtime.ObserveRealtime | scripts/service_benchmark_realtime.py:48-150 | returns normally if and only if width and timeout are positive and some prefix of the messages delivers exactly the expected lines with nothing left over, and reports that prefix |
| Realtime.EmittedObserved | scripts/service_benchmark_realtime.py:27-150 | every well-formed cutting of the stamped source lines into frames delivers them |
| Dotenv.DecodeDoubleQuoted | scripts/deploy_cluster.py:17-32 | the index loop computes the specified decoding |
| Dotenv.DecodeSingleQuoted | scripts/deploy_cluster.py:35-47 | the index loop computes the specified decoding |
| Dotenv.SingleReads | scripts/deploy_cluster.py:61-69 | any value whose backslashes and single quotes are each escaped reads back between single quotes as the value |
| Dotenv.QuoteDecodes | scripts/deploy_cluster.py:17-32 | decoding the quoted form gives the value back if and only if every character is printable ASCII, newline, carriage return or tab |
| Dotenv.ReadEnvironment | scripts/deploy_cluster.py:50-74 | the reader's loop computes the specified mapping, last assignment winning, or fails on the first malformed line |
| Dotenv.AssignmentExact | scripts/deploy_cluster.py:14-14 | which texts are assignments, and of what: a name, blanks, an equals sign and a value of one line |
| Dotenv.MatchedExact | scripts/deploy_cluster.py:14-14 | a line counts as an assignment exactly when it is one or is one behind `export` and blanks, and then means the same |
| Dotenv.BareReads | scripts/deploy_cluster.py:71-73 | an unquoted value without outer white space, quote or comment stands for itself |
| Dotenv.CommentCut | scripts/deploy_cluster.py:71-73 | a comment behind it, set off by white space, is cut away |
| Dotenv.LinesSplitAt | scripts/deploy_cluster.py:53-53 | a line ends at every line break the reader knows and at nothing else |
| Dotenv.LinesReadBack | scripts/deploy_cluster.py:148-163 | the written text splits back into the written lines |
| Dotenv.RenderedReads | scripts/deploy_cluster.py:149-149 | a rendered line is one line, sets its key, and reads as its value is spelled |
| Dotenv.ReplaceReads | scripts/deploy_cluster.py:144-166 | reading after replacing changes no other key; the key reads as spelled unless a later line sets it again |
| Dotenv.ReplaceExact | scripts/deploy_cluster.py:144-166 | the reader sees exactly the written value if and only if all characters survive and the key is set once, or the later setting already was that value |
| Dotenv.ReplaceTwice | scripts/deploy_cluster.py:150-156 | writing again replaces what was written before and adds nothing |
| Dotenv.EnvFile.ReplaceValue | scripts/deploy_cluster.py:144-169 | refuses a link and a leftover temporary file without touching the text; otherwise leaves exactly the replaced lines |
| Percent.Utf8Injective | scripts/deploy_cluster.py:209-209 | different texts have different UTF-8 encodings |
| Percent.QuoteInverts | scripts/deploy_cluster.py:209-209 | percent-decoding a quoted text gives back its UTF-8 octets |
| Url.Reassembled | scripts/deploy_cluster.py:84-88 | an address put together from delimiter-free parts is split into the same parts |
| Url.CredentialsBack | scripts/deploy_cluster.py:84-88 | credentials before a host list are split off exactly |
| Url.EntryBack | scripts/deploy_cluster.py:84-88 | one host and port entry reads back as the lower-cased host and the port |
| MongoUri.BuiltSplits | scripts/deploy_cluster.py:208-209 | whatever the credentials contain, the built address splits into its own network location, database path and query |
| MongoUri.CredentialsExact | scripts/deploy_cluster.py:208-209 | the credentials come back exactly when percent-decoded, and the host list is untouched by them |
| MongoUri.HostsExact | scripts/deploy_cluster.py:84-88 | the members are exactly one lower-cased host per port |
| MongoUri.MembersExact | scripts/deploy_cluster.py:208-209 | the host list splits at its commas into one member per port, in the ports' order, each reading back as the host and that port |
| MongoUri.BuildInjective | scripts/deploy_cluster.py:208-209 | equal addresses come from equal credentials, host, ports and database |
| MongoUri.RoutableLower | scripts/deploy_cluster.py:91-102 | a routable host is a host name and stays routable in lower case |
| MongoUri.DottedRoutable | scripts/deploy_cluster.py:91-102 | an IPv4 address is routable exactly when its first number is not 127 and not all four are 0 |
| MongoUri.BuiltAccepted | scripts/deploy_cluster.py:105-122 | the built address passes the shared check if and only if its member count is allowed and its lower-cased host is routable and not a private name; it then names its database |
| MongoUri.BuiltPlain | scripts/deploy_cluster.py:208-215 | the built address consists of characters that survive the dotenv file |
| Platform.AddressChecked | scripts/deploy_cluster.py:187-211 | after the checks on the settings only the private-name check on the finished address can still fail |
| Platform.AddressStable | scripts/deploy_cluster.py:187-216 | writing the address does not change what it is derived from |
| Platform.PreparePlatform | scripts/deploy_cluster.py:187-216 | succeeds if and only if the file is readable, acceptable and writable; otherwise the file is unchanged. The written address, parsed, has the file's user name and password percent-decoded, its database as the path, the fixed query, and as members its host at `MONGO_PORT_1`, `MONGO_PORT_2` and `MONGO_PORT_3` in that order; the file reads back as exactly the returned values when the key was set at most once |
| Platform.BuiltNames | scripts/deploy_cluster.py:208-209 | the built address carries, parsed, exactly what it was built from |
| Platform.IntReads | scripts/deploy_cluster.py:201-203 | a port written in plain decimal is read as that number |
| Platform.UnfilledRefused | scripts/deploy_cluster.py:77-81 | a missing or empty setting, or one with a placeholder anywhere in it, refuses the file |
| Platform.SharedRefused | scripts/deploy_cluster.py:105-107 | so does one of the shared secrets |
| Platform.AcceptableSays | scripts/deploy_cluster.py:187-211 | an accepted file has three different ports in range, a plain database name, and a host that is neither local nor a private name |
| NativeEnv.ChainedReplaces | scripts/native_units.py:7-10 | the two chained replacements escape character by character |
| NativeEnv.PrintedReads | scripts/native_units.py:7-10 | a printed value is a legal JSON string that reads back as the value if and only if it holds no control character |
| NativeEnv.JsonInverts | scripts/deploy_native.py:51-69 | the JSON reader gives back every text from its printed form, whatever it holds |
| NativeEnv.ReadConfig | scripts/native_config.py:106-118 | the loop computes the specified configuration or fails |
| NativeFiles.KeysAccepted | scripts/native_config.py:106-118 | every key the deployment looks up is one the configuration reader takes |
| NativeFiles.KeysRefused | scripts/native_config.py:106-118 | a key with any other character than a capital, or behind the first a digit or underscore, is refused |
| NativeEnv.CreatedReads | scripts/native_config.py:87-118 | the text of a created file, heading and comments included, gives back its settings if and only if no value holds control characters, outer white space or anything else at which a line is split |
| NativeEnv.ReadPublished | scripts/deploy_native.py:51-69 | the loop computes the specified mapping or fails |
| NativeEnv.EnvironmentReads | scripts/deploy_native.py:51-69 | a published environment reads back as exactly the entries it was made from |
| NativeEnv.ConfigRoundTrip | scripts/native_config.py:106-118 | for every configuration text the parser accepts, the published file reads back as the same mapping |
| NativeEnv.ApiReads | scripts/native_units.py:45-53 | the published API file, read back, holds every configured key but the two secrets with its configured value, the API's log root as `LOG_ROOT`, and nothing else |
| NativeEnv.WorkerReads | scripts/native_units.py:45-53 | the published Worker file likewise, with its own log root |
| NativeDeploy.OnlyHostText | scripts/deploy_native.py:100-107 | for addresses written out in full, an accepted migration replaces the host in the text and nothing else |
| NativeDeploy.MigrationFitsAll | scripts/deploy_native.py:86-120 | a migration is compared with `api.env` alone; in every history the settings it accepts agree in the same sense with the Worker's file and with the marker |
| NativeDeploy.FilesAgree | scripts/deploy_native.py:123-287 | so do the two published files with each other |
| NativeDeploy.HistoryConsistent | scripts/deploy_native.py:123-287 | in every history of deployments and migrations stopped anywhere, every published file agrees with the marker on every contract key but the three about the advertised host, and on the address up to its host |
| NativeDeploy.NeverChanges | scripts/deploy_native.py:131-135 | over any further history the pinned paths, the encryption key and the published member key stay what they were, a left-over temporary file stays, and a root without a marker stays as it is |
| NativeDeploy.DeployExact | scripts/deploy_native.py:123-287 | an undisturbed deployment finishes if and only if it is admitted (its contract and paths, an empty root and data directory where there is no marker), no cut-off write is in its way, the member key is the published one, the first-start marker is absent or its own, and the database script succeeds |
| NativeFiles.NeverSecrets | scripts/native_units.py:45-53 | in every history, wherever its runs stop, neither published file holds `MONGO_ADMIN_PASSWORD` or `MONGO_REPLICA_KEY` |
| NativeFiles.FilesAsPrinted | scripts/native_units.py:45-53 | both files as printed from the configuration text read back as the mappings the deployment publishes |
| NativeFiles.FinishedTells | scripts/deploy_native.py:241-300 | a finished deployment has published, for each of its components, every configured key but the two secrets with its configured value, and as `LOG_ROOT` the API's or the Worker's |
| NativeFiles.FinishedServes | scripts/deploy_native.py:257-287 | a finished deployment of the database leaves the server running with the configured administrator, password and set name, its one member at the advertised host and port, the server configuration and the key file saying the same, and no first-start marker |
| NativeFiles.ChangedRefused | scripts/deploy_native.py:129-139 | a deployment that is not the migration refuses, changing nothing, when any pinned path or contract key differs from what the installation was made with |
| NativeFiles.MigrationRefused | scripts/deploy_native.py:86-99 | the migration refuses when any key it may not change differs from the published file |
| NativeResume.InterruptedResumes | scripts/deploy_native.py:123-287 | whatever deployments with one configuration were started on a fresh data directory, of whatever components, wherever each was stopped, inside a write or between steps, applications creating databases in between: one more undisturbed one finishes if and only if none of the files it has to write is blocked by a cut-off write and the first did not stop between directories and marker; it leaves the whole installation, the expected single-member set, exactly one administrator and no first-start marker |
| NativeResume.DatabasesKept | scripts/deploy_native.py:241-287 | no deployment or migration, wherever it stops, loses a database of its data directory |
| NativeResume.CleanStopsResume | scripts/deploy_native.py:123-287 | in particular it finishes after every history without a cut-off write and without a stop right behind the directories |
| NativeResume.BootstrapCanTear | scripts/deploy_native.py:261-275 | a first database deployment cut off inside the write of its configuration has set the first-start marker, and none that includes the database ever finishes |
| NativeResume.MigrationResumes | scripts/deploy_native.py:276-287 | however often an acceptable migration was started and wherever it stopped, before or behind the change in the database and before the marker refresh, one more undisturbed run finishes if and only if none of its files is blocked; the marker then has the new contract and the member the configured address |
| NativeDeploy.HalfPreparedIsStuck | scripts/deploy_native.py:127-188 | a first run stopped between its directories and its marker leaves a state every deployment refuses |
| NativeDeploy.TornWriteIsStuck | scripts/deploy_native.py:34-48 | once a crash inside a write has left its temporary file, no deployment that includes the component ever finishes again, whatever is deployed in between |
| NativeDeploy.WritesCanTear | scripts/deploy_native.py:34-48 | a run that leaves such a file |
| NativeDeploy.Installation.PublishDatabaseComponent | scripts/deploy_native.py:257-287 | the writes of the database component, the start of the server, the script and the marker refresh, in program order, change the installation as specified |
| NativeDeploy.Installation.DeployComponents | scripts/deploy_native.py:241-300 | checks, directories, marker and the loop over components change the installation as specified; what is then published and served is said by `NativeFiles.NeverSecrets`, `NativeFiles.FinishedTells` and `NativeFiles.FinishedServes` |
| MongoBootstrap.InitializeExact | scripts/native_database.py:144-190 | an uninterrupted run succeeds if and only if the instance is known, or initialization is allowed and there are no users, no business data and no differing set |
| MongoBootstrap.BusinessExact | scripts/native_database.py:18-18 | business data is any database but `admin`, `config` and `local` |
| MongoBootstrap.NeverRewritten | scripts/native_database.py:144-190 | wherever it stops, an initiated set is never rewritten, no database is lost, and users appear only where there were none and no business data |
| MongoBootstrap.InitializeResumes | scripts/native_database.py:144-190 | however many runs were started and wherever they stopped, another run ends exactly where one uninterrupted run would have |
| MongoBootstrap.ReconfigureExact | scripts/native_database.py:82-115 | an uninterrupted migration succeeds if and only if it authenticates and the single member already has the address or has a loopback one |
| MongoBootstrap.HostPartExact | scripts/native_database.py:98-101 | the host of an address is all of it where it has no colon, and otherwise what stands in front of the last one |
| MongoBootstrap.MemberHostExact | scripts/native_database.py:68-73 | the member's address is the configured host, a colon and digits of the configured port |
| MongoBootstrap.OnlyHostMoves | scripts/native_database.py:102-104 | a migration changes the one member's host from a loopback, raises the version by one, and changes nothing else |
| MongoBootstrap.ReconfigureConverges | scripts/native_database.py:82-115 | however many migrations were started and wherever they stopped, another ends where one uninterrupted run would have, and one more reports no change |
| MongoBootstrap.MarkerMeansEmpty | scripts/deploy_native.py:261-265 | in every history, the first-start marker was written by a deployment with the marker's configuration that found the directory empty |
| MongoBootstrap.CreatesOnlyIfFoundEmpty | scripts/deploy_native.py:276-285 | a set is initiated or a user created only without users and if a deployment with the same configuration found the directory empty; a user only without business databases |
| MongoBootstrap.ServedExact | scripts/deploy_native.py:276-287 | from the start of the server on, a deployment finishes if and only if the first-start marker is absent or its own and the script accepts the instance; the marker is then gone and the instance known |
| MongoBootstrap.BootstrapResumes | scripts/native_database.py:144-190 | of the database steps taken by themselves (first-start marker, server start, script), applications creating databases in between: however many runs with one configuration were started and between whichever steps they stopped, one uninterrupted run ends with the expected set, exactly one administrator and no marker, and a further one changes nothing; `NativeResume.InterruptedResumes` has the publishing writes as well |
| MongoBootstrap.SettledUntouched | scripts/native_database.py:129-153 | a finished bootstrap is left alone by every further run of either kind, wherever it stops |
| MongoBootstrap.OthersNeverReach | scripts/deploy_native.py:279-282 | once a bootstrap is underway, no number of deployments with other configurations reaches the database, finishes, or takes the marker over |
| MongoBootstrap.Mongod.Initialize | scripts/native_database.py:144-190 | the commands in program order change the server as specified |
| MongoBootstrap.Mongod.ReconfigureAdvertisedHost | scripts/native_database.py:82-115 | the commands in program order change the server as specified |
| MongoBootstrap.Host.DeployDatabase | scripts/deploy_native.py:276-287 | marker, server start, script and dropping the marker in program order are the specified step; the publishing in between is `NativeDeploy.Installation.PublishDatabaseComponent` |
| NfsTeardown.ReleasedIsTrue | scripts/verify_nfs_service.py:164-178 | a mount recorded as released is really not mounted, whatever failed |
| NfsTeardown.ReleaseRecorded | scripts/verify_nfs_service.py:161-178 | for different mount points the report names only mounts that were asked to be unmounted, says of each whether it now is, and leaves out only what is recorded as not mounted |
| NfsTeardown.ReleaseExact | scripts/verify_nfs_service.py:164-178 | on a host where every command works exactly the releasable mounts are released |
| NfsTeardown.DeletesOnlyUnmounted | scripts/verify_nfs_service.py:159-212 | no deletion is ever started on a directory something is mounted on; the root's only after the export file is gone, the exports are refreshed and no client is mounted |
| NfsTeardown.PreservedComplete | scripts/verify_nfs_service.py:198-212 | every path not reported as preserved is gone and unmounted, and nothing else is reported |
| NfsTeardown.PassLeavesNothing | scripts/verify_nfs_service.py:350-356 | a passing check leaves no mount, no export and no directory |
| NfsTeardown.CleanupExact | scripts/verify_nfs_service.py:159-212 | where every command works a check passes if and only if each mount point was mounted once or was neither mounted nor recorded; any other is preserved together with the root |
| NfsTeardown.Host.ReleaseAll | scripts/verify_nfs_service.py:164-178 | the first loop updates the mount records and the kernel as specified |
| NfsTeardown.Host.RemoveReleased | scripts/verify_nfs_service.py:200-210 | the last loop deletes and preserves as specified |
| NfsTeardown.Host.Cleanup | scripts/verify_nfs_service.py:159-212 | the whole teardown over any list of mount points ends in the specified state with the specified report |

## Left out

- Backend services, device collection, archive code and every script that only asserts their outcomes: their code is not among the modelled files.
- Sockets, HTTP, WebSocket, Docker, systemd and package commands beyond their outcome; wall-clock pacing, tick lag and deadlines beyond giving up at some point.
- Real SHA-256, gzip, tar, ZIP and Base64 decoding; ZIP entries are given in the natural order the program sorts them into.
- The rounding of reported milliseconds to three decimals.
- Floating point: the rank is the exact ceiling of 99 n / 100, and clock values are finite reals.
- Unicode digits, which `\d` and `int` also accept, and CPython's limit of 4300 digits in one integer.
- Deployment of a Worker without a journal, image building, and the unsafe-reason counters of `prepare`, which only make a command raise.
- WorkerRecovery.NeverTwoWorkers: does not cover containers started by something else, such as a Docker restart policy, because the program cannot prevent those; the other history theorems do cover them.
- Dotenv.EnvFile.ReplaceValue: a crash while the temporary file is being written; the replacement itself is atomic.
- MongoUri.ValidateUri: IPv6 literals are not accepted as members, the content of brackets is not checked, a host is lower-cased as ASCII, and the Unicode normalisation check of `urlsplit` is absent; a percent-decoded database name is returned as octets.
- Platform.PreparePlatform: the Worker and API parts of the contract are one parameter.
- NativeEnv.JsonString: a lone surrogate escape is refused, because a character here is a Unicode scalar value.
- NfsTeardown.Host.Cleanup: path validation, and the body of the check before the teardown.
- TailLogs.TailLogs: one route at a time, because routes share nothing but the queue; a listing happens at one moment; the inode and truncation checks, which an append-only file never fails.
- NativeDeploy.Deploy: port probing, unit-file ownership, package installation, the NFS export and the health checks, all of which only stop a run; digests are as distinct as what they digest.
- MongoBootstrap.Mongod.Initialize: the validation of host and database names, which only stops a run, and elections, which only delay or stop one.
- MongoBootstrap.InitializeResumes: assumes, as the script does, that the server answers `replSetGetConfig` and `listDatabases` without credentials once it is initiated and while it has no users; where it does not, the script raises, which is a stop.
- MongoBootstrap.BootstrapResumes: leaves out the publishing writes between marker and server start, and crashes inside a write; `NativeResume.InterruptedResumes` has both.
