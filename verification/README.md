# Verified model of hx_clog

hx_clog is a C logging library: threads format records, duplicates are folded, lines go
through a per-sink routing table, either straight to the sinks or through an asynchronous
queue, and the file sink rotates, names, compresses and deletes its archives. This project
models that machinery in Dafny and proves what the library promises about it. `dafny verify
dfyconfig.toml` checks everything.

| file | what it holds |
|---|---|
| `Common.dfy` | levels, format mode, options, C string helpers |
| `AsyncQueue.dfy` | the critical sections of the asynchronous engine as functions |
| `AsyncRing.dfy` | the ring buffer class and the slot sizes, refining those functions |
| `AsyncProtocol.dfy` | producers, worker, flushers and reconfigurations interleaved |
| `AsyncSteps.dfy` | what each step of that protocol does |
| `AsyncProgress.dfy` | which reachable states of that protocol can be run to completion |
| `RotationModel.dfy` | one file sink with its archives as values; the stream theorem |
| `RotationShape.dfy` | what each archive looks like when nothing fails |
| `ArchiveNames.dfy`, `Decimal.dfy` | archive names, `sscanf` and `atoi` on them, order keys, index scan |
| `Platform.dfy` | the directory and the calls on it, all of which may fail; six constants of a directory say which kinds of call never do |
| `WorkingSet.dfy` | the four parallel arrays of a cleanup: growing, sorting, compacting in place |
| `BackupFiles.dfy`, `Retention.dfy` | `hx_rotate_cleanup` on directory and arrays |
| `Shelving.dfy` | what a rename does to the archives of a directory, how high indices get, and what reading the directory gives |
| `FileSink.dfy` | the file sink class; every operation is one step of `RotationModel.dfy` |
| `LogSession.dfy` | any sequence of calls on a file sink, from an empty directory on |
| `LinePattern.dfy`, `Json.dfy` | what a formatted line is, and a reader for the JSON line |
| `LineReader.dfy` | a reader for pattern lines and time stamps: what each placeholder prints |
| `Formatter.dfy` | the bounded appender, both formatters and the exact-size retry |
| `FormatCache.dfy` | the per-thread copy of the format settings, interleaved step by step |
| `DuplicateFold.dfy` | duplicate suppression as a windowed run-length code |
| `SinkTable.dfy` | the sink table and synchronous dispatch |
| `LoggerRegistry.dfy` | the linked list of named loggers and the level hierarchy |
| `Calendar.dfy` | the lock-free UTC conversion of the crash path |

Code that works on state is written as classes and methods with loops, proved against
functions; the theorems are about those functions. Threads are modelled as state machines
whose steps are the program's critical sections (or, for the format cache, single field
accesses), in every interleaving. Allocation, file system calls and short writes fail
nondeterministically unless a statement says otherwise.

Main results: with BLOCK no line is lost or doubled over any number of reconfigurations, and
while the producers' slot buffers can grow no signal is lost, so that every schedule brings
everyone to rest within a bounded number of steps; in one engine epoch the counters add up
and delivery is in order; a stop drains the queue; for any sequence of lines, forced
rotations and reopens on a log file, whatever renames, opens and writes do, the backups that
are in the directory, in the order of their parsed keys, unpacked and followed by the active
file, are a suffix of the bytes written, as long as the directory can be read, there is
memory, deleting and compressing succeed, nothing is deleted by age and no index reaches
10^8; a cleanup applies the retention rule to exactly the backups it sees, sees all of them
in such a directory, and touches nothing but backups, whatever fails; archive names, order
keys and new indices are consistent with each other; the bounded formatters and the retry
produce exactly the cut of the unbounded line; a JSON line and a line of the default pattern
read back to their record; each
record is formatted with settings some writer left behind as a whole and that were current
during its call; the duplicate code is lossless; every sink gets each record once in its own
format; a level set by prefix holds for the whole subtree ever after; and `crash_utc` is the
proleptic Gregorian calendar.

Where the code has limits, the exact limit is proved: a reachable state of the asynchronous
engine can be run to completion if and only if it is not doomed (someone sleeps before an
empty queue and nobody is left to fill it or to stop the engine), and one failed allocation
of a woken producer is enough to get there; the slot-doubling loop ends if and only if the
line with its terminator needs at most 2^31 bytes or `size + 1` wraps to 0, and its buffer
holds the line if and only if at most 2^31 are needed; after a successful rename the
directory holds the old archives and the new one in the order of their keys if and only if
the new index exceeds all of its day and is below 10^8, which an unreadable directory can
prevent, and an old index tears the stream; the 32-bit test of the retry is right if and
only if the line is shorter than 2^32 - 1; rendering distributes over a split of the pattern
if and only if the split leaves no dangling percent sign; keys order all archives with
indices below n if and only if n is at most 10^8; a time-triggered rotation tags the file's
own day if and only if the recorded open time is positive or both fall on one day.

## Model

| member | source | states |
|---|---|---|
| AsyncProtocol.RunInv | src/hx_clog_async.c:106-407 | every state reachable by any interleaving of producers, worker, flushers and reconfigurations satisfies the invariant (conservation of lines, ledger of the epoch, life cycle, flush marks) |
| AsyncProtocol.StepInv | src/hx_clog_async.c:146-407 | every single step of any thread keeps that invariant |
| AsyncProtocol.EveryLineIsAccountedFor | src/hx_clog_core.c:2218-2239 | all policies and allocation failures: once everyone rests, the dispatched lines are as a multiset the emitted ones plus the dropped ones, and the drop counters of all epochs count exactly the drops |
| AsyncProtocol.BlockLosesNothing | src/hx_clog_async.c:177-190 | with BLOCK in every configuration and no allocation failure, no run drops a line |
| AsyncProtocol.BlockIsExactlyOnce | src/hx_clog_core.c:1740-1798 | with BLOCK and memory, in every interleaving and across repeated reconfigurations, each dispatched line is emitted once or still on its way, and once everyone rests emitted exactly once |
| AsyncProtocol.EpochAccounting | src/hx_clog_async.c:146-241 | attempted = delivered + in flight + dropped + queued; the queue is exactly the newest accepted lines in order; delivered and in-flight lines are an in-order subsequence of the accepted ones, equal when nothing was dropped; count <= high watermark <= capacity |
| AsyncProtocol.PolicyDecidesDrops | src/hx_clog_async.c:162-192 | without allocation failures BLOCK drops nothing, DROP_NEW only lines it refuses (every accepted line is delivered in order) and DROP_OLD only the oldest accepted ones (every attempted line is accepted) |
| AsyncSteps.EntersExactly | src/hx_clog_async.c:155-192 | entering the queue: with room and memory the line is queued and nothing is lost; only a full queue drops a line (the new one or the oldest, by policy) or puts the caller to sleep; a stopped engine sends it to a synchronous write |
| AsyncSteps.WakesExactly | src/hx_clog_async.c:177-192 | a woken producer writes by itself after a stop, sleeps again before a full queue, and stores its line otherwise |
| AsyncSteps.RoomLosesNothing | src/hx_clog_async.c:162-192 | with memory, a run that never finds the queue full loses no line, under any policy |
| AsyncSteps.LossNeedsFullQueue | src/hx_clog_async.c:162-176 | with memory, a step loses a line only if the queue is full before it, and never under BLOCK |
| AsyncSteps.WorkerTakesOldest | src/hx_clog_async.c:281-319 | the worker takes the oldest line, hands it over with the lock released, and wakes one sleeper |
| AsyncSteps.WorkerRounds | src/hx_clog_async.c:260-335 | a batch starts with lines queued, an empty queue answers any flush and with stop set is the way out |
| AsyncSteps.ReconfiguresInOrder | src/hx_clog_core.c:1740-1798 | a reconfiguration goes to SYNC, stops with a broadcast, joins, starts the engine with its configured sizes and policy, and only then publishes ASYNC; no other step changes the mode |
| AsyncSteps.ModeDecides | src/hx_clog_core.c:2218-2239 | a call that read ASYNC goes to the queue, any other writes by itself |
| AsyncSteps.EveryChoiceIsOpen | src/hx_clog_async.c:146-407 | nothing that can happen is ruled out: calls, flushes and reconfigurations start whenever their thread is free, every allocation may fail, waits may end for no reason; only the lock and the join hold anybody up |
| AsyncProtocol.SubsequenceIsEmbedding | src/hx_clog_async.c:223-241 | what "in-order subsequence" means: the lines are found at rising positions |
| AsyncProtocol.StopDrains | src/hx_clog_async.c:243-335 | once stop is set the queue never grows, every worker step decreases a measure led by the queue length and no other thread increases it |
| AsyncProtocol.StopDiscardsNothing | src/hx_clog_async.c:357-393 | while a stop waits the worker can move until it has exited, and it exits only with an empty queue, so resetting the counters discards nothing |
| AsyncProtocol.FlushReturnsDrained | src/hx_clog_async.c:337-355 | when a flush returns without a stop, of the lines accepted before it at most the one in flight is unsettled, and none if the worker had cleared the request |
| AsyncSteps.FlushStarts | src/hx_clog_async.c:337-348 | a flush asks for an answer and waits exactly when a running engine that is not being stopped has lines queued |
| AsyncProtocol.SettledExactly | src/hx_clog_async.c:337-355 | settled are the accepted lines that are neither queued nor in flight |
| AsyncProgress.NoInterleavingGetsStuck | src/hx_clog_async.c:177-190 | sleepers wait for the worker's signal or the broadcast of a stop: as long as the slot allocations of producers succeed, every reachable state can be run to one where everyone rests, without a new call or a spurious wake-up |
| AsyncProgress.EveryScheduleCompletes | src/hx_clog_async.c:146-407 | and every schedule of the threads gets there: it takes at most `Work` steps other than idle ticks and flush wake-ups, and when no such step is left all producers rest, the queue is empty, and the dispatched lines are the emitted plus the dropped ones |
| AsyncProgress.StepsLowerWork | src/hx_clog_async.c:146-407 | with any failures, every step of a call under way leaves less work; idle ticks and flushes leave as much |
| AsyncProgress.BusyStepsAreBounded | src/hx_clog_async.c:243-335 | so the work left bounds how many steps any continuation without new calls can take |
| AsyncProgress.CompletesExactly | src/hx_clog_async.c:177-190 | any allocation failures: a reachable state can be run to completion if and only if it is not doomed |
| AsyncProgress.FinishedExactly | src/hx_clog_async.c:146-407 | completion means: no call and no reconfiguration is under way, and no line is queued or in flight |
| AsyncProgress.SignalCanBeLost | src/hx_clog_async.c:207-216 | a run with one failed slot allocation after which a producer sleeps before an empty queue of a running engine and nothing under way will wake it |
| AsyncProgress.SomeoneCanMove | src/hx_clog_async.c:146-407 | in every state that is neither finished nor doomed some thread can take a step that leaves less work and does not lead into doom |
| AsyncProgress.RunsComplete | src/hx_clog_core.c:1740-1798 | from every reachable state that is not doomed everyone comes to rest without a new call |
| AsyncProgress.RunServes | src/hx_clog_async.c:301-319 | while slot allocations succeed, whoever sleeps has lines queued or a woken producer before it |
| AsyncProtocol.FallsAsleep | src/hx_clog_async.c:177-181 | a producer falls asleep only before a full queue of a running engine that is not being stopped |
| AsyncRing.DoublingEndsIff | src/hx_clog_async.c:201-206 | with `size + 1` in 32 bits the doubling loop ends if and only if size + 1 is at most 2^31 or equal to 2^32, and the buffer it ends with holds the line if and only if size + 1 is at most 2^31 |
| AsyncRing.Grow | src/hx_clog_async.c:202-206 | the loop terminates with 256 times a power of two that holds the line, and does not overshoot by more than a factor of two |
| AsyncRing.FitSlot | src/hx_clog_async.c:195-222 | after storing a line of at most 64 KB with its terminator the slot's buffer is at most 64 KB however large it was; a failed allocation leaves a consistent slot |
| AsyncRing.WrapIsMod | src/hx_clog_async.c:229-229 | tail = (head + count) mod capacity |
| AsyncRing.RingPush | src/hx_clog_async.c:223-230 | writing the slot at the tail appends to the ring's lines |
| AsyncRing.RingFrame | src/hx_clog_async.c:194-230 | writing a free slot leaves the queued lines alone |
| AsyncRing.AsyncEngine.Start | src/hx_clog_async.c:106-133 | a new engine is the empty queue with the configured policy and sizes, 8192 lines and batches of 64 for zeros; nothing changes without memory |
| AsyncRing.AsyncEngine.Enqueue | src/hx_clog_async.c:155-176 | a running engine with room stores the line behind those queued; QUEUE_FULL comes back only from a full queue under DROP_NEW, the wait only from a full queue under BLOCK, NOT_INITIALIZED only from an engine that is stopped; queued lines leave only from a full queue under DROP_OLD, the oldest one; drops and watermark are counted exactly |
| AsyncRing.AsyncEngine.Resume | src/hx_clog_async.c:179-190 | a blocked producer that wakes up is refused when stop is set, waits again if and only if the queue is full, and otherwise stores its line behind those queued |
| AsyncRing.AsyncEngine.PushLine | src/hx_clog_async.c:194-240 | storing appends the line and raises the watermark, or counts a drop when the buffer cannot grow |
| AsyncRing.AsyncEngine.DropOldest | src/hx_clog_async.c:171-176 | advancing the head removes the oldest line and counts it |
| AsyncRing.AsyncEngine.PopLine | src/hx_clog_async.c:281-319 | the worker takes the oldest line, or drops it when its scratch buffer cannot grow |
| AsyncRing.AsyncEngine.IdleRound | src/hx_clog_async.c:260-276 | an empty queue clears the flush request and tells whether to exit |
| AsyncRing.AsyncEngine.FinishBatch | src/hx_clog_async.c:328-331 | the end of a batch answers a flush only when the queue is empty |
| AsyncRing.AsyncEngine.BeginFlush | src/hx_clog_async.c:341-348 | a flush waits exactly when a running, unstopped engine has lines queued |
| AsyncRing.AsyncEngine.CheckFlush | src/hx_clog_async.c:348-353 | the condition under which a woken flusher leaves its loop |
| AsyncRing.AsyncEngine.BeginStop | src/hx_clog_async.c:366-375 | stop is set on a running engine only |
| AsyncRing.AsyncEngine.DetachBuffers | src/hx_clog_async.c:382-393 | after the join the engine is the stopped, empty queue without buffers |
| RotationModel.RunsKeepTheStream | src/hx_clog_file.c:87-123 | over any run of writes, forced rotations and reopens, with failing renames, opens and short writes: surviving archives in key order and then the active file are a suffix of everything written, all of it when no count limit deletes; compressed archives are older than plain ones |
| RotationModel.StepKeepsGood | src/hx_clog_rotate.c:603-824 | every operation keeps the stream, the key order, the order of compressed before plain and the bound on the dates |
| RotationModel.ArchiveKeepsGood | src/hx_clog_rotate.c:718-758 | archiving under any day between open time and now loses nothing but what retention drops, whatever fails |
| RotationModel.RetentionRule | src/hx_clog_rotate.c:531-594 | zlib builds, M and G positive: exactly the M newest plain archives stay plain, older plain ones become compressed, exactly the G newest compressed ones remain, and compressed stays before plain |
| RotationModel.RetentionExactly | src/hx_clog_rotate.c:531-594 | the same for every build and all limits: limits that are not positive do not count, and a zero `max_compressed_files` means `max_backup_files` |
| RotationModel.RetainIsSuffix | src/hx_clog_rotate.c:531-594 | for every build and all limits cleanup keeps the newest archives in order with their contents |
| RotationModel.RetainKeepsContent | src/hx_clog_rotate.c:531-594 | cleanup drops a prefix of the stream, and nothing when no count limit applies |
| RotationShape.ArchivesAreWellShaped | src/hx_clog_rotate.c:626-665 | without failures from an empty file opened after 1970: each archive is within the size limit or a single write; under daily rotation all its lines are of the day in its name; under aligned intervals of one interval, under others within one interval of the first; files hold whole writes, a suffix of the calls |
| RotationShape.StepKeepsShape | src/hx_clog_file.c:94-123 | one write keeps all of that |
| RotationShape.EpochFileIsMistagged | src/hx_clog_rotate.c:700-703 | a file opened at second 0 has its lines archived under the next day although nothing fails |
| RotationShape.TagDayExactly | src/hx_clog_rotate.c:690-708 | a time-triggered rotation names the archive after the day of its lines if and only if the recorded open time is positive or the file was opened on the day of the rotation |
| RotationShape.TagSecondExactly | src/hx_clog_rotate.c:690-703 | an archive is named after the open time when the day has changed or the interval is over, and after the present when the file is just full |
| LogSession.LogFromScratch | src/hx_clog_file.c:127-245 | a new log in a readable directory without backups, with memory and with opens, writes, deletions and compressions that succeed, without `max_backup_days` and with indices below 10^8: after any sequence of lines, forced rotations and reopens, whatever renames do, the directory reads as a suffix of the bytes of all lines, and as all of them without count limits; files that are neither the active one nor backups are untouched |
| LogSession.Serve | src/hx_clog_file.c:87-123 | any sequence of calls on an intact sink, with failing renames, opens and short writes, is a legal run of the model and leaves the sink intact; the directory then reads as a suffix of what was written |
| LogSession.LogLines | src/hx_clog_rotate.c:626-665 | when nothing fails, each backup in the directory holds whole lines within the limits on size, day and interval, and together with the active file they are a suffix of the calls |
| LogSession.LinesExactly | src/hx_clog_file.c:98-116 | the bytes of a sequence of calls are those of its lines, in order |
| FileSinks.DirectoryHoldsStream | src/hx_clog_file.c:87-123 | as long as the sink is intact: the recognised backups in the directory, ordered by the keys in their names, unpacked and followed by the active file, are a suffix of all bytes written to the sink |
| Shelving.ReadingExactly | src/hx_clog_rotate.c:187-196 | what reading gives: the bytes of the backups one behind the other, the active file last |
| Shelving.RenameHoldsExactly | src/hx_clog_rotate.c:725-726 | a successful rename leaves a directory that holds the old archives and the new one, ascending by key, if and only if the index is new: above all indices of its day and below 10^8 |
| Shelving.OldIndexTearsStream | src/hx_clog_rotate.c:725-726 | a rename to an index below one in use: whoever reads the directory in key order finds no suffix of what was written, unless the archive read last ends in the same byte |
| Shelving.RenameKeepsFilesExactly | src/hx_clog_rotate.c:725-726 | no archive is replaced if and only if the chosen name was not in the directory |
| Shelving.ScannedIndexIsNew | src/hx_clog_rotate.c:403-417 | when the scan saw every name and there is room below 10^8, its index is new |
| Shelving.ScanStaysBelow | src/hx_clog_rotate.c:403-417 | the scan's index exceeds the indices in the directory by one at most: other days' archives and the active file do not count |
| Shelving.BlindScanOverwrites | src/hx_clog_rotate.c:114-118 | an unreadable directory gives index 1, and the rename then replaces the day's first archive |
| Shelving.BlindScanTearsStream | src/hx_clog_rotate.c:114-118 | when the day has an archive of a higher index, that rename tears the stream that the directory holds |
| Shelving.BlindScanExample | src/hx_clog_rotate.c:114-118 | such a directory: one archive of index 3, after which the bytes "ab" are found as "ba" |
| Shelving.PartialCleanupTearsStream | src/hx_clog_rotate.c:286-293 | what a cleanup leaves that did not see the oldest archive and deletes others in its place is no suffix of what was written |
| Shelving.PartialCleanupExample | src/hx_clog_rotate.c:286-293 | such a directory: three compressed archives, one to stay, the oldest hidden |
| FileSinks.FileSink.OpenActive | src/hx_clog_file.c:44-83 | opening re-reads the size and the day, or leaves the sink closed |
| FileSinks.FileSink.Start | src/hx_clog_file.c:199-207 | creation opens the file; with `rotate_on_startup` a file that is not empty becomes a backup with its bytes, named after the present day, and an empty file is opened; without it nothing moves |
| FileSinks.FileSink.NextName | src/hx_clog_rotate.c:704-716 | the chosen name is a backup name and not the active file's; in a readable directory its index exceeds every index that the scan reads for that day |
| FileSinks.FileSink.RenameActive | src/hx_clog_rotate.c:718-746 | a successful rename makes the active file the newest archive, and the directory is then as the model says if and only if its index is new; a failed one only sets the failure marks |
| FileSinks.FileSink.OpenFresh | src/hx_clog_rotate.c:748-758 | after the rename a new empty file is opened and the retention rule applied; a sink is given up only when the directory holds neither what the rule leaves nor all that was there, which cannot be when it can be read, there is memory, and deleting and compressing succeed |
| FileSinks.FileSink.Shelve | src/hx_clog_rotate.c:693-758 | one whole rotation on the directory is the model's rotation; in a directory where cleanup can work and with room below 10^8 the sink stays intact, and a taken index ends that; nothing but the active file and its backups changes in any case |
| FileSinks.FileSink.Due | src/hx_clog_rotate.c:620-669 | rotation is due exactly when the size limit would be crossed, the day has changed or the interval (aligned or not) is over, and no failed rename was tried this second |
| FileSinks.FileSink.RotateMaybe | src/hx_clog_rotate.c:603-759 | rotates exactly when due, under the right day, with the guarantees of a rotation; otherwise nothing ends |
| FileSinks.FileSink.RotateForce | src/hx_clog_rotate.c:761-824 | when the file is open and not empty, renames and opens work and the sink stays intact: the directory has one more backup with exactly the old bytes, named after the day the file was opened, and the active file is empty; a closed or empty file changes nothing; one legal step of the model in any case |
| FileSinks.FileSink.AppendLine | src/hx_clog_file.c:98-116 | what `fwrite` accepts is appended to file, size and stream; a short write is remembered |
| FileSinks.FileSink.Write | src/hx_clog_file.c:87-123 | one legal step of the model, with the guarantees of a rotation when one is due; a successful write is one whole chunk of the stream, and an open sink succeeds when opens and writes do |
| FileSinks.FileSink.Reopen | src/hx_clog_file.c:229-245 | reopening changes no file and only creates a missing one; size, open time and day are read afresh; one step of the model |
| Retention.Cleanup | src/hx_clog_rotate.c:423-600 | whatever fails, only recognised backups change and the active file never does; with deletions and compressions that succeed, exactly the retention rule (after the deletion by age) is applied to the backups in sight, and hidden files stay; nothing is hidden when the directory can be read and there is memory |
| Retention.VisibleHolds | src/hx_clog_rotate.c:286-293 | what a scan sees of the directory is what is visible of the archives |
| Retention.Collect | src/hx_clog_rotate.c:270-324 | the collected entries are the recognised backups of the listing, in its order, up to where memory ran out |
| Retention.SortedPictures | src/hx_clog_rotate.c:476-498 | sorting by key puts the entries of any listing into the order of the archives |
| Retention.DeleteByAge | src/hx_clog_rotate.c:500-512 | when nothing fails, exactly the backups with a known change time before the cutoff are deleted; in any case nothing but backups changes |
| Retention.AgeRule | src/hx_clog_rotate.c:500-512 | without count limits a backup in sight is deleted if and only if its known change time is more than `max_backup_days` times 86400 seconds ago |
| Retention.YoungExactly | src/hx_clog_rotate.c:500-512 | which archives the deletion by age leaves, by name and change time |
| Retention.CompressStage | src/hx_clog_rotate.c:531-554 | when nothing fails, exactly the oldest plain backups beyond the limit are compressed, or deleted without zlib; in any case nothing but backups changes |
| Retention.CapStage | src/hx_clog_rotate.c:556-593 | when nothing fails, exactly the oldest compressed backups beyond the limit are deleted, under the name they have on disk; in any case nothing but backups changes |
| Retention.CompressOrDelete | src/hx_clog_rotate.c:382-394 | success replaces the file by its compressed form, or removes it; no other file changes |
| Platform.Directory.Gzip | src/hx_clog_rotate.c:339-379 | copying block by block is lossless on success; on any failure only source and target are affected |
| WorkingSet.Arrays.Sort | src/hx_clog_rotate.c:480-498 | the insertion sort moves all four arrays in step: sorted by key, same entries |
| WorkingSet.Arrays.Sink | src/hx_clog_rotate.c:480-498 | one round moves entry i back to its place and nothing else |
| WorkingSet.Arrays.Compact | src/hx_clog_rotate.c:514-529 | exactly the entries that are not marked as removed stay, in order |
| WorkingSet.Arrays.Grow | src/hx_clog_rotate.c:152-179 | growing keeps all entries; a failed allocation keeps the old arrays and sets the flag |
| WorkingSet.Arrays.Append | src/hx_clog_rotate.c:286-323 | one more entry at the end, or none when memory is out |
| WorkingSet.KeptSorted | src/hx_clog_rotate.c:514-529 | compacting keeps a sorted working set sorted |
| ArchiveNames.SplitName | src/hx_clog_rotate.c:35-63 | a name splits at its last dot unless that comes first, cut to the buffers |
| ArchiveNames.SplitExactly | src/hx_clog_rotate.c:35-63 | stem and extension are what is before and behind the last dot |
| ArchiveNames.MadeNamesMatch | src/hx_clog_rotate.c:65-78 | every made name, with or without ".gz", is recognised with the right compressed flag |
| ArchiveNames.RecognisedShape | src/hx_clog_rotate.c:198-267 | whatever is recognised is the prefix, a text of digits, signs, blanks, dashes and dots, and exactly the extension, with ".gz" if and only if it counts as compressed |
| ArchiveNames.OrdinaryFileIsNoBackup | src/hx_clog_rotate.c:198-267 | so a file with a letter behind the prefix, such as "audit.notes.log", is never touched |
| ArchiveNames.MadeNamesKey | src/hx_clog_rotate.c:187-196 | the key parsed from a made name is its date and index |
| ArchiveNames.StampRoundTrip | src/hx_clog_rotate.c:232-237 | scanning a printed date and index gives them back |
| ArchiveNames.KeyOrder | src/hx_clog_rotate.c:187-196 | keys order names exactly by date and then index below 10^8 |
| ArchiveNames.KeyOrderExactly | src/hx_clog_rotate.c:192-193 | keys order all names with indices below n by date and index if and only if n is at most 10^8 |
| ArchiveNames.NextIndex | src/hx_clog_rotate.c:403-417 | the scan finds one more than the highest index of the day |
| ArchiveNames.ScanReadsIndex | src/hx_clog_rotate.c:408-413 | the scan reads the index of a made name, compressed or not |
| ArchiveNames.NextNameIsNew | src/hx_clog_rotate.c:712-716 | the next name is in the directory neither plain nor compressed |
| ArchiveNames.GzOfBackup | src/hx_clog_rotate.c:388-389 | compressing any recognised plain backup gives a recognised compressed one |
| ArchiveNames.ActiveIsNoBackup | src/hx_clog_rotate.c:278-285 | the active file is never recognised as its own backup, whatever its name |
| ArchiveNames.MadeNameIsNotActive | src/hx_clog_rotate.c:65-78 | no made name is the active file's name |
| Formatter.Appender.Char | src/hx_clog_format.c:76-87 | one character: the buffer holds the cut of the unbounded text and the counter its saturated length |
| Formatter.Appender.Str | src/hx_clog_format.c:89-113 | the same for a string |
| Formatter.Appender.Uint | src/hx_clog_format.c:115-145 | appends the decimal text of every unsigned number |
| Formatter.Appender.UintPadded | src/hx_clog_format.c:148-165 | appends the padded decimal text, of numbers over 16 digits the 16 lowest |
| Formatter.Appender.JsonEscaped | src/hx_clog_format.c:236-260 | appends the escaped string |
| Formatter.BasenameOf | src/hx_clog_format.c:51-63 | the end of the path behind its last slash or backslash |
| Formatter.Placeholder | src/hx_clog_format.c:194-224 | each placeholder appends its expansion, which the rows of `LineReader` state letter by letter |
| Formatter.FormatRecord | src/hx_clog_format.c:167-234 | for every pattern (the default one if there is none), record and buffer size: the first bytes of the rendered line that fit, a terminator, and the full length; nothing beyond the buffer changes |
| Formatter.FormatJsonRecord | src/hx_clog_format.c:266-321 | the same for the JSON line |
| Formatter.FormatWithRetry | src/hx_clog_core.c:2167-2214 | the line handed back is the full line if it fits the stack buffer, else with memory the full line or its first bytes up to the line limit, else its first bytes up to the stack buffer; exact for every line shorter than 2^32 - 1 |
| Formatter.FitsTestIsRight | src/hx_clog_core.c:2181-2187 | the 32-bit test answers correctly if and only if the line is shorter than 2^32 - 1 |
| Formatter.RetryIsExact | src/hx_clog_core.c:2188-2207 | with a pattern under 512 bytes and fields under 512 KB the counter never saturates and the line is the full line cut to the limit |
| Formatter.FullLineIs | src/hx_clog_core.c:2130-2165 | the format mode chooses the line: JSON, or the pattern, or the default pattern |
| LinePattern.RenderConcatIff | src/hx_clog_format.c:188-228 | rendering distributes over a split if and only if it leaves no dangling percent sign |
| LineReader.PlaceholderNumbers | src/hx_clog_format.c:194-212 | %Y, %m, %d, %H, %M, %S, %e, %t, %p and %# print the year, month, day, hour, minute, second, millisecond, thread, process and line number as decimal numbers, with two digits for the parts of date and time and three for milliseconds |
| LineReader.PlaceholderTexts | src/hx_clog_format.c:201-215 | %c, %F, %s, %!, %v, %x, %n and %% print logger, path, base name, function, message, context, a newline and a percent sign |
| LineReader.UnknownLetters | src/hx_clog_format.c:221-225 | any other letter is printed with its percent sign |
| LineReader.LevelTexts | src/hx_clog_format.c:39-48 | %l prints TRACE, DEBUG, INFO, WARN, ERROR, FATAL or OFF, padded to five characters, exactly for the levels 0 to 6 |
| LineReader.BasenameExactly | src/hx_clog_format.c:51-63 | the base name is the end of the path without a separator, and a separator is before it unless it is the whole path |
| LineReader.Segment | src/hx_clog_format.c:188-228 | a placeholder, literal text and the rest of a pattern render one behind the other |
| LineReader.DefaultPatternIs | src/hx_clog_format.c:182-184 | the template of the reader is the default pattern |
| LineReader.DefaultRoundTrip | src/hx_clog_format.c:167-234 | reading the line of the default pattern gives back year, month, day, hour, minute, second, millisecond, thread and line number as numbers, and level, base name, function and message, unless the base name has a colon or the function a parenthesis |
| LineReader.ReadBack | src/hx_clog_format.c:188-228 | whatever is printed along a template of fields and separators is read back |
| LinePattern.PatternLineFits | src/hx_clog_format.c:69-80 | within the library's limits a pattern line is shorter than 2^32 - 1 |
| LinePattern.UintPadIsPad | src/hx_clog_format.c:147-165 | numbers of at most 16 digits are padded as by `%0*lu` |
| Json.StringRoundTrip | src/hx_clog_format.c:236-260 | every byte string, NUL included, escapes to a JSON string that reads back to it |
| Json.LineIsObject | src/hx_clog_format.c:281-317 | the printed line is one JSON object of the record's members |
| Json.JsonRoundTrip | src/hx_clog_format.c:266-321 | reading the line gives back all members of the record with line >= 0, and its epoch time |
| LineReader.JsonFields | src/hx_clog_format.c:281-317 | reading the JSON line gives exactly eleven members: ts, epoch_ms, level, logger, pid, tid, file, line, func, message, context, each with the record's own value and the level by name |
| LineReader.TimestampRoundTrip | src/hx_clog_format.c:283-298 | the time stamp of the JSON line is read back as the seven numbers of the record's time |
| LineReader.EscapesAreStandard | src/hx_clog_format.c:236-260 | the escape of every character: quote and backslash, the five short forms, four hexadecimal digits for other control characters, and nothing else |
| Json.OnlyLastNewline | src/hx_clog_format.c:317-317 | the only newline is the last byte, whatever the fields hold |
| Json.JsonLineFits | src/hx_clog_format.c:69-80 | with fields under 512 KB a JSON line is shorter than 2^32 - 1 |
| FormatCache.StepKeepsInv | src/hx_clog_core.c:817-833 | every field access of any thread keeps: a copy with generation g is what the g-th writer left behind |
| FormatCache.CopiesAreCurrent | src/hx_clog_core.c:1645-1687 | in every interleaving, while no writer holds the lock a copy with the present generation is the present settings, in the middle of a refresh too |
| FormatCache.RecordsUseCurrentSettings | src/hx_clog_core.c:1753-1789 | in every interleaving each record is formatted with an untorn tuple that was current at some moment of its call |
| FormatCache.WriterLeaves | src/hx_clog_core.c:1653-1687 | a setter that has got the lock adds to the history exactly what its writes make of the settings it found, whatever the other threads do meanwhile |
| FormatCache.SettersDo | src/hx_clog_core.c:1653-1687 | a pattern brings pattern mode with it, mode and formatter change alone, and a reconfiguration replaces all settings |
| FormatCache.SettersBumpOnce | src/hx_clog_core.c:1653-1687 | each setter and each reconfigure raises the generation exactly once |
| DuplicateFold.FoldIsLossless | src/hx_clog_core.c:2394-2457 | over any sequence of messages, flushes and switches, expanding the summaries and appending the pending repeats gives back the keys of all messages; each summary follows its own run and carries its level and logger |
| DuplicateFold.DroppedExactly | src/hx_clog_core.c:2419-2429 | while suppression is on, a message is dropped exactly when it is at most the window younger than its predecessor and agrees with it in level, line, length of the text, and in logger, file and text up to 127, 255 and 255 bytes and the first NUL |
| DuplicateFold.KeyOfExactly | src/hx_clog_core.c:2417-2427 | the key of a message is exactly these fields |
| DuplicateFold.SameStringIsPrefix | src/hx_clog_core.c:2421-2424 | the bounded comparison of strings is equality of the parts before the first NUL |
| DuplicateFold.FlushSettles | src/hx_clog_core.c:2372-2390 | after a flush nothing is pending, and what went out expands to all messages |
| DuplicateFold.StrnEqual | src/hx_clog_core.c:2423-2426 | the loop decides whether two strings agree byte by byte up to the bound or the first NUL |
| DuplicateFold.DupState.CheckAndUpdate | src/hx_clog_core.c:2394-2457 | a message is suppressed exactly when suppression is on and the stored level, line, length, logger, file and text agree with it within the window; otherwise a pending summary goes out and the message starts a new run |
| DuplicateFold.DupState.FlushRepeats | src/hx_clog_core.c:2372-2390 | flushing emits the count of pending repeats with the level and logger of their run, and ends the run |
| DuplicateFold.DupState.SetSuppression | src/hx_clog_core.c:2028-2042 | suppression is as asked for, with the given window or one second for zero; switching off flushes and ends the run, switching on emits nothing |
| DuplicateFold.DupState.Write | src/hx_clog_core.c:2521-2546 | nothing goes out exactly in that case, and the repeat is counted; otherwise the pending summary with the old level and logger, and then the line |
| SinkTable.Table.Add | src/hx_clog_core.c:1355-1378 | a free place gives a new nonzero id and a sink without override; a full table refuses |
| SinkTable.Table.Remove | src/hx_clog_core.c:1936-1957 | exactly the sink with that id goes, the others keep their order; ids stay unique and the override count right |
| SinkTable.Table.SetLevel | src/hx_clog_core.c:1959-1975 | only the sink with that id changes, only for valid levels |
| SinkTable.Table.SetPattern | src/hx_clog_core.c:1977-2004 | a pattern sets the override in pattern mode, none clears it; the override count follows |
| SinkTable.Table.SetFormatMode | src/hx_clog_core.c:2006-2026 | the mode override is set, a pattern override stays |
| SinkTable.Table.CloseNonCallback | src/hx_clog_core.c:1419-1436 | exactly the callback sinks stay, in order |
| SinkTable.CallbacksSplit | src/hx_clog_core.c:1419-1436 | the callbacks of two parts of a table are those of the one followed by those of the other |
| SinkTable.Table.Reconfigure | src/hx_clog_core.c:1750-1789 | callback sinks survive with their overrides, new sinks follow until the table is full, and the override count is right again; the new file sink is reopened after the table has closed it if and only if callbacks and console fill the table |
| SinkTable.Table.Recompute | src/hx_clog_core.c:1689-1697 | the cached count is the number of places in the table whose sink has an override |
| SinkTable.Table.Emit | src/hx_clog_core.c:1168-1191 | the line goes to the sink with the target id, or for target 0 to every sink without an override, if the level is at least the sink's minimum; nobody else gets anything |
| SinkTable.Table.DispatchRecord | src/hx_clog_core.c:2252-2326 | a sink whose minimum is above the level gets nothing; every other gets exactly one line: in the global format without an override, else in its own mode without custom formatter, with its own pattern if it has one; the record counts once |
| SinkTable.OwnLineOnce | src/hx_clog_core.c:2304-2319 | with unique nonzero ids the override variants bring each overridden sink its own line and no other |
| SinkTable.ReachedExactly | src/hx_clog_core.c:2304-2319 | which line a sink gets, by its level and override |
| SinkTable.OverriddenIsCount | src/hx_clog_core.c:1689-1697 | the number of overrides is the size of the set of overridden places |
| LoggerRegistry.UnderIsCut | src/hx_clog_core.c:2719-2731 | the descendant test holds exactly when the prefix is the name or is reached by last-dot cuts |
| LoggerRegistry.UnderExactly | src/hx_clog_core.c:2726-2731 | a logger is under a prefix when it is the prefix or starts with the prefix and a dot |
| LoggerRegistry.InheritedExactly | src/hx_clog_core.c:2646-2663 | the inherited level is that of the longest registered proper prefix, or the global level when none is registered |
| LoggerRegistry.LookupAt | src/hx_clog_core.c:2634-2642 | of several loggers of one name the one nearest to the head is found |
| LoggerRegistry.SubtreeStaysUniform | src/hx_clog_core.c:2711-2736 | whatever happens between the two times the lock is taken, after a prefix is set its whole subtree has the level, under any later creations and unrelated settings |
| LoggerRegistry.UntouchedStaysUniform | src/hx_clog_core.c:2665-2736 | every operation that does not set a level in the subtree keeps it uniform |
| LoggerRegistry.TouchingChanges | src/hx_clog_core.c:2711-2736 | setting a registered ancestor or descendant prefix to another level does break it |
| LoggerRegistry.InheritsUniform | src/hx_clog_core.c:2646-2663 | a logger created in a uniform subtree inherits the subtree's level |
| LoggerRegistry.Registry.Find | src/hx_clog_core.c:2634-2642 | the walk along the list finds the logger with that name or none |
| LoggerRegistry.Registry.InheritedLevel | src/hx_clog_core.c:2646-2663 | the level of the nearest registered ancestor, else the global one |
| LoggerRegistry.Registry.Get | src/hx_clog_core.c:2665-2688 | an existing logger is returned unchanged, a new one is put in front with the inherited level; names of 128 or more characters are cut off and made anew each time |
| LoggerRegistry.Registry.SetLevelForPrefix | src/hx_clog_core.c:2711-2736 | the prefix is registered, and then exactly the loggers that are the prefix or start with it and a dot (all, for the empty prefix) have the level; an invalid level changes nothing |
| LoggerRegistry.Registry.SetLevel | src/hx_clog_core.c:2753-2762 | exactly that logger has the level if it is valid, and nothing changes otherwise |
| Calendar.CrashUtcIsGregorian | src/hx_clog_crash.c:140-170 | for every time whose year fits the int: the date is the one reached by walking the calendar from 1970-01-01, all fields are in range, the weekday is right, and date and time of day recombine to the input |
| Calendar.CivilIsWalk | src/hx_clog_crash.c:152-163 | the day arithmetic is the day-by-day walk of the proleptic Gregorian calendar, in both directions |
| Calendar.KnownDates | src/hx_clog_crash.c:152-163 | dates that fix the calendar: 1970-01-01 and the day before, the leap day of 2000, 1 March 1900, 1 March 2100 right behind 28 February, and the last day of 2024 |
| Calendar.CivilSuccessor | src/hx_clog_crash.c:152-163 | consecutive days are consecutive dates under the leap-year rule |
| Calendar.CivilIsMonotone | src/hx_clog_crash.c:152-163 | dates order exactly as days, so none is given twice |
| Calendar.WeekdayIsWalk | src/hx_clog_crash.c:164-167 | the weekday advances by one a day from Thursday 1970-01-01 |

## Left out

- Failed thread creation, shutdown, fork handling: lines can be dropped uncounted there; the protocol starts from a created worker and reconfigures only.
- Drop reports to the error handler, and all other error-handler notifications: they do not touch the queue or the files.
- The timed waits of the worker and of flushes are possible wake-ups at any moment; durations are not modelled. Spurious wake-ups of the untimed wait are possible everywhere but never relied on. Fairness of the scheduler is not modelled: a schedule may take idle ticks and flush wake-ups for ever, and only the other steps are bounded.
- AsyncRing.AsyncEngine.Enqueue: lines with size + 1 above 2^31, on which the code does not come back or writes past the slot; `AsyncRing.DoublingEndsIff` says exactly which.
- AsyncRing.AsyncEngine.Resume: the same lines.
- AsyncRing.AsyncEngine.PushLine: the same lines.
- `date_subdir` mode: the directory of a sink is fixed.
- FileSinks.DirectoryHoldsStream: for intact sinks. Deletion by age (`max_backup_days`), a deletion or compression that fails, an unreadable directory and a cleanup without memory can end that; what holds then is that nothing but backups changes, and that deletions and compressions follow the retention rule on what the cleanup sees (`Retention.Cleanup`).
- FileSinks.FileSink.NextName: names that do not fit the C buffers, and an overflow of `int` in `sscanf` and `atoi`.
- One clock reading per operation, never earlier than the one before; `hx_localtime` is any calendar that does not run backwards, with years 0 to 9999.
- Buffering of `FILE*`: what `fwrite` accepts counts as written, and the size of an open file can be read.
- ArchiveNames.MadeNamesMatch: made names are not the only ones recognised; `sscanf` also accepts shorter fields, signs and blanks, and the model of it does too (`ArchiveNames.RecognisedShape` says what can be recognised).
- LineReader.DefaultRoundTrip: a base name with a colon or a function name with a parenthesis cannot be told from the text behind it, and line numbers below 0 print as large unsigned ones.
- Custom formatter callbacks, `vsnprintf`, zlib's own format, and UTF-8 validity; characters stand for bytes, and `unsigned long` has 64 bits.
- RotationShape.ArchivesAreWellShaped: not for files opened at or before 1970-01-01 00:00:00 UTC, where the day of a daily archive can be wrong (`RotationShape.EpochFileIsMistagged`).
- FormatCache.RecordsUseCurrentSettings: the generation counter does not wrap, initialisation is over, and user callbacks do not re-enter the library.
- DuplicateFold.FoldIsLossless: calls are sequential; the emission of a summary between two threads is not interleaved.
- SinkTable.Table.Add: ids that have wrapped around 2^32 may repeat, so the table is consistent again only while they have not; sinks are records in the table's array and not separate objects.
- SinkTable.Table.DispatchRecord: synchronous mode, with no change of the table between taking the overrides and writing; the crash ring and the flush after a FATAL record are not part of it.
- `hx_clog_logger_drop_all`, which frees all registered loggers.
- LoggerRegistry.Registry.SetLevelForPrefix: is one call without other threads; `LoggerRegistry.SubtreeStaysUniform` covers what they may do between its two holds of the lock.
- Network, console and system sinks, crash handlers other than `crash_utc`, configuration parsing, the context map, statistics, macros and the C++ wrapper: input and output, foreign calls, or easy members.
