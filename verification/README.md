# Verification model of the EFT profiler and its logging engine

This project models the parts of the repository that carry state over many steps, and proves what they keep:

- the multi-producer multi-consumer queue, the thread pool on top of it and the way asynchronous loggers reach the pool
  (`BlockingQueue`, `ThreadPool`, `PoolShutdown`, `PoolMessages`);
- the ring buffer and its users: backtracer and ring-buffer sink (`CircularQueue`, `RingUsers`);
- the rotating file sink (`FileNames`, `Rotation`, `RotatingFileSink`);
- the pattern formatter: the pattern compiler, padding, time caches, colour marks, and the console sink that consumes the
  marks (`LogFields`, `PatternCompiler`, `PatternRender`, `PatternFormatter`, `ColorMarks`, `ConsoleSink`), what the fields
  say and what the patterns set by the program write (`LogMeanings`, `ProgramPatterns`), with the UTC offset arithmetic
  (`GmtOffset`) and decimal text (`Decimal`);
- the ranking of one nuisance parameter: workspace, manager and worker (`RankingFits`, `Ranking`,
  `RankingWorker`);
- reading a parameter of interest from text (`StringUtils`, `NumberText`, `Words`, `PoiSettings`, `PoiOrder`, `PoiBrackets`,
  `PoiText`, `PoiConfig`) and the likelihood scan over a grid (`GridScan`);
- the periodic worker (`PeriodicWorker`) and the duplicate filter (`DupFilter`).

Concurrent code is a state machine whose steps are the lock-protected bodies, the notifications sent after the mutex is
released, wake-ups (notified, spurious, timed out) and re-acquisitions of the mutex; a theorem about "every run" holds for
every interleaving of these steps. Condition variables behave as in section 33.5.3 of ISO/IEC 14882:2017. Code that
changes objects is a class whose methods are proved against functions of the old state; the laws are proved about these
functions.

`dafny verify dfyconfig.toml` checks everything.

## Where the code differs from what it is meant to do

Each of these is stated for the code as it is, with the exact condition and an input:

- A calendar pattern shows a blank calendar in second 0 of the epoch, until a message outside it was formatted while the
  time was needed (`CalendarIsRightExactly`, `WarmExactly`; `SecondZeroShowsBlankDate`).
- The UTC offset is a day off across some new years before year -99, because a shift rounds down where a division rounds
  towards zero (`OffsetExactly`; `OffsetIsWrongLongAgo`).
- `%z` is six characters long, and readable, exactly below 100 hours (`OffsetReadsBack`; `LongOffset`).
- A field that announces more than it writes (`%D`, `%x`, `%c` and `%E`, and `%Y` for years below 1000) and is cut can
  remove text in front of it and leave a colour mark behind the end of the text (`FieldKeepsMarksExactly`,
  `SoundPatternExactly`; `OvercutMovesTextBehindMark`).
- A pool whose queue has size 0 never finishes its destructor (`ZeroCapacityNeverFinishes`); any other does
  (`ShutdownEndsComplete`).
- Of the square brackets the documentation of `readFromString` shows, the closing one is not removed. So the last value of
  a range in sigmas is read in real units, and behind a blank the bracket is a value of its own (`BracketsMatterExactly`;
  `DocumentedRangeIsMisread`, `BlankBeforeBracketIsMisread`).
- The same documentation lets `grid` name a kind of grid; the code refuses it (`GridIsRefusedExactly`;
  `GridKindIsRefused`).
- A bound of 0 in real units next to a bound in sigmas is taken for a missing bound (`RealBoundsExactly`;
  `ZeroBoundIsReplaced`).
- A nuisance parameter chosen by name is not found if it is the first of the list (`ChooseNp`; `FirstNpNeedsItsNumber`).
- The duplicate filter announces its count modulo 2^32 (`Conservation`; `LongRunsAreMisannounced`).

Besides, a pattern of a user-defined flag never asks for the calendar time, so that the flag is given a blank calendar
(`UserFlagSeesBlankTime`), and preparing a scan curve twice doubles its value lists (`PreparingTwiceDoubles`).

## Model

| member | source | states |
|---|---|---|
| BlockingQueue.NoLostWakeupEver | Vendors/spdlog/details/mpmc_blocking_q.h:32-67 | in every reachable state of any number of producers and consumers, with timeouts, spurious wake-ups and overwriting posts mixed in: while a consumer is parked, every stored item is matched by an undelivered push notification or an awakened consumer, and symmetrically for parked producers and free cells |
| BlockingQueue.NoLostWakeupStep | Vendors/spdlog/details/mpmc_blocking_q.h:32-67 | each single step keeps that balance, whatever the step |
| BlockingQueue.QuiescentMeansNothingToDo | Vendors/spdlog/details/mpmc_blocking_q.h:54-67 | when no notification is under way and no thread is awake, a parked consumer means an empty queue and a parked producer a full one |
| BlockingQueue.FifoStep | Vendors/spdlog/details/mpmc_blocking_q.h:32-67 | one step: stored ++ entering = leaving ++ stored afterwards; the overrun counter counts exactly the items lost in the step |
| BlockingQueue.FifoEver | Vendors/spdlog/details/mpmc_blocking_q.h:32-67 | over any run: first in, first out, nothing invented |
| BlockingQueue.OverrunCounterEver | Vendors/spdlog/details/mpmc_blocking_q.h:107-123 | without a reset the counter grows by exactly the number of overwritten items |
| BlockingQueue.Conservation | Vendors/spdlog/details/mpmc_blocking_q.h:32-67 | enqueued = dequeued + stored + overrun counter, and what is stored is a suffix of what was enqueued |
| BlockingQueue.NoOverruns | Vendors/spdlog/details/mpmc_blocking_q.h:32-40 | without enqueue_nowait nothing is ever overwritten |
| BlockingQueue.BlockingQueueIsLossless | Vendors/spdlog/details/mpmc_blocking_q.h:32-40 | with the blocking operation alone, dequeued ++ stored is the enqueue order |
| BlockingQueue.GivesUpExactly | Vendors/spdlog/details/mpmc_blocking_q.h:54-67 | a consumer gives up exactly when it runs after a timeout and finds the queue empty |
| BlockingQueue.GivesUpOnlyAfterTimeOut | Vendors/spdlog/details/mpmc_blocking_q.h:54-67 | in every run a consumer gives up only after a timeout of its own wait, with no other step of its own in between; no notification or spurious wake-up makes it give up |
| BlockingQueue.MpmcBlockingQueue.EnqueueLocked | Vendors/spdlog/details/mpmc_blocking_q.h:32-40 | the lock-protected body on the ring buffer refines the step of the machine: store, or wait when full |
| BlockingQueue.MpmcBlockingQueue.EnqueueNowaitLocked | Vendors/spdlog/details/mpmc_blocking_q.h:43-50 | the overwriting body refines its step: always stores, losing the oldest item when full |
| BlockingQueue.MpmcBlockingQueue.DequeueLocked | Vendors/spdlog/details/mpmc_blocking_q.h:54-67 | the consumer's body refines its step: takes the front item, gives up after a timeout, or waits |
| BlockingQueue.MpmcBlockingQueue.ResetOverrunCounter | Vendors/spdlog/details/mpmc_blocking_q.h:119-123 | the counter becomes 0 and nothing else changes |
| ThreadPool.InitialInv | Vendors/spdlog/details/thread_pool-inl.h:16-33 | a pool of 1 to 1000 workers starts in the invariant of its shutdown protocol |
| ThreadPool.InvStep | Vendors/spdlog/details/thread_pool-inl.h:45-138 | every step of every client, worker and of the destructor keeps the invariant: roles of the threads, terminate messages only behind ordinary ones, terminates posted = stored + taken, and the balance of the queue |
| PoolShutdown.PoolInvariantEver | Vendors/spdlog/details/thread_pool-inl.h:16-138 | the invariant holds after any run, and a started destructor is never un-started |
| PoolShutdown.NoPostOnceDestroyed | Vendors/spdlog/async_logger-inl.h:27-50 | once the destructor has begun no client can post, no post is under way, and only terminate messages are stored |
| PoolShutdown.Progress | Vendors/spdlog/details/thread_pool-inl.h:45-138 | in every state in which something is left to do, some thread has a step that is neither a timeout nor a spurious wake-up |
| PoolShutdown.BlockedDestructorHasLiveWorker | Vendors/spdlog/details/thread_pool-inl.h:45-60 | a destructor blocked on a full queue always has a worker that has not taken a terminate message |
| PoolShutdown.MeasureStep | Vendors/spdlog/details/thread_pool-inl.h:45-138 | once the destructor has begun, every productive step lowers the measure, and a timeout or spurious wake-up raises it by at most two |
| PoolShutdown.ShutdownIsBounded | Vendors/spdlog/details/thread_pool-inl.h:45-138 | a run of the destructor has at most as many steps as the measure allows, plus three for each timeout or spurious wake-up |
| PoolShutdown.ShutdownEndsComplete | Vendors/spdlog/details/thread_pool-inl.h:45-60 | with queue size at least 1, a run that cannot be continued productively has finished the destructor, joined all workers and emptied the queue |
| PoolShutdown.PoolRunsTheQueue | Vendors/spdlog/details/thread_pool-inl.h:62-108 | a run of the pool is a run of its queue, so all laws of the queue hold inside the pool |
| PoolShutdown.OnlyTerminatesEnter | Vendors/spdlog/details/thread_pool-inl.h:45-60 | in a run of the destructor only terminate messages are stored, and as many as were posted |
| PoolShutdown.DrainThenTerminate | Vendors/spdlog/details/thread_pool-inl.h:45-138 | from the start of the destructor to its end the workers take everything that was queued, in order, and then exactly one terminate message per worker |
| PoolShutdown.EachWorkerTakesOne | Vendors/spdlog/details/thread_pool-inl.h:100-138 | in a run from the start of the destructor to its end every worker takes exactly one terminate message |
| PoolShutdown.TakesWhatLeaves | Vendors/spdlog/details/thread_pool-inl.h:108-138 | what is counted for a worker is a terminate message leaving the queue into its hands |
| PoolShutdown.PoolLife | Vendors/spdlog/details/thread_pool-inl.h:16-138 | over the whole life of a pool with blocking posts, messages are taken in the order stored; when the destructor is done, all were taken and every worker has exited |
| PoolMessages.PostedIsSomewhere | Vendors/spdlog/details/thread_pool-inl.h:62-138 | at any time in the life of a pool with blocking posts, every message was posted as often as it was processed, is in the hands of workers, is stored, or waits for room |
| PoolMessages.PostedIsProcessed | Vendors/spdlog/details/thread_pool-inl.h:16-138 | when the destructor has finished, every message was processed exactly as often as it was posted |
| PoolMessages.PostedIsStored | Vendors/spdlog/details/thread_pool-inl.h:62-108 | over any run, blocking and overwriting posts mixed: posted + waiting before = stored + waiting after, for every message |
| PoolMessages.TakenIsProcessed | Vendors/spdlog/details/thread_pool-inl.h:108-138 | over any run: every log or flush message taken from the queue is one whose processing was completed, or is still in the hands of a worker |
| PoolMessages.ShutdownProcessesEverything | Vendors/spdlog/details/thread_pool-inl.h:45-138 | from the start of the destructor to its end, exactly what was stored or in hand is processed, whatever kind of posts came before |
| PoolMessages.FinishedHoldsNothing | Vendors/spdlog/details/thread_pool-inl.h:45-60 | a finished destructor leaves no message stored, in hand or waiting |
| PoolMessages.OnlyBlockingPostsWait | Vendors/spdlog/details/thread_pool-inl.h:87-98 | a post waits with its message exactly if it blocks on a full queue; every other post stores it at once |
| PoolMessages.OneWorkerInOrder | Vendors/spdlog/details/thread_pool-inl.h:108-138 | over any run of a pool with one worker, messages are processed in the order in which they are taken |
| PoolMessages.OneWorkerKeepsOrder | Vendors/spdlog/details/thread_pool-inl.h:62-138 | with blocking posts, the messages processed, then the one in hand, then those stored are the messages in the order they were stored |
| PoolShutdown.ZeroCapacityNeverFinishes | Vendors/spdlog/details/thread_pool-inl.h:45-60 | with a queue of size 0 no run of the destructor ever finishes |
| CircularQueue.PushAllKeepsLast | Vendors/spdlog/details/circular_q.h:49-62 | pushing any sequence into a bounded buffer keeps exactly its last items, in order |
| CircularQueue.ViewPush | Vendors/spdlog/details/circular_q.h:49-62 | storing at the tail and moving the wrapped indices is a push on the abstract sequence, the oldest item lost when full |
| CircularQueue.ViewPop | Vendors/spdlog/details/circular_q.h:99-102 | moving the head is dropping the first item of the abstract sequence |
| CircularQueue.CircularQ.PushBack | Vendors/spdlog/details/circular_q.h:49-62 | contents become the pushed sequence, and the overrun counter grows exactly when an item was lost; a disabled ring ignores the push |
| CircularQueue.CircularQ.Size | Vendors/spdlog/details/circular_q.h:77-87 | the number of stored items, from the wrapped indices |
| CircularQueue.CircularQ.At | Vendors/spdlog/details/circular_q.h:91-95 | the item at the given position, counted from the oldest |
| CircularQueue.CircularQ.PopFront | Vendors/spdlog/details/circular_q.h:99-102 | contents lose their first item and nothing else changes |
| CircularQueue.CircularQ.Full | Vendors/spdlog/details/circular_q.h:109-117 | true exactly when as many items are stored as the ring was made for; never for a disabled ring |
| CircularQueue.CircularQ.CopyMoveable | Vendors/spdlog/details/circular_q.h:131-143 | takes over the contents of the other ring and leaves that one disabled and empty |
| RingUsers.Backtracer.Enable | Vendors/spdlog/details/backtracer-inl.h:33-38 | a new, empty ring of the given size replaces whatever was stored |
| RingUsers.Backtracer.Disable | Vendors/spdlog/details/backtracer-inl.h:40-44 | disabling keeps the stored messages |
| RingUsers.Backtracer.PushBack | Vendors/spdlog/details/backtracer-inl.h:51-55 | pushes on the stored sequence, ignored before the first enabling |
| RingUsers.Backtracer.ForeachPop | Vendors/spdlog/details/backtracer-inl.h:58-67 | delivers exactly the stored messages in order and leaves the buffer empty |
| RingUsers.EnableStoreDump | Vendors/spdlog/details/backtracer-inl.h:33-67 | on the object, whatever it held before: enable(n), any m pushes and a dump deliver exactly the last min(n, m) messages in order and leave nothing |
| RingUsers.BacktraceDeliversLast | Vendors/spdlog/details/backtracer-inl.h:33-67 | the law behind it, on the stored sequence |
| RingUsers.RingbufferSink.LastRaw | Vendors/spdlog/sinks/ringbuffer_sink.h:28-40 | the last min(lim, stored) stored messages, all of them for lim 0 |
| RingUsers.LogAndRead | Vendors/spdlog/sinks/ringbuffer_sink.h:28-62 | on the object: after any messages the sink holds the last n and returns the last of them up to the limit, all for limit 0 |
| RingUsers.RingSinkReturnsLast | Vendors/spdlog/sinks/ringbuffer_sink.h:28-62 | the law behind it, on the stored sequence |
| FileNames.SplitMeaning | Vendors/spdlog/details/file_helper-inl.h:137-169 | base + extension is the name, in all cases of dots and separators |
| FileNames.CalcFilenameInjective | Vendors/spdlog/sinks/rotating_file_sink-inl.h:55-65 | different indices give different file names |
| FileNames.NumberedName | Vendors/spdlog/sinks/rotating_file_sink-inl.h:52-65 | the number stands before the extension, or at the end of a name without one; number 0 is the plain name |
| Rotation.RotateAt | Vendors/spdlog/sinks/rotating_file_sink-inl.h:109-139 | what file k of the family is after a rotation: file k - 1 moved up where there was one, itself otherwise, and an emptied file 0 |
| Rotation.RotationFrame | Vendors/spdlog/sinks/rotating_file_sink-inl.h:109-139 | a rotation touches no file outside the family |
| Rotation.RotationDropsOnlyTheLast | Vendors/spdlog/sinks/rotating_file_sink-inl.h:109-139 | a rotation drops at most the old last file, and only when another one takes its place; all other text stays in the same order |
| Rotation.FamilyIsSuffixOfStream | Vendors/spdlog/sinks/rotating_file_sink-inl.h:75-95 | reading the family from the highest index to 0 always gives a suffix of first contents ++ records written |
| Rotation.LogKeepsSized | Vendors/spdlog/sinks/rotating_file_sink-inl.h:75-95 | one record keeps the cached size equal to the length of file 0 and every file within the limit or one whole record |
| Rotation.FittingRecordIsAppended | Vendors/spdlog/sinks/rotating_file_sink-inl.h:84-95 | a record that fits file 0 is appended to it, and no other file changes |
| Rotation.LargeRecordInEmptyFile | Vendors/spdlog/sinks/rotating_file_sink-inl.h:84-95 | nor is there a rotation before a record that is too long for an empty file |
| Rotation.UnfittingRecordRotates | Vendors/spdlog/sinks/rotating_file_sink-inl.h:84-139 | a record that does not fit a file with contents becomes the whole file 0, file k becomes file k + 1, and the last file goes only if another takes its place |
| Rotation.UnfittingRecordKeepsOthers | Vendors/spdlog/sinks/rotating_file_sink-inl.h:84-139 | such a record leaves all files outside the family alone |
| Rotation.FilesRespectTheLimit | Vendors/spdlog/sinks/rotating_file_sink-inl.h:75-95 | the same over any stream of records |
| Rotation.FreshSinkRespectsTheLimit | Vendors/spdlog/sinks/rotating_file_sink-inl.h:27-95 | from an empty family: every file is at most max_size long or is exactly one non-empty record |
| RotatingFileSink.RotatingSink.Create | Vendors/spdlog/sinks/rotating_file_sink-inl.h:27-50 | refuses a size of 0 and more than 200000 files, in this order; else opens file 0 and rotates it away when asked to and not empty |
| RotatingFileSink.RotatingSink.Rotate | Vendors/spdlog/sinks/rotating_file_sink-inl.h:109-139 | the loop of renames changes the disk as one rotation |
| RotatingFileSink.RotatingSink.RenameFile | Vendors/spdlog/sinks/rotating_file_sink-inl.h:143-149 | the target is replaced by the source file, which disappears; without one the target is deleted and the rename fails |
| RotatingFileSink.RotatingSink.SinkIt | Vendors/spdlog/sinks/rotating_file_sink-inl.h:75-95 | the disk and the cached size become those of logging one record |
| RotatingFileSink.FileHelper.Open | Vendors/spdlog/details/file_helper-inl.h:32-74 | the file exists afterwards, emptied on request, otherwise with its old contents |
| Decimal.ValueOfToDecimal | Vendors/spdlog/details/fmt_helper.h:34-58 | decimal text reads back as the number |
| Decimal.CountDigits | Vendors/spdlog/details/fmt_helper.h:60-80 | counting four digits per division gives the length of the decimal text |
| Decimal.LengthOfToDecimal | Vendors/spdlog/details/fmt_helper.h:115-123 | a number needs at most k digits exactly when it is below ten to the k |
| LogFields.OffsetReadsBack | Vendors/spdlog/pattern_formatter-inl.h:606-626 | the text of a UTC offset has the form sign, two digits, colon, two digits exactly below 100 hours, and then decodes to the offset |
| LogFields.LongOffset | Vendors/spdlog/pattern_formatter-inl.h:606-626 | an offset of 100 hours has seven characters |
| LogFields.CalendarWritesDeclared | Vendors/spdlog/pattern_formatter-inl.h:173-590 | every calendar field but %D, %x and %c writes at least the size it announces to the padder |
| LogFields.MessageWritesDeclared | Vendors/spdlog/pattern_formatter-inl.h:107-900 | so does every message field, but for short-epoch %E |
| LogFields.ShortDateWritesLess | Vendors/spdlog/pattern_formatter-inl.h:304-314 | %D writes 8 characters and announces 10, from 1900 on |
| LogFields.ShortestCalendarText | Vendors/spdlog/pattern_formatter-inl.h:248-334 | the shortest texts of %c, %D, %x and %Y, which announce more, are 20, 8, 8 and 1 characters |
| LogFields.CalendarFlagReadsTime | Vendors/spdlog/pattern_formatter-inl.h:173-590 | every calendar flag really depends on the calendar time |
| LogMeanings.ClockReadsBack | Vendors/spdlog/pattern_formatter-inl.h:573-592 | HH:MM:SS reads back as hour, minute and second |
| LogMeanings.DateReadsBack | Vendors/spdlog/pattern_formatter-inl.h:941-975 | the date of %+ reads back as year, month, day, hour, minute and second, from the year 0 on |
| LogMeanings.TimeNumbers | Vendors/spdlog/pattern_formatter-inl.h:370-435 | %H, %M and %S read back as hour, minute and second |
| LogMeanings.DayNumbers | Vendors/spdlog/pattern_formatter-inl.h:336-367 | %m and %d read back as month and day |
| LogMeanings.YearNumber | Vendors/spdlog/pattern_formatter-inl.h:319-333 | %Y reads back as the year |
| LogMeanings.ShortYearNumber | Vendors/spdlog/pattern_formatter-inl.h:280-294 | %C reads back as the last two digits of the year, from 1900 on |
| LogMeanings.TwelveHours | Vendors/spdlog/pattern_formatter-inl.h:387-526 | %I and %p together give the hour back |
| LogMeanings.TimeCompounds | Vendors/spdlog/pattern_formatter-inl.h:553-592 | %R, %T and %X are put together from %H, %M and %S |
| LogMeanings.TwelveHourCompound | Vendors/spdlog/pattern_formatter-inl.h:529-550 | %r is put together from %I, %M, %S and %p |
| LogMeanings.DateCompounds | Vendors/spdlog/pattern_formatter-inl.h:297-316 | %D and %x are month, day and short year |
| LogMeanings.LongDateCompound | Vendors/spdlog/pattern_formatter-inl.h:248-277 | %c is day name, month name, day, clock and year |
| LogMeanings.FullNames | Vendors/spdlog/pattern_formatter-inl.h:189-246 | %A and %B are the names of the day and month with that number |
| LogMeanings.ShortNames | Vendors/spdlog/pattern_formatter-inl.h:170-225 | %a and %b are the first three letters of these names, four for September |
| LogMeanings.LevelNames | Vendors/spdlog/common.h:224-238 | the seven level names in order of severity |
| LogMeanings.ShortLevelNames | Vendors/spdlog/common.h:240-246 | %L is the first letter of the level name as a capital |
| LogMeanings.MessageTexts | Vendors/spdlog/pattern_formatter-inl.h:107-900 | %n is the logger name, %v the payload, %l the level, and the source flags show the parts of the location, or nothing without one |
| LogMeanings.BasenameMeans | Vendors/spdlog/pattern_formatter-inl.h:814-858 | the short file name is what follows the last separator |
| LogMeanings.MessageNumbers | Vendors/spdlog/pattern_formatter-inl.h:493-678 | %t, %P and %E read back as thread, process and second of the epoch |
| LogMeanings.FractionNumbers | Vendors/spdlog/pattern_formatter-inl.h:438-490 | %e, %f and %F read back as the milli-, micro- and nanoseconds of the second, from the epoch on |
| LogMeanings.ElapsedIsSinceTheMessageBefore | Vendors/spdlog/pattern_formatter-inl.h:907-930 | for every series of messages, the elapsed-time flags read back as the time since the message before, in their unit, and 0 when the clock went back |
| PatternCompiler.PadspecReadsBack | Vendors/spdlog/pattern_formatter-inl.h:1331-1384 | a written padding specification is read back: side, width (at most 64 counts), truncation mark, rest of the pattern untouched |
| PatternCompiler.WidthIsTheNumber | Vendors/spdlog/pattern_formatter-inl.h:1364-1370 | the width accumulated digit by digit is the number written, modulo 2^64 |
| PatternCompiler.WrappedIsValue | Vendors/spdlog/pattern_formatter-inl.h:1364-1370 | wrapping at each digit is the same as reducing the whole number once |
| PatternCompiler.CompileWellFormed | Vendors/spdlog/pattern_formatter-inl.h:1386-1431 | no compiled formatter has a width over 64, for every pattern |
| PatternCompiler.Compiler.CompilePattern | Vendors/spdlog/pattern_formatter-inl.h:1386-1431 | stays inside every pattern, compiles as specified, and raises the local-time flag exactly when a compiled built-in formatter needs it |
| PatternCompiler.Compiler.CompileFlag | Vendors/spdlog/pattern_formatter-inl.h:1402-1419 | consumes exactly the padding and the flag, and appends what they mean |
| PatternCompiler.Compiler.AddFlag | Vendors/spdlog/pattern_formatter-inl.h:1100-1329 | appends the formatters of a flag, known or not, and raises the local-time flag exactly for those that need it |
| PatternCompiler.Compiler.ReadPadspec | Vendors/spdlog/pattern_formatter-inl.h:1331-1384 | the loop over the specification returns what its definition gives, from any position |
| PatternRender.PaddingContract | Vendors/spdlog/pattern_formatter-inl.h:37-93 | a field of its announced size adds exactly the width with the field inside and the spaces split by side, the field alone when longer, or its first width characters when truncating; earlier text and both marks stay |
| PatternRender.FieldKeepsEarlierText | Vendors/spdlog/pattern_formatter-inl.h:70-87 | a padded field leaves the text before it alone exactly when it is not cut by more than it wrote |
| PatternRender.ScopedPadder.PadIt | Vendors/spdlog/pattern_formatter-inl.h:84-88 | adds the spaces asked for, never more than its 64 |
| PatternRender.ScopedPadder.Finish | Vendors/spdlog/pattern_formatter-inl.h:70-81 | pads on the right, cuts a longer field, or fails when more is to be cut than there is |
| PatternRender.FormatField | Vendors/spdlog/pattern_formatter-inl.h:40-93 | padder, text and destructor together write the field as specified |
| PatternRender.NeedsTimeIsExact | Vendors/spdlog/pattern_formatter-inl.h:1100-1329 | the compiler asks for the calendar time for exactly the built-in formatters whose text depends on it |
| PatternFormatter.CalendarIsRightExactly | Vendors/spdlog/pattern_formatter-inl.h:1059-1077 | after any use of a new formatter whose pattern needs the time, formatters get the calendar of the message's own second exactly if that is not second 0, or a message outside second 0 came before while the time was needed |
| PatternFormatter.WarmExactly | Vendors/spdlog/pattern_formatter-inl.h:1059-1084 | after any use of a new formatter the calendar cache is filled exactly if a message outside second 0 was formatted while the pattern needed the time |
| PatternFormatter.FilledMeans | Vendors/spdlog/pattern_formatter-inl.h:1059-1084 | the same history as a statement about the sequence of calls |
| PatternFormatter.UserFlagSeesBlankTime | Vendors/spdlog/pattern_formatter-inl.h:1101-1111 | a pattern of one user-defined flag never asks for the time, and the flag is given the blank calendar for every message |
| PatternFormatter.SecondZeroShowsBlankDate | Vendors/spdlog/pattern_formatter-inl.h:1028-1031 | a first message in second 0 shows day 00 |
| PatternFormatter.CachesAreInvisible | Vendors/spdlog/pattern_formatter-inl.h:941-975 | over any sequence of messages and pattern changes, time going forward or back, the output is that of recomputing the calendar for each message, if no message in second 0 comes first and no user-defined flag stands in a pattern that does not need the time |
| PatternFormatter.FormatterRefinesUncached | Vendors/spdlog/pattern_formatter-inl.h:1059-1084 | for messages outside second 0 this holds for every pattern that needs the time if it has a user-defined flag |
| PatternFormatter.BuiltInIsTimed | Vendors/spdlog/pattern_formatter-inl.h:1101-1329 | in particular for every pattern of a formatter without user-defined flags |
| PatternFormatter.OffsetIsRecent | Vendors/spdlog/pattern_formatter-inl.h:606-642 | over any series of messages, the text of %z is the offset of a message the last one follows by less than ten seconds, or zero in the first ten seconds of the epoch |
| PatternFormatter.PatternRoundTrip | Vendors/spdlog/pattern_formatter-inl.h:1386-1431 | doubling every '%' of any text, compiling and formatting gives the text and the end of line |
| PatternFormatter.DoubledShowsText | Vendors/spdlog/pattern_formatter-inl.h:1386-1431 | the same behind any text already collected |
| ConsoleSink.FormatterObject.Format | Vendors/spdlog/pattern_formatter-inl.h:1059-1077 | for every pattern, and behind whatever the buffer holds, the object with its cached calendar writes what the specification gives, failing when it fails, and moves to its next state |
| ConsoleSink.FormatterObject.SetPattern | Vendors/spdlog/pattern_formatter-inl.h:1079-1084 | a new pattern keeps the calendar cache and forgets what the old formatters remembered |
| ConsoleSink.FormatterObject.RunFlags | Vendors/spdlog/pattern_formatter-inl.h:1070-1076 | the loop over the formatters writes text and marks as specified, and fails exactly when a padder does |
| ColorMarks.FieldKeepsMarksExactly | Vendors/spdlog/pattern_formatter-inl.h:70-87 | for every flag and padding: the field keeps the text before it and both marks, for all messages and times, exactly if its cut stays within the shortest text of the flag |
| ColorMarks.SoundPatternExactly | Vendors/spdlog/pattern_formatter-inl.h:70-87 | a pattern is sound exactly if each of its formatters keeps the marks |
| ColorMarks.FlagGrows | Vendors/spdlog/pattern_formatter-inl.h:70-87 | no formatter of a sound pattern shrinks the text below where it started |
| ColorMarks.MarksAreSound | Vendors/spdlog/pattern_formatter-inl.h:729-754 | for every sound pattern both marks lie inside the final text |
| ColorMarks.OvercutMovesTextBehindMark | Vendors/spdlog/pattern_formatter-inl.h:304-314 | without the condition a mark can lie behind the end of the text |
| ColorMarks.ConsoleTextWithoutCodes | Vendors/spdlog/sinks/ansicolor_sink-inl.h:41-66 | the two colour codes stand at the marks, and removing them gives exactly the formatted text |
| ConsoleSink.OutputMarksInside | Vendors/spdlog/sinks/ansicolor_sink-inl.h:41-66 | whatever was formatted before, a sound pattern gives a line with sound marks |
| ConsoleSink.AnsicolorSink.Log | Vendors/spdlog/sinks/ansicolor_sink-inl.h:41-66 | writes the formatted line with the coloured range between the code of its level and the reset code, or as it is |
| ConsoleSink.AnsicolorSink.PrintRange | Vendors/spdlog/sinks/ansicolor_sink-inl.h:121-124 | appends exactly the given range |
| ConsoleSink.AnsicolorSink.constructor | Vendors/spdlog/sinks/ansicolor_sink-inl.h:17-31 | the colour code of each level |
| ColorMarks.PlainConsoleText | Vendors/spdlog/sinks/ansicolor_sink-inl.h:41-66 | without colours, or without a coloured range, the line is written as it is |
| ProgramPatterns.FileLine | Core/Logger.cpp:30 | after any earlier messages, the pattern of the log file writes every message outside second 0 as "[clock] [level] logger: payload" and the end of line |
| ProgramPatterns.ConsoleLine | Core/Logger.cpp:29 | after any earlier messages, the pattern of the console writes every message outside second 0 as "[clock] logger: payload" and the end of line, with the marks at both ends of the text |
| ProgramPatterns.ConsoleLineIsColoured | Vendors/spdlog/sinks/ansicolor_sink-inl.h:41-66 | so the console gets the colour, that text, the reset code and the end of line |
| ProgramPatterns.DefaultLine | Vendors/spdlog/pattern_formatter-inl.h:934-1018 | after any messages outside second 0 the default pattern writes date, time, milliseconds, logger, level, source and payload of the message itself, and marks the level |
| ProgramPatterns.MillisReadBack | Vendors/spdlog/pattern_formatter-inl.h:977-980 | its milliseconds read back |
| ProgramPatterns.UnknownFlagIsShown | Vendors/spdlog/pattern_formatter-inl.h:1303-1329 | a flag nobody knows is shown as it is written |
| ProgramPatterns.BangBehindWidthIsTheFlag | Vendors/spdlog/pattern_formatter-inl.h:1303-1329 | a truncation mark that no known flag follows is taken as the function-name flag, with the width written before it |
| GmtOffset.OffsetExactly | Vendors/spdlog/details/os-inl.h:293-315 | the offset is the difference of second counts, defined by summing Gregorian year lengths, exactly when both years are on the same side of the rounding error, for all civil dates |
| GmtOffset.OffsetIsExactFromYearOne | Vendors/spdlog/details/os-inl.h:293-315 | so for all dates from year 1 on, and 99 years before |
| GmtOffset.OffsetIsWrongLongAgo | Vendors/spdlog/details/os-inl.h:293-315 | a pair of dates with a wrong offset |
| GmtOffset.CodeLeapCountIsExactUnlessMissed | Vendors/spdlog/details/os-inl.h:297-304 | the leap-day formula of the code counts the Gregorian leap years up to a year, up to one exactly where the rounding fails |
| GmtOffset.SignedDaysClosedForm | Vendors/spdlog/details/os-inl.h:297-307 | days between two years, summed year by year, in closed form |
| RankingFits.PreparedForgets | Application/Ranking/OneNpManager.h:150-161 | the variables at the start of a reset fit depend only on the snapshot, the preferred values and what no reset governs |
| RankingFits.WhatFloats | Application/Ranking/OneNpManager.cpp:19-56 | which variables float then: the studied POI or all of them, and what floated in the snapshot, never the ranked parameter; POIs start from the initial value |
| RankingFits.RankedParameterIsFixed | Application/Ranking/OneNpManager.cpp:63-132 | when a result is saved, the ranked parameter is constant at the value found, found ± 1 or found ± error |
| RankingFits.FitKeepsFrame | Application/Ranking/OneNpManager.cpp:90-132 | a fit changes nothing but what the next reset restores |
| RankingFits.SavedForgets | Application/Ranking/OneNpManager.cpp:90-132 | a saved result does not depend on the fits before |
| RankingFits.ResultsAreHistoryIndependent | Application/Ranking/OneNpManager.cpp:90-132 | after any series of different fits each result is the one its fit gives alone |
| RankingFits.FitsMayRunInAnyOrder | Application/Ranking/OneNpManager.cpp:90-132 | every permutation of the fits gives the same results |
| Ranking.OneNpManager.ResetNp | Application/Ranking/OneNpManager.cpp:19-25 | value, error and constness of the ranked parameter; throws exactly when it is missing |
| Ranking.OneNpManager.ResetPoi | Application/Ranking/OneNpManager.cpp:27-56 | both loops over the POIs and the setting of the studied one, as specified; throws exactly when that is missing |
| Ranking.OneNpManager.ResetToInitState | Application/Ranking/OneNpManager.h:150-161 | snapshot, parameter and POIs together |
| Ranking.OneNpManager.VaryNp | Application/Ranking/OneNpManager.cpp:63-88 | moves the parameter by 1 or by its error in the direction of the sign, not at all for another sign |
| Ranking.OneNpManager.RunResetFit | Application/Ranking/OneNpManager.cpp:90-132 | reset, vary, minimise, save under the key of the fit |
| Ranking.OneNpManager.RunFreeFit | Application/Ranking/OneNpManager.cpp:114-121 | resets only the POIs, minimises, saves |
| Ranking.OneNpManager.SaveResAs | Application/Ranking/OneNpManager.cpp:174-189 | puts a record under the key, replacing an older one: the names of POI and parameter, and value and error of the POI as the workspace has them |
| Ranking.RankOneNp | Application/FitManager.cpp:146-210 | snapshot and the six fits in the order of the code: the record is a function of the workspace; each entry holds value and error of the POI after its fit alone, at the value the free fit found |
| Ranking.RecordShows | Application/FitManager.cpp:169-230 | each of the six entries names the POI and the parameter and holds value and error of the POI after its fit, and the parameter is recorded with the value and error of the free fit |
| Ranking.FreeFitStart | Application/Ranking/OneNpManager.cpp:27-61 | the free fit starts with all POIs at the initial value, the studied one or all of them floating, and everything else as it was |
| RankingWorker.ChooseNp | Application/FitManager.cpp:93-130 | by number the parameter at that place; by name that parameter exactly if it is in the list and not its first, which is refused as not found |
| RankingWorker.FirstNpNeedsItsNumber | Application/FitManager.cpp:119-129 | the first parameter of any list is not found by its name, but by its number |
| RankingWorker.SetUpWorkspace | Application/FitManager.cpp:135-145 | POIs at their initial value and global observables at zero, all with error 0, unless the study is done after a fit |
| RankingWorker.SetUpKeepsWellPosed | Application/FitManager.cpp:135-151 | the set-up leaves a well-posed ranking well posed |
| RankingWorker.FitsStartFromSetUp | Application/FitManager.cpp:135-210 | every fit starts with the global observables at zero, unless the study is done after a fit, and with every other variable that is neither POI nor ranked as it was before the set-up; constness is never touched |
| RankingWorker.ComputeNpRankingOneWorker | Application/FitManager.cpp:82-210 | the whole worker: refused with nothing changed exactly if no parameter can be chosen, otherwise the record of its six fits on the workspace after the set-up, each entry with value and error of the POI after its fit |
| Ranking.Workspace.SetVarVal | Core/WorkspaceWrapper.h:247-256 | sets the value only; throws exactly when the variable is missing |
| StringUtils.JoinOfSplit | Utils/StringUtils.h:268-281 | joining the pieces gives the text back, up to one separator at its end |
| StringUtils.SplitOfJoin | Utils/StringUtils.h:268-281 | splitting joined pieces gives them back, if the last is not empty |
| StringUtils.SplitOfJoinLosesEmptyLast | Utils/StringUtils.h:252-266 | an empty last piece is lost |
| StringUtils.PiecesAreClean | Utils/StringUtils.h:268-281 | no piece contains the separator |
| StringUtils.SplitText | Utils/StringUtils.h:268-281 | the loop returns the pieces |
| StringUtils.JoinParts | Utils/StringUtils.h:188-199 | the loop returns the joined text |
| StringUtils.TrimMeans | Utils/StringUtils.h:141-165 | trimming removes blanks at both ends and nothing else |
| StringUtils.TrimText | Utils/StringUtils.h:141-165 | trimming in place gives the trimmed text |
| NumberText.StodStops | Application/NllScans/PoiConfig.cpp:139-160 | a number followed by a character that cannot continue it reads like the number alone |
| NumberText.StoiStops | Application/NllScans/PoiConfig.cpp:161-191 | the same for integers |
| NumberText.StodReadsNumeral | Application/NllScans/PoiConfig.cpp:139-160 | the text of any decimal number, with or without sign and fraction, is read as that number |
| NumberText.StoiReadsInteger | Application/NllScans/PoiConfig.cpp:161-191 | the text of an integer is read as it, exactly if it is in the range of int |
| PoiSettings.UpdateByWords | Application/NllScans/PoiConfig.cpp:107-137 | a token means what its words mean, however many spaces separate them, opening square bracket included |
| PoiOrder.ClosingIsIgnored | Application/NllScans/PoiConfig.cpp:131-136 | the closing parenthesis behind the last setting changes nothing, glued to the value or not, with or without square brackets |
| PoiOrder.OrderDoesNotMatter | Application/NllScans/PoiConfig.cpp:83-269 | for documented settings, with or without square brackets, each name at most once, any permutation gives the same configuration, or fails as well |
| PoiOrder.EverySettingShows | Application/NllScans/PoiConfig.cpp:139-267 | every setting takes effect wherever it stands; bounds in sigmas are counted from the central value even if that comes later |
| PoiText.AtIsRead | Application/NllScans/PoiConfig.cpp:252-260 | `at n` among any other settings in any order: the point is known and is n |
| PoiText.GridIsRead | Application/NllScans/PoiConfig.cpp:161-191 | `grid k`: the grid has k points, and a negative number wraps around |
| PoiText.ValIsRead | Application/NllScans/PoiConfig.cpp:139-160 | `val v e`: central value v, error e |
| PoiText.RangeIsRead | Application/NllScans/PoiConfig.cpp:192-251 | `range a b`: the bounds are a and b |
| PoiText.SigmaRangeIsRead | Application/NllScans/PoiConfig.cpp:192-267 | `range as bs`: the bounds are a errors below and b errors above the central value, set before or after |
| PoiText.OneBoundIsRead | Application/NllScans/PoiConfig.cpp:192-251 | `range a`: both bounds are a |
| PoiText.OneSigmaBoundIsRead | Application/NllScans/PoiConfig.cpp:192-267 | `range as`: a errors on both sides of the central value |
| PoiText.NameIsRead | Application/NllScans/PoiConfig.cpp:83-100 | the name is the trimmed text before the parenthesis |
| PoiText.UnsetValIsDefault | Application/NllScans/PoiConfig.h:66-82 | without `val` the central value is 0 with error 0 |
| PoiText.UnsetGridIsDefault | Application/NllScans/PoiConfig.h:66-82 | without `grid` there is one grid point |
| PoiText.UnsetAtIsDefault | Application/NllScans/PoiConfig.h:66-82 | without `at` no point is known |
| PoiText.UnsetRangeIsDefault | Application/NllScans/PoiConfig.h:66-82 | without `range` both bounds are 0 and not in sigmas |
| PoiText.FullTextIsRead | Application/NllScans/PoiConfig.cpp:83-269 | every field of the result for all four settings in any order, with a range in real units |
| PoiText.FullSigmaTextIsRead | Application/NllScans/PoiConfig.cpp:83-269 | the same with a range in sigmas |
| PoiText.WrittenTextIsRead | Application/NllScans/PoiConfig.cpp:83-269 | any text of settings written in these forms can be read |
| PoiOrder.RealBoundsExactly | Application/NllScans/PoiConfig.cpp:206-251 | a bound written in real units is the bound of the result exactly if it is not 0 next to a bound in sigmas, or two sigmas happen to be 0 as well |
| PoiOrder.FailsExactlyWithASetting | Application/NllScans/PoiConfig.cpp:107-262 | reading fails exactly when some setting fails by itself |
| PoiBrackets.ZeroBoundIsReplaced | Application/NllScans/PoiConfig.cpp:206-267 | with `val v e`, the 0 of `range 0 ks` becomes v - 2e |
| PoiBrackets.BracketsMatterExactly | Application/NllScans/PoiConfig.cpp:118-137 | exactly when square brackets, with any spaces inside, change a setting: without a space before the closing one, a readable range whose last value is in sigmas; with one, where a value too many matters |
| PoiBrackets.BlankBeforeBracketIsMisread | Application/NllScans/PoiConfig.cpp:118-137 | `val [a b ]` sets nothing, and `range [a b ]` ends at its lower bound |
| PoiBrackets.GridIsRefusedExactly | Application/NllScans/PoiConfig.cpp:161-191 | a grid is refused exactly if it has two values or a number that cannot be read |
| PoiBrackets.GridKindIsRefused | Application/NllScans/PoiConfig.cpp:161-191 | a text with `grid n kind`, as documented, cannot be read, whatever else it says |
| PoiBrackets.DocumentedRangeIsMisread | Application/NllScans/PoiConfig.cpp:286-290 | `range [as bs]` reads as a sigmas and the value b, for all numbers a and b |
| PoiOrder.ReadRendered | Application/NllScans/PoiConfig.cpp:94-107 | reading a text is reading its tokens in turn, without the closing bracket |
| PoiConfig.ReadFromString | Application/NllScans/PoiConfig.cpp:83-269 | the loops over the text return the configuration it means, and fail exactly when it has none |
| PoiConfig.PoiConfig.ReadToken | Application/NllScans/PoiConfig.cpp:107-260 | one token changes the object as its meaning says, or fails |
| PoiConfig.KeepValues | Application/NllScans/PoiConfig.cpp:124-136 | keeps the values that are not empty and not a lone closing bracket |
| PoiConfig.PoiConfig.ComputeRangeFromSigmasIfNeeded | Application/NllScans/PoiConfig.h:85-107 | bounds that are still 0 become central value minus or plus sigmas times error; nothing changes for a range in real units |
| PoiConfig.CachedOnce | Application/NllScans/PoiConfig.h:109-122 | reading the range again changes nothing |
| PoiConfig.PoiConfig.ScanRangeLow | Application/NllScans/PoiConfig.h:109-115 | the lower bound, computed on the first reading |
| PoiConfig.PoiConfig.ScanRangeHigh | Application/NllScans/PoiConfig.h:116-122 | the upper bound, computed on the first reading |
| PoiConfig.PoiConfig.IdentifyScanPoint | Application/NllScans/NllScanManager.cpp:56-71 | a worker tests its grid point, unless the text gave a value |
| GridScan.GridIsEquidistant | Application/NllScans/NllScanManager.cpp:174-194 | grid points increase in equal steps from exactly low to exactly high |
| GridScan.OneSortedOrder | Application/NllScans/NllScanPlotterSettings.cpp:81-83 | points with different values have only one sorted order, so an unstable sort does no harm |
| GridScan.MergeIsLossless | Application/NllScans/NllScanPlotterSettings.cpp:81-91 | however the points of the workers arrive, sorting gives them in grid order, each with its likelihood |
| GridScan.ShiftedMeans | Application/NllScans/NllScanPlotterSettings.cpp:93-109 | doubled distances to the minimum are non-negative, 0 exactly at the minima, and keep order and differences |
| GridScan.MergeScan | Application/NllScans/NllScanPlotterSettings.cpp:72-120 | adding the points of all workers in any order and preparing once gives the grid from low to high, each likelihood at its point, minimum 0, and the ends as min_poi and max_poi |
| GridScan.NllCurveSettings.PrepareMuNllValues | Application/NllScans/NllScanPlotterSettings.cpp:72-120 | what preparing does to every field of any curve, empty and already prepared ones included |
| GridScan.NllCurveSettings.AddPoint | Application/NllScans/NllScanPlotterSettings.h:53 | appends the point |
| GridScan.PreparingTwiceDoubles | Application/NllScans/NllScanPlotterSettings.cpp:88-91 | preparing a second time doubles the value lists |
| PeriodicWorker.NoCallbackOnceCleared | Vendors/spdlog/details/periodic_worker-inl.h:21-45 | in every interleaving, from the moment the flag is cleared no callback runs or starts |
| PeriodicWorker.NothingRunsAfterJoin | Vendors/spdlog/details/periodic_worker-inl.h:35-46 | when the destructor returns the thread has exited, or there never was one for an interval of at most 0 |
| PeriodicWorker.CallbacksNeedExpiredWaits | Vendors/spdlog/details/periodic_worker-inl.h:13-31 | there are never more callbacks than expired waits, and none for an interval of at most 0 |
| PeriodicWorker.EveryExpiredWaitCalls | Vendors/spdlog/details/periodic_worker-inl.h:21-31 | in every run of an active worker, each expired wait but one still on its way has started a callback |
| PeriodicWorker.ReacquireMeans | Vendors/spdlog/details/periodic_worker-inl.h:21-31 | behind a wait the callback starts exactly if it expired and the worker is active; woken early it waits again, and cleared it exits |
| PeriodicWorker.ShutdownIsBounded | Vendors/spdlog/details/periodic_worker-inl.h:35-46 | once the flag is cleared every step counts down from at most four |
| PeriodicWorker.ShutdownProgresses | Vendors/spdlog/details/periodic_worker-inl.h:21-45 | until the destructor is done there is a next step that does not wait for the interval: the thread is never left parked |
| PeriodicWorker.StopsCleanly | Vendors/spdlog/details/periodic_worker-inl.h:13-46 | every run that is not cut short ends with the thread exited and joined |
| DupFilter.Conservation | Vendors/spdlog/sinks/dup_filter_sink.h:54-87 | over any run, received = forwarded + announced + still counted, exactly when no count reaches 2^32 (nor wraps); never more is accounted for than received |
| DupFilter.ShortRunsFit | Vendors/spdlog/sinks/dup_filter_sink.h:54-80 | counts fit for every run of at most 2^32 messages |
| DupFilter.LongRunsAreMisannounced | Vendors/spdlog/sinks/dup_filter_sink.h:64-73 | after 2^32 duplicates the notice announces 0 |
| DupFilter.NoticeReadsBack | Vendors/spdlog/sinks/dup_filter_sink.h:66-68 | the notice always fits its buffer, so it is always sent, and its text reads back as the count modulo 2^32 |
| DupFilter.ConsecutiveDiffer | Vendors/spdlog/sinks/dup_filter_sink.h:83-87 | two consecutive forwarded messages differ in payload or are more than the limit apart |
| DupFilter.ForwardedUnlessRepeated | Vendors/spdlog/sinks/dup_filter_sink.h:54-87 | from received and forwarded messages alone: the next one is forwarded exactly when it does not repeat the last forwarded one within the limit |
| DupFilter.RemembersLastForwarded | Vendors/spdlog/sinks/dup_filter_sink.h:76-79 | the filter compares with the last forwarded message |
| DupFilter.DupFilterSink.SinkIt | Vendors/spdlog/sinks/dup_filter_sink.h:54-80 | one message: new state, and the notice, if any, before the message |

## Left out

- Everything that draws: plots, LaTeX, canvases, reports; JSON and TOML reading; command line and colour parsing; log macros and profiling.
- ROOT and RooFit: the minimiser is a function of the error mode and the variables that changes non-constant variables only; limits of a variable that setVal clips to are not modelled, nor is a likelihood object kept from an earlier fit (`reuse_nll`).
- Floating point: values, errors, ranges and likelihoods are reals; numbers are read without range errors, hexadecimal, infinities and NaN.
- Widths of times, years and queue counters: integers are unbounded, except where a wrap-around is written out (padding width, duplicate count, grid size).
- Real files: opening, writing and renaming succeed, so the retry of a failed rename, the error of a failed open, and file event handlers are not modelled; the separator of folders is '/'.
- The logger registry, the backend loop of the asynchronous logger over its sinks, exceptions thrown by sinks, callbacks on thread start and stop, and sinks that post to the pool themselves.
- Daily and hourly sinks: the same ring of files with names from a clock.
- The variant of the queue for MinGW: it notifies while holding the mutex, which is the order of steps where the notification follows at once.
- FitManager::CreateAsimovData, PoiConfig equality, StringUtils::Strip and the case copies: their code does not do what the names say and nothing modelled here uses them.
- Hermite grids, the multi-parameter scan and user-defined scan points.
- ThreadPool.InvStep: the last thread that releases the pool runs the destructor there; the model gives the destructor a thread of its own, and does not let a worker release the last reference.
- PoolMessages.TakenIsProcessed: the call into the sinks of the logger is one step between two of the worker's; which of writing and flushing it is follows from the message.
- PoolMessages.PostedIsProcessed: speaks of blocking posts; an overwriting post may lose a message, which `BlockingQueue.Conservation` counts, while `PostedIsStored`, `TakenIsProcessed` and `ShutdownProcessesEverything` hold for both.
- CircularQueue.CircularQ.PopFront: popping an empty ring is undefined in the source and required not to happen here; the same holds for the front item, an index out of range, and moving a ring into itself.
- PatternRender.NeedsTimeIsExact: speaks of built-in flags only; for user-defined ones the compiler never asks for the time, and their text is modelled as a function of padding, message and calendar time.
- PatternFormatter.CachesAreInvisible: %z is taken with its own cache on both sides, which is meant to be up to ten seconds old (`OffsetIsRecent` says how old); time zones stay fixed, and the elapsed-time flags of one pattern share one starting time.
- ConsoleSink.AnsicolorSink.Log: requires a sound pattern, since otherwise a padder may end the program or a mark may point behind the buffer; errors of the output stream are not modelled.
- RotatingFileSink.FileHelper.Open: always succeeds at the first try; the creation of folders, the retries and the error after them are not modelled.
- PoiSettings.UpdateByWords: speaks of spaces; tabs are trimmed at the ends of a token but do not separate words in the source, nor do they here.
- PoiOrder.EverySettingShows: requires each name at most once; of two settings of one name the later wins in the source.
- RankingWorker.ComputeNpRankingOneWorker: requires what makes results comparable at all, namely that every variable that may float is a POI or in the snapshot; reading a result that was never saved, which returns a dangling reference, does not occur.
- PoiConfig.ReadFromString: a text without anything after an opening bracket, and a range without values, read behind the end of a list in the source; here they fail.
- PoiConfig.PoiConfig.IdentifyScanPoint: requires a grid not of one point, where the source divides by zero and gets an infinity or no number at all; a size of 0 wraps around as in the source.
- GridScan.MergeScan: the sets the scan results are collected in are not modelled; the sort of the standard library is one that puts the points in order.
- DupFilter.DupFilterSink.SinkIt: what is sent is what the distributing sink gets, before each sink filters by level.
- PeriodicWorker.StopsCleanly: callbacks end and do not throw.
