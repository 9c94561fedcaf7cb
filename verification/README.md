# A verified model of pynvme's data-integrity engine and I/O worker

pynvme drives NVMe devices for testing. Its C layer keeps, for each LBA, a checksum of what was last
written and a lock for the command in flight, so that every read can be verified on the fly; it logs
commands in a ring; and it runs I/O workers that keep a queue busy until some limit stops them. Its
Python layer waits for admin commands, configures workers and looks up bytes in chains of PRP lists.

This project models that code in Dafny 4.11 and proves what it promises. `dafny verify dfyconfig.toml`
checks everything.

| file | models |
|---|---|
| Commands.dfy | submission queue entries, LBA ranges, the encoding in `ns_cmd_io` |
| CrcTable.dfy | the checksum and lock table: a specification on sequences, and the in-place code proved to compute it |
| Engine.dfy | the life of commands (issue, queue, submit, complete) as a state machine over every interleaving, with an arbitrary device: locks, what the table remembers, detection, tokens |
| Driver.dfy | the in-place code as a refinement of the state machine, in either order of the completion hooks; how far a worker skips marked LBAs |
| Device.dfy | the same state machine in front of a faithful device that works block by block: no false alarm |
| CommandLog.dfy | the command log ring with relocation, on linked objects |
| Clock.dfy | the shifted monotonic clock |
| Arithmetic.dfy, Counting.dfy | products and quotients by a variable; occurrences and sums |
| LbaGenerator.dfy | LBA, size and opcode of each worker command |
| RegionFill.dfy | filling a region in one sequential pass, from any start |
| WeightedTables.dfy | weighted lookup tables and the 100 sections |
| ContextPool.dfy | the pool of contexts and its pending FIFO |
| Statistics.dfy | counters, histogram, per-second counts and the script's report |
| CompletionRing.dfy | the circular log of completed commands |
| Worker.dfy | the worker itself: first batch, main loop, completion callback, stop conditions; a whole run from start to report |
| Throttle.dfy | whether a throttled worker keeps the requested rate |
| Setup.dfy | from the script's request (checked, tables built, limits revised) through the run to the script's report |
| AdminQueue.dfy | `waitdone` on the admin queue with AERs in between |
| PrpLists.dfy | PRP list chains |

## Design

CRC-32C is a parameter: every theorem holds for any checksum function. Random numbers, clock readings,
queue pair answers, completions and their order are inputs, so "every run" means every choice of them.
SPDK's calls into the driver are the submit and complete steps of the state machines. A run of the engine
is a sequence of states and events; in the theorems about it nothing is bounded but the width of a
command's lock test (below). The worker and the command log are objects whose methods keep `Valid()`;
ghost fields record the whole history (every insertion, dispatch, draw, completion), and `Valid()` ties the
real fields to that history. `Worker.WorkerEntry` composes a whole worker run and `Setup.Launch` puts the script
side around it, so their postconditions are about every request, reading, draw, answer and completion.

The laws are stated apart from the functions the code is specified with: what a command covers is also read off
its dwords (`Addresses`), what the table must remember off the status and opcode of each completion
(`Remembered`), collisions off the CRCs themselves (`SameCrc`), time limits in microseconds of the inputs, and
liveness as a count of turns (`RunsPromptly`).

Five promises turned out to hold under a condition only; each has its exact condition:

- The lock test receives its length in 16 bits, so a 65536-block command (which the script side allows) or
  a longer DSM range is tested on fewer LBAs than it locks. `ExactIsNecessary` shows that submission keeps
  locks exclusive if and only if the shortened ranges still reach every in-table LBA of the command
  (`NarrowCoversOne`: fewer than 65536 blocks, or the rest lies beyond the table), and `InexactRun` gives, for
  every other command, a run of four events that ends with two owners of one LBA. All run theorems ask this
  of the commands and nothing else.
- Generated commands stay in the region under two conditions on the workload, `AlignOk` and `StepSafe`, and
  `StaysInRegionIff` proves that these are exact over all starts and draws:
  - every alignment in use has a multiple in the region (the code aligns the start of the region to the
    largest alignment only);
  - no sequential command steps back out of it: always so without a negative `lba_step`, or when all commands
    are random; else, for the first LBA aligned to `a` that the step does not take below zero (those wrap to
    the far end), either it lies beyond the region, or aligning the result to `b` leads back in, for any
    alignments `a` and `b` in use. `StepUnsafe` gives a start and two commands that fail otherwise.

  A third condition is on the draws (`SkipOk`): skipping marked LBAs must not lead past the aligned end of the
  region. `Driver.MeasureSkip` shows that it holds exactly when some LBA up to there is not marked.
- The one-pass command count is computed before the region is clipped to the namespace, and whatever the start
  LBA. It covers every LBA exactly once if and only if the last command that it counts still starts inside the
  namespace, and the first one a whole number of sizes from the start of the region or beyond its end
  (`ScriptCountIsOnePass`, `FillFrom`, `ScriptFillsOnce`). `ScriptOverfills` asks for 16 LBAs on a namespace of 8
  and sends four commands where a pass takes two; `OffsetStartFails` starts between two stretches.
- The throttle's delay is rounded down to microseconds, so a worker gains on the requested rate with every
  command. Every run keeps the rate while the number of commands times the remainder of a million by the rate
  stays below the rate (`RateKept`); `ThrottleExact` is, for any arguments and any number of commands, a whole run
  that keeps it if and only if this holds. Over a whole second that means that the rate divides a million
  (`SecondHolds`); above a million there is no throttle at all.
- A wait for admin commands makes up for each AER reaped in place of a command by one more wait, and a surplus
  reaped in one of these is not carried over. So a wait can hang although every awaited command completed
  (`WaitHangs`); `Waitdone` ends exactly on the schedules that satisfy `WaitEnds`, and if polls find at most one
  completion each, exactly when enough commands complete (`OneAtATime`).

Write uncorrectable is recorded even if the device fails it (`UncorrectableMarks`), and a later read is then
reported corrupt whatever its data (`MarkedAlwaysAlarms`; `FalseAlarmRun` is such a run); so the faithful device
of `NoFalseAlarm` does not fail that command.

A trace longer than the first batch stops before its last entry: the finish test runs after the callback has
taken the entry and before it is queued. The model follows the code (`Quota`, `TraceSent`).

The script does not check that some size has a ratio above zero, nor that anything is left of the region once it
is aligned and clipped; `MakeArgs` shows that its worker's arguments are usable exactly when both hold.

## Model

| member | source | states |
|---|---|---|
| Commands.EncodeDecode | src/driver.c:1550-1577 | the LBA and count that lock and checksum code decode from the dwords are those the caller passed, for single-range commands and one-range DSM |
| Commands.CoversAddresses | src/driver.c:405-437 | what the engine takes a command to cover is what its dwords address: by opcode number, LBA and zero-based count, or any of up to 256 ranges |
| Commands.DsmDecode | src/driver.c:430-437 | a DSM with any number of ranges, attributes and spare ranges in its buffer is decoded to exactly its ranges |
| CrcTable.BlockChecksum | src/driver.c:157-167 | a block's checksum is never one of the two reserved marks and leaves the lock bit clear |
| CrcTable.ChecksumsCollide | src/driver.c:157-167 | two blocks share a checksum if and only if their CRCs agree but for the lowest bit, or both are among the four lowest or the four highest |
| CrcTable.DataVerdict | src/driver.c:235-273 | the verdict is 0 exactly when every block of the buffer passes against its entry |
| CrcTable.Namespace.SetLockBits | src/driver.c:335-363 | the in-place loop sets or clears exactly the lock bits of the in-table LBAs of the range, with the 64-bit products of the code |
| CrcTable.Namespace.CheckLockBits | src/driver.c:366-394 | reports a lock if and only if an in-table LBA of the range is locked |
| CrcTable.Namespace.LockLba | src/driver.c:397-473 | grants if and only if no LBA it tests (16-bit lengths) is locked; granted, it locks every in-table LBA of all ranges, else it changes nothing |
| CrcTable.Namespace.UnlockLba | src/driver.c:476-517 | clears the locks of exactly the command's in-table LBAs |
| CrcTable.Namespace.Clear | src/driver.c:286-314 | overwrites exactly the in-table entries of a range given in table bytes |
| CrcTable.Namespace.ClearRanges | src/driver.c:317-332 | clears all DSM ranges, overlapping or not |
| CrcTable.Namespace.UpdateWritten | src/driver.c:191-212 | stores the checksum of each written in-table block and touches no other entry |
| CrcTable.Namespace.UpdateCrc | src/driver.c:637-677 | the table after a completion, entry by entry, for every opcode |
| CrcTable.Namespace.VerifyLba | src/driver.c:214-233 | 0 if and only if every first word is the LBA, 0 or all ones, else -2 |
| CrcTable.Namespace.VerifyData | src/driver.c:235-273 | returns the verdict of the first failing block (-1 uncorrectable, -3 mismatch) or 0 |
| CrcTable.Namespace.VerifyCrc | src/driver.c:701-745 | the verdict of a read, with the second look at the claimed LBA when a header is wrong |
| CrcTable.Namespace.Complete | src/driver.c:779-798 | table and reported status after a completion: update on success or write uncorrectable, status 07/81 on a failed verification |
| CrcTable.Namespace.SkipUncorrectable | src/driver.c:534-547 | the first entry from the LBA on that is not the uncorrectable mark, given that there is one |
| Engine.TokenCounter.FillRawData | src/driver.c:169-189 | each block gets its LBA and a fresh token; the shared counter advances by the number of blocks |
| Engine.LocksStep | src/driver.c:397-517 | every event keeps the lock bits equal to the LBAs of the commands in flight, with one owner each |
| Engine.ExactLocking | src/driver.c:335-517 | in every state of every run, bit 31 is set exactly where a command in flight covers the LBA, and no two of them share an in-table LBA |
| Engine.LockedWhileAddressed | src/driver.c:335-517 | the same in dwords and bits: an entry is at least 0x80000000 exactly while a command in flight addresses its LBA |
| Engine.GrantedWhenFree | src/driver.c:397-473 | a command is granted if and only if no command in flight addresses an in-table LBA it addresses |
| Engine.IdleTableIsFree | src/driver.c:397-517 | with nothing in flight no lock is left and every command is granted |
| Engine.UnlockUpdateCommute | src/driver.c:476-517 | unlocking and checksum update commute at completion |
| Engine.NarrowTestExact | src/driver.c:366-369 | the 16-bit test agrees with the real overlap on all tables if and only if it reaches every in-table LBA |
| Engine.NarrowCoversOne | src/driver.c:412-421 | closed form of that condition for one range |
| Engine.ExactIsNecessary | src/driver.c:397-473 | submission keeps locks exclusive over all states if and only if the condition holds |
| Engine.InexactRun | src/driver.c:397-473 | the same over runs: for every command outside the condition, a run in which a one-block read and a command of its ranges end up owning the same LBA |
| Engine.WideCommandUnseen | src/driver.c:641-642 | a 65536-block command is tested on no LBA, its completion records nothing, and as a read it is never verified |
| Engine.TableRemembersHistory | src/driver.c:637-677 | in every state of every run each checksum is that of the last command on the LBA that the device completed with status 0/0, or of a later write uncorrectable |
| Engine.HistoryIsRemembered | src/driver.c:779-785 | the commands remembered are the completions of the run with status 0/0 or opcode 4, in order |
| Engine.FailureChangesNothing | src/driver.c:779-785 | any other failed completion leaves every checksum and the history alone |
| Engine.Detection | src/driver.c:701-798 | with any device, a verified read keeps its success status if and only if every first word is the LBA, 0 or all ones and every in-table block has a CRC that the table cannot tell from that of the last block remembered |
| Engine.ReportCases | src/driver.c:779-798 | every other completion reports the status the device gave, and no report is anything but that status or 07/81 |
| Engine.OwnedIsStable | doc/features.rst:448-454 | while a command owns an LBA, over any number of steps, what is expected there does not change |
| Engine.UncorrectableMarks | src/driver.c:779-785 | write uncorrectable marks its LBAs whatever its status |
| Engine.MarkedAlwaysAlarms | src/driver.c:254-258 | a verified read of a marked LBA is reported as 07/81 whatever its data |
| Engine.FalseAlarmRun | src/driver.c:779-798 | a run of six events: a write uncorrectable that the device fails, and a read of the block that succeeds with any data and is reported as 07/81 |
| Engine.AllWritesStamped | src/driver.c:1579-1584 | in every run every write in the system carries its own LBAs and tokens taken from the counter, in order |
| Engine.TokensUnique | src/driver.c:169-189 | written blocks have distinct tokens exactly up to 2^64 blocks, and token 0 stays unused exactly below that |
| Engine.StaleNeedsCollision | src/driver.c:235-273 | if a passing read returned another written block than the expected one, the two differ and their CRCs are ones the table cannot tell apart |
| Driver.OnIssue | src/driver.c:1550-1599 | stamping the buffer in place and encoding is the issue step: same command, same token counter, same blocks written |
| Driver.OnSubmit | src/driver.c:397-473 | locking in place is the submit step of the state machine |
| Driver.OnComplete | src/driver.c:748-813 | completing in place and unlocking is its completion step, and reports its status |
| Driver.OnCompleteUnlockFirst | src/driver.c:476-517 | so is unlocking first: the order, which lies in SPDK, does not matter |
| Driver.MeasureSkip | src/driver.c:534-547 | how far a sequential command skips; it stays within the aligned region end exactly when some LBA up to there is not marked |
| Driver.ReportIgnoresLocks | src/driver.c:248 | the reported status depends on checksums, not on lock bits |
| Device.ActMutates | src/driver.c:637-677 | a faithful change of the media by a command in flight keeps table, media and pending effects consistent |
| Device.HostComplete | src/driver.c:748-798 | completion (success, failure, any opcode) keeps them consistent |
| Device.AlwaysConsistent | src/driver.c:397-517 | they are consistent in every state of every interleaving of host events and block-wise device actions |
| Device.NoFalseAlarm | src/driver.c:779-798 | on a faithful device no completion, in any interleaving, reports another status than the device gave |
| Device.WriteThenRead | src/driver.c:748-813 | for every LBA and block there is such a run: the block is written, read back and passes |
| CommandLog.Log.Relocate | src/driver.c:834-842 | a slot is vacated by copying it to the heap and pointing its request at the copy |
| CommandLog.Log.AddCmd | src/driver.c:817-874 | logs the request in the slot at the tail and touches no other slot; all outstanding requests, this one included, keep an entry of their own that holds their command and points back; an unused slot costs no heap copy |
| CommandLog.Log.CmdCpl | src/driver.c:748-813 | returns the command the request was logged with, whatever was overwritten since; the lost-entry assertion holds; a heap copy is freed, and was not freed before |
| CommandLog.Run | src/driver.c:748-874 | any run of logging and completion, with any number of wraps, keeps all links; the ring always holds the last commands logged, number n in slot n modulo 2050; every outstanding request's entry holds its own command; no copy is made before the ring is full, and when nothing is outstanding every copy ever made has been freed |
| Clock.DriverClock.GetTimeOfDay | src/driver.c:70-85 | at every moment the reported time is 1.6995 to 72.0145 ms ahead of the time of day at start-up plus the monotonic time since |
| Clock.ReadingTotal | src/driver.c:70-85 | normalisation keeps the total number of microseconds |
| Clock.ElapsedError | src/driver.c:70-85 | reported and true elapsed time differ by less than 23438.5 microseconds over any interval |
| Clock.NeverBackwards | src/driver.c:70-85 | the reported time never goes backwards, in total or field-wise |
| Clock.StartsAhead | src/driver.c:51-61 | at start-up the clock is 25 to 49 ms ahead of the time of day |
| LbaGenerator.Generator.SendOneLba | src/ioworker.c:358-403 | the start LBA and the next sequential position, for every draw |
| LbaGenerator.Generator.SendOne | src/ioworker.c:406-449 | the command with its tail cut at the region end |
| LbaGenerator.RandomReaches | src/ioworker.c:314-343 | every LBA of the section drawn (the region without a distribution) can be the random start |
| LbaGenerator.RandomKeepsPlace | src/ioworker.c:389-400 | random commands in between do not move the sequential position |
| LbaGenerator.Strides | src/ioworker.c:389-400 | with a step, unaligned sequential commands are one step apart as long as they stay in the region |
| LbaGenerator.PlacedBelowEnd | src/ioworker.c:379-386 | the assertion after the pull-back holds if and only if the LBA is at most the aligned region end |
| LbaGenerator.AllInRegion | src/ioworker.c:297-403 | every command of every run starts on a multiple of its alignment, lies in the region and has 1 to its configured number of LBAs |
| LbaGenerator.StaysInRegionIff | src/ioworker.c:297-403 | all runs stay in the region if and only if every alignment has a multiple there and no backward step leads out, both computed from the workload |
| LbaGenerator.StepUnsafe | src/ioworker.c:389-400 | any step outside the condition leaves the region at the second command from some start inside |
| RegionFill.OnePassFill | src/ioworker.c:297-403 | sequential commands of one size from the start of the region cover each LBA exactly once if and only if their number is one pass; they are then contiguous and increasing |
| RegionFill.FillFrom | src/ioworker.c:297-403 | from any start: exactly once if and only if their number is one pass and the start is a whole number of sizes from that of the region, or beyond its end |
| RegionFill.ScriptCountIsOnePass | src/driver_wrap.pyx:2060-2070 | the count computed for the unclipped region is one pass of the clipped one if and only if the last command counted starts inside the namespace, for any size |
| RegionFill.ScriptFillsOnce | src/driver_wrap.pyx:2060-2070 | that many commands cover the region exactly once under that condition, from a start that fits, and never else |
| RegionFill.ScriptOverfills | src/driver_wrap.pyx:2060-2070 | a workload on which the computed count is more than one pass |
| RegionFill.OffsetStartFails | src/driver_wrap.pyx:2060-2070 | a start inside the region from which one pass does not cover each LBA exactly once |
| WeightedTables.FillTable | src/ioworker.c:41-55 | the table is filled with each index as often as its weight says, within its capacity |
| WeightedTables.ExpandWeights | src/ioworker.c:620-629 | each index occurs exactly weight times |
| WeightedTables.DistributionInit | src/ioworker.c:58-89 | the section table holds each section as often as the distribution says |
| WeightedTables.SectionsTile | src/ioworker.c:68-75 | the sections, all but the last of a hundredth of the namespace, tile the region without gap or overlap if and only if it reaches the last section |
| WeightedTables.OneSectionEach | src/ioworker.c:68-75 | each LBA lies in exactly one section |
| ContextPool.Pool.Dispatch | src/ioworker.c:698-705 | the head of the FIFO leaves after its time, to the queue pair or as a refused command |
| ContextPool.Pool.Bounded | src/ioworker.c:645-681 | pending and in-flight commands never exceed the pool |
| Statistics.Counters.Record | src/ioworker.c:192-263 | every counter after one more completion, the first error kept, the per-second count closed when its second is over |
| Statistics.Conservation | src/ioworker.c:153-219 | reads plus non-reads, growth of the operation counters and histogram total all equal the number of completions; per-second counts add up |
| Statistics.HistogramCounts | src/ioworker.c:201-219 | each bucket holds the number of completions with its latency |
| Statistics.ReadsByIndex | src/ioworker.c:167-174 | with distinct opcodes the counter of the read opcode grew by the read count |
| Statistics.Close | src/driver_wrap.pyx:2553-2556 | the script's table becomes final counter minus percentage for every opcode |
| Statistics.ReportIsCompletions | src/driver_wrap.pyx:2553-2556 | that difference is the number of completions of the opcode |
| CompletionRing.Ring.Record | src/ioworker.c:280-294 | the list, read from the current index, is the last completions, oldest first |
| CompletionRing.LastOfAt | src/ioworker.c:280-294 | counted from the end, these are the latest completions, and blanks before the first |
| CompletionRing.Ring.Unroll | src/ioworker.c:754-780 | the final list is the last completions in order, blanks first when there were fewer |
| Worker.RevisedFits | src/ioworker.c:554-584 | the revised limits: start at the first multiple of the alignment, end with region or namespace, count and seconds as given or the maximum, a pool of the smaller of the count and the queue less one slot |
| Worker.IoWorker.FirstBatch | src/ioworker.c:645-681 | one command per context, or the whole trace if shorter, with due times and trace entries in order |
| Worker.IoWorker.SendOneIsFinish | src/ioworker.c:103-133 | with normalised readings, stops exactly when the trace is used up, the count is reached or more than the requested seconds have passed; its assertion on the count holds |
| Worker.IoWorker.NextTime | src/ioworker.c:221-240 | the next due time and trace entry of a completed context |
| Worker.IoWorker.OneCb | src/ioworker.c:153-295 | the callback keeps every invariant, counts and logs the very command that the context was handed with the time since it was sent, keeps the first error, and queues the context again unless the worker is to stop |
| Worker.IoWorker.SendHead | src/ioworker.c:406-471 | sending keeps every invariant; the context then holds the command drawn or replayed, opcode included; a refused command ends the run |
| Worker.IoWorker.OneTurn | src/ioworker.c:696-735 | a turn sends the head if it is due, leaves the loop if over time or told to, and else runs every callback; a prompt turn completes exactly the command it sends |
| Worker.IoWorker.MainLoop | src/ioworker.c:690-743 | all invariants hold at every turn; 0 is returned only when every counted command has completed and none was refused; -4 exactly at the first turn 30 seconds and half a millisecond over time, -7 at the first one told to terminate, unless it ended before; without errors and in time nothing but the count or the trace stops the worker; with prompt turns it sends one command a turn up to its quota and then returns 0 |
| Worker.WorkerEntry | src/ioworker.c:486-784 | a whole run, for all inputs: sent = completed + pending + in flight + refused within count and pool; 0 only when everything completed, and then, without errors and in time, exactly the count or the trace (but its last entry if it did not fit the first batch) was sent; commands in the region; a trace replayed 0, 1, 2, ... without gap, each entry cut at the region end only; the throttle kept; completions are distinct commands sent, and counters and final log are those of the completed commands in order; -4 and -7 only at a turn that says so; one command per prompt turn; trace entries not before their time |
| Worker.ThrottleBound | src/ioworker.c:235-240 | the k-th dispatch leaves strictly after k delays (counting from 1), so at most (t - start)/delay leave by time t |
| Worker.SentInRegion | src/ioworker.c:422-449 | every command a worker sent is safe |
| Worker.FilledOnce | src/driver_wrap.pyx:2060-2064 | a sequential worker covered the region exactly once if and only if it sent as many commands as one pass, from a start that fits; one stopped by its count sent that count |
| Worker.CountersAccount | src/ioworker.c:201-263 | the statistics account for every completed command |
| Throttle.RateKept | src/driver_wrap.pyx:2023 | no dispatch of any run exceeds the requested rate as long as the number of commands times the rounding remainder is below the rate |
| Throttle.ThrottleExact | src/ioworker.c:600 | for all arguments, rates and numbers of commands, a whole run that keeps the rate if and only if that holds |
| Throttle.SecondHolds | src/ioworker.c:600 | it holds for the commands of a second, and for any number, if and only if the rate divides a million |
| Setup.MakeArgs | src/ioworker.c:554-629 | tables built and limits revised from an accepted job meet everything the worker asks for if and only if some size can be drawn and something is left of the region |
| Setup.RealizedIsReady | src/driver_wrap.pyx:2627-2661 | the same for the generator: no random index leads out of a table, and no section out of the region |
| Setup.OpcodesDrawn | src/ioworker.c:414 | over the hundred draws each opcode comes up as often as its percentage says |
| Setup.SizesDrawn | src/ioworker.c:345-355 | over as many draws as the ratios add up to each size comes up as often as its ratio says |
| Setup.SectionsDrawn | src/ioworker.c:321-325 | over the ten thousand draws each section, a hundredth of the namespace, comes up as often as the distribution says |
| Setup.RandomDrawn | src/ioworker.c:365 | over the hundred draws `lba_random` are random |
| Setup.NestedAlignsOk | src/ioworker.c:567 | alignments that divide the largest one, as a single one does, always have a multiple in the region |
| Setup.Launch | src/driver_wrap.pyx:2598-2760 | from the script's parameters to its report: the guarantees of the run; on return 0 the report is the number of commands sent per opcode, and after a replay all completions under the first one; -4 and -7 only as the inputs say, in terms of the seconds asked for; on return 0 without errors and in time the worker sent all it was asked for, and a one-pass job covered its region exactly once under its condition and never else |
| AdminQueue.Controller.Waitdone | src/driver_wrap.pyx:1120-1178 | ends exactly on the schedules of `WaitEnds`; then at least the expected number of non-AER completions was reaped in all nested waits, the number of AERs at the controller dropped only by the failed ones, and the re-entry assertion held |
| AdminQueue.WaitHangs | src/driver_wrap.pyx:1172-1175 | a schedule that completes every awaited command and on which the wait never ends |
| AdminQueue.OneAtATime | src/driver_wrap.pyx:1142-1175 | with at most one completion per poll a wait ends exactly when enough commands complete |
| AdminQueue.Controller.Poll | src/driver_wrap.pyx:155-172 | what the callbacks of one poll count |
| PrpLists.FindBufferByOffset | scripts/psd.py:67-81 | for every acyclic chain and offset, the byte of the concatenation of usable bytes, or the failure the walk runs into |
| PrpLists.WalkPages | scripts/psd.py:67-76 | pages are met slot by slot, in order |
| PrpLists.WalkChain | scripts/psd.py:70-76 | a nested list in the last slot continues the walk from its own offset |
| PrpLists.WalkStuck | scripts/psd.py:71-75 | an empty slot, or a nested list other than the one in the last slot, fails the walk after the pages before it |
| PrpLists.ByteOfBuffer | scripts/psd.py:77-81 | a byte's offset is its place in its buffer plus all usable bytes of the buffers before |
| PrpLists.BytesInjective | scripts/psd.py:67-81 | distinct offsets are distinct bytes when buffers are distinct |
| PrpLists.ListPage.SetItem | scripts/psd.py:52-61 | the page bytes of every filled slot are the address of its buffer, least significant byte first, and no other bytes change |

## Left out

- CrcTable.Locked: bit operations on table entries are written as arithmetic on unsigned 32-bit numbers.
- CrcTable.Namespace: LBAs whose range reaches 2^62, where the byte offset would wrap, are excluded by a precondition; the early return for admin commands and unknown namespaces is not modelled.
- Engine.State: one process and one namespace; the table is shared between processes without atomicity in the code.
- Sanitize and format (table cleared while commands may be in flight) and `crc32_unlock_all`, which drops locks on a controller reset.
- The order in which commands waiting for locks are retried: any of them may be retried at any time.
- Raw writes that bypass `ns_cmd_io`, whose blocks carry no header, and write buffers or DSM payloads that change in flight.
- CommandLog.Log: `head_index`, time stamps and latencies of log entries.
- LbaGenerator.SkipOk: how many uncorrectable LBAs are skipped is an input of the generator, since the table changes while the worker runs; `Driver.MeasureSkip` gives it for one moment.
- Worker.IoWorker.Choose: the assertion that a trace entry starts inside the region is not modelled; traces outside the region are a caller's error.
- Worker.WorkerEntry: the early returns -2 (transfer size too large) and -5 (no memory for buffers) before anything is sent.
- Setup.Accepted: the other checks of the script side (queue depth of the controller, maximum transfer size, run time) and the conversion of sizes given as a range or list.
- Worker.IoWorker.Duration: the assertion that the clock has moved since the start is not modelled.
- Statistics.Counters: the per-second array is unbounded and its entries are not truncated to 32 bits; average latency and CPU time are not computed.
- SPDK itself, DMA memory, PCI access, interrupts, RPC, logging and the Python fixtures.
