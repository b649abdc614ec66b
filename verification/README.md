# drsync, modelled and proved in Dafny

drsync copies a file tree with many machines: a coordinator grants shards, agents
walk, diff, copy and delete. This project models the parts where that is hard to
get right and proves what they promise for every tree, every schedule and every
run. `dafny verify dfyconfig.toml` checks all of it.

| part | modules |
|---|---|
| delete pass: fan-out, hand-offs, deferred rmdirs | `DeleteFanout`, `DeletePass`, `DeleteExecutor` |
| walk: diff, sharding, convergence | `WalkModel`, `WalkPromise`, `WalkPass`, `WalkShards`, `WalkBudget`, `WalkRun`, `WalkInterleaving`, `WalkExecutor`, `DirStream`, `NameOrder`, `Xattr` |
| chunked files: planning, temps, publication | `ChunkPlan`, `ChunkFanout`, `ChunkProtocol`, `TempName` |
| results after splits and journals | `SplitWindow`, `JournalProtocol`, `JournalWriter` |
| pass controller | `PassPhases`, `Convergence`, `ParkedAlerts` |
| agent structures | `LeaseLists`, `LeaseTable`, `CopyPool` |
| codecs and loops | `Ucopy`, `Wire`, `Glob` |
| shared | `SetSize` |

Code that updates state in place is a class or a method with loops, proved
against a function; the theorems are lemmas about that function. Protocols
between threads, hosts or processes are state machines whose steps are the
code's atomic sections, and the theorems quantify over all sequences of steps.

What a pass must do to the trees is said a second time in `WalkPromise`, name by
name and without the functions that compute it, and proved of the walk. Safety of
a protocol is paired with the converse, that from every reachable state it can
still come to its end (`ChunkProtocol.GroupCanComplete`,
`PassPhases.PassCanComplete`, `CopyPool.EveryCopyCanEnd`,
`JournalProtocol.EveryShardCanReport`, `WalkInterleaving.EveryRunCanFinish`).

Where the code keeps a promise only under a condition, the condition is a named
predicate, an equivalence says that it is exact, and a lemma or method gives a
run or an input that breaks the promise:

- `ChunkProtocol.OpenGoesWrongIff` (`LateOpenCorrupts`): an open leads to a wrong
  file in some continuation if and only if the file is published, a finalize may
  still run and the temp it would find is not the source.
- `ChunkFanout.FinalizeIsDueIff`: the finalize always finds every range done if
  and only if the file has one range or no range was fanned out twice; the
  coordinator counts results, not ranges.
- `JournalProtocol.QueueBreaksIff` (`RaceReportsTooEarly`): the sequence number is
  taken before the frame is queued, so a frame that jumps the queue lets an ack
  cover a batch still in the outbox.
- `JournalProtocol.LossBreaksIff` (`LostFrameReportsTooEarly`): a session that
  fails with frames in hand loses batches the next ack covers.
- `JournalWriter.Writer.Flush` (`RolloverLosesSync`): a sync that fails at a
  rollover is never reported, so a Flush without error has everything on disk if
  and only if no such sync failed.
- `JournalWriter.AppendedLastIff` (`RestartScrambles`): a restarted writer begins
  again at segment 0, so a batch is the last record of its pass if and only if no
  later segment holds another batch.
- `WalkShards.ListingIff`, `WalkRun.ShardedEqualsPlain`, `WalkRun.JobRunsArePlainIff`
  (`WrappedRunCopiesNothing`, `Convergence.WrappedJobConverges`): a walk reads one
  name more than the split threshold before it decides, and at 2^64 - 1 that wraps
  to none, so directories read as empty. Any other threshold is harmless.
- `PassPhases.SplitSafeIff` (`LateSplitBreaks`): `RecordSplit` does not look at
  the parent's state.
- `PassPhases.EarlyTickSafeIff` (`EarlyTickSkipsWalk`): `CreatePass` and the
  insert after it are two store calls.
- `Wire.StreamRoundTrip` (`MistypedFieldRejected`): message decoders pick the
  getter by field number alone.
- `Xattr.CopySettlesIff` (`LeftOutAclChurns`): the drift check ignores the ACL
  options the copy honours.
- `DeletePass.NothingRefusedIff` (`DotsInNameRefused`): the ".." guard also
  refuses names that merely contain two dots. The condition is exact over all
  budget settings, and for each setting of 2^63 or more, which the cast makes
  negative (`NothingRefusedAt`); a budget that lasts can spare such a name
  (`LastingBudgetSpares`).
- `LeaseTable.AddThenRemove`: releasing a lease a full table never tracked drops
  an older lease with the same id.
- `ChunkPlan.PlanTilesIff` (`WrapLosesTail`): exactly which 64-bit sizes the
  planner tiles.

## Model

| member | source | states |
|---|---|---|
| `DeleteFanout.Conservation` | agent/src/delete.c:372-448 | every object under a path ends in exactly one class: removed, deferred, streamed, inside a hand-off, or left by a failed unlink |
| `DeleteFanout.FreshConservation` | agent/src/delete.c:372-448 | with a positive threshold the four classes of one granted path add up to its objects, each once |
| `DeleteFanout.ObjectsUnique` | agent/src/delete.c:160-174 | an object is counted once, so the classes are disjoint |
| `DeleteFanout.NotDeferredAllRemoved` | agent/src/delete.c:199-227 | no deferral reported means this shard removed the whole subtree |
| `DeleteFanout.RmdirOnlyWhenEmptied` | agent/src/delete.c:199-227 | every rmdir comes after the removal, by the same shard, of every descendant |
| `DeleteFanout.DeferredHaveCauses` | agent/src/delete.c:85-100 | each deferred directory has a handed-off or streamed directory below it |
| `DeleteFanout.DeferredIff` | agent/src/delete.c:372-448 | deferred directories are exactly the inline ones with a handed-off or streamed descendant |
| `DeleteFanout.NothingFails` | agent/src/delete.c:391-393 | with a positive threshold no directory is sent to plain unlink |
| `DeleteFanout.WorkBound` | agent/src/delete.c:384-440 | one path costs at most budget + D * threshold + 1 removals, D the depth of nesting the shard does inline |
| `DeleteFanout.BatchesWhole` | agent/src/delete.c:258-312 | the batches of a streamed directory concatenate to its listing, all full but the last |
| `DeleteFanout.EnoughBudget` | agent/src/delete.c:384-440 | a shard whose budget covers a tree of small directories removes all of it itself, one unit each |
| `DeleteFanout.BudgetOf` | agent/src/delete.c:465-472 | the signed 64-bit number congruent to the setting, the default for 0 |
| `DeletePass.StepConserves` | agent/src/delete.c:450-505 | a processed shard neither loses nor invents an object of the pass |
| `DeletePass.StepDecreases` | agent/src/delete.c:465-472 | whatever the budget, the objects under pending paths drop by at least one per granted path |
| `DeletePass.DrainedPass` | agent/src/delete.c:450-505 | every schedule ends, with each object removed, a skeleton directory, or under a refused or failed path |
| `DeletePass.NothingRefusedIff` | agent/src/delete.c:465-479 | whatever the budget setting and the order of shards nothing is refused, if and only if no path that may be granted contains ".." |
| `DeletePass.NothingRefusedAt` | agent/src/delete.c:465-479 | for every budget setting such paths are enough, and for one of 2^63 or more they are necessary |
| `DeletePass.LastingBudgetSpares` | agent/src/delete.c:465-479 | with a positive budget an offending name below the top may never be granted, so nothing is refused |
| `DeletePass.DotsInNameRefused` | agent/src/delete.c:474-479 | a file named a..b is refused by every schedule and stays |
| `DeletePass.SuspiciousIff` | agent/src/delete.c:474-479 | the guard refuses a path if and only if its text is empty or contains ".." |
| `DeletePass.PassNeverFails` | agent/src/delete.c:391-393 | with a positive threshold no pass leaves a failed directory |
| `DeletePass.PassRemovesAllButSkeleton` | agent/src/delete.c:450-505 | for clean paths every schedule removes all but directories awaiting their cleanup rmdir |
| `DeleteExecutor.DeleteShard.constructor` | agent/src/delete.c:455-472 | a fresh shard; a zero setting means the default budget, one of 2^63 or more becomes negative |
| `DeleteExecutor.DeleteShard.FlushSubdirs` | agent/src/delete.c:111-122 | shipped frames together list the subdirectories queued so far, at most 256 each |
| `DeleteExecutor.DeleteShard.QueueDeleteSubdir` | agent/src/delete.c:124-141 | appends one hand-off, shipping a full frame |
| `DeleteExecutor.DeleteShard.StreamDeleteSplit` | agent/src/delete.c:258-312 | ships the directory's entries as exactly the batches of the specification; every frame names the directory, and only the last one carries the number of entries |
| `DeleteExecutor.DeleteShard.RemoveObject` | agent/src/delete.c:372-448 | computes the specified shard state and deferral, and returns the number of JR_DELETED records added |
| `DeleteExecutor.DeleteShard.RmDirContents` | agent/src/delete.c:160-174 | the same for the entries of a directory |
| `DeleteExecutor.DeleteShard.ProcessDelete` | agent/src/delete.c:474-505 | the orphans counter equals the JR_DELETED records; every streamed directory was announced as complete once; each refused or failed path is an error; a dry run removes nothing and records exactly the paths it would |
| `NameOrder.SortedUnique` | agent/src/walker.c:136-144 | a strictly sorted listing is determined by its set of names |
| `Xattr.ClassesByName` | agent/src/xattr.c:42-69 | which names are copied, which are ACLs and under which option, which are left alone |
| `Xattr.CopiedIff` | agent/src/xattr.c:199-249 | a copy leaves each attribute as its class and the options ask, and nothing else does |
| `Xattr.EqualIff` | agent/src/xattr.c:283-327 | the drift check holds if and only if every managed attribute is the same on both sides |
| `Xattr.CopySettlesIff` | agent/src/xattr.c:199-249 | after a copy the drift check holds if and only if every ACL the options leave out was already right |
| `Xattr.FreshCopySettlesIff` | agent/src/xattr.c:264-268 | on a fresh file: if and only if the options leave no source ACL out |
| `Xattr.EnabledAclsSettle` | agent/src/xattr.c:199-249 | both ACL kinds enabled and policy not skip: every copy settles |
| `Xattr.LeftOutAclChurns` | agent/src/xattr.c:303-307 | an ACL the options leave out, and the destination lacks, drifts after any number of copies |
| `Xattr.DisabledAclChurns` | agent/src/xattr.c:218-221 | so with NFSv4 ACLs disabled a source that has one never settles |
| `Xattr.KeptAgreeIff` | agent/src/xattr.c:283-327 | comparing kept names and values of the sorted sets is comparing the managed attributes |
| `Xattr.XattrEqualAt` | agent/src/xattr.c:283-327 | the two-index loop decides equality of the managed attributes |
| `Xattr.XCopy` | agent/src/xattr.c:199-249 | sets what the options allow, then removes stale managed attributes |
| `Xattr.RemoveStale` | agent/src/xattr.c:230-249 | removes exactly the destination's managed attributes the source lacks |
| `WalkShards.ListingIff` | agent/src/walker.c:973-983 | the walk sees the whole directory if and only if the threshold is not 2^64 - 1 or the directory is empty |
| `WalkShards.ShardSlotCompletes` | agent/src/walker.c:722-913 | handling an entry in a shard that sees it and finishing the rest plainly is handling it plainly |
| `WalkShards.ShardDirCompletes` | agent/src/walker.c:947-1091 | the same for a directory, split by name or worked off |
| `WalkShards.ShardDirCompletesIff` | agent/src/walker.c:973-983 | for a directory, if and only if the shard sees it |
| `WalkShards.WrappedDir` | agent/src/walker.c:973-983 | at 2^64 - 1 the source directory counts as empty: nothing is handled, every destination name is an orphan |
| `WalkShards.ShardListCompletes` | agent/src/walker.c:1142-1218 | the same for any list of pending names of one directory |
| `WalkBudget.SlotCosts` | agent/src/walker.c:727-731 | every entry costs at least one unit and the budget stops at zero |
| `WalkBudget.HandedBackIff` | agent/src/walker.c:771-779 | a subdirectory is handed back whole if and only if the budget is spent or the walk is 256 deep |
| `WalkBudget.BigFileQueuedIff` | agent/src/walker.c:845-853 | a file is queued for chunked copying if and only if it is to be copied and over the limits |
| `WalkBudget.SplitIff` | agent/src/walker.c:973-983 | a directory is handed back name by name if and only if it has more entries than the threshold |
| `WalkBudget.EnoughBudget` | agent/src/walker.c:722-1091 | a shard with more budget than entries in sight hands nothing back and spends one unit per entry |
| `WalkRun.StepKeepsMeaning` | agent/src/walker.c:1093-1135 | any grant, with any budget and any threshold that lets it see the directories it is granted, keeps the final result and strictly lowers the remaining work |
| `WalkRun.ShardedEqualsPlain` | agent/src/walker.c:947-1218 | every run of shards ends with nothing pending; it ends with the plain walk's destination and exactly its records if and only if the root shard sees the root |
| `WalkRun.JobRunsArePlainIff` | coordinator/internal/scheduler/scheduler.go:124-148 | all finished runs of a job, with the coordinator's overrides switched on and off at any time, are the plain walk if and only if the job's threshold is not 2^64 - 1 or the root is empty |
| `WalkRun.OverrideOnlyLowers` | coordinator/internal/scheduler/scheduler.go:136-147 | the override is 4000 and never raises a job's own threshold |
| `WalkRun.WrappedRunCopiesNothing` | agent/src/walker.c:973-983 | at 2^64 - 1 a run is over at once, with nothing copied and every destination name reported |
| `WalkInterleaving.InterleavedEqualsPlain` | agent/src/walker.c:722-1091 | however the entries of shards running side by side interleave, once nothing is pending destination and records are the plain walk's |
| `WalkInterleaving.OneOnCourse` | agent/src/walker.c:722-913 | one entry handled by any shard keeps the final result and lowers what is left |
| `WalkInterleaving.OneHolderEach` | agent/src/walker.c:1142-1218 | in every run each path a shard holds is pending and held by it alone |
| `WalkInterleaving.HoldingsChange` | agent/src/walker.c:1142-1218 | what a grant and a handled path change about who holds what |
| `WalkInterleaving.FinitelyManyHandled` | agent/src/walker.c:722-1091 | every endless interleaving handles finitely many entries |
| `WalkInterleaving.EveryRunCanFinish` | agent/src/walker.c:722-1218 | from wherever shards running side by side stand, some continuation ends with the plain walk |
| `WalkPass.EachEntryOnce` | agent/src/walker.c:722-780 | each entry in sight is handled once and each included directory walked once, nothing else |
| `WalkPass.PassMakesTreesAgree` | agent/src/walker.c:722-945 | at every name of every directory, whatever the options: a file that was absent, of another type, size or time is now the source's size, bytes and, where kept, time; a newer file the job must not touch is untouched; links and specials likewise; owner, mode and each attribute as asked; the entry has one record, the right one; temps of other passes are swept, everything else destination-only is kept and, unless a temp, reported once; a directory in the way is kept aside and reported |
| `WalkPass.LeafIsHandled` | agent/src/walker.c:781-912 | the decision for one entry: skipped, copied, chunked, fixed, clean or ignored, by type, size, times, owner, mode, attributes and limits, and what each leaves |
| `WalkPass.DirReports` | agent/src/walker.c:915-945 | how often each name is reported: once if destination-only and no temp, once if moved aside, otherwise never |
| `WalkPass.NothingElseRecorded` | agent/src/walker.c:722-945 | every record is about an entry in sight, of the kind its type allows |
| `WalkPass.TempFate` | agent/src/walker.c:915-940 | a temp of this job and pass stays, one of another is swept, neither is reported |
| `WalkPass.QueuedKeepsFile` | agent/src/walker.c:845-853 | while a big file waits in the queue the file it replaces stays |
| `WalkPass.CopyStableIff` | agent/src/walker.c:790-835 | exactly when a file just copied is not touched again |
| `WalkPass.FixStableIff` | agent/src/walker.c:790-835 | exactly when a metadata fix is not needed again |
| `WalkPass.LeafSettles` | agent/src/walker.c:722-913 | with times kept and no ACL left out, a handled entry is quiet on the next pass |
| `WalkPass.SecondPassQuiet` | agent/src/walker.c:722-945 | the walk after a walk of an unchanged source copies and fixes nothing |
| `WalkExecutor.WalkShard.RemoveDst` | agent/src/walker.c:345-373 | a non-empty directory in the way is renamed aside and reported, anything else goes |
| `WalkExecutor.WalkShard.HandleLeaf` | agent/src/walker.c:781-912 | one non-directory entry: destination, journal record and queued big file as specified |
| `WalkExecutor.WalkShard.HandleEntry` | agent/src/walker.c:722-913 | equals the shard specification; below the entry, the pending work is exactly what was handed back |
| `WalkExecutor.WalkShard.EnterDir` | agent/src/walker.c:757-779 | descends while budget and depth last, else queues the subdirectory |
| `WalkExecutor.WalkShard.HandleOrphans` | agent/src/walker.c:915-945 | reclaims stale temps and reports exactly the other destination-only names |
| `WalkExecutor.WalkShard.WalkDir` | agent/src/walker.c:947-1091 | equals the directory specification, split by name or worked off as far as it was read |
| `WalkExecutor.WalkShard.ReadSource` | agent/src/walker.c:973-983 | reads the listing the specification goes by and decides whether to split, the probe wrapping at 64 bits |
| `WalkExecutor.WalkShard.ReadEntriesUpto` | agent/src/walker.c:146-190 | reads the first entries up to the limit, or all of them |
| `WalkExecutor.WalkShard.WalkEntries` | agent/src/walker.c:1046-1070 | the entry loop equals the list specification |
| `WalkExecutor.WalkShard.ProcessShard` | agent/src/walker.c:1093-1135 | a shard's split frames name exactly the work the specification leaves pending |
| `DirStream.Merge` | agent/src/walker.c:1046-1060 | each source entry once, in order, with its own destination entry; orphans are the destination-only names in order |
| `DirStream.DstFind` | agent/src/walker.c:472-486 | the position of a name, or proof that it is absent |
| `DirStream.StreamDirectory` | agent/src/walker.c:502-555 | batches concatenate to the listing, all full but the last; orphans are the unmarked names in order |
| `DirStream.StreamRefinesMerge` | agent/src/walker.c:488-501 | streaming reports the orphans the sorted merge would, in the same order |
| `DirStream.RealLaws` | agent/src/walker.c:158-163 | a listing leaves out exactly "." and ".." and keeps the order |
| `DirStream.CommonHas` | agent/src/walker.c:228-242 | the sorted intersection stops at exactly the common names |
| `DirStream.PrefetchStats` | agent/src/walker.c:214-263 | the second traversal gives every entry its own result and leaves destination-only entries alone |
| `TempName.ValueOfHex` | agent/src/tempname.c:19-24 | formatted digits denote the number |
| `TempName.ParseHex` | agent/src/tempname.c:31-51 | the exact value of a field or a rejection, never a wrapped value |
| `TempName.ParseIff` | agent/src/tempname.c:31-51 | a field is exactly a non-empty run of lower-case hex digits worth less than 2^64, up to its terminator |
| `TempName.HexDigitsAre` | agent/src/tempname.c:31-51 | which characters are digits and what they are worth |
| `TempName.FieldRoundTrip` | agent/src/tempname.c:31-51 | a formatted field parses back if and only if it fits 64 bits |
| `TempName.TempTagMatches` | agent/src/tempname.c:53-62 | decides whether the tail carries the job and pass |
| `TempName.FormattedTagMatchesIff` | agent/src/tempname.c:53-62 | on a formatted tail: exactly for the same job and pass |
| `TempName.TempNameInjective` | agent/src/tempname.c:19-24 | names for one prefix are injective in job, pass, shard and sequence |
| `TempName.NameFits` | agent/src/tempname.c:19-24 | no name is cut off by the buffer |
| `TempName.NoLeadingZero` | agent/src/tempname.c:19-24 | fields are written without leading zeros |
| `TempName.OneName` | agent/src/tempname.c:19-24 | the format, spelled out on one name |
| `TempName.FormattedInjective` | agent/src/copy.c:544-552 | so the names in the buffer are injective too |
| `ChunkPlan.PlanTilesIff` | coordinator/internal/agentsrv/server.go:678-715 | the ranges tile [0, size) if and only if the rounding neither wraps nor is clamped |
| `ChunkPlan.RealSizesTile` | coordinator/internal/agentsrv/server.go:678-715 | every signed 64-bit file size above the chunk size is tiled |
| `ChunkPlan.WrapLosesTail` | coordinator/internal/agentsrv/server.go:680-703 | a size whose rounding wraps gets one chunk that does not reach its end |
| `ChunkPlan.PlanBigFile` | coordinator/internal/agentsrv/server.go:678-715 | the loop produces the planned ranges, wrapping as the code does |
| `ChunkPlan.CopyRange` | agent/src/chunk.c:53-117 | whatever the calls return, short, interrupted or failed, a prefix of the range is in the file byte for byte and nothing else changed; on success the whole range; and it succeeds if no call fails and the source has the range |
| `ChunkPlan.OffloadRange` | agent/src/chunk.c:58-80 | the server-side loop: the same, or nothing written and the byte path next |
| `ChunkPlan.WriteOut` | agent/src/chunk.c:102-112 | the write loop: a prefix of the buffer, all of it on success |
| `ChunkPlan.WriteTwice` | agent/src/chunk.c:53-117 | consecutive writes are one write |
| `ChunkFanout.FinalizeIsDueIff` | coordinator/internal/store/store.go:1779-1814 | counting results finds every range done if and only if there is one range or no range has two tasks |
| `ChunkFanout.TwiceMisses` | coordinator/internal/store/store.go:1475-1560 | a range fanned out twice lets the counter reach its goal with another range untouched |
| `ChunkProtocol.StepInv` | agent/src/chunk.c:119-293 | every allowed step keeps one file with whole done ranges up to publication, and the source's bytes under the final name, and under the temp while a finalize may run, from then on |
| `ChunkProtocol.RunInv` | coordinator/internal/agentsrv/server.go:874-891 | so does every run of grants, lapses, lost results, re-grants, sweeps and finalizes |
| `ChunkProtocol.PublishedIsExact` | agent/src/chunk.c:141-270 | whatever is under the final name equals the source byte for byte, in every run without a spoiling open |
| `ChunkProtocol.PlannedFileIsExact` | coordinator/internal/agentsrv/server.go:658-717 | the same end to end, for the planner's own ranges |
| `ChunkProtocol.OpenGoesWrongIff` | agent/src/chunk.c:198-262 | an open leads to a wrong file in some continuation if and only if it is a spoiling one |
| `ChunkProtocol.LateOpenCorrupts` | agent/src/chunk.c:198-262 | a run after which a stalled chunk's open leads to a wrong file |
| `ChunkProtocol.PlannedWriteHappens` | agent/src/chunk.c:247-262 | a write within the planned range is never cut short by the end of the source, and the bytes it covers are then the source's |
| `ChunkProtocol.GroupCanComplete` | coordinator/internal/store/store.go:1779-1814 | whatever was lost, stalled or repeated, some continuation completes the group with the source under the final name |
| `ChunkProtocol.SweepTakesIff` | agent/src/walker.c:934-937 | a sweep takes the temp if and only if it is of another job or pass |
| `ChunkProtocol.StaleResultsDropped` | coordinator/internal/store/store.go:2660-2665 | a result under a lease given up changes nothing |
| `ChunkProtocol.DeadStaysDead` | agent/src/chunk.c:119-293 | an attempt that has stopped does nothing any more |
| `SplitWindow.Window.ShipSplit` | agent/src/split.c:38-61 | numbers and ships a frame; the ring stays FIFO and at most 128 long |
| `SplitWindow.Window.AwaitOldest` | agent/src/split.c:20-32 | takes out the oldest; a wait that ends without the ack, timed out or interrupted, fails the shard |
| `SplitWindow.Window.DrainSplits` | agent/src/split.c:65-73 | afterwards a shard that did not fail has every ack it needs |
| `SplitWindow.RunShard` | agent/src/walker.c:1107-1119 | OK is reported if and only if every split ack and the journal ack arrived |
| `JournalProtocol.RunInv` | agent/src/jrn.c:24-77 | runs in order and without loss keep queued, written, durable and acked batches in step |
| `JournalProtocol.OkMeansDurable` | agent/src/jrn.c:129-146 | a shard that reported OK has every batch it numbered on disk |
| `JournalProtocol.AckedMeansDurable` | coordinator/internal/agentsrv/server.go:940-982 | every acked sequence number was synced |
| `JournalProtocol.QueueBreaksIff` | agent/src/jrn.c:64-72 | a queued frame leaves the promise breakable if and only if it jumps the queue |
| `JournalProtocol.LossBreaksIff` | agent/src/main.c:187-211 | a failed session leaves the promise breakable if and only if it had frames to discard |
| `JournalProtocol.RaceReportsTooEarly` | agent/src/jrn.c:64-70 | two threads out of order: OK before the batch left the outbox |
| `JournalProtocol.LostFrameReportsTooEarly` | agent/src/main.c:187-211 | one frame lost: OK for a batch that is nowhere |
| `JournalProtocol.EveryShardCanReport` | agent/src/jrn.c:129-146 | from every state reached in order and without loss, every shard can still report OK with all it journalled on disk |
| `JournalProtocol.OnlyGoodSyncsCount` | coordinator/internal/agentsrv/server.go:940-982 | only a sync that succeeds makes batches durable, only a synced flush acks, only an ack moves the mark |
| `JournalWriter.Writer.Append` | coordinator/internal/journal/journal.go:47-86 | the batch goes to the end of one segment, continuing a file found there, and no other file changes; closed segments stay synced if and only if no sync at a rollover fails |
| `JournalWriter.Writer.Restart` | coordinator/internal/journal/journal.go:37-42 | the files stay, the open segments are forgotten |
| `JournalWriter.GrownLog` | coordinator/internal/journal/journal.go:50-73 | a reader finds the batch after the records of its own and earlier segments, before those of later ones |
| `JournalWriter.AppendedLastIff` | coordinator/internal/journal/journal.go:50-73 | the batch is the last record of its pass if and only if no later segment holds another batch |
| `JournalWriter.RestartScrambles` | coordinator/internal/journal/journal.go:50-73 | after a restart the third batch of a pass is read before the second |
| `JournalWriter.Writer.Flush` | coordinator/internal/journal/journal.go:89-99 | fails if and only if some sync failed; otherwise everything is synced if and only if the closed segments were |
| `JournalWriter.RolloverLosesSync` | coordinator/internal/journal/journal.go:53-59 | a failed sync at a rollover, then a Flush without error and a batch not on disk |
| `PassPhases.PhasesMoveForward` | coordinator/internal/passctrl/passctrl.go:494-613 | stored phases are the course PROBING, SCANNING, DIRFIX, LINKFIX, VERIFY, COMPLETE (or DELETING, COMPLETE) from where the pass began, each after all its batches got rows of their own |
| `PassPhases.PassCanComplete` | coordinator/internal/passctrl/passctrl.go:412-613 | no pass is stuck for good: from every state some orderly continuation completes it with every row done |
| `PassPhases.GateIff` | coordinator/internal/passctrl/passctrl.go:455-492 | a tick goes on to seed if and only if every row is done, and retries if and only if only parked rows remain, for the first time |
| `PassPhases.RetryRoundFreesAll` | coordinator/internal/store/store.go:2904-2914 | the automatic retry queues every parked row again and changes no other |
| `PassPhases.RowStepIff` | coordinator/internal/store/store.go:2668-2690 | leases, lapses, parkings, retries, drops and reaps move exactly the row they name, each from its own state |
| `PassPhases.PhaseSafety` | coordinator/internal/passctrl/passctrl.go:412-613 | nothing of an earlier phase is active, two phases are never active together, COMPLETE has nothing active |
| `PassPhases.AtMostOneAutoRetry` | coordinator/internal/passctrl/passctrl.go:459-492 | at most one automatic retry per pass and coordinator process |
| `PassPhases.OneRetryPerProcess` | coordinator/internal/passctrl/passctrl.go:459-492 | the bound is exact: with n restarts a pass may be retried n + 1 times |
| `PassPhases.PlansOfTicks` | coordinator/internal/passctrl/passctrl.go:494-560 | what a tick may seed on leaving each phase |
| `PassPhases.ChildrenOf` | coordinator/internal/agentsrv/server.go:522-650 | which kinds a shard's splits and its completion may bring |
| `PassPhases.PassesBegin` | coordinator/internal/passctrl/passctrl.go:220-258 | how a pass begins |
| `PassPhases.RestartForgets` | coordinator/internal/passctrl/passctrl.go:470-479 | a restart forgets the tick and the retry, never the rows |
| `PassPhases.SplitSafeIff` | coordinator/internal/store/store.go:1475-1540 | exactly which splits keep the phases apart |
| `PassPhases.SplitSeparated` | coordinator/internal/agentsrv/server.go:522-650 | a split of a leased shard does |
| `PassPhases.LateSplitBreaks` | coordinator/internal/store/store.go:1475-1540 | a split replayed after its parent completed puts a walk back in DIRFIX |
| `PassPhases.EarlyTickSafeIff` | coordinator/internal/passctrl/passctrl.go:220-258 | a tick before a pass is seeded keeps the phases apart if and only if there is nothing to seed |
| `PassPhases.EarlyTickSkipsWalk` | coordinator/internal/passctrl/passctrl.go:230-244 | a tick between creating a pass and seeding it skips the walk |
| `Convergence.Job.DecideNextPass` | coordinator/internal/passctrl/passctrl.go:773-815 | the job is done if and only if the delta is small or the ceiling is reached, converged if and only if it is small; otherwise it waits or starts the next pass |
| `Convergence.DecideIff` | coordinator/internal/passctrl/passctrl.go:780-814 | the decision case by case: no changes at all, files and fixes below the file limit, bytes below the byte limit, the ceiling, manual |
| `Convergence.LastPassIsFirstStop` | coordinator/internal/passctrl/passctrl.go:773-815 | a job stops at its first pass that converges or reaches the ceiling |
| `Convergence.PassesAreBounded` | coordinator/internal/passctrl/passctrl.go:773-815 | at most max(1, passes.max) passes, a dry run one, none after a pass without changes |
| `Convergence.SettledJobCompletes` | coordinator/internal/passctrl/passctrl.go:780-801 | an unchanged source makes the second pass the last, converged |
| `Convergence.WrappedJobConverges` | coordinator/internal/passctrl/passctrl.go:780-801 | a job with threshold 2^64 - 1 is declared converged after its first pass, which copied nothing |
| `ParkedAlerts.Alerts.Collect` | coordinator/internal/passctrl/passctrl.go:327-344 | the rows no alert covers, by job; afterwards the parked rows are the covered ones |
| `ParkedAlerts.Alerts.SendOrHold` | coordinator/internal/passctrl/passctrl.go:350-364 | jobs with new parks send or hold |
| `ParkedAlerts.Alerts.FlushDue` | coordinator/internal/passctrl/passctrl.go:365-371 | jobs whose window ran out are flushed |
| `ParkedAlerts.Alerts.CheckParkedShards` | coordinator/internal/passctrl/passctrl.go:316-372 | per job, held and new rows go out together when the window is open, else wait together |
| `ParkedAlerts.EachParkingMailedOnce` | coordinator/internal/passctrl/passctrl.go:350-371 | new rows are mailed in order, each once, or still held |
| `ParkedAlerts.EachParkingReported` | coordinator/internal/passctrl/passctrl.go:316-372 | over any run of listings a row is in emails, or held for the next, as often as a tick lists it and the one before did not |
| `ParkedAlerts.Watch` | coordinator/internal/passctrl/passctrl.go:262-300 | the ticks' emails for a job are those of the run over its listings |
| `ParkedAlerts.EmailsSpaced` | coordinator/internal/passctrl/passctrl.go:345-371 | two emails of one job are at least the window apart |
| `ParkedAlerts.SendsWhenDue` | coordinator/internal/passctrl/passctrl.go:345-371 | a tick sends whenever something waits and the window is open, and holds only while it is closed |
| `ParkedAlerts.FreshIff` | coordinator/internal/passctrl/passctrl.go:327-344 | a row is new exactly when the previous tick did not list it |
| `LeaseLists.LinkedCut` | agent/src/state.c:388-396 | redirecting one link takes exactly one slot out of a list |
| `LeaseLists.CutOwnBucket` | agent/src/state.c:388-396 | cutting a slot from the active list cuts it from its own chain |
| `LeaseLists.FirstInBucket` | agent/src/state.c:371-377 | the newest match of the chain is the newest of the active list |
| `LeaseTable.Leases.Init` | agent/src/state.c:347-359 | all slots free, in order, no chain |
| `LeaseTable.Leases.HashFind` | agent/src/state.c:371-377 | finds the newest slot of an id, or none |
| `LeaseTable.Leases.HashRemove` | agent/src/state.c:388-396 | the link that leads to the slot skips it, nothing else changes |
| `LeaseTable.Leases.ActiveUnlink` | agent/src/state.c:409-419 | both neighbours skip the slot |
| `LeaseTable.Leases.Add` | agent/src/state.c:424-453 | the new lease heads the list, unless the table is full |
| `LeaseTable.Leases.Remove` | agent/src/state.c:455-468 | the newest lease with the id goes; free, active and chains stay consistent |
| `LeaseTable.Leases.Release` | agent/src/state.c:455-468 | the slot leaves both lists and heads the free list; the other leases keep their order |
| `LeaseTable.Leases.Start` | agent/src/state.c:487-499 | marks the newest lease with the id as running |
| `LeaseTable.Leases.JobHeld` | agent/src/state.c:472-485 | whether some held lease belongs to the job |
| `LeaseTable.Leases.Snapshot` | agent/src/state.c:512-521 | the first cap leases, so all of them for the cap the heartbeat passes |
| `LeaseTable.RemovedExactly` | agent/src/state.c:455-468 | removal takes out exactly the newest lease with the id |
| `LeaseTable.AddThenRemove` | agent/src/state.c:424-468 | granting and releasing restores the list if and only if the table was not full or held no such id |
| `CopyPool.StepInv` | agent/src/copy.c:102-258 | every critical section keeps the counters, ownership and wake-up invariants |
| `CopyPool.NoDeadlock` | agent/src/copy.c:222-258 | whenever a thread is in cp_submit or dpend_wait, some thread can run |
| `CopyPool.Barrier` | agent/src/walker.c:1076-1084 | the queue stays within its cap, dp.n is the directory's tasks in flight, and metadata is applied only after its last copy |
| `CopyPool.EveryCopyCanEnd` | agent/src/copy.c:102-258 | in every reachable state every task submitted, queued or running can be brought to its end |
| `CopyPool.DirectoryCanBeDone` | agent/src/walker.c:1076-1084 | a free thread that enters a directory and submits a copy can finish it, metadata included |
| `CopyPool.TimeoutFrees` | agent/src/copy.c:180-203 | a generalist that gives up waiting takes a task if there is one, else is free |
| `CopyPool.EmptyPop` | agent/src/copy.c:156-178 | an idle thread sleeps on an empty queue, a walker only looks |
| `CopyPool.ReserveKeepsADrainer` | agent/src/poolsize.c:28-34 | between one and all threads stay drainers; with stealing and two or more threads some can steal |
| `CopyPool.ThreadsStarted` | agent/src/copy.c:260-274 | which threads walk, drain or do both, and the queue's cap |
| `Ucopy.Ring.SubmitReap` | agent/src/ucopy.c:185-217 | in either completion order the write takes the block as it was and the read lands in the other buffer |
| `Ucopy.Ring.PwriteAll` | agent/src/ucopy.c:220-234 | a short write is completed exactly, whatever the calls return |
| `Ucopy.Ring.Step` | agent/src/ucopy.c:319-359 | one iteration advances what is written and hashed by one block |
| `Ucopy.Ring.Run` | agent/src/ucopy.c:303-361 | a non-negative result n is min(size, source), with source [0, n) at the destination and through the sink; a negative one only if a call failed |
| `Wire.VarintRoundTrip` | agent/src/pb.c:40-51 | every 64-bit value comes back from at most ten bytes, leaving the rest |
| `Wire.ItemRoundTrip` | agent/src/pb.c:53-95 | a field of any wire type is read back, leaving the rest |
| `Wire.StreamRoundTrip` | agent/src/msgs.c:351-367 | a stream of fields decodes to its known ones if and only if each of those carries the wire type its getter reads |
| `Wire.BytesOfFields` | agent/src/pb.c:53-95 | one field of each wire type, byte for byte |
| `Wire.DeliveredTyped` | agent/src/msgs.c:351-367 | whatever the bytes, a delivered field has its getter's type |
| `Wire.MistypedFieldRejected` | agent/src/msgs.c:351-367 | a heartbeat ack with eight fixed bytes under a number field is rejected |
| `Wire.UnknownFieldsIgnored` | agent/src/pb.c:175-201 | a field with an unknown number, after typed fields and before any bytes, changes nothing |
| `Wire.MessageRoundTrip` | agent/src/pb.c:58-95 | what was put comes back to a receiver that agrees on the types, less zero scalars, empty strings and unknown numbers |
| `Wire.Buffer.Reserve` | agent/src/pb.c:21-38 | room is made keeping the contents, the capacity at least doubling; out of memory only if the block does not fit |
| `Wire.Buffer.PutVarint` | agent/src/pb.c:40-51 | appends the encoding |
| `Wire.Buffer.PutU64` | agent/src/pb.c:58-64 | appends tag and value, nothing for zero |
| `Wire.Buffer.PutBytes` | agent/src/pb.c:85-95 | appends tag, length and bytes, nothing for none |
| `Wire.EncodeMessage` | agent/src/pb.c:40-95 | a run of puts decodes, for every agreeing receiver, to what it knows of them, and runs out of memory only if there is too little |
| `Wire.Cursor.GetVarint` | agent/src/pb.c:134-147 | decodes on arbitrary bytes within bounds, losing bits past the 64th |
| `Wire.Cursor.Next` | agent/src/pb.c:118-132 | the next tag, the end, or an error |
| `Wire.Cursor.GetLen` | agent/src/pb.c:149-160 | a length that fits the buffer and its bytes, or an error |
| `Wire.Cursor.Skip` | agent/src/pb.c:175-201 | moves over exactly the field's body, or sets the error |
| `Wire.DecodeMessage` | agent/src/msgs.c:351-367 | the decoding loop ends on arbitrary bytes with the specified message |
| `Wire.Deliver` | agent/src/msgs.c:358-365 | the switch of one turn: the number picks the getter, or the field is skipped by its wire type |
| `Glob.LanguageIsMatches` | agent/src/filter.c:9-49 | splitting along all tokens at once is matching them left to right |
| `Glob.GlobMatch` | agent/src/filter.c:9-49 | the backtracking loops decide left-to-right matching |
| `Glob.FilterGlobMatch` | agent/src/filter.c:9-49 | accepts exactly the strings that split along the pattern's tokens |
| `Glob.OneCharLaws` | agent/src/filter.c:38-48 | a character stands for itself, "?" for one that is no slash, nothing for nothing |
| `Glob.StarLaw` | agent/src/filter.c:29-37 | "*" stands for any run without a slash |
| `Glob.DoubleStarLaw` | agent/src/filter.c:12-28 | "**", with or without a slash after it, stands for anything |
| `Glob.FilterExcluded` | agent/src/walker.c:712-719 | the first rule that matches decides; no match includes |

## Left out

- Faults inside a walk (I/O errors, entries that vanish, paths over PATH_MAX), dry-run walks and hardlink sightings: the walk theorems are about fault-free runs that write.
- Names of directories renamed aside: modelled as unique per entry and pass, not as formatted strings.
- Directory times bumped by later renames, and the DIRFIX, LINKFIX, VERIFY and probe executors: straight-line metadata calls; only their place in the phase order is modelled.
- WalkPass.CopyStableIff: the difference of two file times is exact, where the code's, in signed 64-bit nanoseconds, overflows for times about 292 years apart.
- WalkRun.ShardedEqualsPlain: a run whose root shard sees the root and whose later shards have the threshold 2^64 - 1 is covered by `JobRunsArePlainIff` only.
- The order of readdir and of Go map iteration: any order for streams and shards, sorted where the code sorts.
- WalkExecutor.WalkShard.WalkDir: reports orphans before the entries instead of interleaving them; `DirStream.Merge` covers the interleaving, and the records are a multiset.
- WalkExecutor.WalkShard.HandleLeaf: applies a small copy at once; its place in the queue is the subject of `CopyPool`.
- The store and the scheduler: reduced to atomic steps; schedules are arbitrary. delete_groups, which seeds the cleanup rmdirs of a delete pass's skeleton, is not part of this model.
- ChunkPlan.CopyRange: the kernel's answers are finitely many, after which calls fail; a call on a regular file moves at least one byte unless the source has ended.
- ChunkProtocol.PublishedIsExact: assumes an unchanged source, sweeps of the same job and pass, one group per temp name (the index in a name restarts with every split frame of a parent, so two frames can share one) and one task per range (`ChunkFanout` says what a second task does); source drift and reclaim tasks are not steps.
- JournalProtocol.OkMeansDurable: assumes batches are queued in the order of their numbers and none is lost; both conditions are exact.
- JournalWriter.Writer.Append: write errors, DropJob and Close are not modelled.
- PassPhases.PhaseSafety: assumes splits of leased shards only and no tick before a pass is seeded.
- PassPhases.AtMostOneAutoRetry: counts restarts, since the memory of the retry does not survive one.
- The reap queue's deduplication: reaping is a step that may remove any done row at any time.
- Job names in the alert model are numbers, being only compared; sending the email is not modelled.
- The agent's shard queue and its filter by job (wq_drop_job, agent/src/state.c): a plain linked list; only the lease table is modelled.
- lease_publish, lease_inflight and lease_end: reads and writes of one slot's counters.
- Shutdown of the copy pool, out-of-memory in cp_submit, and copies split over several threads.
- Ucopy.Ring.SubmitReap: a failed io_uring_enter is taken to leave no completion behind.
- Ucopy.Ring.Run: a regular file's read returns nothing only at its end and its write at least one byte; outcomes are finitely many, after which calls fail.
- Wire.Buffer.PutU64: the bool, string, signed and submessage puts are thin wrappers and have no members of their own; of the message tables in agent/src/msgs.c only the shape, a getter per field number, is modelled.
- Glob.GlobMatch: repeats no failed attempt after a single star, where the code tries the last position twice with the same result.
