# PECS in Dafny

PECS is an entity-component runtime for Minecraft servers. Components hang on player sessions; systems (loops, tasks,
handlers) declare what they need in struct fields and have it injected. This project models the data structures and
protocols that decide who runs when and with what, and proves what they promise.

Check it with `dafny verify dfyconfig.toml`.

| file | module | what it models |
|---|---|---|
| Basics.dfy | Basics | sizes and notions several modules share |
| TaskQueue.dfy | TaskQueues | the deadline heap: in-place sifting, lazy cancellation, compaction |
| QueueRuns.dfy | QueueRuns | whole runs of the heap, refined by a plain set |
| Lifecycle.dfy | Lifecycle | tasks and sessions: schedule, cancel, pop, finish, close |
| ScheduleRaces.dfy | ScheduleRaces | schedules and a close of one session, step by step |
| Pipeline.dfy, PipelineRuns.dfy | Pipeline, PipelineRuns | due tasks by stage and world; the concurrent jobs and their barrier |
| LoopTimer.dfy | LoopTimers | drift-free loop timing |
| Access.dfy, Meta.dfy | Access, SystemMetas | field classification, conflict detection, system analysis |
| Batching.dfy | Batching | greedy batching of loops by conflict |
| StageRuns.dfy, WorkerPool.dfy | StageRuns, WorkerPools | the jobs of all worlds walking the batches of a stage on the worker pool, and when executions race |
| CowSet.dfy | CowSets | the lock-free sets of `peer.go` and `shared.go`, which follow one protocol |
| CacheEntry.dfy | CacheEntries | fetching, retrying, batching and closing one cached peer |
| CacheClosing.dfy | CacheClosings | when closing a cached peer is lost or repeated |
| ComponentIDs.dfy | ComponentIDs | component ID allocation by concurrent calls |
| Bitmask.dfy | Bitmasks | the 256-bit mask as a set of IDs |
| ComponentStore.dfy | ComponentStores | component table, mask and expirations of a session |
| Inject.dfy | Injection | injection into pooled instances, and the mask check before it |
| SessionIndex.dfy | SessionIndexes | the manager's indexes of sessions |
| Relations.dfy | Relations | relations between sessions and their clean-up |

Code that works in place is a class whose methods are proved against functions of the old state. Protocols of several
threads are state machines whose steps are the atomic actions of the code, over any number of threads and any
interleaving. Hash maps are walked in arbitrary order. Times are integers, and 0 stands for a nil pointer or world.

## Where the code and its promises part

The model follows the code. In these places the code does something other than its documentation or a caller would
expect, and the exact condition is proved:

- A global loop runs "once per interval" (readme.md:447), or "once for each world" (scheduler.go:197). Its state is
  shared by all worlds: usually only the first world of a tick takes the turn, without an interval every world does, and
  a loop late by exactly one interval runs in two: `LoopTimers.LoopState.Tick`.
- Conflicting systems are said not to run in parallel (readme.md:1329-1337). That holds within one world, for loops
  without peer and shared fields: `StageRuns.OneWorldIsRaceFree`. Peer and shared fields record no access, and the jobs
  of several worlds walk the batches without waiting for each other, so a loop with a mutable resource can race with
  itself: `Access.UndetectedIff`, `StageRuns.RaceIffCondition`, and `WorkerPools.PoolRaceIff` for when jobs overlap.
- Closing a session cancels its tasks, but not one whose schedule passed the test before and adds it after:
  `ScheduleRaces.SurvivesCloseIff`. It stays in the queue until it is due and is then dropped.
- The limit of 255 component types (component.go:16-17, 50-52) is checked on a byte. The draw of 255 panics; a program
  that recovers from the panic and goes on registering gets 0 again: `ComponentIDs.SharedIDIffWrapped`,
  `ComponentIDs.SharingFollowsPanic`.
- Neither removing a temporary component nor replacing it in place clears its expiration time, which then removes what
  was added for good: `ComponentStores.SurvivesIff`, `ComponentStores.StaleExpirations`.
- `GetOrAdd` with a nil default sets the mask bit of an empty slot: `ComponentStores.MaskWrongIff`.
- Closing a cache entry tries three swaps in turn and can miss with all of them: `CacheClosings.CloseCanBeLostIff`. The
  clean-up loop deletes the entry anyway, and then nobody ever closes it: `CacheClosings.LostSweepLeaks`.
- A fetch that ends after a close reopens the entry. If stop had come to it before the clean-up loop deleted it, the
  update channel is closed a second time: `CacheClosings.CleanupRepeatsIff`, `CacheClosings.CleanedTwice`.
- Fetching a batch locks each entry in the order given, so an ID given twice blocks the batch on itself. `PeerSet.Set`
  accepts such lists: `CacheEntries.BatchLocksIffDistinct`.
- In a system checked window by window, a component declared before the first session field is in no window's mask and
  may be missing when injection comes to it. A task type nobody registered is checked that way when it is scheduled for
  two sessions, even if it has no session field and so no window: `Injection.CoverageIsExact`.
- A relation, peer or shared field for which the component before it has no matching part is accepted, with offset 0:
  `SystemMetas.LinkedIff`.
- A fake player whose ID equals a registered player's XUID cannot be found: `SessionIndexes.FoundByOwnIDIff`.
- Index entries are deleted by key, whoever they lead to: `SessionIndexes.FoundByNameIff`.

## Model

| member | source | states |
|---|---|---|
| `TaskQueues.RootIsEarliest` | task.go:158-198 | In a heap whose every position respects its parent, the root has the earliest deadline of all. |
| `TaskQueues.RiseOnce` | task.go:170-179 | Swapping a too-early task with its parent moves the only broken position to the parent; with position 0 as its own parent, as truncating division makes it. |
| `TaskQueues.SinkOnce` | task.go:182-198 | Swapping a too-late task with its earliest child moves the only broken position to that child, also while the upper part of the array is not yet a heap. |
| `TaskQueues.TaskQueue.Up` | task.go:170-179 | From one broken position to a full heap; same tasks, every task's index right. |
| `TaskQueues.TaskQueue.Down` | task.go:182-198 | Restores the order from a position on within the first n, keeps what lies beyond, the same tasks, and every index. |
| `TaskQueues.TaskQueue.PushTask` | task.go:91-95 | The heap gains exactly the new task and stays a heap. |
| `TaskQueues.TaskQueue.Pop` | task.go:158-167 | Returns the root, gives it index -1, and the rest is a heap of exactly the other tasks. |
| `TaskQueues.TaskQueue.FilterLive` | task.go:54-65 | The in-place filter leaves exactly the uncancelled tasks, in their old order, with right indexes. |
| `TaskQueues.TaskQueue.Heapify` | task.go:67-70 | The bottom-up loop makes a full heap out of any order of the same tasks. |
| `TaskQueues.TaskQueue.CompactHeap` | task.go:53-71 | A valid heap of exactly the uncancelled tasks. |
| `TaskQueues.TaskQueue.Push` | task.go:74-88 | The set of live tasks gains the task; the cancelled ones are all dropped when the size passes a multiple of a hundred, and otherwise all stay. |
| `TaskQueues.TaskQueue.PopDue` | task.go:99-120 | Returns exactly the uncancelled tasks due at or before now, each once, by deadline; they and the due cancelled ones leave, and all cancelled ones when more than fifty were due. Nothing else that is live leaves. |
| `TaskQueues.TaskQueue.Remove` | task.go:134-136 | Cancels: the task stops being live and stays in the heap; the heap remains valid. |
| `TaskQueues.TaskQueue.Peek` | task.go:123-131 | The earliest deadline in the heap, cancelled tasks included; none exactly when the heap is empty. |
| `QueueRuns.RefinesPlainSet` | task.go:52-131 | Over every run of pushes, cancellations and pops the live tasks are those of a plain set: lazy deletion and compaction are invisible. |
| `QueueRuns.PopReturnsWaiting` | task.go:97-120 | A pop returns a task exactly when it was pushed, not cancelled, not due at any pop in between, and is due now: the first pop at or after the deadline returns it. |
| `QueueRuns.Conservation` | task.go:52-131 | Every pushed task is live in the heap, returned, or cancelled, and never two of these; nothing else ever appears. |
| `QueueRuns.ReturnedOnce` | task.go:99-120 | No task is returned by two pops. |
| `Lifecycle.TaskManager.Schedule` | task.go:270-310 | Nil, with nothing changed, exactly for a missing or closed session, one without a manager, or a task type whose analysis fails; otherwise a fresh uncancelled task with the deadline and stage asked for joins the live tasks, which all stay, and the lists of its sessions. ScheduleAt (task.go:376-413) does the same. |
| `Lifecycle.TaskManager.Schedule2` | task.go:315-359 | Nil, with nothing changed, exactly when a session is missing or closed, the first has no manager or they have different ones, or analysis fails; otherwise a fresh uncancelled task with the deadline and stage asked for joins the live tasks, which all stay, and the lists of its sessions. |
| `Lifecycle.TaskManager.ScheduleGlobal` | task.go:222-258 | Nil, with nothing changed, exactly when analysis fails; otherwise the same without sessions. |
| `Lifecycle.TaskManager.Cancel` | task.go:213-217 | Raises the flag, keeps every invariant; a nil handle does nothing. |
| `Lifecycle.TaskManager.PopDue` | task.go:99-120 | What is returned is due, leaves the heap, and involves open sessions only. |
| `Lifecycle.TaskManager.RemoveTask` | session.go:345-354 | The list loses the first occurrence of the task and is otherwise unchanged, in order. |
| `Lifecycle.TaskManager.FinishTask` | scheduler.go:654-657 | Every session of the task loses one entry of it for each time it is involved; every task in the heap stays known to its sessions. |
| `Lifecycle.RemoveTimesCounts` | session.go:345-354 | What removing several times takes away: that many entries of the task, as far as there are any, and nothing else. |
| `Lifecycle.TaskManager.CloseSession` | session.go:230-250 | All pending tasks are cancelled and leave the live ones, so every heap task that involves the session is cancelled; a second close changes nothing. |
| `Lifecycle.AnyRun` | task.go:213-413 | Any script of schedules, cancels, pops, finishes and closes, each taken as one step, is a run of the plain queue: each schedule that is not refused pushes one task with what was asked for, each pop is a pop of the queue at its time, what is returned is what the pops return, and no pop returns a task of a session closed by then. |
| `ScheduleRaces.SurvivesCloseIff` | session.go:230-256 | With the steps of any number of schedules and of a close interleaved: when the close is through, a task of the session in the queue is uncancelled exactly when it was added to the session after the close had taken the session's tasks. |
| `ScheduleRaces.MadeIff` | task.go:270-273 | The tasks made are exactly those of calls that tested the session before the close raised its flag. |
| `ScheduleRaces.PendingInOrder` | session.go:328-332 | The session's tasks are in the order in which calls added them. |
| `ScheduleRaces.NobodyWaits` | session.go:230-256 | Schedules and the close can always go on. |
| `ScheduleRaces.TaskSurvivesClose` | task.go:270-310 | A run in which a schedule passes its test before the close and its task outlives it. |
| `Pipeline.ClosedIsDropped` | scheduler.go:535-552 | Grouping drops such a task: one session seen closed is enough. |
| `Pipeline.ScanFinds` | scheduler.go:533-549 | The session loop settles on a world exactly when all sessions are read as open and, after leading ones without a world, all as in that world. |
| `Pipeline.PlacedIff` | scheduler.go:521-555 | When a task is listed under a world, as global, or dropped, as a condition on what was read of it. |
| `Pipeline.PairPlacement` | scheduler.go:533-555 | A task of two sessions is listed under the second one's world when the first has none, and otherwise only when both are in one world. |
| `Pipeline.Place` | scheduler.go:521-555 | The loop with its early exits computes the placement. |
| `Pipeline.ExecuteTask` | scheduler.go:588-642 | The loop over the sessions, the mask check and injection run a task exactly when it is not cancelled, every session's player is in the world of the transaction, the masks pass, and injection finds what it needs. |
| `Pipeline.RunFailsOnlyOnTargets` | scheduler.go:611-642 | With players, flag and truthful masks in order and required components covered, a task fails to run only on a missing manager, resource, relation, peer or shared target. |
| `Pipeline.GroupByWorld` | scheduler.go:517-556 | One list per world some task goes to, in order, and the global list; dropped tasks are in none. |
| `Pipeline.SplitByStage` | scheduler.go:497-502 | One list per stage, each the due tasks of that stage in order. |
| `Pipeline.PlacedWithin` | scheduler.go:517-556 | Each list holds exactly the tasks with its placement, once each, by deadline. |
| `Pipeline.StageWithin` | scheduler.go:497-502 | Each stage list holds exactly the due tasks of the stage, once each, by deadline. |
| `PipelineRuns.GroupedAreJobs` | scheduler.go:559-584 | The jobs launched for a stage are one per non-empty list; without any world the global list is not launched. |
| `PipelineRuns.BarrierMeansDone` | scheduler.go:557-585 | The wait group is at zero only when every job has gone through its list. |
| `PipelineRuns.AlwaysInv` | scheduler.go:491-597 | What every interleaving of job launches, turns and completions keeps. |
| `PipelineRuns.PipelineOrder` | scheduler.go:491-597 | In every interleaving no task is visited twice, nothing of a stage is visited before something of an earlier one, and each job follows (stage, deadline). |
| `PipelineRuns.RunMeansTogether` | scheduler.go:559-642 | In every interleaving a visit by a world's job runs its task exactly when the task is not cancelled then, all its players are in that world, its masks pass and injection succeeds; the global job runs in the first world. Sessions of a task that runs are in one world (task.go:312-314). |
| `PipelineRuns.RunsWithComponents` | scheduler.go:611-642 | In every interleaving a task that runs has every required component, on the session its field belongs to. |
| `PipelineRuns.EveryTaskOnce` | scheduler.go:491-597 | At the end of a pass every due task was visited exactly once, in the job its stage listed it under, or was dropped and never visited; what was read of it says which, exactly. |
| `PipelineRuns.PassGoesOn` | scheduler.go:491-597 | Until a pass is over there is always a next step. |
| `LoopTimers.LoopState.MarkRun` | scheduler.go:72-82 | The next run is one interval later, or one interval from now when that is past. |
| `LoopTimers.LoopState.Tick` | scheduler.go:193-255 | How many worlds of one tick run a loop that shares its state: one in general, two when the run is late by exactly one interval, all without an interval. |
| `LoopTimers.DueWithinInterval` | scheduler.go:72-82 | After each guarded run the next one is between now and one interval from now. |
| `LoopTimers.NoEarlyRun` | scheduler.go:64-82 | Run number k, from 0, is at least k intervals after the start. |
| `LoopTimers.RunsApart` | scheduler.go:64-82 | Runs i and i + m + 1 are at least m intervals apart. |
| `LoopTimers.NextAfterRun` | scheduler.go:72-82 | The next run is one interval after the run if that was more than one interval late, and one interval after the time it was due otherwise. |
| `LoopTimers.OnGridIffOnTime` | scheduler.go:72-82 | The schedule is still start + k * interval exactly when no run was more than one interval late. |
| `Access.AccessMeta.PrepareSets` | meta.go:140-155 | Every cache is absent or holds exactly the elements of its list. |
| `Access.AccessMeta.Conflicts` | meta.go:158-236 | True exactly when one writes what the other touches, among components or among resources, whichever caches exist. |
| `Access.ConflictIsSymmetric` | meta.go:158-236 | The conflict relation is symmetric. |
| `Access.KindIff` | meta.go:277-586 | Each kind of field as a condition on its declared type and tags, slices apart from single fields. |
| `Access.TypeIff` | meta.go:314-580 | The type each field is about: phantom arguments, and what is left when slice and pointer are taken off. |
| `Access.AccessIff` | meta.go:341-580 | Which declarations count as access to a component or resource type. |
| `Access.ConflictIffRaces` | meta.go:140-236 | Two analysed systems conflict exactly when some type is declared mutable by one and declared at all by the other. |
| `Access.PeerFieldsAreUnseen` | meta.go:361-470 | One more peer or shared field in a declaration, mutable or not, changes no conflict with any system. |
| `Access.PeerRaceIsUnseen` | meta.go:361-470 | A mutable component field and a mutable peer field of the same type do not conflict. |
| `Access.ConflictIffNearRace` | meta.go:158-236 | The conflict test decides exactly the races on memory that involve no peer or shared field. |
| `Access.MeetIff` | scheduler.go:370-399 | When two fields of running systems may lead to the same memory, by their kinds and types, in one world and in different ones. |
| `Access.UndetectedIff` | meta.go:158-236 | For all declarations: two systems of one world may race undetected exactly when they race through a peer or shared field and in no other way. |
| `StageRuns.AlwaysInv` | scheduler.go:258-367 | In every interleaving of the worlds' jobs only loops due when the stage began are tested due, run or marked. |
| `StageRuns.DueAgainIff` | scheduler.go:296-367 | A loop with an interval is due for a further world exactly before its first marking, or after exactly one if it was late by exactly one interval. |
| `StageRuns.FoundIsMarked` | scheduler.go:361-366 | Every world marks each loop as often as it found it due. |
| `StageRuns.StartedIsEnded` | scheduler.go:345-360 | Every execution a world starts ends by itself before the world goes on. |
| `StageRuns.EntersOrSkips` | scheduler.go:297-311 | A world enters a transaction for a batch exactly when some loop of it was due. |
| `StageRuns.JobGoesOn` | scheduler.go:296-367 | A world's job never waits for another. |
| `StageRuns.BatchRaceIsFar` | scheduler.go:348-358 | Two loops of one batch race, in one world, exactly through peer or shared fields. |
| `StageRuns.RaceIffCondition` | scheduler.go:296-367 | With every world's job running: two racing executions can be under way at once exactly when one world has sessions and two due loops of a batch race through a peer or shared field, or two worlds have and two due loops of any batches, or one with itself, reach the same memory. |
| `WorkerPools.PoolRaceIff` | scheduler.go:258-293 | The same on the worker pool, for any number of workers and worlds: races between worlds also need a second worker, or more worlds than the channel has places, so that the scheduler runs a job itself. |
| `WorkerPools.PoolGoesOn` | scheduler.go:258-293 | Until every job has returned there is always a next step. |
| `WorkerPools.EachJobReturnsOnce` | scheduler.go:274-293 | Every world's job is handed out once and returns once. |
| `WorkerPools.EveryWorldWaits` | scheduler.go:274-278 | At the start every world with sessions is to be handed out, and no other. |
| `StageRuns.OneWorldIsRaceFree` | scheduler.go:348-350 | With sessions in one world only, loops without peer and shared fields never race, in any interleaving. |
| `StageRuns.ResourceRacesWithItself` | scheduler.go:274-299 | A due loop with a mutable resource can be under way in two worlds whose jobs both run. |
| `SystemMetas.AnalyzeSystem` | meta.go:240-604 | Fields with the offset of the part that resolves them, windows, masks, access lists and flags of a declaration: windows tile the fields from the first session on, each window's masks are exactly those of its own fields, every access is recorded. |
| `SystemMetas.SystemMasks` | meta.go:314-566 | An ID is in the require mask exactly when some field is a With of its component or an untagged, non-optional pointer to it, and in the exclude mask exactly when some field is a Without of it. |
| `SystemMetas.WindowMasks` | meta.go:314-566 | The same for every window and its own fields. |
| `SystemMetas.WindowsStart` | meta.go:276-300 | Windows begin exactly at the fields that are pointers to a session. |
| `SystemMetas.WindowsEnd` | meta.go:288-300 | Each ends where the next begins, the last with the last field. |
| `SystemMetas.GlobalIff` | meta.go:592-594 | A system is global exactly when every field is the manager, a resource or plain data. |
| `SystemMetas.AccessLists` | meta.go:341-580 | A type is in an access list exactly when some field accesses it, with or without mut. |
| `SystemMetas.ResolvesIff` | meta.go:382-520 | Which part of a component each kind of field is looked for. |
| `SystemMetas.LinkedIff` | meta.go:482-520 | The recorded offset is that of the first part of the source component that resolves the field, exactly when there is one; otherwise it is 0. |
| `SystemMetas.RaisedIsAnalyzed` | task.go:330-336 | Raising the multi-session flag of an unregistered task afterwards leaves everything else analysis established. |
| `SystemMetas.ProgressAdded` | meta.go:263-585 | What one field adds keeps all of this true of the fields read so far. |
| `SystemMetas.WindowsClosed` | meta.go:587-600 | Closing the last window at the number of fields makes the windows tile all fields. |
| `Batching.FitIsLeast` | scheduler.go:459-481 | The search for a batch finds the least one without a conflict. |
| `Batching.ColourIsFirstFit` | scheduler.go:459-481 | A loop's batch is free of conflicts with earlier loops, and every earlier batch is not. |
| `Batching.RoundTakesColour` | scheduler.go:463-478 | A round over what is left takes exactly the loops of the next colour and leaves the rest in order. |
| `Batching.Round` | scheduler.go:459-478 | The loop over candidates takes a loop exactly when it conflicts with none taken before it. |
| `Batching.BuildBatches` | scheduler.go:459-481 | The round-based loop computes the online first-fit colouring of the sorted loops and terminates. |
| `Batching.Scheduler.RebuildBatches` | scheduler.go:431-488 | Only the rebuilt stage of the rebuilt kind changes; it is sorted and batched first-fit. |
| `Batching.Scheduler.AddLoop` | scheduler.go:410-428 | The stage gains exactly the loop, all stages stay batched, all other stages are untouched. |
| `Batching.BatchesPartition` | scheduler.go:455-481 | The batches together are the loops, each as often as registered. |
| `Batching.NoClashInBatch` | scheduler.go:463-478 | No batch holds a conflicting pair. |
| `Batching.EarlierClash` | scheduler.go:463-478 | A loop is in a later batch only because each earlier batch holds an earlier loop it conflicts with. |
| `Batching.BatchCountBound` | scheduler.go:459-481 | At most one batch more than the largest number of conflicts of any loop. |
| `Batching.SharedBatchIsRaceFree` | scheduler.go:459-481 | From declarations to batches: no component or resource type is mutable in one loop of a batch and declared in another. |
| `Batching.BatchingIsDeterministic` | scheduler.go:447-450 | With distinct names the batches depend only on which loops are registered, not on the order of registration. |
| `Batching.NameOrder` | scheduler.go:447-450 | Name order: a name before its extensions, otherwise the first difference decides. |
| `CowSets.PrepareIsApply` | peer.go:148-196 | The copied list is the sequential operation on the loaded one; an early return means the operation changes nothing. |
| `CowSets.ApplyIsSetOperation` | peer.go:141-212 | On a list without duplicates each operation is the set operation of its name, and duplicates appear exactly through a Set argument that has them. |
| `CowSets.AlwaysConsistent` | peer.go:141-212 | What every step of any number of threads keeps. |
| `CowSets.Linearizable` | peer.go:141-212 | Every interleaving has linearization points, one inside each call, whose replay on a plain list gives the current list and every result. |
| `CowSets.ResponseHasOnePoint` | peer.go:148-196 | Every response is preceded by its invocation and exactly one point in between, with the returned result. |
| `CowSets.ResponsesAnswer` | peer.go:204-212 | In every run the response to IDs is the list at a moment between invocation and response, and no other call answers a list. |
| `CowSets.PointsAnswer` | peer.go:204-212 | In every run the point of IDs carries the list that the points before it leave behind. |
| `CowSets.RunsAlone` | peer.go:141-212 | From any reachable state a thread that runs alone completes its operation with one try. |
| `CowSets.NobodyWaits` | peer.go:141-212 | Every thread can always take a step. |
| `CowSets.NoAba` | peer.go:155-165 | A swap that is about to succeed publishes the operation applied to the list of that moment, and saw no publish since its load unless the pointer is nil. |
| `CowSets.NilComesBack` | peer.go:199-201 | From nil a swap can succeed although the set was cleared since the load; nil always means the empty list. |
| `CowSets.FailuresAreBounded` | peer.go:148-196 | Failed swaps number at most publishes times (threads - 1). |
| `CowSets.SwapsRarelyFail` | peer.go:148-196 | The same, counted on the steps of the run. |
| `CowSets.NoDuplicates` | peer.go:141-196 | If no Set argument repeats an ID, no reachable list does. |
| `CacheEntries.StepKeepsDiscipline` | cache.go:180-218 | Fetch budget, lock ownership and the one busy thread, kept by every step. |
| `CacheEntries.FetchesArePaidFor` | cache.go:180-218 | Fetches plus batch installs never exceed one plus the number of Error-to-Pending swaps, in any interleaving. |
| `CacheEntries.FetchesFollowRetries` | cache.go:180-218 | The same, counted on the steps of the run. |
| `CacheEntries.WaitsOnlyForLock` | cache.go:180-218 | A thread that is at work waits only for the lock, and only while another holds it. |
| `CacheEntries.ResolversFind` | cache.go:262-282 | Single and batched resolving find the entry as long as it is in the map. |
| `CacheEntries.KeepInOrder` | cache.go:233-251 | And the order is left. |
| `CacheEntries.KeepsPending` | cache.go:233-251 | Of a list of IDs exactly the pending ones are kept, as often as they occur. |
| `CacheEntries.LockedGoesThrough` | cache.go:200-215 | Once it has the lock of a pending entry, a resolver fetches, a batch installs, and the outcome is stored. |
| `CacheEntries.OneFetchAtATime` | cache.go:200-215 | No two threads are inside a fetch or an install at the same time. |
| `CacheClosings.CloseCanBeLostIff` | cache.go:457-462 | From any reachable state in which a close begins: it can give up with the entry left open exactly when the entry is pending and some thread has it or finds it to fetch, or in the error state and some thread has it or finds it to retry, or closing and still being fetched. |
| `CacheClosings.LostSweepLeaks` | cache.go:505-508 | The clean-up loop can lose its close and delete the entry all the same, and then it is never closed, whatever happens. |
| `CacheClosings.LostGivesUp` | cache.go:457-462 | A close that comes to its last swap leaves the entry open exactly when the entry is neither in the error state nor closing then; it then returns without cleaning up. |
| `CacheClosings.CleanupsAreFew` | cache.go:457-526 | Over every run the update channel is closed at most twice: as often as the entry was reopened, and once more if it is closing. |
| `CacheClosings.CleanupRepeatsIff` | cache.go:492-526 | Once an entry is closing, its clean-up can happen again exactly when somebody is still fetching it and another close is under way or a closer can still find it in the map. |
| `CacheClosings.CleanedTwice` | cache.go:492-526 | A run of one fetch, the clean-up loop and stop in which that happens. |
| `CacheClosings.NeverClosedAgain` | cache.go:492-526 | With nobody left to close it, an open entry stays open and no entry is cleaned up again. |
| `CacheEntries.BatchLocksIffDistinct` | cache.go:348-364 | A batch that is alone gets all its locks exactly when no ID is given twice. |
| `CacheEntries.PeerSetBatchLocks` | cache.go:222-259 | The IDs of a peer set whose Set arguments were free of duplicates can always be locked. |
| `ComponentIDs.MappingIsStable` | component.go:42-67 | A mapping never changes. |
| `ComponentIDs.SameTypeSameID` | component.go:42-67 | All calls for one type return the same ID, in any interleaving. |
| `ComponentIDs.RegisterAgain` | component.go:42-46 | A call for a mapped type returns its ID without drawing another. |
| `ComponentIDs.PanicsIff` | component.go:49-52 | A call panics exactly when the byte it draws is 255. |
| `ComponentIDs.NobodyWaits` | component.go:42-67 | Every thread can always take a step. |
| `ComponentIDs.DistinctTypesDistinctIDs` | component.go:42-67 | Up to 256 draws no two types share an ID, and the arrays name the mapped type once its winning call has returned. |
| `ComponentIDs.LosingWastes` | component.go:54-58 | Losing the race for a type wastes the drawn ID. |
| `ComponentIDs.LoserIDNeverMapped` | component.go:49-58 | In every run of at most 256 draws, the ID of a call that lost is not mapped in the rest of the run. |
| `ComponentIDs.WastedForGood` | component.go:49-58 | No step maps a wasted ID while the counter has not wrapped. |
| `ComponentIDs.SharingFollowsPanic` | component.go:50-52 | In every run two types share an ID only after a call has panicked on the limit. |
| `ComponentIDs.SharedIDIffWrapped` | component.go:49-52 | Two types can share an ID exactly when more than 256 IDs have been drawn, because the byte conversion comes before the limit check. |
| `Bitmasks.HasIsMember` | bitmask.go:22-24 | Has is membership in the set of IDs. |
| `Bitmasks.SetAddsOne` | bitmask.go:12-14 | Set adds exactly one of the 256 IDs. |
| `Bitmasks.ClearRemovesOne` | bitmask.go:17-19 | Clear removes exactly one of the 256 IDs. |
| `Bitmasks.ContainsAllIsSubset` | bitmask.go:30-50 | With its early exits, the subset test. |
| `Bitmasks.ContainsAnyIsOverlap` | bitmask.go:55-74 | With its early exits, the overlap test. |
| `Bitmasks.OrIsUnion` | bitmask.go:82-89 | Union. |
| `Bitmasks.AndIsIntersection` | bitmask.go:92-99 | Intersection. |
| `Bitmasks.AndNotIsDifference` | bitmask.go:102-109 | Difference. |
| `Bitmasks.CountIsCardinality` | bitmask.go:112-117 | The number of IDs in the set. |
| `Bitmasks.EqualsIsSameSet` | bitmask.go:125-130 | Equal words exactly for equal sets. |
| `ComponentStores.Session.Has` | component.go:332-348 | The mask bit says exactly whether the table entry is there. |
| `ComponentStores.Session.Add` | component.go:114-150 | A present component is updated in place and keeps its pointer, otherwise the new one is stored and its bit set. The provider path of manager.go:833-857 does the same. |
| `ComponentStores.Session.AddUntil` | component.go:176-194 | The same, with an expiration time for the ID. |
| `ComponentStores.Session.GetOrAdd` | component.go:355-396 | Returns the present component or stores the default; a mask that was right stays right exactly when something was present or the default is not nil. |
| `ComponentStores.Session.Remove` | component.go:267-300 | Empties one slot and its bit and leaves the expiration entry. |
| `ComponentStores.Session.ProcessExpirations` | session.go:358-412 | Removes exactly the components whose time has come and exactly their entries. |
| `ComponentStores.Session.Close` | session.go:260-293 | Empties table and mask, once. |
| `ComponentStores.Session.CanRun` | session.go:216-226 | Required IDs are a subset of the present ones and no excluded one is present. |
| `ComponentStores.RunScript` | component.go:114-396 | Over any script of adds, removals, ticks and closes every slot of the session is as its own rule says. |
| `ComponentStores.HoldsIff` | component.go:114-396 | Over any script a slot holds the data put in last, unless it was removed, expired or closed away since. |
| `ComponentStores.GetAfter` | component.go:307-326 | Get returns exactly that. |
| `ComponentStores.SurvivesIff` | session.go:358-380 | Over any script: what was stored last survives a tick exactly when the last AddUntil for the slot that no tick has answered, if any, has a later time. |
| `ComponentStores.StaleExpirations` | component.go:267-300 | Two ways to lose a component added for good: after the temporary one was removed, and in its place. |
| `ComponentStores.MaskWrongIff` | component.go:378-396 | Over any script: mask and table differ at a slot exactly when a GetOrAdd stored nil there and nothing has been stored since, nor the session closed. |
| `Injection.Instance.SetSliceFromPtrs` | inject.go:326-347 | The slice shows exactly the given pointers, whether or not the old backing array is reused. |
| `Injection.Instance.ZeroSystem` | inject.go:272-291 | From any state, every injected and payload field is blank afterwards. |
| `Injection.Instance.InjectField` | inject.go:88-266 | Succeeds exactly when nothing required is missing, and then the field shows what memory says, whatever it held before. |
| `Injection.Instance.InjectSystem` | inject.go:35-269 | Succeeds exactly when no field fails, and then every field shows what it should. |
| `Injection.InjectedFieldShows` | inject.go:35-269 | After a successful injection every field is filled for the session of its window and the component carried to it. |
| `Injection.ReferenceShows` | inject.go:162-241 | A peer field shows the entry of the peer table for the ID its component holds, a shared field that of the shared table, or nil; a required one fails without it. |
| `Injection.ReferencesShow` | inject.go:191-266 | Slices of them show the entries that are there, in the order of the IDs. |
| `Injection.RelationShows` | inject.go:88-125 | A relation field shows the component of its target when the target is open, and nil otherwise. |
| `Injection.RelationsShow` | inject.go:127-141 | A relation slice shows the component of every open target that has it, once per target. |
| `Injection.PlainFieldShows` | inject.go:66-160 | The other kinds: session, manager, component, resource, and payload, which is zero. |
| `Injection.NonNilCounts` | inject.go:350-378 | Collecting drops the nil pointers and keeps every other as often as it occurs. |
| `Injection.NoLeak` | inject.go:35-269 | Two instances injected from the same memory show the same in every field, relation slices up to order: nothing of an earlier use is visible. |
| `Injection.CheckMasks` | scheduler.go:620-637 | The per-window check for several sessions, the first session's check otherwise. |
| `Injection.MaskCheckIff` | scheduler.go:620-637 | With masks that tell the truth the check asks exactly whether each session has what its window's fields ask for and nothing they ask against, or the first session for all fields. |
| `Injection.FieldInWindow` | meta.go:283-300 | A field at or after the first session field lies in the window it is numbered with. |
| `Injection.AdmittedHasComponent` | scheduler.go:620-642 | An admitted session has every required component whose field the mask check covers. |
| `Injection.OnlyTargetsCanFail` | inject.go:35-269 | With every required component covered, an admitted injection fails only on a missing manager, resource, relation, peer or shared target. |
| `Injection.UncoveredCanBeMissing` | meta.go:532-585 | A required component that the check does not cover can be missing although all masks pass, with any number of different sessions. |
| `Injection.CoverageIsExact` | meta.go:532-585 | For any number of sessions that includes the field's own, the mask check guarantees a required component exactly when it uses the mask of the whole system, or the field is at or after the first session field, or the first window asks for the component anyway, or the window of some session contradicts itself and nobody passes. |
| `Injection.CarriedFromSource` | inject.go:46-61 | The component pointer carried to a relation, peer or shared field, if any, is that of the component field whose layout analysis searched, on the same session. |
| `Injection.CarriedIff` | inject.go:46-61 | The component of the last component field before, if that is in the same window, and nil otherwise. |
| `SessionIndexes.Manager.AddSession` | manager.go:142-169 | All indexes but the fake IDs gain the session, whoever held its keys; nothing else changes. |
| `SessionIndexes.Manager.AddFake` | manager.go:607-627 | The same, and the fake ID is indexed. |
| `SessionIndexes.Manager.HandleChangeWorld` | handler.go:210-214 | Cache and buckets move the session; an emptied bucket goes. |
| `SessionIndexes.Manager.MoveSession` | manager.go:172-187 | The bucket map after leaving one world and entering another. |
| `SessionIndexes.Manager.RemoveSession` | manager.go:190-229 | All indexes lose the session's keys, whoever holds them; every relation in a remaining session's components is cleared of it and otherwise unchanged. |
| `SessionIndexes.Manager.GetSessionByID` | manager.go:272-287 | The XUID index first, then the fake IDs; nothing for the empty ID. |
| `SessionIndexes.Manager.GroupedSessions` | manager.go:428-441 | One list per bucket, each an enumeration of it. |
| `SessionIndexes.Manager.AllSessions` | manager.go:290-301 | The registered sessions that are open, each once. |
| `SessionIndexes.JoinKeepsAgreement` | manager.go:142-169 | Adding a session with new keys keeps every index in agreement with the registered sessions. |
| `SessionIndexes.LeaveKeepsAgreement` | manager.go:190-224 | Removing a registered session keeps them in agreement. |
| `SessionIndexes.MoveKeepsAgreementIff` | handler.go:210-214 | When a world change keeps the buckets right, for every event: both directions. |
| `SessionIndexes.AlwaysAgree` | manager.go:142-229 | In every reachable state every key leads to the registered session that has it, and a session is in a world's bucket exactly when it is registered with that world cached; no bucket is empty. |
| `SessionIndexes.FoundByOwnIDIff` | manager.go:272-287 | A session is found by its own non-empty ID, except exactly when it is a fake player whose ID is a registered player's XUID. |
| `SessionIndexes.ByIDFinds` | manager.go:272-287 | A lookup by ID leads to the registered session with that XUID, else to the registered fake with that ID, else to nothing. |
| `SessionIndexes.NotFoundAfterLeaving` | manager.go:190-229 | After a removal no index leads to the session. |
| `SessionIndexes.FoundByNameIff` | manager.go:151-153 | Without any uniqueness: a name leads to a session exactly when nobody of that name joined or left after it joined. |
| `SessionIndexes.RejoinLosesName` | manager.go:199-201 | Removing an old session takes away the name entry of a newer one of the same name. |
| `SessionIndexes.GroupedOnce` | manager.go:428-441 | The grouping lists each registered session with a world once, under that world, and nothing else. |
| `Relations.Relation.Get` | relation.go:42-52 | The target if it is open; a closed one is forgotten. |
| `Relations.Relation.Resolve` | relation.go:66-76 | The open target and its component; fails without either. |
| `Relations.RelationSet.All` | relation.go:147-165 | The open targets, each once; the closed ones are gone from the set when it returns. |
| `Relations.RelationSet.Resolve` | relation.go:170-194 | The open targets that carry the component, each once; the set is cleaned as well. |
| `Relations.RelationSet.CleanupClosed` | relation.go:202-210 | Keeps exactly the open targets. |
| `Relations.Component.ClearRelationsTo` | relation.go:271-313 | Every top-level relation field of a struct component is cleared of the target, and of nothing else. |
| `Relations.Session.ClearRelationsTo` | session.go:310-325 | The same for every component of a session whose type is known. |
| `Relations.ClearAllRelationsTo` | manager.go:414-425 | The same through all three loops, for all sessions, components shared or not. |
| `Relations.FieldAfterClearing` | manager.go:226-228 | Afterwards no such field refers to the target, and what it says about every other session is unchanged. |

## Left out

- Lifecycle.TaskManager.ScheduleGlobal: a nil manager, for which the call returns nil as well, has no methods in the model.
- Lifecycle.AnyRun: each operation is one atomic step; schedules and a close taken step by step are in `ScheduleRaces`, for one session.
- PipelineRuns.RunMeansTogether: where the players are, and the masks and memory of the sessions, are inputs of each turn, read at once.
- StageRuns.RaceIffCondition: a race is two executions under way at once whose declared fields may reach the same memory with one of them mutable; which sessions the masks let through, and what user code does with a field, are not looked at. The test of one loop and its marking are atomic steps. Jobs of tasks are not looked at.
- CacheClosings.CleanupRepeatsIff: closing the channel a second time panics in the runtime; the model goes on.
- CacheEntries.FetchesArePaidFor: one entry at a time; no claim that closing is final (a fetch stores its status unconditionally) or that batches which lock entries in crossed orders make progress.
- LoopTimers.LoopState.Tick: worlds ask one after the other; worlds processed at the same time race on the state of a shared loop.
- Batching.Scheduler.RebuildBatches: the sorting routine is an input constrained to permute and order by name.
- SessionIndexes.AlwaysAgree: joins bring keys that no registered session has; what happens to a name when they do not is `SessionIndexes.FoundByNameIff`.
- Injection.Instance.InjectSystem: what injection makes of a field without a matching part, where the runtime reads the first bytes of the component as if they were one, is whatever the model's memory holds there.
- Relations.Component.ClearRelationsTo: relations inside nested structs, slices or pointers are not reached, by the code or by the model.
- Injection.NoLeak: slices own their backing arrays; two instances sharing one, and a slice kept by a system after its run, are not modelled.
- Bundles, and handler payloads filled after injection.
- ComponentIDs.DistinctTypesDistinctIDs: the 32-bit counter is unbounded here; its own wrap-around is a multiple of the byte's.
- The three session classes hold the part of a session each module needs: tasks, components, or identity and relations.
- Heap slots cleared for the garbage collector, and the queue's wake-up channel.
- Words of the mask are sequences of 64 bits and word operators act bit by bit.
- Attach and Detach hooks, component events and user code inside systems: no effects on the modelled state.
- `ScheduleRepeating`: its wrapper is injected with the metadata of the task it wraps, so a count of runs would rest on something the code does not provide.
- Pending-task entries of tasks that are dropped or fail to run stay in their sessions; nothing is claimed about them.
- Providers, subscriptions, time-outs, the cache's worker limit and the update loop of cached peers; of shutdown only the part of stop that closes an entry.
- Dragonfly's worlds, transactions and players; a transaction body is taken to run once.
- Reflection, type-name prefixes and raw memory layout: systems and components are sequences of typed fields; phantom fields behind a pointer are not classified.
- `builder.go`, `bundle.go`, `stage.go`, `tags.go`, `provider.go`, `event.go`, `helpers.go`, `actor.go`: registration, parsing and plumbing.
