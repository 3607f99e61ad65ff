# HGSL

HGSL is a guest-side GPU driver: it queues drawing work per context, schedules it, gives out
GPU addresses, passes messages to the host and keeps timelines of fences. This project models
the parts of it that are algorithms over state and proves what they are relied upon for.

| file | what it models |
|---|---|
| `Timestamps.dfy` | wrapping timestamp comparison, choice of the next context timestamp |
| `DispatchModel.dfy`, `DispatchRuns.dfy` | the draw queue and dispatcher of a context as atomic steps over unbounded times; what holds in every run |
| `DispatchBatches.dfy`, `DispatchLimits.dfy` | what one enqueue does with any batch; batches that come too late, without room or after detach |
| `DispatchContext.dfy` | the same as the driver keeps it: 128-slot ring, 32-bit registers, loops; each method is proved to take the steps of the model |
| `DispatchJobs.dfy` | job counter, work item, worker and producers of the dispatcher, as steps and as the driver's functions, which are proved to take them |
| `DispatchWork.dfy` | queue and jobs together: that what is queued is attended to |
| `SyncEvents.dfy` | the race between callbacks and destruction of a sync object, as steps |
| `SyncObject.dfy` | the sync object as the driver keeps it; each method is proved to take the steps of the model |
| `EventGroups.dfy` | timestamp events of a context and their worker |
| `IntervalTree.dfy`, `AddressSpace.dfy` | the GPU virtual address allocator |
| `HfiRing.dfy` | the HFI message ring, writer and reader as one queue |
| `Parcel.dfy` | the argument buffer of remote calls, printer and parser |
| `MemIndex.dfy` | the index of memory nodes by address |
| `PageBlocks.dfy`, `CacheWalk.dfy` | page-block allocation and freeing, the cache-operation walk |
| `Isync.dfy` | isync timelines |
| `Sequences.dfy`, `Units.dfy`, `Wrappers.dfy` | subsequences; sizes and limits of the machine; the option type |

An object the driver updates in place is a class with the driver's fields; its ghost fields
carry the abstract value, and its methods are proved against functions of that value. A
protocol between threads is a state machine whose steps are the atomic sections of the code.

## Assumptions

- Contexts have USER_GENERATED_TS set, with timestamps from the client or from the driver;
  with the flag clear the code makes no ordering check (hgsl.c:783-785).
- All submissions of a context go through its dispatcher, the hardware retires them in the
  order submitted, and the times outstanding span at most 2^31.
- Address arithmetic near the end of the GPU address space does not wrap at 2^64.
- Sums of sizes and positions of a parcel do not wrap at 2^64.
- Every draw object enqueued is new to its context.
- Memory that may be missing, room that may not appear, the result of a sending and the
  answers of the page allocator are parameters of the operations.

## Where the code differs from its comments

- Waiting for room in the draw queue gives the remaining time when room appears, and 0 when
  time runs out (hgsl_dispatch.c:371-383). The caller goes on at 0 (643-645): it enqueues
  after a timeout, and returns a positive value, with nothing enqueued, after a successful
  wait (`DispatchContext.Context.AfterSleep`).
- A batch enqueued after a timeout need not fit. The step that brings the objects in the ring
  to 128, an enqueue or the return of an object whose sending failed, makes head and tail
  meet, and all 128 are never reached again (`DispatchLimits.StepHidesExactly`,
  `TimedOutBatchFitsExactly`, `TimedOutBatchCanHideQueue`). What is enqueued later is found
  and sent ahead of them: departures still keep the order of acceptance, but the object sent
  is the oldest one left exactly if it was accepted before anything was hidden
  (`DispatchRuns.HardwareSeesEnqueueOrder`, `HeadIsOldestExactly`); a command can overtake a
  sync object with a pending event (`DispatchLimits.CommandCanOvertakePendingSync`). The counter
  keeps counting what is hidden, so no batch finds room again (`NoRoomAfterHiding`), and the
  hidden objects are left behind at rest (`DispatchWork.QueueCanBeLeftBehind`).
- A producer that sleeps for room is not told when its context is detached: if its sleep times
  out, its batch goes into the ring of the detached context (`DispatchLimits.OnlySleepersAppend`,
  `NothingAppendedExactly`, `LateBatchCanStayAfterDetach`).
- Events "that have been queued" are to be allowed on contexts without timestamps of their
  own (hgsl_events.c:176-186), but the test refuses the last queued timestamp itself
  (`EventGroups.DoorAdmitsOnlyEarlier`).
- A pass over an event group that comes half a turn or more after the last one never reports
  an event early, but can miss events whose time has come (`EventGroups.PassCatchesUpExactly`,
  `LatePassMisses`, `EarlyExitExactly`).
- The address allocator moves its bump pointer before it records the range
  (hgsl_iommu.c:1284, 1352-1356). When the record cannot be made the invariant the fast path
  rests on is lost, exactly if the address came from the bump pointer. The second attempt at
  the request (1470-1473) restores it if it is recorded and the bump pointer has room for the
  request once more, or nothing fits below the address it gave; otherwise later ranges can
  overlap (`AddressSpace.TwoAttemptsKeepOkExactly`, `FailedRecordCanLeadToOverlap`).
- A timeline event whose callback is refused by a fence that has not signalled keeps a fence
  reference for good (hgsl_drawobj.c:799-812, `SyncEvents.QuietMeansAllReferencesBack`). That
  branch is a defence: `dma_fence_add_callback` refuses a callback only when the fence has
  signalled, and then every reference comes back (`SyncEvents.AllReferencesComeBack`).
- The check after the cancel loop of a sync object (hgsl_drawobj.c:335) never finds an event
  pending (`SyncEvents.NothingPendingAfterVisiting`, `SyncObject.Object.Destroy`).
- Lookup of an address range (hgsl_memory.c:787-815) can miss a range that matches. In a given
  tree it agrees with a scan exactly when no range is hidden from a search path
  (`MemIndex.TreeLookupIsCompleteExactly`), and two nodes are enough to hide one
  (`TwoNodesCanHide`). It agrees in every search tree over the same nodes, balanced or not,
  exactly when no range outlasts one that starts later (`RangeLookupIsCompleteExactly`);
  rebalancing can uncover a range (`BalanceCanUncover`).
- A parcel argument of 2^32 bytes or more is written but cannot be read back, because the
  size field has 32 bits (`Parcel.RecordReads`). The parser tests for room without the footer
  (hgsl_hyp_socket.c:110), and so looks past the buffer exactly when a header matches and the
  buffer ends between the payload and the end of the footer
  (`Parcel.ReaderStaysInsideExactly`, `MissingFooterIsReadPastEnd`).
- A batch of several timestamped objects, which no ioctl builds, is not all or nothing
  (`DispatchBatches.BatchIsTakenWholeExactly`).
- A send that fails after its context was detached puts its object back into the ring, where
  it stays until it is sent, lost or retired (`DispatchLimits.LeftAfterDetachExactly`).

## Model

| member | source | states |
|---|---|---|
| Timestamps.Ts32GeAgreesWithOrder | hgsl.h:416-421 | the 32-bit comparison equals the order of unbounded times exactly when the number of half turns between them has the right parity, so for all differences in [-2^31, 2^31) |
| Timestamps.Ts64GeAgreesWithOrder | hgsl.h:423-428 | the same for 64 bits |
| Timestamps.HalfTurnIsUnordered | hgsl.h:416-421 | half a turn apart, neither register counts as reached by the other |
| Timestamps.NextTimestampIsLater | hgsl.c:775-804 | an accepted timestamp is later than the last queued one by 1 to 2^31, and from a client the one given; a client's is refused, with ERANGE, exactly when it is not |
| Timestamps.AssignAvoidsSpecialValues | hgsl.c:792-800 | 2^32-1 is never assigned, 0 exactly after 2^32-1 |
| Timestamps.AssignIsNext | hgsl.c:792-800 | what the driver assigns is the next time, or the third where the next would read 2^32-1 |
| Timestamps.DriverTimestampsNeverRepeatOrSpecial | hgsl.c:792-800 | from 0 on, in a run without end, every assigned timestamp is later than all before it and never 0 or 2^32-1 |
| DispatchRuns.StepKeepsInv | hgsl_dispatch.c:36-86 | every step of producers, early or late, dispatcher, hardware, events and detach, on a ring that hides objects too, keeps: each accepted object has left, is queued, is hidden or was drained, once; order, rising times, time bounds, retired times of what left, passed syncs, forced markers |
| DispatchRuns.RunKeepsInv | hgsl_dispatch.c:295-344 | the invariant holds in every state of every run |
| DispatchRuns.RetiredNeverMovesBack | hgsl_dispatch.c:132-175 | over any run the retired and consumed timestamps never decrease, history only grows, and what is hidden or drained stays so |
| DispatchRuns.DepartedAreAccountedFor | hgsl_dispatch.c:132-175 | in every state of every run a marker the CPU retired has its time shown as retired, a submitted object has retired or is in flight, nothing else is in flight, and each object left as its kind does |
| DispatchRuns.CpuRetireIsInOrder | hgsl_dispatch.c:111-175 | a marker the CPU may retire is next: all earlier timestamps have retired, nothing is in flight, all others queued are later |
| DispatchRuns.FastPathIsIdle | hgsl_dispatch.c:450-494 | a marker retired on the fast path finds the queue empty, nothing hidden or drained, nothing being sent and all submissions retired |
| DispatchRuns.RegistersAreComparable | hgsl_dispatch.c:111-130 | in every run the registers stand within half a turn, so the comparisons read them right |
| DispatchRuns.HardwareSeesEnqueueOrder | hgsl_dispatch.c:235-344 | over any run, batches without room and detach included, objects leave in the order of acceptance with rising times; only hidden or drained ones are passed over; every sync object that left had no pending event; while nothing is hidden or drained the departures are the first accepted |
| DispatchRuns.SubmissionIsNext | hgsl_dispatch.c:295-344 | what is handed to the hardware is later than anything in flight, and all accepted before it has left, or was hidden or drained; with nothing hidden or drained it is the oldest not to have left |
| DispatchRuns.HeadIsOldestExactly | hgsl_dispatch.c:244-257 | the object at the head, or being sent, is the oldest not to have left, with all earlier sync objects cleared, exactly if it was accepted before anything was hidden or drained |
| DispatchRuns.OnlySyncsHoldUpCommands | hgsl_dispatch.c:398-435 | a queued command never waits for a marker: only a sync object at the head can block it |
| DispatchBatches.BatchIsAllOrNothing | hgsl_dispatch.c:616-705 | for the shapes the ioctls build a non-zero result leaves the context unchanged, and zero means all objects put behind those in stock, or a lone marker retired at once |
| DispatchBatches.LoneSyncIsNeverRefused | hgsl_dispatch.c:647-658 | in every state, whatever timestamp comes with it, a sync object alone is enqueued with code 0 |
| DispatchBatches.IoctlBatchIsRefusedExactly | hgsl_dispatch.c:647-658 | any other batch of an ioctl has code ERANGE if and only if timestamps come from the client and the given one is not ahead of the last queued time by 1 to 2^31, and else 0 |
| DispatchBatches.LoopTakes | hgsl_dispatch.c:660-700 | how much of any batch the loop takes, and that it goes behind what is in stock, in order, wherever the ring wraps onto itself |
| DispatchBatches.BatchIsTakenWholeExactly | hgsl_dispatch.c:616-705 | any batch, any mode, idle or busy: taken whole exactly if not refused at the door, a marker that starts it and is retired at once is alone, and with client timestamps at most one object is stamped; otherwise a proper part goes in |
| DispatchBatches.SecondStampIsRefused | hgsl_dispatch.c:660-700 | the busy client context: an error comes after something has been accepted |
| DispatchBatches.EnqueueHidesExactly | hgsl_dispatch.c:386-396 | any batch, taken whole or in part, hides objects exactly if those in the ring and those taken are 128 or more |
| DispatchLimits.StepHidesExactly | hgsl_dispatch.c:36-60 | a step hides objects exactly if it enqueues beyond 127 in the ring or puts one back before 127 |
| DispatchLimits.RoomKeepsQueueWhole | hgsl_dispatch.c:371-383 | in every run in which late batches found room all the same, nothing is hidden and the object being sent can be put back |
| DispatchLimits.NoRoomAfterHiding | hgsl_dispatch.c:371-383 | once objects are hidden they stay so, no batch finds room again and no marker takes the fast path |
| DispatchLimits.TimedOutBatchFitsExactly | hgsl_dispatch.c:643-645 | a late batch hides nothing exactly if ring and batch are at most 127, and not after a failed sending either exactly if at most 126 |
| DispatchLimits.TimedOutBatchCanHideQueue | hgsl_dispatch.c:643-645 | a run: a blocked sync, a full queue, a timeout; 128 objects are hidden and the ring looks empty |
| DispatchLimits.CommandCanOvertakePendingSync | hgsl_dispatch.c:244-257 | that run goes on: a command enqueued late is sent ahead of a sync object with a pending event and 127 others |
| DispatchLimits.LeftAfterDetachExactly | hgsl_drawobj.c:246-270 | after detach, while no late batch comes, what is left is the object being sent then, exactly until it is sent, lost or retired |
| DispatchLimits.OnlySleepersAppend | hgsl_dispatch.c:371-383 | over any run after detach what is queued was being sent then or came with a late batch, of which there are at most as many as producers slept |
| DispatchLimits.NothingAppendedExactly | hgsl_dispatch.c:637-645 | nothing more can be appended to a detached context exactly if no producer is past the door |
| DispatchLimits.LateBatchCanStayAfterDetach | hgsl_dispatch.c:643-698 | a run that leaves an object in the ring of a detached context |
| DispatchContext.RegistersDecide | hgsl_dispatch.c:111-130 | the code's register tests decide as the unbounded times do |
| DispatchContext.ScanLeads | hgsl_dispatch.c:235-284 | the scan is a run of steps that retire the head |
| DispatchContext.BurstLeads | hgsl_dispatch.c:295-344 | a burst of sending is a run of dispatcher steps, with as many submissions as sendings succeeded; it ends because the queue is empty, or its head is blocked, or a sending failed, whose object is dropped with its context or put back; it returns 0 only if it sent nothing and left the queue empty |
| DispatchContext.Context.constructor | hgsl.c:2329-2333 | a new context, zeroed, starts in the initial state of the model |
| DispatchContext.Context.PopDrawobj | hgsl_dispatch.c:81-86 | the head leaves the ring and the count follows |
| DispatchContext.Context.QueueDrawobj | hgsl_dispatch.c:386-396 | appends to the ring; the tail meets the head, and the ring reads as empty, exactly if all 127 usable slots were taken |
| DispatchContext.Context.RequeueDrawobj | hgsl_dispatch.c:36-60 | the object is in the slot before the old head, which is the head now; the head meets the tail, and the ring reads as empty, exactly if all 127 usable slots were taken |
| DispatchContext.Context.ForceQueuedMarkers | hgsl_dispatch.c:411-427 | sets the skip bit on every marker in the ring and changes nothing else |
| DispatchContext.Context.QueueCmdobj | hgsl_dispatch.c:398-435 | accepts or refuses as the next timestamp does, moves the model by a command; the command is in the slot at the tail |
| DispatchContext.Context.QueueMarkerobj | hgsl_dispatch.c:450-494 | 1 exactly if there is a shadow page, nothing is counted and all has retired, and then both timestamps show the marker's; else it is in the slot at the tail, waits for the last queued timestamp and is skipped only without a shadow page |
| DispatchContext.Context.QueueSyncobj | hgsl_dispatch.c:437-448 | the sync object is in the slot at the tail, with its pending events |
| DispatchContext.Context.QueueTimelineobj | hgsl_dispatch.c:496-507 | the timeline object is in the slot at the tail |
| DispatchContext.Context.QueueObjects | hgsl_dispatch.c:656-698 | the loop over the batch equals the enqueue function of the model, results included |
| DispatchContext.Context.QueueCmds | hgsl_dispatch.c:616-645 | up to the sleep for room: EINVAL exactly for 0 or more than 126 objects or a detached context; asleep, the context unchanged, exactly if the count would pass 126; else enqueued as the model does, a lone sync object always, another ioctl batch refused exactly for a client timestamp not ahead |
| DispatchContext.Context.AfterSleep | hgsl_dispatch.c:643-705 | after the sleep, whatever came between: interrupted and woken calls enqueue nothing, a timed-out one enqueues as the model does, with or without room, detached or not, and is refused exactly as one without a sleep |
| DispatchContext.Context.QueueBatch | hgsl_dispatch.c:647-705 | the loop equals the model's enqueue, results included; a lone sync object is never refused, another ioctl batch exactly if its client timestamp is not ahead by 1 to 2^31 |
| DispatchContext.Context.RetireSyncobj | hgsl_dispatch.c:88-109 | leaves the queue if and only if no event is pending, else EAGAIN with nothing changed |
| DispatchContext.Context.RetireMarkerobj | hgsl_dispatch.c:153-175 | if flagged, with a shadow page and its time come, it leaves and both timestamps become its own; else 1 if it is to be skipped, EAGAIN if not, with nothing changed |
| DispatchContext.Context.RetireTimelineobj | hgsl_dispatch.c:177-190 | always leaves the queue |
| DispatchContext.Context.ScanQueue | hgsl_dispatch.c:235-284 | the cursor stays at the head; what is returned is the command or skipped marker popped next, or the queue is empty, or a sync object with a pending event or a marker whose time has not come blocks it |
| DispatchContext.Context.TakeNext | hgsl_dispatch.c:301-320 | scan and pop under the lock are the model's steps |
| DispatchContext.Context.PutBackDrawobj | hgsl_dispatch.c:330-341 | an object not sent is at the head of the queue again, or hidden with the 127 in the ring |
| DispatchContext.Context.SendDone | hgsl_dispatch.c:322-344 | success submits the object's time, a gone context drops it, any other error puts it back into the slot before the head |
| DispatchContext.Context.SendCmds | hgsl_dispatch.c:295-357 | the loop yields the state and return value of the model's burst |
| DispatchContext.Context.HardwareConsumes | hgsl.h:518-541 | the page shows the timestamp of the submission that starts as consumed |
| DispatchContext.Context.HardwareRetires | hgsl.h:518-541 | the page shows the timestamp of the oldest submission as retired when it is done |
| DispatchContext.Context.EventFires | hgsl_drawobj.c:171-192 | one pending bit of a sync object is cleared |
| DispatchContext.Context.Detach | hgsl_drawobj.c:246-270 | takes exactly the objects between head and tail, in order, and leaves the counter of queued objects alone |
| DispatchJobs.RunKeepsInv | hgsl_dispatch.c:549-614 | in every interleaving references held for jobs equal counted jobs, jobs in the worker's hand and producers about to count; a counted job always has a pass coming |
| DispatchJobs.NothingOutstandingAtRest | hgsl_dispatch.c:549-614 | when nobody is under way no job is left and no reference is held |
| DispatchJobs.WorkerIsNeverStuck | hgsl_dispatch.c:586-600 | as long as work is queued or in hand the worker has a step to take |
| DispatchJobs.WorkerComesToRest | hgsl_dispatch.c:549-584 | every worker step that keeps no job brings it nearer to rest |
| DispatchJobs.OneAttemptPerTake | hgsl_dispatch.c:549-584 | jobs taken together cause exactly one sending attempt, none cause none |
| DispatchJobs.TakeStartsAttempts | hgsl_dispatch.c:554 | taking the count starts that accounting |
| DispatchJobs.Dispatch.GetContext | hgsl_dispatch.c:606-607 | one reference more, as the model's step |
| DispatchJobs.Dispatch.CountJob | hgsl_dispatch.c:610 | one job more, as the model's step |
| DispatchJobs.Dispatch.ScheduleWork | hgsl_dispatch.c:542-547 | the work item queued, by a producer, by the worker, or without a job by a detaching thread |
| DispatchJobs.Dispatch.QueueContext | hgsl_dispatch.c:602-614 | one reference and one job more and the work item queued, the model's three steps; nothing for a context going away |
| DispatchJobs.Dispatch.StartWork | hgsl_dispatch.c:586-600 | the work item leaves the queue and the worker is at its start, as the model's step |
| DispatchJobs.Dispatch.TakeJobs | hgsl_dispatch.c:554 | hands over the count and leaves none, as the model's step |
| DispatchJobs.Dispatch.IssueCmds | hgsl_dispatch.c:549-584 | a run of worker steps of the model; all jobs taken, one attempt, one job left behind exactly when there is more to send, references balanced |
| DispatchWork.StepKeepsInv | hgsl_dispatch.c:295-357 | every step of producers, worker, events, hardware and detach keeps: what is in the ring of a live context has a job counted, in hand, or about to be counted |
| DispatchWork.QueuedWorkIsAttended | hgsl_dispatch.c:549-614 | so in every interleaving, and the job has a pass of the worker coming |
| DispatchWork.NothingQueuedAtRest | hgsl_dispatch.c:549-614 | when nobody is under way no job is counted, no reference is held and the ring of a live context is empty; all that was accepted has left exactly if nothing was hidden or drained |
| DispatchWork.SomeoneGoesOn | hgsl_dispatch.c:549-614 | as long as something is in the ring a producer announcing its job or the worker has a step to take |
| DispatchWork.QueueCanBeLeftBehind | hgsl_dispatch.c:643-645 | a run after which all is at rest and 128 objects are hidden in the ring of a live context |
| SyncEvents.StepKeepsInv | hgsl_drawobj.c:171-337 | every step of callbacks, work items and destroying thread keeps counts equal to holders |
| SyncEvents.RunKeepsInv | hgsl_drawobj.c:171-337 | so in every state of every interleaving |
| SyncEvents.ReferencesComeBackOnce | hgsl_drawobj.c:701-720 | each event's references start at one, never rise, never go below zero: given back at most once |
| SyncEvents.FreedOnceWithNoHolder | hgsl_drawobj.c:285-337 | the object is freed at most once, when its count is zero, with no event pending, cancelled or in a callback |
| SyncEvents.QuietMeansAllReferencesBack | hgsl_drawobj.c:880-957 | when all is over the object is freed and every reference is back, except exactly the fence of a timeline event refused by an unsignalled fence |
| SyncEvents.AllReferencesComeBack | hgsl_drawobj.c:795-812 | as fences refuse callbacks only once signalled, every reference is back when all is over |
| SyncEvents.NothingPendingAfterVisiting | hgsl_drawobj.c:300-337 | after the cancel loop no pending bit is set |
| SyncObject.Object.constructor | hgsl_drawobj.c:607-630 | a new sync object has one reference and no events |
| SyncObject.Object.DestroyObject | hgsl_drawobj.c:23-53 | every fence handle left gives its fence back, nothing else does |
| SyncObject.Object.PutObject | hgsl_drawobj.h:245-249 | one reference less; exactly the last one frees the object and gives back what its handles hold |
| SyncObject.Object.AddSyncTimestamp | hgsl_drawobj.c:900-957 | refused before anything is taken, or one event more; it is pending, with a reference to the object and one to the context, exactly if its callback was added |
| SyncObject.Object.AddSyncFence | hgsl_drawobj.c:820-878 | one event more; it is pending, with a reference to the object and its fence kept by the handle, exactly if its callback was added |
| SyncObject.Object.AddSyncTimeline | hgsl_drawobj.c:750-818 | one event more; it is pending, with a reference to the object, exactly if its callback was added; on failure all it took is given back except one fence reference if the fence has not signalled |
| SyncObject.Object.Expire | hgsl_drawobj.c:171-192 | true exactly for the thread that cleared the bit; the context is scheduled exactly if that was the last bit |
| SyncObject.Object.FinishCallback | hgsl_drawobj.c:880-898 | a timestamp callback gives back its reference to the object whether or not it took the bit, the others only if they did; a context or timeline fence reference goes back only with the bit |
| SyncObject.Object.Callback | hgsl_drawobj.c:701-720 | a callback from start to end is the two steps |
| SyncObject.Object.TakeBit | hgsl_drawobj.c:298-307 | the destroying thread owns the event exactly if the bit was still set, and clears it |
| SyncObject.Object.CancelEventAt | hgsl_drawobj.c:309-329 | a cancelled fence or timeline event gives back its reference to the object, a timestamp event leaves that to its callback; the context or timeline fence goes back at once |
| SyncObject.Object.Destroy | hgsl_drawobj.c:285-337 | the loop visits every event, leaves no bit set and never schedules the context |
| EventGroups.MeantBasics | hgsl_events.c:209-222 | a timestamp stands for one time within half a turn of the retired time, and the test says which side it is on |
| EventGroups.SplitIsExact | hgsl_events.c:79-84 | a scan leaves or hands over each listed event, never both |
| EventGroups.HandedOverOnce | hgsl_events.c:29-51 | an accepted event is in exactly one place: listed, with the worker, or run |
| EventGroups.EarlyExitIsRight | hgsl_events.c:75-79 | within half a turn, when the early exit is taken a full scan would have found nothing |
| EventGroups.TestPicksExactly | hgsl_events.c:79-84 | the register test never picks an event early, and misses one exactly if it came an odd number of half turns ago |
| EventGroups.EarlyExitExactly | hgsl_events.c:75-79 | the early exit is taken exactly if a whole number of turns, or more than half a turn, has retired since the last pass |
| EventGroups.PassKeepsOrderly | hgsl_events.c:53-90 | however late it comes a pass loses no event, hands none over twice and reports none early; a flush empties the list |
| EventGroups.PassCatchesUpExactly | hgsl_events.c:53-90 | exactly when a pass leaves no event listed whose time has come |
| EventGroups.LatePassMisses | hgsl_events.c:75-79 | an event that came half a turn before the pass stays listed |
| EventGroups.PassKeepsSound | hgsl_events.c:53-90 | within half a turn a pass is that of a full scan in unbounded time and lists no reached event afterwards |
| EventGroups.AddKeepsSound | hgsl_events.c:188-229 | adding an event keeps the books; its time has come if and only if the test on registers says so, and exactly then the worker gets it, as reached; else it is listed |
| EventGroups.DoorAdmitsOnlyEarlier | hgsl_events.c:176-186 | the door admits exactly timestamps earlier than the last queued one, not that one itself |
| EventGroups.Group.Signal | hgsl_events.c:29-34 | one event moves from the list to the worker with its verdict |
| EventGroups.Group.Add | hgsl_events.c:165-230 | every refusal and the acceptance; an accepted event goes to the worker as reached, the list unchanged, if the retired timestamp has reached it, and else to the end of the list, the worker unchanged |
| EventGroups.Group.Process | hgsl_events.c:53-90 | the books of the pass, early or late: it hands over, in order and as reached, the listed events the test picks, or at a flush all; within half a turn these are those of a full scan in unbounded time |
| EventGroups.Group.CancelTimestamp | hgsl_events.c:123-139 | takes exactly the events with the timestamp off the list, in order, and hands them over as cancelled |
| EventGroups.Group.Cancel | hgsl_events.c:146-163 | takes exactly the first event that matches in timestamp, function and argument off the list and hands it over as cancelled |
| EventGroups.Group.RunWorker | hgsl_events.c:43-51 | runs the oldest event handed over and gives back one reference |
| IntervalTree.InsertKeepsOrder | hgsl_iommu.c:1360-1384 | the entry takes its place in the order; refused exactly if its base is taken |
| IntervalTree.RemoveInOrder | hgsl_iommu.c:1520-1525 | takes out that entry and keeps all others in order |
| IntervalTree.PreviousInOrder | hgsl_iommu.c:1511-1518 | the predecessor is the entry just before in the order |
| AddressSpace.AlignUpIsLeast | hgsl_iommu.c:1272-1273 | alignment gives the least multiple not below the address |
| AddressSpace.SearchGap | hgsl_iommu.c:1300-1345 | the lowest aligned address where the request fits, and none exactly if it fits nowhere |
| AddressSpace.AllocationIsComplete | hgsl_iommu.c:1288-1346 | an allocation finds an address exactly when the request fits somewhere, and then it is aligned, in bounds and free |
| AddressSpace.AllocationKeepsOk | hgsl_iommu.c:1259-1286 | ranges stay disjoint and in bounds, the bump pointer stays at the end of the highest |
| AddressSpace.ReleaseKeepsOk | hgsl_iommu.c:1498-1526 | so does freeing a range |
| AddressSpace.ReleaseUndoesAllocation | hgsl_iommu.c:1498-1526 | freeing the latest allocation restores ranges and bump pointer |
| AddressSpace.RunKeepsOk | hgsl_iommu.c:1259-1526 | after every sequence of allocations and frees the invariant holds |
| AddressSpace.LiveRangesWereGranted | hgsl_iommu.c:1387-1409 | every live range was asked for, with its size and alignment |
| AddressSpace.FailedRecordKeepsOkExactly | hgsl_iommu.c:1348-1356 | without memory for the record the invariant is kept exactly if the bump pointer did not give the address |
| AddressSpace.TwoAttemptsKeepOkExactly | hgsl_iommu.c:1470-1473 | the two attempts keep the invariant exactly if the first was recorded, or did not use the bump pointer, or the second was recorded and the bump pointer has room once more or nothing fits below the address it gave |
| AddressSpace.FailedRecordCanLeadToOverlap | hgsl_iommu.c:1470-1473 | a sequence of three requests, with the space after each attempt, that ends with two overlapping live ranges |
| AddressSpace.Pagetable.GetUnmappedAreaHint | hgsl_iommu.c:1259-1286 | used only with a non-zero pointer in a space beyond 32 bits; the least aligned address from the pointer on, none exactly if nothing aligned from there on ends in time; the pointer moves to its end |
| AddressSpace.Pagetable.GetUnmappedArea | hgsl_iommu.c:1288-1346 | the fast path if it can be used, else the lowest fit |
| AddressSpace.Pagetable.GetGpuaddr | hgsl_iommu.c:1387-1409 | an address granted is aligned, in bounds and clear of all live ranges, and exactly that range becomes live; exhaustion and lack of memory; when the invariant is kept |
| AddressSpace.Pagetable.Obtain | hgsl_iommu.c:1427-1476 | refusals, the two attempts, the range granted; when the invariant is kept |
| AddressSpace.Pagetable.FindGpuaddr | hgsl_iommu.c:1478-1496 | finds the entry with that base, or there is none |
| AddressSpace.Pagetable.RemoveGpuaddr | hgsl_iommu.c:1498-1526 | frees exactly that range and moves the bump pointer to the range before if it rested on it |
| HfiRing.IssuedMessagesFit | hgsl.c:1331-1351 | every message of the issue path fits an empty queue, its size survives the 8-bit field, descriptors are moved out exactly when it would not have fitted |
| HfiRing.HeaderFields | hgsl.c:256-278 | bits 0 to 7 of the header hold the message number 130, bits 8 to 15 the size, bits 16 to 19 nothing, bits 20 to 31 the low bits of the sequence number |
| HfiRing.CopyKeepsRing | hgsl.c:611-623 | copying into the free part, wrapping or not, changes no unread dword |
| HfiRing.PublishKeepsRing | hgsl.c:628-629 | the new write index puts the copied message behind the others |
| HfiRing.ReadKeepsRing | hgsl_gmugos.c:178-191 | delivering the oldest leaves the rest, and an unfinished send, as they were |
| HfiRing.Queue.FreeDwords | hgsl.c:526-535 | the free dwords are those not taken by unread messages, less one |
| HfiRing.Queue.WaitRoom | hgsl.c:537-551 | says yes exactly when the aligned message fits |
| HfiRing.Queue.CopyBody | hgsl.c:611-623 | the message lies in the slots from the write index on, across the wrap, behind the unread ones, none of which changed |
| HfiRing.Queue.Publish | hgsl.c:625-629 | the write index moves past the aligned message; it is sent and unread, last in order |
| HfiRing.Queue.Send | hgsl.c:577-655 | all or nothing, decided by the free space |
| HfiRing.Queue.Refresh | hgsl_gmugos.c:248-263 | a fresh write index makes all unread messages visible |
| HfiRing.Queue.ReadMsg | hgsl_gmugos.c:152-196 | delivers the oldest visible message whole and moves the read index past it, or fails exactly if none is visible; sent equals delivered followed by unread |
| HfiRing.Queue.CopyMsg | hgsl_gmugos.c:115-136 | the buffer holds the dwords from the read index on, across the wrap |
| HfiRing.Queue.HandleMessages | hgsl_gmugos.c:248-263 | everything sent has been delivered in order when the loop ends |
| Parcel.RecordReads | hgsl_hyp_socket.c:105-150 | a record is read back exactly when asked for by its own type and size, if its length fits 32 bits, and otherwise refused |
| Parcel.ReadExactly | hgsl_hyp_socket.c:105-150 | byte by byte, what is read back with its payload: the data magic, the type and size asked for, any version, the payload, the checksum of all ones; and nothing else |
| Parcel.RecordBytes | hgsl_hyp_socket.c:162-192 | the bytes of a record: data magic, type, version 2, length, payload, checksum |
| Parcel.PrintedBytes | hgsl_hyp_socket.c:64-82 | a 32-bit integer, a 64-bit negative one and a blob as bytes, types 1, 2 and 0 |
| Parcel.LeastByteFirst | hgsl_hyp_socket.c:71-77 | integers of both widths are stored least significant byte first |
| Parcel.LeastByteIsRemainder | hgsl_hyp_socket.c:71-77 | and read in that order |
| Parcel.ReaderStaysInsideExactly | hgsl_hyp_socket.c:105-150 | the parser looks only inside the buffer unless a header matches and the buffer ends after the payload and before the end of the footer |
| Parcel.OutcomeIsInside | hgsl_hyp_socket.c:105-150 | otherwise the outcome does not depend on what lies behind the buffer |
| Parcel.MissingFooterIsReadPastEnd | hgsl_hyp_socket.c:110 | a 36-byte parcel whose argument is returned or refused by the bytes behind it |
| Parcel.ArgReads | hgsl_hyp_socket.c:105-150 | any request at any argument of a finished parcel: returned exactly if asked for by its own type and size |
| Parcel.RoundTrip | hgsl_hyp_socket.c:105-192 | each argument of a printed parcel is read back where the one before it ended |
| Parcel.SignedRoundTrip | hgsl_hyp_socket.c:262-280 | signed values of both widths survive |
| Parcel.ValuesRoundTrip | hgsl_hyp_socket.c:246-280 | parsing a finished parcel with the types and sizes it was printed with returns exactly the values printed |
| Parcel.GrownHasRoom | hgsl_hyp_socket.c:386-410 | a grown buffer holds the record it was grown for, exactly if old size and payload reach 40 bytes |
| Parcel.StreamLength | hgsl_hyp_socket.c:282-303 | the bytes written are the sum over the records |
| Parcel.Payload.constructor | hgsl_hyp_socket.c:198-215 | an empty parcel |
| Parcel.Payload.Reset | hgsl_hyp_socket.c:226-239 | empty again and zeroed |
| Parcel.Payload.Grow | hgsl_hyp_socket.c:386-410 | larger, with the old contents, or unchanged |
| Parcel.Payload.WriteData | hgsl_hyp_socket.c:162-192 | appends exactly one record, or changes nothing; fails exactly if it must grow and cannot |
| Parcel.Payload.WriteWord | hgsl_hyp_socket.c:366-374 | appends a 32-bit argument; fails exactly if it must grow and cannot |
| Parcel.Payload.WriteLong | hgsl_hyp_socket.c:376-384 | appends a 64-bit argument; fails exactly if it must grow and cannot |
| Parcel.Payload.WriteBlob | hgsl_hyp_socket.c:360-364 | appends a blob, with no data its bytes are unspecified; fails exactly if it must grow and cannot |
| Parcel.Payload.Finalize | hgsl_hyp_socket.c:282-303 | the call header's size is the total of the records modulo 2^32, the footer follows them |
| Parcel.Payload.SetCallParams | hgsl_hyp_socket.c:305-315 | magic, opcode and version are in the header, the records unchanged |
| Parcel.Payload.GetArg | hgsl_hyp_socket.c:105-150 | result, new position and how far it looks, dump included, for every buffer and request |
| Parcel.Payload.WriteValue | hgsl_hyp_socket.c:360-384 | appends the argument for a value of any of the five types; fails exactly if it must grow and cannot |
| Parcel.Payload.WriteAll | hgsl_hyp_socket.c:360-384 | appends the arguments for a sequence of values in order; fails exactly if it must grow and cannot, having written those before the first that does not fit |
| Parcel.Payload.ReadValue | hgsl_hyp_socket.c:246-280 | the next argument by the type and size of a value, as the parser reads it; the position moves past what matched |
| Parcel.Payload.ReadAll | hgsl_hyp_socket.c:246-280 | reads a sequence of values as the parsing function does |
| Parcel.Exchange | hgsl_hyp_socket.c:246-384 | printing, finishing, handing over and parsing returns the values printed if and only if there is memory or the first buffer is large enough, and every value is in the range of its type |
| MemIndex.FindNode | hgsl_memory.c:787-815 | the loop equals the descent function |
| MemIndex.LookupIsSound | hgsl_memory.c:787-815 | what is found is in the tree and matches |
| MemIndex.ExactLookupIsComplete | hgsl_memory.c:787-815 | exact lookup finds a node if and only if it is in the tree with exactly that base and size |
| MemIndex.LookupIsComplete | hgsl_memory.c:787-815 | range lookup succeeds exactly when a scan would, for every range, if no range outlasts one that starts later |
| MemIndex.TreeLookupIsCompleteExactly | hgsl_memory.c:787-815 | tree by tree: range lookup agrees with a scan, for every range, exactly if no range is hidden from a search path |
| MemIndex.HiddenIsMissed | hgsl_memory.c:787-815 | a hidden range is missed by a lookup from the base of the node that hides it |
| MemIndex.TwoNodesCanHide | hgsl_memory.c:757-785 | two nodes added one after the other, and a lookup that fails |
| MemIndex.BalanceCanUncover | hgsl_memory.h:109-116 | a balanced tree of three nodes that is complete although a range outlasts a later one |
| MemIndex.OutlastingRangeIsMissed | hgsl_memory.h:109-116 | if a range outlasts a later one there is a search tree over the same nodes, not necessarily balanced, and a range it misses |
| MemIndex.RangeLookupIsCompleteExactly | hgsl_memory.h:109-116 | range lookup agrees with a scan in all search trees over the same nodes, balanced or not, if and only if no range outlasts a later one |
| MemIndex.DisjointRangesQualify | hgsl_memory.h:109-116 | ranges that do not overlap meet the condition |
| MemIndex.Index.Add | hgsl_memory.c:757-785 | adds exactly that node, refused exactly if its base is taken |
| MemIndex.Index.Find | hgsl_memory.c:787-815 | exact lookup finds a node if and only if it is in the tree with exactly that base and size; a node found for a range contains it; range lookup agrees with a scan if none is hidden in the tree or none outlasts a later one |
| PageBlocks.GetOrderIsLeast | hgsl_memory.c:618 | the starting order is the least that is enough |
| PageBlocks.LayoutLength | hgsl_memory.c:695-715 | only the last block is cut short |
| PageBlocks.HeadAt | hgsl_memory.c:285-291 | each block's head is where the blocks before it end |
| PageBlocks.FreeingUndoesAllocating | hgsl_memory.c:279-298 | freeing the blocks of an allocation restores what was allocated before |
| PageBlocks.Buffer.AllocPages | hgsl_memory.c:614-645 | the largest order to be had, all larger ones having been refused, none only if order 0 was refused too; pages recorded up to the request |
| PageBlocks.Buffer.Alloc | hgsl_memory.c:667-727 | wherever it stops, the list of pages included, the pages are those of its blocks and the counter has grown by them; with memory for the list it fails only if a call for a single page was refused, and so succeeds if none is |
| PageBlocks.Buffer.AllocThenFree | hgsl_memory.c:279-298 | allocating, wholly or in part or not at all, and freeing leaves the live blocks and the counter as they were |
| PageBlocks.Buffer.Free | hgsl_memory.c:279-298 | visits exactly the block heads in order, frees each block once, takes off the counter what was added |
| CacheWalk.RangeIsOverlap | hgsl_memory.c:583-585 | the pages asked for are exactly those the byte range overlaps |
| CacheWalk.DmaCacheOpCoversExactly | hgsl_memory.c:446-466 | a run is covered exactly if its byte count fits 32 bits |
| CacheWalk.FlatAt | hgsl_memory.c:594-600 | the pages of a buffer, one by one: page k of a segment comes behind all whole pages of the segments before it |
| CacheWalk.Walk | hgsl_memory.c:594-609 | whatever the segments, asks for exactly the flat slice of pages, each once and in order |
| CacheWalk.CacheOp | hgsl_memory.c:549-612 | every error case, and the pages covered for buffers of the size this driver allocates |
| Isync.TsGeAgrees | hgsl.h:430-436 | register comparison of either width agrees with unbounded order within half a turn |
| Isync.SignalledIffReached | hgsl_sync.c:850-863 | a fence nobody forced or released is signalled if and only if its point is reached, once at most; a listed one reads as not signalled |
| Isync.SplitIsExact | hgsl_sync.c:645-660 | forwarding keeps or takes each listed fence, never both |
| Isync.TestIsRight | hgsl_sync.c:647 | the register test picks exactly the fences whose points are reached |
| Isync.ForwardKeepsSound | hgsl_sync.c:625-670 | never back, forward exactly if the timestamp is ahead by up to half a turn, signalling exactly the fences reached |
| Isync.CreateKeepsSound | hgsl_sync.c:422-477 | a new fence is signalled at once exactly if its point is reached, else listed |
| Isync.SignalKeepsSound | hgsl_sync.c:569-594 | signalling by hand keeps one fate per fence |
| Isync.ReleaseKeepsSound | hgsl_sync.c:870-894 | so does releasing a listed fence |
| Isync.RunKeepsSound | hgsl_sync.c:422-670 | over any run time never decreases, each fence has one fate, signals are never taken back |
| Isync.Timeline.CreateFence | hgsl_sync.c:422-477 | the new fence, with point 1 when no valid one is given, signalled at once or put at the end of the list |
| Isync.Timeline.Forward | hgsl_sync.c:625-670 | the last timestamp becomes the new one exactly if it had not reached it; the loops equal the forwarding function, order of signals included |
| Isync.Timeline.SignalByHand | hgsl_sync.c:569-594 | succeeds exactly for a listed fence, takes that one off the list and signals it |
| Isync.Timeline.Query | hgsl_sync.c:672-685 | the last timestamp, which shows the time of the timeline |

## Left out

- Contexts without USER_GENERATED_TS: no ordering is checked there, so none is claimed.
- A killed context, whose timestamps are retired at once (hgsl.c:1395-1402): it bypasses the order the queue keeps.
- The list of submitted draw objects kept for reclaiming, profiling buffers, command and memory lists.
- Timers of sync objects, bind objects and the error path that builds timeline objects.
- The choice of alignment by size in the address allocator: alignment is a parameter. For sizes from 64K on the code passes the constant for 64 (hgsl_iommu.c:1453-1454).
- Ring slots, lists and tree nodes hold values, not pointers, so sharing between them is not modelled; tree links are changed by rebuilding the path, and rebalancing is left out because it changes neither order nor contents.
- SyncObject.Object.Destroy: the case with no callback in between; `TakeBit`, `CancelEventAt` and `DropQueueReference` are the pieces between which callbacks may come. Taking a fence callback off waits for one that is running, as dma_fence_remove_callback does.
- IntervalTree.InsertKeepsOrder: insertion and removal are recursive functions on tree values where the code walks with pointers.
- DispatchContext.Context.SendCmds: other steps may come between its iterations; `TakeNext` and `SendDone` are the pieces that interleave, this method is the case where nothing does.
- DispatchJobs.Dispatch.IssueCmds: no producer comes between its steps; the pieces it is made of are the steps that interleave.
- HfiRing.Queue.HandleMessages: no sender runs while the loop runs; `ReadMsg` is the piece that interleaves with senders.
- HfiRing.Queue.Send: looks at the free space once; the code looks again for a bounded time. The kernel's writer and reader serve two rings of one format; the model joins them.
- Parcel.Payload.Grow: the branch for a parcel without a buffer, which initialisation leaves no parcel in.
- Parcel: the version field that callers set.
- PageBlocks.Buffer.Alloc: stops before locking and exporting the pages.
- Isync: the lookup and reference counts of timelines, owner checks, failures while a file descriptor is made, and destruction of a timeline; creation of a fence is one step.
- Waiting on several timelines, hsync timelines, shared indirect buffers, cooperative reset, channel pools.
- Sockets, ioctl argument copying, interrupts, registers, tracing, sysfs, debugfs and probing: I/O.
