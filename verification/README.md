# Device services of the HTC One M9 tree, modelled in Dafny

The repository holds the user-space services of one phone: GPS utilities, power hints, camera service
and parameters, and the speaker amplifier. This project models the parts with the most intricate state
and proves what they promise, over every input, every run and every interleaving.

`dafny verify dfyconfig.toml` checks all of it.

| module | what it models |
|---|---|
| `RankedTree` | the heap of `gps/utils/LocHeap.cpp` as functions on trees, with its laws |
| `LocHeapInPlace` | the same heap as linked nodes updated in place, proved to compute those functions |
| `TimerRank` | `LocTimerDelegate::ranks` and the future time that `LocTimer::start` builds |
| `TimerService` | the timer service as a state machine: clients, message thread, poll thread, kernel timers |
| `TimerWakeup` | no wakeup of that machine is lost |
| `TimerLife` | the life of a timer in it, stop against fire, the shared lock |
| `TimerContainer` | what one expiry fires, and `LocTimerContainer`'s handlers as an object |
| `TimerRuns` | runs of the service that fire early and that leave an fd armed |
| `TimerSteps` | what one call or message does: where a timer goes, what stop answers, when the fd is re-armed, what the poll thread handles |
| `ThreadHandoff` | `LocThreadDelegate` under every interleaving of owner and spawned thread |
| `ThreadCalls` | what the spawned thread calls on its runnable, and what stop and bye do to it |
| `VideoHint` | the delayed video-encode hint with any number of sleeping threads |
| `PerfLock` | the linked list of held perf-lock handles, perform and undo |
| `CameraService` | one camera status change: state object, listeners, torch, battery notes |
| `CameraRuns` | the same under every interleaving of the HAL thread, clients and torch calls |
| `CameraSizes` | sizes as text: `strtol`, `parse_pair`, `parseSizesList` |
| `CameraParameters` | the parameter map, flatten and unflatten |
| `GpsLinkedList` | the doubly linked FIFO of `gps/utils/linked_list.c` |
| `Tfa9887` | 24-bit packing and chunked I2C transfers of the amplifier |
| `Basics` | what several modules share: Option, 32-bit conversion, removing one element, laws of sequences and multisets |

Code that updates objects is a class whose methods are proved against functions on values; the laws are
lemmas about those functions. Concurrent code is a state machine whose steps are the critical sections,
queue operations and system calls of the source, one each; theorems speak of every run from the start.

## What the proofs brought out

- The first timer of an expiry is popped before the clock is looked at. It fires early exactly when it
  is still in the future when the Expire message is handled (`FiresEarlyIff`), which does happen, by the
  timer's whole delay (`FiresEarly`).
- `updateSoonestTime` never reaches its disarm branch, since no caller passes a prior top once the heap
  is empty (`NoLostWakeup`, second clause), and so an emptied heap leaves its fd armed
  (`EmptyHeapStaysArmed`). The comment in `remove` says the soonest time is updated if the timer is *not*
  the prior top; the code does it if it is, and the model follows the code.
- `LocThread::start` returns false although the thread ran, and the library has then deleted the
  runnable that the caller believes to own, when the thread ends before `create` looks
  (`RefusedStartLeavesRunnableIff`, `EarlyFinishRefusesStart`).
- Video-encode hints can leak exactly when two starts that got their thread lack a stop between them
  (`LeakFreeIff`). An undo after a failed perform releases an older handle of the same hint
  (`UndoTakesBackIff`, `RunDisturbsIff`).
- A camera the HAL drops is forgotten without a word to the listeners if `supportsCameraApi` no longer
  answers for it (`ListenersKnowIff`, `DropToldIff`). That is the ordinary case for a camera listed once:
  the provider manager takes the device off its list before it reports the drop
  (`camera/libcameraservice/common/CameraProviderManager.cpp:1914-1915`), and the version it is then
  asked for is not found. A client that finishes late announces the camera again
  (`UnannouncedDropRevives`), and a torch that was on stays charged to its user
  (`UnannouncedDropLeaksTorch`).
- `tfa9887_write` rounds its chunks down to whole words and then gives one byte to the address, so a
  long write is cut inside words (`WordsCutIff`), which a long read is not (`ChunksAreWhole`).

## Assumptions

- Everything done under one mutex is one step; so is each queue operation and each system call.
- `LocTimerDelegate::expire`, which reads `mClient` unlocked, stops the timer and calls back, is one step.
- `timerfd_create` and the epoll and timerfd calls succeed. Messages are handled in the order sent.
- Seconds since boot are below 2^31. Timers are told apart by identity; an address is reused only after
  the object there was deleted, when nothing refers to it any more.
- Both functions of the perf-lock library are present. `malloc` may fail wherever it is called.
- The HAL delivers the status events of one camera one after another.
- C strings hold no NUL. `long` has 64 bits.
- The amplifier's CF_MEM port is one stream of bytes that goes on from one transfer to the next.

## Model

| member | source | states |
|---|---|---|
| `RankedTree.OkIsCheckNodes` | gps/utils/LocHeap.cpp:197-220 | checkNodes is true of a tree exactly if sizes and neighbouring ranks are in order at every node |
| `RankedTree.CheckNodesMeaning` | gps/utils/LocHeap.cpp:195-220 | checkNodes, comparing neighbours only, decides that every mSize is exact and every node outranked by nothing below it |
| `RankedTree.HeadRanksHighest` | gps/utils/LocHeap.cpp:237-243 | nothing stored outranks the head |
| `RankedTree.PushKeeps` | gps/utils/LocHeap.cpp:107-124 | push keeps checkNodes true, adds exactly the new pointer, and the new head is the higher-ranking of head and newcomer, the old one on a tie |
| `RankedTree.PushIsLogarithmic` | gps/utils/LocHeap.cpp:107-124 | c recursive push calls on n items satisfy 2^c <= n + 1, whatever the tree's shape |
| `RankedTree.PushAllIsBalanced` | gps/utils/LocHeap.cpp:101-124 | trees built by pushes alone have left minus right size in {0, 1} everywhere, so height h for n items has 2^(h-1) <= n |
| `RankedTree.PopKeeps` | gps/utils/LocHeap.cpp:134-164 | pop keeps checkNodes true and takes out exactly the head |
| `RankedTree.PopReplacesHead` | gps/utils/LocHeap.cpp:134-164 | the new head is the higher-ranking top below, the right one on a tie, and the other subtree is left alone |
| `RankedTree.DrainSorts` | gps/utils/LocHeap.cpp:245-254 | popping until empty yields a rank-sorted permutation of what was stored |
| `RankedTree.RemoveKeeps` | gps/utils/LocHeap.cpp:170-193 | although it skips subtrees the item outranks, remove finds the item exactly if it is stored, takes out one occurrence, keeps order and sizes, and leaves the head alone unless that is the item |
| `RankedTree.RemoveLooksLeftFirst` | gps/utils/LocHeap.cpp:170-193 | an item stored on both sides is taken from the left, and the right is left alone |
| `RankedTree.ApplyConserves` | gps/utils/LocHeap.cpp:228-267 | one push, pop or remove keeps order, and stored plus pushed is returned plus stored |
| `RankedTree.RunConserves` | gps/utils/LocHeap.cpp:228-267 | the same over any sequence of calls and any total preorder of ranks |
| `LocHeapInPlace.LocHeapNode.Swap` | gps/utils/LocHeap.cpp:88-92 | two nodes exchange their data and nothing else |
| `LocHeapInPlace.LocHeapNode.Push` | gps/utils/LocHeap.cpp:107-124 | pushing a node in place gives the tree RankedTree.Push does, unshared and acyclic, over the old nodes and the new one |
| `LocHeapInPlace.LocHeapNode.Pop` | gps/utils/LocHeap.cpp:134-164 | popping in place gives RankedTree.Pop and hands back a node with the old head's data that is no longer in the tree |
| `LocHeapInPlace.LocHeapNode.Remove` | gps/utils/LocHeap.cpp:170-193 | the recursive search in place gives RankedTree.Remove, and returns a detached node holding the item exactly if it was found |
| `LocHeapInPlace.LocHeapNode.CheckNodes` | gps/utils/LocHeap.cpp:197-220 | the recursion over the nodes computes RankedTree.CheckNodes |
| `LocHeapInPlace.LocHeap.Push` | gps/utils/LocHeap.cpp:228-235 | the heap's contents become those of one value-level push |
| `LocHeapInPlace.LocHeap.Peek` | gps/utils/LocHeap.cpp:237-243 | the head, or nothing |
| `LocHeapInPlace.LocHeap.Pop` | gps/utils/LocHeap.cpp:245-254 | contents and result are those of one value-level pop |
| `LocHeapInPlace.LocHeap.Remove` | gps/utils/LocHeap.cpp:256-267 | contents and result are those of one value-level remove |
| `LocHeapInPlace.LocHeap.CheckTree` | gps/utils/LocHeap.cpp:270-272 | true exactly if the contents are in good order |
| `TimerRank.RankIsTimeOrder` | gps/utils/LocTimer.cpp:503-517 | for normalised times less than 2^31 seconds apart, rank order is the order of total nanoseconds, and only equal times tie |
| `TimerRank.SoonerOutranksIff` | gps/utils/LocTimer.cpp:503-517 | of two times less than 2^32 seconds apart the sooner outranks the later if and only if they are less than 2^31 seconds apart |
| `TimerRank.FutureTimeIsExact` | gps/utils/LocTimer.cpp:551-558 | the time start() builds is normalised and exactly the asked milliseconds away |
| `TimerRank.RanksIsRanking` | gps/utils/LocTimer.cpp:503-517 | ranks() is a total preorder, which is what the heap asks for |
| `TimerWakeup.UpdateSoonestCovers` | gps/utils/LocTimer.cpp:281-306 | with no prior top, updateSoonestTime leaves its container covered: armed for the head, or a re-arm under way |
| `TimerWakeup.PushKeepsInv` | gps/utils/LocTimer.cpp:310-325 | handling a Push keeps the heaps in order and every head covered |
| `TimerWakeup.RemoveKeepsInv` | gps/utils/LocTimer.cpp:328-350 | so does handling a Remove, which re-arms only if the head went |
| `TimerWakeup.ExpireKeepsInv` | gps/utils/LocTimer.cpp:360-375 | so does handling an Expire |
| `TimerWakeup.PollKeepsInv` | gps/utils/LocTimer.cpp:377-381 | so does each step of the poll thread: wake, disarm, unpoll, send |
| `TimerWakeup.StepKeepsInv` | gps/utils/LocTimer.cpp:281-381 | every step of every thread keeps the invariant |
| `TimerWakeup.NoLostWakeup` | gps/utils/LocTimer.cpp:281-381 | in every reachable state a non-empty heap has its fd polled and armed for exactly the head's time, or an expiry is under way in the poll thread, queued, or in the message thread; and the disarm branch is never entered |
| `TimerLife.StepKeepsLife` | gps/utils/LocTimer.cpp:310-580 | every step keeps the lifecycle invariant: messages, heaps and records agree on each timer's own container, owner and stage |
| `TimerLife.TimerLifecycle` | gps/utils/LocTimer.cpp:310-350 | each delegate is pushed before it is removed, deleted at most once and exactly when its Remove is handled, after which no heap, message or expiry refers to it; a stopped or expired one has its Remove sent |
| `TimerLife.HeapHoldsLiveTimers` | gps/utils/LocTimer.cpp:310-350 | the heap holds only started, undeleted delegates, each once |
| `TimerLife.StopAndFireExclude` | gps/utils/LocTimer.cpp:485-580 | a delegate's client is set exactly while it is that client's mTimer; at most one stop() per start succeeds; the callback runs exactly if that one was the delegate's own expiry |
| `TimerLife.SharedLockCount` | gps/utils/LocSharedLock.h:42-57 | the lock's count is one for the living LocTimer plus one per undeleted delegate, and the lock is freed once, at zero |
| `TimerLife.DueTimerWakes` | gps/utils/LocTimer.cpp:446-470 | when the service is quiet and the soonest timer is due, epoll_wait can return its fd |
| `TimerSteps.StartAsks` | gps/utils/LocTimer.cpp:547-565 | a start with a timer running changes nothing; otherwise the client's timer is the new delegate, due exactly the asked milliseconds from now, and its Push goes to the container asked for |
| `TimerSteps.StartedForItsContainer` | gps/utils/LocTimer.cpp:475-565 | on every run after a start its messages, heap membership and expiry are those of the container that wakeOnExpire asked for, and of no other |
| `TimerSteps.StopAnswers` | gps/utils/LocTimer.cpp:567-580 | stop() returns true exactly if a timer runs; it is then the client's no more and its Remove is sent, otherwise nothing changes |
| `TimerSteps.DeleteStopsFirst` | gps/utils/LocTimer.cpp:539-545 | the destructor stops what runs, as stop() does |
| `TimerSteps.ExpireAnswers` | gps/utils/LocTimer.cpp:519-533 | in every reachable state an expiring timer calls back, once, exactly if nobody stopped it before, and otherwise changes nothing |
| `TimerSteps.RearmsIff` | gps/utils/LocTimer.cpp:281-350 | a Push re-arms exactly if the timer is the only one or sooner than all others, a Remove exactly if it takes the soonest of several |
| `TimerSteps.RearmSteps` | gps/utils/LocTimer.cpp:281-306 | the fd joins the epoll set, then is armed for the timer decided on |
| `TimerSteps.PollSteps` | gps/utils/LocTimer.cpp:377-381 | for an event the fd is disarmed, leaves the epoll set, and an Expire is sent, in that order, and nothing else changes |
| `TimerSteps.WakeHandlesEvents` | gps/utils/LocTimer.cpp:446-470 | epoll_wait returns only fds whose time has come, and every event it returns gets one Expire message, in order |
| `TimerContainer.PopDueSplits` | gps/utils/LocTimer.cpp:383-390 | popping while due fires due timers in time order, leaves only later ones, and loses none |
| `TimerContainer.BatchSplits` | gps/utils/LocTimer.cpp:360-375 | one Expire fires in non-decreasing time, all after the first are due, all left are strictly later than now, fired plus left is the old heap |
| `TimerContainer.FiresEarlyIff` | gps/utils/LocTimer.cpp:365-372 | some fired timer was not due if and only if the head was in the future |
| `TimerRuns.FiresEarly` | gps/utils/LocTimer.cpp:328-381 | for every delay, a run in which a timer is fired that whole delay too early |
| `TimerRuns.EmptyHeapStaysArmed` | gps/utils/LocTimer.cpp:281-346 | a run that ends with an empty heap whose fd is polled and armed |
| `TimerContainer.ExpireStartsBatch` | gps/utils/LocTimer.cpp:360-375 | handling Expire starts the batch of the heap and clock as they then are |
| `TimerContainer.ExpiryRunsItsBatch` | gps/utils/LocTimer.cpp:360-375 | whatever other threads do meanwhile, expire() is called on exactly that batch in order, and exactly the rest is left |
| `TimerContainer.LocTimerContainer.UpdateSoonestTime` | gps/utils/LocTimer.cpp:281-306 | what is armed and polled afterwards, for each branch |
| `TimerContainer.LocTimerContainer.ProcPush` | gps/utils/LocTimer.cpp:317-321 | the timer is added, order kept, the fd stays armed for the soonest, and is armed anew exactly if that is the new timer |
| `TimerContainer.LocTimerContainer.ProcRemove` | gps/utils/LocTimer.cpp:334-346 | one occurrence is taken out, order kept, the fd stays armed for the soonest, and is armed anew only if the soonest went |
| `TimerContainer.LocTimerContainer.ProcExpire` | gps/utils/LocTimer.cpp:360-375 | fired timers and new heap are the batch, and the fd is armed for the new soonest |
| `TimerContainer.LocTimerContainer.PopIfOutRanks` | gps/utils/LocTimer.cpp:383-390 | pops the head exactly if the given time does not outrank it |
| `ThreadHandoff.GivingUpKeepsCount` | gps/utils/LocThread.cpp:151-171 | whoever gives a reference up deletes exactly if it was the last |
| `ThreadHandoff.StepKeepsInv` | gps/utils/LocThread.cpp:65-224 | every step of owner and thread keeps the counting, creation, runnable and start invariants (the order of calls is in ThreadCalls) |
| `ThreadHandoff.NoUseAfterDelete` | gps/utils/LocThread.cpp:128-200 | in every interleaving delegate and runnable are deleted at most once and no step touches either afterwards |
| `ThreadHandoff.DeletedExactlyOnce` | gps/utils/LocThread.cpp:151-200 | once both sides are finished the delegate was deleted exactly once, and the runnable exactly if the thread took its copy before the owner nulled it |
| `ThreadHandoff.RefusedStartLeavesRunnableIff` | gps/utils/LocThread.cpp:109-121 | after a refused start the runnable is the caller's to delete if and only if no thread was created |
| `ThreadHandoff.EarlyFinishRefusesStart` | gps/utils/LocThread.cpp:109-121 | a run in which start() returns false and the library deleted the runnable |
| `ThreadHandoff.NoDeadlock` | gps/utils/LocThread.cpp:128-144 | until both sides are finished one of them can move |
| `ThreadCalls.CalledInOrder` | gps/utils/LocThread.cpp:173-200 | in every interleaving prerun comes first, no run() follows one that returned false, postrun follows such a run() at once, and the deletion is last |
| `ThreadCalls.CalledToTheEnd` | gps/utils/LocThread.cpp:173-200 | unless the owner nulls mRunnable a thread that has ended called prerun, run() while it returned true, one run() that returned false, postrun, and the deletion |
| `ThreadCalls.AtMostOneRunAfterNull` | gps/utils/LocThread.cpp:184 | once mRunnable is null at most one more run() is called, by a thread that had tested it already |
| `ThreadCalls.StopNullsAndJoins` | gps/utils/LocThread.cpp:128-144 | stop() nulls mRunnable before it joins; of a joinable thread the owner leaves only when it has exited, a detached one is never waited for |
| `ThreadCalls.ByeLeavesDetachedRunning` | gps/utils/LocThread.cpp:47-51 | a detached thread that is not stopped makes all its calls although its LocThread is gone |
| `VideoHint.VideoEncodeHint.Process` | power/power-8994.c:98-162 | a start or stop does to the globals what StartHint and StopHint say, only under the interactive governor, and reports whether it was handled |
| `VideoHint.VideoEncodeHint.Wake` | power/power-8994.c:73-94 | a waking thread does what WakeHint says |
| `VideoHint.WakePerformsIff` | power/power-8994.c:79-90 | a waking thread performs exactly if the latest start is still wanted and is its own or a multiple of 65536 starts later |
| `VideoHint.OnlyLatestPerforms` | power/power-8994.c:63-94 | with fewer than 65536 starts meanwhile, only the latest start's thread performs, only if no stop came, and the hint of its own start |
| `VideoHint.StartThenWakes` | power/power-8994.c:73-146 | of the threads that wake between a start and the next call exactly the first with that start's counter performs its hint, once, if the start got its thread; otherwise nothing is performed |
| `VideoHint.StopThenWakes` | power/power-8994.c:73-161 | a stop undoes the enabled hint, if any, and no thread performs until the next start |
| `VideoHint.EachUndoIsOfTheLastPerform` | power/power-8994.c:73-161 | on every run, overlapping starts included, each undo directly follows a perform of the same hint |
| `VideoHint.PerformsMinusUndos` | power/power-8994.c:63-162 | on every run performs minus undos is one for an enabled hint plus one for each hint performed over an enabled one |
| `VideoHint.SeparatedStartsNeverLeak` | power/power-8994.c:63-162 | if a stop separates every two starts that got their thread, performs minus undos is 1 while enabled and 0 otherwise, and each undo is of the hint performed, however the threads are scheduled |
| `VideoHint.UnseparatedStartsLeak` | power/power-8994.c:124-161 | every other sequence of calls has a schedule that leaks a hint |
| `VideoHint.LeakFreeIff` | power/power-8994.c:63-162 | a sequence of calls leaks under no schedule if and only if a stop separates every two starts that got their thread |
| `PerfLock.HintList.AddListNode` | power/list.c:47-67 | a new entry stands in front, or nothing changes when malloc fails |
| `PerfLock.HintList.FindNode` | power/list.c:126-145 | the newest node with that hint id, or null |
| `PerfLock.HintList.RemoveListNode` | power/list.c:77-108 | unlinks exactly that node and keeps the others in order; fails exactly if it is not in the list |
| `PerfLock.Hints.PerformHintAction` | power/utils.c:218-261 | the acquired handle stands in front, or is given back when an allocation fails, so that outstanding handles stay those in the list |
| `PerfLock.Hints.UndoHintAction` | power/utils.c:263-297 | releases the newest handle held for the id, leaves the others in order, and outstanding handles stay those in the list |
| `PerfLock.CallConservesHandles` | power/utils.c:218-297 | one call: held plus tracked is released plus held |
| `PerfLock.CallsConserveHandles` | power/utils.c:218-297 | any sequence of calls: no handle is lost or released twice |
| `PerfLock.UndoTakesBackIff` | power/utils.c:263-297 | an undo takes the perform before it back if and only if that was tracked or nothing else is held for the hint |
| `PerfLock.HeldAfterRun` | power/power-8994.c:79-157 | after a run with separated starts, whatever acquires and allocations fail in it, the list holds the enabled hint's lock if that was tracked, above what was there before less what undos after untracked performs released |
| `PerfLock.RunDisturbsIff` | power/power-8994.c:79-157 | such a run leaves the locks held before it alone if and only if none was held for a hint undone after an untracked perform |
| `CameraService.CameraState.UpdateStatus` | camera/libcameraservice/CameraService.cpp:4365-4406 | the status changes, and the callback is due, exactly if it is a different one, absence ends in Present or Enumerating, and the old one is not rejected |
| `CameraService.Service.UpdateStatus` | camera/libcameraservice/CameraService.cpp:4266-4340 | status, torch and what every eligible listener heard change together or not at all; the torch is off for a present camera, left alone for an enumerating one, else unavailable; other cameras are untouched |
| `CameraService.Service.NotifyListeners` | camera/libcameraservice/CameraService.cpp:4323-4338 | told once each: every listener for a public camera, none for a hidden one, those with the permission for a system one; a vendor's by the interface version alone |
| `CameraService.Service.OnTorchStatusChangedLocked` | camera/libcameraservice/CameraService.cpp:573-624 | a camera with a torch entry gets the new status whether or not anybody asked for its torch, its pending uid becomes current on a change, and notes change as TorchChanged says; other cameras are untouched |
| `CameraService.Service.SetTorchMode` | camera/libcameraservice/CameraService.cpp:2112-2123 | the caller becomes the pending uid, and the current one too if there was none |
| `CameraService.Service.AddStates` | camera/libcameraservice/CameraService.cpp:363-399 | a camera the provider knows is registered as absent, with its torch off |
| `CameraService.Service.RemoveStates` | camera/libcameraservice/CameraService.cpp:401-412 | the camera and its torch entry are forgotten |
| `CameraService.Service.OnDeviceStatusChanged` | camera/libcameraservice/CameraService.cpp:414-478 | the camera's status, its torch and the listeners' notes after a HAL event, in every case |
| `CameraService.BasicClient.StartCameraOps` | camera/libcameraservice/CameraService.cpp:3241-3275 | a registered camera that is not absent becomes unavailable, its torch with it, and every eligible listener is told; other cameras are untouched |
| `CameraService.BasicClient.FinishCameraOps` | camera/libcameraservice/CameraService.cpp:3349-3383 | it becomes present, with torch and listeners, only from a status a client can leave and only if ops were active; other cameras are untouched |
| `CameraService.TorchChangedAccounts` | camera/libcameraservice/CameraService.cpp:596-622 | a torch change keeps the notes exact: the current uid while the torch is on for somebody, otherwise none |
| `CameraService.LastRequesterPays` | camera/libcameraservice/CameraService.cpp:596-622 | when the torch comes on exactly the last requester is charged |
| `CameraService.NewEntryAccountedIff` | camera/libcameraservice/CameraService.cpp:390-406 | taking the torch entry away or adding it anew keeps the notes exact if and only if the torch is off or came on without being asked |
| `CameraRuns.UnpluggedStaysUnplugged` | camera/libcameraservice/CameraService.cpp:3264-3370 | after any run, an absent camera stays absent until the HAL thread updates it, whatever clients start, finish or complete late |
| `CameraRuns.CompleteChanges` | camera/libcameraservice/CameraService.cpp:4365-4406 | a call in flight changes the object it found, callbacks and torch with it, exactly if it was answered, the status is another, the old one is not rejected, and absence ends in presence or enumeration |
| `CameraRuns.OpensAlone` | camera/libcameraservice/CameraService.cpp:3241-3275 | opening makes the camera unavailable unless it is absent or unavailable |
| `CameraRuns.FinishesAlone` | camera/libcameraservice/CameraService.cpp:3349-3383 | finishing makes it present only from unavailable or unknown, and does nothing for a client that has not opened it |
| `CameraRuns.PlugsAlone` | camera/libcameraservice/CameraService.cpp:421-435 | a HAL event for an unregistered camera registers and announces it if it is Present, and is ignored otherwise |
| `CameraRuns.ChangesAlone` | camera/libcameraservice/CameraService.cpp:437-478 | another status of a registered camera is taken and announced, with its torch |
| `CameraRuns.DropsAlone` | camera/libcameraservice/CameraService.cpp:445-478 | a drop is announced if supportsCameraApi answers, and in any case the camera is forgotten, with its torch entry |
| `CameraRuns.EachObjectTellsItsChanges` | camera/libcameraservice/CameraService.cpp:4365-4406 | on every run the callbacks from a state object are exactly its changes of status, in order, from absence to what it is now |
| `CameraRuns.StepKeepsInformed` | camera/libcameraservice/CameraService.cpp:4266-4406 | every step keeps the listeners informed and unregistered objects absent, but the end of a drop that was not answered, which never does |
| `CameraRuns.ListenersKnowIff` | camera/libcameraservice/CameraService.cpp:414-478 | on every run what listeners heard is at every moment a sequence of real changes ending in the registered status if and only if supportsCameraApi answered each drop that was gone through with |
| `CameraRuns.DropToldIff` | camera/libcameraservice/CameraService.cpp:445-470 | after one drop, with any client steps in between, listeners know the status if and only if supportsCameraApi answered |
| `CameraRuns.UnannouncedDropRevives` | camera/libcameraservice/CameraService.cpp:4288-4296 | a run in which an unregistered camera is announced as present |
| `CameraRuns.TorchAccountedIff` | camera/libcameraservice/CameraService.cpp:573-624 | on every run exactly the current uid is noted on while the torch is on for somebody and none otherwise, at every moment, if and only if the torch's entry never comes or goes while the torch is on for somebody |
| `CameraRuns.UnannouncedDropLeaksTorch` | camera/libcameraservice/CameraService.cpp:401-478 | a run in which the torch is on during an unanswered drop and its user stays charged |
| `CameraSizes.StrtolStops` | camera/parameters/CameraParameters.cpp:343-351 | strtol never looks past a character that is no space, sign or digit |
| `CameraSizes.StrtolReads` | camera/parameters/CameraParameters.cpp:343-351 | of any text with white space, a sign and digits in front strtol reads what the digits denote, or the nearest 64-bit number, and consumes just them |
| `CameraSizes.StrtolReadsNothing` | camera/parameters/CameraParameters.cpp:343-351 | of any other text it reads zero and consumes nothing |
| `CameraSizes.DecimalIsPrinted` | camera/parameters/CameraParameters.cpp:391 | %d prints the digits that denote the number, without leading zeros, behind a minus sign if it is negative |
| `CameraSizes.StrtolReadsDecimal` | camera/parameters/CameraParameters.cpp:343-351 | strtol reads back what %d printed, for every 32-bit number |
| `CameraSizes.ParsePairReadsSize` | camera/parameters/CameraParameters.cpp:338-361 | parse_pair reads back what "%dx%d" printed, whatever follows |
| `CameraSizes.ParsePairIff` | camera/parameters/CameraParameters.cpp:338-361 | parse_pair answers exactly if the delimiter stands right behind the first number, with both numbers truncated to 32 bits |
| `CameraSizes.ParseSizesList` | camera/parameters/CameraParameters.cpp:363-386 | the loop terminates on any text and computes SizesOf |
| `CameraSizes.ParsesUpToMalformed` | camera/parameters/CameraParameters.cpp:363-386 | on any text that is the sizes of the comma-separated items before the first malformed one |
| `CameraSizes.ItemsJoin` | camera/parameters/CameraParameters.cpp:363-386 | those items are the text's, cut at every comma |
| `CameraSizes.SizesItemByItem` | camera/parameters/CameraParameters.cpp:363-386 | each size delivered is the pair that its whole item is, and the first item without one is no pair or has something behind it |
| `CameraSizes.SizesRoundTrip` | camera/parameters/CameraParameters.cpp:363-386 | parsing the text of any non-empty list of 32-bit sizes gives back the list |
| `CameraParameters.BeforeIff` | camera/parameters/CameraParameters.cpp:188-198 | keys are ordered as strcmp orders them: by the first character that differs, a prefix first |
| `CameraParameters.PutMembers` | camera/parameters/CameraParameters.cpp:188-198 | adding puts exactly the key's entry in, with a value or without, in place of the one there was |
| `CameraParameters.PutThenValueFor` | camera/parameters/CameraParameters.cpp:188-198 | the sorted vector behaves as a map |
| `CameraParameters.FlatWrites` | camera/parameters/CameraParameters.cpp:209-233 | an entry with a value is written as key, '=' and value, with a ';' behind it unless it is the vector's last; one without is left out |
| `CameraParameters.UnflatReads` | camera/parameters/CameraParameters.cpp:235-265 | a key without '=' and a value without ';', empty or not, are stored as they are, face detection as "off", every other key keeps its value, and reading goes on behind the ';' |
| `CameraParameters.UnflatReadsNothing` | camera/parameters/CameraParameters.cpp:235-265 | a text without '=' is not read |
| `CameraParameters.RoundTrip` | camera/parameters/CameraParameters.cpp:209-265 | unflatten(flatten(m)) is m without its empty-valued entries |
| `CameraParameters.GetSurvivesRoundTrip` | camera/parameters/CameraParameters.cpp:209-315 | get() answers the same for every key after flatten and unflatten |
| `CameraParameters.FlattenAgain` | camera/parameters/CameraParameters.cpp:209-233 | flattening the result gives the same text but for one ';' at its end, there exactly if the last entry has no value and another does |
| `CameraParameters.ReachableRoundTrip` | camera/parameters/CameraParameters.cpp:181-335 | both for every map set, unflatten and remove can build: the round trip, and the face-detection entries are "off" |
| `CameraParameters.Parameters.Flatten` | camera/parameters/CameraParameters.cpp:209-233 | the loop computes Flat |
| `CameraParameters.Parameters.Unflatten` | camera/parameters/CameraParameters.cpp:235-265 | the loop terminates on any text, clears the map first, computes Unflat and keeps keys sorted and forced values forced |
| `CameraParameters.Parameters.Set` | camera/parameters/CameraParameters.cpp:268-293 | nothing changes for null pointers or '=' or ';' in either string; otherwise the key gets the value, the two face-detection keys "off", and every other key keeps its own |
| `CameraParameters.Parameters.Get` | camera/parameters/CameraParameters.cpp:309-315 | the value, or null if there is none or it is empty |
| `CameraParameters.Parameters.Remove` | camera/parameters/CameraParameters.cpp:332-335 | exactly that key's entry goes |
| `CameraParameters.Parameters.SetPreviewSize` | camera/parameters/CameraParameters.cpp:388-393 | is never refused, for any two 32-bit numbers |
| `CameraParameters.Parameters.GetPreviewSize` | camera/parameters/CameraParameters.cpp:395-402 | the stored pair, -1 by -1 if there is none |
| `CameraParameters.Parameters.GetSupportedPreviewSizes` | camera/parameters/CameraParameters.cpp:412-416 | the list its text parses to, empty if unset |
| `CameraParameters.SetThenGetSize` | camera/parameters/CameraParameters.cpp:388-402 | setting then getting a size is the identity for every key but the two of face detection, and leaves other sizes alone |
| `CameraParameters.SetThenGetSizes` | camera/parameters/CameraParameters.cpp:363-416 | setting a list's text and getting the list is the identity |
| `GpsLinkedList.LinkedList.Add` | gps/utils/linked_list.c:110-155 | the item stands in front, or an error and no change; next and prev stay inverse, head and tail the ends |
| `GpsLinkedList.LinkedList.Remove` | gps/utils/linked_list.c:162-204 | hands back the oldest item and takes it out, or an error and no change on a null pointer or an empty list |
| `GpsLinkedList.LinkedList.Empty` | gps/utils/linked_list.c:211-223 | true exactly if the list holds nothing |
| `GpsLinkedList.LinkedList.Flush` | gps/utils/linked_list.c:230-260 | empties the list and frees every item that has a function for it, once, newest first |
| `GpsLinkedList.LinkedList.Search` | gps/utils/linked_list.c:267-327 | finds exactly the newest match; with rm_if_found takes out that one; nothing is freed if its data is wanted or it stays, otherwise exactly it is, if it has a function for that |
| `GpsLinkedList.LinkedList.Destroy` | gps/utils/linked_list.c:87-103 | as Flush |
| `GpsLinkedList.ItemsConserved` | gps/utils/linked_list.c:110-327 | over any run every item is handed back once, let go once or still stored once |
| `GpsLinkedList.ReceivedOrFreed` | gps/utils/linked_list.c:162-327 | of what an operation takes out of the list, what the caller receives is not freed and what is discarded is not handed back |
| `GpsLinkedList.NoReceivedItemFreed` | gps/utils/linked_list.c:162-327 | over any run the dealloc calls are exactly those for the items that were flushed or searched out without being copied out |
| `GpsLinkedList.FreedOnce` | gps/utils/linked_list.c:110-327 | over any run an item with a function to free it is handed back, freed or still stored once for each time it was added; one without is never freed |
| `GpsLinkedList.LeaveInOrder` | gps/utils/linked_list.c:110-327 | over any run, with flushes and removing searches, what remove hands back followed by what remains is what was there and was added, in that order, with some items struck out |
| `GpsLinkedList.FirstInFirstOutIff` | gps/utils/linked_list.c:110-327 | nothing is struck out if and only if no item is flushed or taken out by a search |
| `GpsLinkedList.FifoIsReverse` | gps/utils/linked_list.c:110-204 | arrival order is the list read from tail to head |
| `Tfa9887.PackThenUnpack` | amplifier/tfa9887.c:220-254 | every word but INT32_MIN comes back clamped to [-2^23, 2^23-1] |
| `Tfa9887.PackedBytes` | amplifier/tfa9887.c:238-254 | a word is stored high byte first, in 24-bit two's complement, clamped |
| `Tfa9887.UnpackedWord` | amplifier/tfa9887.c:220-236 | three bytes are read high byte first, and a set sign bit fills the upper byte of the 32 |
| `Tfa9887.UnpackThenPack` | amplifier/tfa9887.c:220-254 | every string of whole words survives unpack and pack |
| `Tfa9887.OrIsSum` | amplifier/tfa9887.c:229-252 | on 32-bit words or-ing the shifted bytes adds them, and the shifts and masks take them apart again |
| `Tfa9887.Data2Bytes` | amplifier/tfa9887.c:238-254 | fills the array's front with the words, three bytes each, and nothing else |
| `Tfa9887.Bytes2Data` | amplifier/tfa9887.c:220-236 | fills the array's front with the unpacked whole words and nothing else |
| `Tfa9887.CommandsDeliver` | amplifier/tfa9887.c:361-381 | written in chunks the bytes arrive in order, none lost, each transfer starts with the address and is no longer than the limit |
| `Tfa9887.CommandsAreFull` | amplifier/tfa9887.c:361-381 | every write transfer but the last is full, and the last is empty only if there is nothing to write |
| `Tfa9887.WordsCutIff` | amplifier/tfa9887.c:361-381 | a write of whole words is cut inside a word if and only if it takes more than one transfer |
| `Tfa9887.Room` | amplifier/tfa9887.c:322-361 | for alignments up to 254 a chunk is the largest multiple of the alignment up to 254, and holds an address and a byte |
| `Tfa9887.Amplifier.Write` | amplifier/tfa9887.c:355-385 | the loop terminates; on success exactly the transfers of Commands were made, on failure those before the one that failed, whose code is returned |
| `Tfa9887.Amplifier.Read` | amplifier/tfa9887.c:317-353 | on success the buffer holds the next len bytes of the port, read in exactly the transfers of Chunks, and nothing beyond changed; on failure those before it were made and its code is returned |
| `Tfa9887.ChunksAreWhole` | amplifier/tfa9887.c:339-349 | read transfers add up to the length, none is longer than the chunk, and none cuts a word |
| `Tfa9887.ChunksAreFull` | amplifier/tfa9887.c:339-349 | every read transfer but the last is a whole chunk, and the last is empty only if nothing is read |
| `Tfa9887.Amplifier.WordsSurviveTransfer` | amplifier/tfa9887.c:220-385 | words packed, written in chunks, read back in chunks and unpacked come back clamped |

## Left out

- LocTimerWrapper and the C timer API: they read fields of objects that may be deleted already.
- Failure of timerfd, epoll and thread system calls, the clock fallback, and effects of unordered memory.
- MsgTask and its message queue beyond first in, first out: the queue's source is not part of this model.
- LocThread's thread name and custom creator: they do not touch the hand-off.
- The object form of the timer service: LocTimerContainer's handlers are methods of a class, clients and
  threads are steps of a state machine, since their interleavings are the point.
- Power metadata parsing and the governor's name: a start's or stop's kind, id and governor test are parameters.
- The perf-lock functions missing, and the separate interaction handles.
- Camera service permissions, app ops, sounds, dumps, client eviction, physical cameras of a logical one,
  open and close callbacks, and the broadcast of torch statuses to listeners.
- addListener's first report to a new listener: CameraRuns follows a listener subscribed from the start.
- CameraService.BasicClient.StartCameraOps: what app ops decides is the parameter `allowed`.
- CameraParameters' QCOM_HARDWARE branch of set, integers, floats, formats and the other size keys, which
  repeat the ones modelled.
- KeyedVector's binary search: mMap is a sorted sequence with the meaning of its operations.
- Null list handles in gps/utils/linked_list.c: each function answers one with an error code.
- Tfa9887.PackThenUnpack: leaves INT32_MIN out, which data2bytes negates with undefined effect in C.
- The amplifier's registers, calibration, patches and equaliser, and alignments above 254, for which the
  chunk size is zero.
