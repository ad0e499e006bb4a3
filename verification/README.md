# LIBAPTH, modelled and proved in Dafny

LIBAPTH is an M:N userspace thread library: many threads run on a few worker threads, each with its own scheduler. This
project models the parts whose correctness is hardest to see from the code, and proves what the library promises of them.
`dafny verify dfyconfig.toml` checks everything.

| files | what they model |
|---|---|
| `Basics.dfy` | what the others share: removing an element from a list, options, the range of `unsigned int` |
| `IntrusiveList.dfy`, `ListSort.dfy` | the intrusive doubly linked list on the heap, with its in-place natural merge sort |
| `WaitQueue.dfy`, `Mutex.dfy`, `Cond.dfy`, `Rwlock.dfy`, `Counting.dfy` | the blocking primitives as step protocols: a guard-protected section is one atomic step, `apth_yield` lets any other thread step, and runs are arbitrary |
| `WaiterList.dfy`, `Primitives.dfy` | the same primitives in place, over the intrusive list of waiters, as objects whose methods take exactly the protocols' steps |
| `ThreadQueues.dfy`, `QueueTable.dfy` | the six queues of each scheduler and the transfers, steal, join, detach and exit that change them, in place |
| `Scheduler.dfy`, `SchedulerSafety.dfy`, `SchedulerSteps.dfy`, `SchedulerLives.dfy`, `SchedulerTheorems.dfy`, `SchedulerDetach.dfy`, `SchedulerAnswers.dfy`, `SchedulerDispatch.dfy`, `SchedulerLocks.dfy` | any number of workers that take queue locks and ownership locks one at a time: dispatch, stealing, exit, join, detach |
| `ScatterGather.dfy` | `writev` and `pwritev` over short kernel writes |
| `ThreadData.dfy` | thread-specific data |
| `ReactorBook.dfy`, `ReactorRun.dfy`, `ReactorThread.dfy` | the reactor's waiters, fd slots and events |
| `BatchedWake.dfy` | the event manager's scan and batched wake-up |
| `FdSets.dfy` | `fd_set` operations by words and by bits, and their decomposition into events |
| `StackPool.dfy`, `StackOwnership.dfy` | the stack pool, who owns which stack over whole runs, and the first frame on it |

How to read it. A protocol is a datatype for the state, a function for each section, a predicate `Legal` for what callers
owe, and theorems about every run of legal steps by any number of threads. History fields (who holds what, what was
granted, what was freed) are part of those states so that the theorems can speak about them; the code never reads them.
Where the code updates an object in place there is a class, and each method's postcondition equates the new state with
the specification function of the old one. Kernel answers, `malloc`, `mmap`, clocks, and whether a `trylock` finds the
guard taken are parameters, so results hold for every answer.

Where the code does not do what one would expect of it, the code is modelled as it is, and the exact condition is proved:

* A timed writer that times out does not wake the readers queued behind it (`src/core/apth_rwlock.c:292-298`), so a
  reader can be left waiting on a lock that nobody holds: `ReaderLeftBehind`, `StrandedExactlyWhen`.
* The semaphore's value and a recursive mutex's count wrap at 2^32: `Conservation` and `MutexProtocol.KeepsInvIffLegal`
  say exactly when that matters, and `UnitsLost` and `CountWraps` are runs that get there.
* `apth_key_delete` computes a key's next sequence number in an `unsigned int` (`src/core/apth_data.c:37-41`), so 2^32 - 1
  is followed by 0 and numbers are used again, although `src/internal/apth_data.h:25-32` means to retire a key before that.
  A thread then sees a value that it stored a multiple of 2^31 creations ago: `SeesRightIff`, `RecycledIff`, `FirstLap`,
  and `StaleValue`, which gets there by calls.
* A thread that is detached once its scheduler has looked at `joinid` to handle its exit stays in the terminated queue and
  is never freed, even if it has not reached that queue when it is detached: `DetachedTooLate`, `LeakingRun`. One that is
  detached before that is freed: `DetachedInTime`.
* A pooled stack keeps the guard it was first mapped with, so a thread can get a stack without the guard it asked for. It
  has its guard exactly if the call that mapped the region asked for the same one: `GuardedIff`, `GuardMissing`.
* `try_steal_work` means to vary where it starts (`src/internal/apth_sched.c:437`), but `switches` is never incremented, so
  it always starts at worker 0. `ReachesAllIff` is stated for every offset.
* A word-wise `fd_set` operation also touches the bits between `nfd` and the end of its last word: `MergeAgreesIff`,
  `TestAgreesIff`, `SelectAgreesIff`, and `WordFormsDiffer` for sets on which the two forms differ.
* A watch request whose waiter cannot be allocated is dropped without failing its event, which then stays pending until
  another request names it: `WatchHeardIff`, `ForgottenUntilWatched`, `DroppedWatch`. `waiter_pool_allocated` counts the
  failed `malloc` too; the invariant of `ReactorBook` counts such losses.
* A recursive owner that holds the mutex more than once goes to sleep in `apth_cond_wait` still owning it:
  `WaitReleasesIff`, `SleepsOwning`.

## Model

| member | source | states |
|---|---|---|
| IntrusiveList.List.Insert | src/utils/list.inline.h:228-237 | the list is again one well-formed chain, with the element just before the given one |
| IntrusiveList.List.Remove | src/utils/list.inline.h:330-336 | the chain closes over the element, and what followed it is returned |
| IntrusiveList.List.Splice | src/utils/list.inline.h:242-264 | the range moves before the given element and nothing else changes order |
| IntrusiveList.List.Reverse | src/utils/list.inline.h:391-402 | swapping every pair of links leaves a well-formed chain with the same elements in reverse |
| ListOrder.StableIsPermutation | src/utils/list.inline.h:471-508 | keeping every equivalence class in order implies keeping exactly the original elements |
| ListOrder.MoveIsStable | src/utils/list.inline.h:461-468 | moving an element back over elements it is strictly less than reorders no equivalent elements |
| ListSort.FindEndOfRun | src/utils/list.inline.h:424-440 | the run found is sorted and cannot be extended |
| ListSort.InplaceMerge | src/utils/list.inline.h:447-469 | two adjacent sorted ranges become one sorted range, stably, and nothing outside them moves |
| ListSort.Pass | src/utils/list.inline.h:490-504 | a pass at least halves the number of descents, and with one run left there are none |
| ListSort.Sort | src/utils/list.inline.h:474-508 | for every list and strict weak order: terminates, well-formed, sorted, stable, a permutation |
| ListSort.InsertOrdered | src/utils/list.inline.h:513-529 | the list stays sorted, and is what stably sorting it with the element appended would give |
| WaitQueue.EnqueueKeepsInv | src/core/apth_mutex.c:129-148 | a new waiter is queued and pending |
| WaitQueue.GrantKeepsInv | src/core/apth_mutex.c:316-324 | popping and marking the first waiter keeps "queued exactly while pending" and the order of grants |
| WaitQueue.FrontIsLongestWaiting | src/core/apth_mutex.c:316-318 | the waiter popped is the one that arrived first among those queued |
| WaitQueue.GrantAllWakesQueue | src/core/apth_cond.c:274-282 | emptying the list marks exactly the waiters that were in it, in order |
| WaitQueue.ResumeKeepsInv | src/core/apth_mutex.c:229-247 | a timed wait ends in a timeout exactly when its waiter is still queued, so only queued waiters are ever unlinked |
| WaiterList.Waiters.PushBack | src/core/apth_mutex.c:131-139 | the link surgery leaves a well-formed list that again stands for the queue, now with the fresh waiter at its end |
| WaiterList.Waiters.PopFront | src/core/apth_mutex.c:316-324 | the first waiter's element is unlinked and its status set, and no other waiter object changes |
| WaiterList.Waiters.PopAll | src/core/apth_cond.c:274-282 | the loop unlinks and marks every waiter |
| WaiterList.Waiters.Settle | src/core/apth_mutex.c:234-247 | under the guard, an unmarked timed waiter is in the list and list_remove unlinks it; a marked one is off the list and is not touched |
| MutexProtocol.KeepsInvIffLegal | src/core/apth_mutex.c:93-336 | a step keeps the invariant if and only if only the owner unlocks and a recursive count does not wrap |
| MutexProtocol.MutualExclusion | src/core/apth_mutex.c:93-336 | in every run at most one thread holds the mutex, it is the recorded owner, lock_count is its net acquisitions, and a free mutex has no waiters |
| MutexProtocol.HandOffInArrivalOrder | src/core/apth_mutex.c:281-336 | grants follow arrival order, and every wait is pending, granted or expired, never two of these |
| MutexProtocol.OkMeansOwner | src/core/apth_mutex.c:93-279 | a lock call that succeeds has made its caller the owner; a timeout has removed its waiter; other failures change nothing |
| MutexProtocol.LockAnswers | src/core/apth_mutex.c:93-227 | a lock succeeds at once exactly if the mutex is free or recursively the caller's, EDEADLK is exactly an ERRORCHECK mutex's owner, and everybody else joins the queue, able to time out exactly if the call was timed |
| MutexProtocol.TryLockAnswers | src/core/apth_mutex.c:250-279 | a trylock succeeds exactly if the guard was free and the mutex is the caller's to take; EBUSY changes nothing |
| MutexProtocol.UnlockAnswers | src/core/apth_mutex.c:281-336 | EPERM exactly for a stranger at an ERRORCHECK mutex; otherwise one acquisition less, and with none left the longest-waiting thread owns the mutex, or nobody |
| MutexProtocol.ResumeAnswers | src/core/apth_mutex.c:229-248 | a wait ends in success exactly if its waiter was granted, and then its caller owns the mutex; otherwise its waiter was timed and has expired |
| MutexProtocol.CountWraps | src/core/apth_mutex.c:113-120 | a legal run to the largest count, after which a lock makes the count 0 and one unlock frees a mutex that its owner still holds |
| CondProtocol.StepKeepsInv | src/core/apth_cond.c:100-286 | the invariant that couples waiters, condition variable and mutex is kept by every step of either |
| CondProtocol.WaitReturnsOwning | src/core/apth_cond.c:100-140 | wait and timedwait return only with the caller owning the mutex, as deeply as before, and their result says whether the waiter was popped or removed itself |
| CondProtocol.WaitReleasesIff | src/core/apth_cond.c:126-127 | a waiter lets go of the mutex exactly if it held it once |
| CondProtocol.SleepsOwning | src/core/apth_cond.c:114-132 | a run in which a recursive owner goes to sleep in a wait still owning the mutex |
| CondProtocol.StaysQueued | src/core/apth_cond.c:114-129 | a waiter leaves the queue only as the longest-queued at a signal, at a broadcast, or by its own timeout |
| CondProtocol.WakesExactly | src/core/apth_cond.c:237-286 | a signal wakes exactly the longest-queued waiter, a broadcast exactly all of them |
| CondProtocol.WaitStepsExact | src/core/apth_cond.c:100-234 | a wait joins the queue with a timer exactly if it was timed, and later leaves it with the result that tells whether it was popped, its waiter gone |
| RwlockProtocol.KeepsInvIffLegal | src/core/apth_rwlock.c:49-399 | a step keeps the invariant if and only if only holders unlock |
| RwlockProtocol.Exclusion | src/core/apth_rwlock.c:49-399 | in every run a writer excludes readers and writers, waiting_writers counts the writer queue, no fast path overtakes a queued writer, and without a writer timeout queued readers have a writer to wait for |
| RwlockProtocol.RdLockAnswers | src/core/apth_rwlock.c:49-184 | a read lock is taken at once exactly if no writer holds or waits, a try exactly if the guard was free too; then the caller is one more reader, and otherwise it is queued, or EBUSY changes nothing |
| RwlockProtocol.WrLockAnswers | src/core/apth_rwlock.c:186-326 | a write lock is taken at once exactly if nobody holds the lock, a try exactly if the guard was free too; then the caller is the writer, and otherwise it is queued, or EBUSY changes nothing |
| RwlockProtocol.ResumeAnswers | src/core/apth_rwlock.c:141-303 | a lock that waited returns success exactly if its waiter was granted, and then its caller holds the lock; ETIMEDOUT exactly if its waiter has expired, and then nobody's holding changes |
| RwlockProtocol.WriterUnlockExact | src/core/apth_rwlock.c:328-399 | a leaving writer gives the lock to the longest-waiting writer, or else to all waiting readers |
| RwlockProtocol.ReaderUnlockExact | src/core/apth_rwlock.c:328-399 | the last leaving reader gives the lock to the longest-waiting writer, any other is one reader less |
| RwlockProtocol.IdleUnlock | src/core/apth_rwlock.c:328-399 | unlocking a lock that nobody holds changes nothing |
| RwlockProtocol.StrandedExactlyWhen | src/core/apth_rwlock.c:284-300 | queued readers keep a writer to wait for at every step except the timeout of the last queued writer |
| RwlockProtocol.ReaderLeftBehind | src/core/apth_rwlock.c:292-298 | a run that leaves a reader waiting on a lock nobody holds |
| SemProtocol.Conservation | src/core/apth_sem.c:42-208 | over every run, the initial value plus the number of posts equals the value plus the waits that found a unit plus the waiters granted one, if and only if no post overflows; a positive value means no waiters |
| SemProtocol.WaitAnswers | src/core/apth_sem.c:42-177 | a wait takes a unit exactly if there is one and otherwise queues; a trywait takes one exactly if the guard was free too, and EAGAIN changes nothing |
| SemProtocol.PostExact | src/core/apth_sem.c:179-208 | a post releases the longest-waiting thread, or if there is none adds one unit, modulo 2^32 |
| SemProtocol.ResumeAnswers | src/core/apth_sem.c:136-154 | a wait that queued succeeds exactly if its waiter was granted |
| SemProtocol.UnitsLost | src/core/apth_sem.c:179-208 | a post at the largest value an initialisation can give leaves the value 0 |
| SemProtocol.RunKeepsInv | src/core/apth_sem.c:42-208 | the books balance over every run once the overflows are counted |
| BarrierProtocol.Generations | src/core/apth_barrier.c:48-104 | with arrivals counted from the run: they are generations times threshold plus count, count is the queue length and below the threshold, one serial return per generation, and a thread can leave exactly once its generation is full |
| BarrierProtocol.ArriveAnswers | src/core/apth_barrier.c:48-104 | over every run, the n-th call returns as the serial thread exactly if n is a multiple of the threshold, having marked all threshold - 1 waiters of its generation; every other call queues its caller, who cannot leave yet |
| BarrierProtocol.OpeningKeepsInv | src/core/apth_barrier.c:60-80 | the last arrival releases everybody of its generation and starts the next |
| Primitives.Mutex.Lock | src/core/apth_mutex.c:93-227 | takes exactly the protocol's lock step, returning the waiter it enqueued if it must wait |
| Primitives.Mutex.TryLock | src/core/apth_mutex.c:250-279 | takes exactly the protocol's trylock step |
| Primitives.Mutex.Unlock | src/core/apth_mutex.c:281-336 | takes exactly the protocol's unlock step, hand-off included |
| Primitives.Mutex.Resume | src/core/apth_mutex.c:229-248 | takes exactly the protocol's step after the yield |
| Primitives.Cond.Signal | src/core/apth_cond.c:237-262 | grants the front waiter, if any |
| Primitives.Cond.Broadcast | src/core/apth_cond.c:264-286 | the loop grants every queued waiter |
| Primitives.Cond.WaitWake | src/core/apth_cond.c:209-229 | reports a timeout exactly when the waiter was still queued, and unlinks it |
| Primitives.Rwlock.RdLock | src/core/apth_rwlock.c:49-139 | takes exactly the protocol's read-lock step |
| Primitives.Rwlock.TryRdLock | src/core/apth_rwlock.c:163-184 | takes exactly the protocol's step: refused while a writer holds or waits |
| Primitives.Rwlock.WrLock | src/core/apth_rwlock.c:186-278 | takes exactly the protocol's write-lock step |
| Primitives.Rwlock.TryWrLock | src/core/apth_rwlock.c:305-326 | takes exactly the protocol's step: refused while anybody holds |
| Primitives.Rwlock.Unlock | src/core/apth_rwlock.c:328-399 | takes exactly the protocol's unlock step, the loop that wakes all readers included |
| Primitives.Rwlock.ResumeReader | src/core/apth_rwlock.c:141-161 | settles a read lock's wait as the protocol does |
| Primitives.Rwlock.ResumeWriter | src/core/apth_rwlock.c:280-303 | settles a write lock's wait as the protocol does; a timeout wakes nobody |
| Primitives.Semaphore.Wait | src/core/apth_sem.c:42-134 | takes exactly the protocol's wait step |
| Primitives.Semaphore.TryWait | src/core/apth_sem.c:156-177 | takes exactly the protocol's trywait step |
| Primitives.Semaphore.Post | src/core/apth_sem.c:179-208 | takes exactly the protocol's post step |
| Primitives.Semaphore.Resume | src/core/apth_sem.c:136-154 | takes exactly the protocol's step after the yield |
| Primitives.Barrier.Arrive | src/core/apth_barrier.c:48-97 | takes exactly the protocol's arrival step, the wake-up loop included |
| ThreadQueues.TransferKeeps | src/internal/apth_thqueue.c:181-280 | a transfer keeps every thread in exactly one queue that its TCB names, and every size a length |
| QueueTable.Table.PushTo | src/internal/apth_thqueue.c:22-34 | a thread that was in no queue is now in exactly this one, at its back |
| QueueTable.Table.RemoveFrom | src/internal/apth_thqueue.c:64-81 | the thread leaves its queue, is named in no other, and sizes stay lengths |
| QueueTable.Table.Transfer | src/internal/apth_thqueue.c:181-280 | moves the thread to the back or front of the other queue and keeps the partition |
| QueueTable.Table.TransferOne | src/internal/apth_thqueue.c:110-179 | moves the front thread, or nothing if there is none, and keeps the partition |
| QueueTable.Table.PopBack | src/internal/apth_sched.c:463-491 | takes exactly the machine's pop step: the back thread of a queue with at least two, so the victim is never emptied |
| QueueTable.Table.Deliver | src/internal/apth_sched.c:493-518 | takes exactly the machine's second and third steal steps: the thread becomes the thief's and is at the front of its ready queue, and every thread is in one place again |
| QueueTable.Table.Steal | src/internal/apth_sched.c:457-522 | both in a row: exactly the victim's back thread moves, and nothing happens if the victim has fewer than two |
| QueueTable.Table.TrySteal | src/internal/apth_sched.c:431-529 | steals from the first worker in the order of the scan that has two ready threads, and fails exactly when none has |
| QueueTable.Table.Claim | src/core/apth_join.c:34-50 | succeeds exactly on another thread whose joinid is NULL, that does not join the caller, if the compare-and-swap does not fail spuriously, whatever state that thread is in; EDEADLK exactly for oneself or one's own joiner unless detached; takes exactly the machine's claim step |
| QueueTable.Table.Reap | src/core/apth_join.c:71-106 | the target leaves its terminated queue and is freed, and its exit value returned, exactly if it is there |
| QueueTable.Table.Detach | src/core/apth_detach.c:14-30 | succeeds exactly on a thread with no joinid, which then is its own; otherwise nothing changes; takes exactly the machine's detach step |
| QueueTable.Table.HandOver | src/internal/apth_sched.c:708-769 | after EXIT a detached thread is freed and any other is in the terminated queue, with state and queue changed together |
| QueueTable.ReachesAllIff | src/internal/apth_sched.c:437-446 | the scan looks at every worker exactly when its sums do not wrap or the number of workers divides 2^32 |
| SchedulerSteps.StealTried | src/internal/apth_sched.c:463-498 | a steal never empties its victim's ready queue |
| SchedulerSteps.JoinerFindsTarget | src/core/apth_join.c:71-86 | a joiner that saw its target terminated finds it in the terminated queue it looks in |
| SchedulerSteps.Retired | src/internal/apth_sched.c:708-799 | the retire switch never reaches a PANIC arm (`YieldGoesTo` and `ExitGoesTo` say where it sends threads) |
| SchedulerTheorems.StepKeepsInv | src/internal/apth_sched.c:591-799 | every step of every worker keeps partition, dispatch discipline, lock exclusion and the books |
| SchedulerTheorems.NoDeadlock | src/internal/apth_thqueue.c:119-134 | in no reachable state do workers wait for each other's locks in a circle |
| SchedulerTheorems.WaitingClimbs | src/internal/apth_thqueue.c:189-204 | whoever waits for a lock is ranked below the worker that holds it |
| SchedulerTheorems.SomebodyCanMove | src/internal/apth_sched.c:463-518 | in every reachable state some worker is not waiting for a lock that is held |
| SchedulerTheorems.ThreadPartition | src/internal/apth_thqueue.c:22-280 | in every reachable state a live thread is in exactly one queue, named by its TCB with its scheduler, or in flight at exactly one worker; sizes are lengths |
| SchedulerTheorems.Dispatch | src/internal/apth_sched.c:591-799 | at every point of every run the running queue holds exactly the worker's current thread, so it is empty at the loop head; no PANIC; an exited thread never runs again |
| SchedulerTheorems.ExitsStay | src/internal/apth_sched.c:708-769 | what a thread exited with is never overwritten |
| SchedulerTheorems.JoinDetachExit | src/core/apth_join.c:34-106 | joinid is written at most once, each TCB freed at most once, join and detach never both succeed, and a join delivers the exit value |
| SchedulerAnswers.YieldGoesTo | src/internal/apth_sched.c:770-799 | in every run, four steps of its worker after a running thread has yielded, whatever others do meanwhile, it is at the back of the ready queue in state READY, or of the waiting queue in state WAITING if it asked to wait |
| SchedulerAnswers.OnlyWaitersWait | src/internal/apth_sched.c:787-789 | in every run, a thread in a waiting queue last gave up its worker by asking to wait |
| SchedulerAnswers.ExitReached | src/internal/apth_sched.c:708-721 | in every run, an exited thread keeps its value and waits until its worker looks at it |
| SchedulerAnswers.ExitGoesTo | src/internal/apth_sched.c:708-769 | then, whatever others do meanwhile, a detached thread is freed, and any other is at the back of the terminated queue with the value it exited with |
| SchedulerAnswers.CreateGoesTo | src/core/apth_create.c:138-185 | in every run, a created thread is at the back of its scheduler's new queue one step later, whatever others do meanwhile, joinable or detached as asked |
| SchedulerAnswers.ClaimExact | src/core/apth_join.c:34-50 | a claim succeeds exactly by the values it finds in the two joinids, whatever its target's state, and otherwise changes nothing |
| SchedulerAnswers.DetachExact | src/core/apth_detach.c:14-30 | a detach succeeds exactly on a thread with no joinid, and otherwise changes nothing |
| SchedulerAnswers.JoinDelivers | src/core/apth_join.c:52-106 | in every run, a joiner whose target has terminated can go on, and three steps later, whatever others do meanwhile, it has the value its target exited with, and the target is freed |
| SchedulerAnswers.StealTakes | src/internal/apth_sched.c:463-491 | the thief takes the back thread of a queue that keeps at least one, and no other queue changes |
| SchedulerAnswers.StealGives | src/internal/apth_sched.c:492-518 | the thread becomes the thief's, then goes to the front of its ready queue, and nothing else changes |
| SchedulerDispatch.FirstGoesTo | src/internal/apth_sched.c:607-643 | in every run, a scheduler at its loop head can make its first new thread ready at the back, its first woken one at the front, and run its first ready one: the thread that was first gets there, whatever others create or steal meanwhile |
| SchedulerDispatch.WaiterGoesTo | src/internal/apth_event.c:849-854 | in every run, a scheduler can make a waiting thread ready at either end, exactly if it is not joining a thread that has yet to terminate |
| SchedulerLocks.LocksProtect | src/internal/apth_thqueue.c:119-134 | in every run, no other worker changes a queue between its locking and unlocking, or moves a thread whose ownership lock is held to another scheduler |
| SchedulerDetach.DetachedTooLate | src/internal/apth_sched.c:715-756 | a thread detached once its exit is handled as a joinable thread's, or has been, is never freed in any continuation |
| SchedulerDetach.DetachedInTime | src/internal/apth_sched.c:715-721 | a thread detached before that is freed, in every continuation in which its exit has been handled |
| SchedulerDetach.LeakingRun | src/core/apth_detach.c:14-30 | a run of two workers that detaches a thread too late, before it has terminated |
| ScatterGather.IovBytes | src/hook_libc/hook_lowlevel_io/scatter_gather_io.c:49-59 | the count of the bytes that the array denotes |
| ScatterGather.IovAdvance | src/hook_libc/hook_lowlevel_io/scatter_gather_io.c:62-108 | the remaining iovec denotes exactly the unwritten suffix; the caller's array is only read and the scratch array not overrun |
| ScatterGather.FlatWriteStopsWhen | src/hook_libc/hook_lowlevel_io/scatter_gather_io.c:151-183 | the reference loop returns short only after an error or when the kernel takes nothing |
| ScatterGather.FlatWriteIs | src/hook_libc/hook_lowlevel_io/scatter_gather_io.c:151-183 | for every sequence of replies: the sum of what the kernel took up to the first reply that ends the write, or -1 if that is an error and nothing was taken |
| ScatterGather.Writev | src/hook_libc/hook_lowlevel_io/scatter_gather_io.c:110-183 | for every array and every sequence of kernel replies: the result of writing one flat buffer, and the file receives exactly the accepted prefix at matching offsets |
| ThreadData.KeyTable.KeyCreate | src/core/apth_data.c:12-32 | the first vacant key; threads see nothing under it exactly if none holds a value tagged with its new number |
| ThreadData.KeyTable.KeyDelete | src/core/apth_data.c:34-48 | succeeds exactly on a key in use, moves its number on modulo 2^32, and puts every thread's value out of sight |
| ThreadData.KeyTable.GetSpecific | src/core/apth_data.c:50-85 | the last value this thread set since the key's latest creation, else NULL, exactly if the value it holds is not stale; a stale value is returned |
| ThreadData.KeyTable.SetSpecific | src/core/apth_data.c:87-144 | this thread sees the value from now on, rightly, and no other thread notices; the error cases exactly |
| ThreadData.KeyTable.DestroyKey | src/internal/apth_data.c:29-70 | a destructor runs exactly on a visible value of a key that has one, after the value was cleared |
| ThreadData.KeyTable.DestroyPass | src/internal/apth_data.c:25-75 | one pass runs destructors in key order, and leaves nothing to destroy unless a destructor stored something |
| ThreadData.KeyTable.DestroyData | src/internal/apth_data.c:15-89 | at most four passes, values cleared first, blocks freed, other threads untouched; unless each of four passes made a call, no value of a key with a destructor is left; without stores by destructors each visible value is destroyed exactly once, which without stale values are those the thread should see |
| ThreadData.DoomedExact | src/internal/apth_data.c:25-75 | if destructors store nothing, the calls of a pass are one for each visible value of a key with a destructor, in the order of the keys |
| ThreadData.StoreShows | src/core/apth_data.c:139-141 | a stored entry is seen at once, and is remembered with the life of its key |
| ThreadData.SeesRightIff | src/core/apth_data.c:77-84 | in every reachable table a thread sees what it should under a key exactly if it holds no value from a life of the key a multiple of 2^31 creations ago |
| ThreadData.FirstLap | src/core/apth_data.c:37-41 | until a key has been created 2^31 times no value under it is stale |
| ThreadData.RecycledIff | src/core/apth_data.c:37-41 | in that time a delete and the next create make a value stale exactly if the number deleted is 2^32 - 1 and the value is tagged with the number used again |
| ThreadData.StaleValue | src/core/apth_data.c:12-48 | calls from the empty table after which a thread sees a value it should not |
| ReactorBook.EveryWaiterHasOnePlace | src/internal/apth_reactor.c:23-45 | a pool waiter is in the free list or in exactly one slot |
| ReactorBook.AttachKeepsInvIff | src/internal/apth_reactor.c:121-131 | a watch keeps the book in order exactly when its event names that fd, is pending and not watched yet |
| ReactorBook.DetachKeepsInvIff | src/internal/apth_reactor.c:155-171 | an unwatch keeps the book in order exactly when it names the fd that its event waits for |
| ReactorRun.CompletionExact | src/internal/apth_reactor.c:279-319 | a completion resolves exactly the watched events of its fd whose goal matches, and changes no other |
| ReactorRun.CloseExact | src/internal/apth_reactor.c:173-222 | closing an fd fails exactly the events watched on it, and leaves it unregistered without waiters |
| ReactorBook.MatchesIff | src/internal/apth_reactor.c:293-302 | a report matches a goal exactly if it offers something that the goal asks for, or is an error or a hang-up |
| ReactorRun.UnwatchExact | src/internal/apth_reactor.c:155-171 | an unwatch of a watched event leaves it pending with no waiter, its waiter is in no slot and back in the pool it came from, and every other event is as it was |
| ReactorRun.WithdrawnForGood | src/internal/apth_reactor.c:155-171 | in no run that does not watch it again is a withdrawn event resolved |
| ReactorRun.WatchExact | src/internal/apth_reactor.c:110-153 | a watch that gets a waiter links it last in its fd's slot, which is registered; if epoll_ctl fails the event is FAILED and nobody waits for it |
| ReactorRun.StepKeepsInv | src/internal/apth_reactor.c:110-321 | every well-formed step keeps waiters, counts, back-pointers and registrations consistent |
| ReactorRun.ResolvedAtMostOnce | src/internal/apth_reactor.c:110-321 | over any run each event is resolved at most once, and exactly once if it is no longer pending |
| ReactorRun.WatchHeardIff | src/internal/apth_reactor.c:123-125 | a watch leads to a watched or failed event exactly if the pool has a waiter or malloc returns one |
| ReactorRun.ForgottenUntilWatched | src/internal/apth_reactor.c:110-321 | in any run an event whose watch was dropped stays pending and unwatched until a watch names it again |
| ReactorRun.DroppedWatch | src/internal/apth_reactor.c:123-125 | a run that uses up the pool and drops a watch |
| ReactorThread.Reactor.ProcessWatch | src/internal/apth_reactor.c:110-153 | takes exactly the watch step, the roll-back after a failed epoll_ctl included |
| ReactorThread.Reactor.ProcessUnwatch | src/internal/apth_reactor.c:155-171 | takes exactly the unwatch step |
| ReactorThread.Reactor.ProcessFdClose | src/internal/apth_reactor.c:173-222 | the loop and both exits take exactly the close step |
| ReactorThread.Reactor.ProcessCompletion | src/internal/apth_reactor.c:279-319 | the loop that unlinks while it walks takes exactly the completion step |
| ReactorThread.Reactor.ProcessEpollEvents | src/internal/apth_reactor.c:265-321 | every report but the wake-up descriptor's is processed, in order, keeping the invariant |
| ReactorThread.Reactor.DrainRequests | src/internal/apth_reactor.c:228-259 | well-formed requests are processed in order, keeping the invariant |
| BatchedWake.ScanFinds | src/internal/apth_event.c:697-819 | a scan finds a thread due exactly when it was already or one of its pending events fires, although events of one thread compete for its signals |
| BatchedWake.FiresIff | src/internal/apth_event.c:719-818 | what makes each kind of event fire |
| BatchedWake.DeadlineIs | src/internal/apth_event.c:767-814 | a timer's deadline is the last moment at which it does not fire, a function's is its period from now, and nothing else has one |
| BatchedWake.CheckedIs | src/internal/apth_event.c:712-818 | a check settles exactly the pending events that fire, as FAILED exactly for an fd, and leaves a pending fd registered |
| BatchedWake.SignalTaken | src/internal/apth_event.c:745-765 | an event that fires for signals takes the lowest one it awaits, and no other |
| BatchedWake.EventManager.ScanThread | src/internal/apth_event.c:699-819 | checks a thread's events in place, says whether it is due, and keeps the earliest deadline |
| BatchedWake.EventManager.FirstScan | src/internal/apth_event.c:695-830 | the batch is the first 512 due threads in waiting order, and the timer the earliest deadline of all |
| BatchedWake.EventManager.Rescan | src/internal/apth_event.c:857-881 | the next 512 due threads in waiting order |
| BatchedWake.EventManager.MoveBatch | src/internal/apth_event.c:836-855 | exactly the batch moves, default-class threads to the back in order and IO_BOUND ones to the front |
| BatchedWake.EventManager.Wake | src/internal/apth_event.c:692-891 | terminates for any queue length, moves exactly the due threads, keeps the others and the default-class order |
| BatchedWake.UnwatchedIs | src/internal/apth_event.c:841-848 | a woken thread gives back its fd registrations and keeps everything else |
| BatchedWake.WokenIs | src/internal/apth_event.c:836-855 | the ready queue then holds what it held and the woken threads: default-class ones behind, in the order they waited, IO_BOUND ones in front, the latest first |
| BatchedWake.DueInOrder | src/internal/apth_event.c:821-827 | the due threads and the others each keep the order in which they waited |
| BatchedWake.DueAndNot | src/internal/apth_event.c:821-827 | every waiting thread is one of the due or one of the others, and nobody is lost or doubled |
| FdSets.MergeWords | src/internal/apth_fd.c:272-282 | adds the input's members below the last word's end |
| FdSets.MergeBits | src/internal/apth_fd.c:284-292 | adds the input's members below nfd |
| FdSets.MergeAgreesIff | src/internal/apth_fd.c:267-294 | both merges agree exactly when the word form adds no member at or above nfd |
| FdSets.TestWords | src/internal/apth_fd.c:301-312 | whether the sets share a member below the last word's end |
| FdSets.TestBits | src/internal/apth_fd.c:314-323 | whether the sets share a member below nfd |
| FdSets.TestAgreesIff | src/internal/apth_fd.c:296-325 | both tests agree exactly when they share a member below nfd or none beyond it |
| FdSets.SelectWords | src/internal/apth_fd.c:334-359 | keeps the common members below the last word's end and counts what it keeps |
| FdSets.SelectBits | src/internal/apth_fd.c:361-384 | keeps the common members below nfd and counts what it keeps |
| FdSets.FdsMerge | src/internal/apth_fd.c:267-294 | each pair that is present is merged, and no pair touches another |
| FdSets.FdsTest | src/internal/apth_fd.c:296-325 | whether any pair that is present shares a member |
| FdSets.FdsSelect | src/internal/apth_fd.c:327-388 | each pair that is present keeps its common members, and the result is the sum of what they keep |
| FdSets.SelectAgreesIff | src/internal/apth_fd.c:327-388 | both leave the same set and count exactly when the input has no member at or above nfd in its last word |
| FdSets.WordFormsDiffer | src/internal/apth_fd.c:267-388 | sets and an nfd on which the word and bit forms of merge, test and select differ |
| FdSets.CountFds | src/hook_libc/hook_lowlevel_io/select_poll.c:18-44 | the number of events up to the last word's end, never fewer than decomposition makes |
| FdSets.DecomposeEvents | src/hook_libc/hook_lowlevel_io/select_poll.c:48-71 | the first events in fd order, as many as fit, never beyond the array |
| FdSets.EventsExact | src/hook_libc/hook_lowlevel_io/select_poll.c:52-69 | one event for each member below nfd of each set, and none twice |
| FdSets.SelectEvents | src/hook_libc/hook_lowlevel_io/select_poll.c:369-381 | the decomposition that select uses is never truncated |
| StackPool.Pool.FindBest | src/internal/apth_tcb.c:25-38 | the first of the smallest sufficient entries, early exit included |
| StackPool.Pool.Get | src/internal/apth_tcb.c:20-54 | that entry is handed out, the last one takes its place, and the rest stay |
| StackPool.Pool.Put | src/internal/apth_tcb.c:60-80 | cached unless 64 entries are there already |
| StackOwnership.StepKeepsInv | src/internal/apth_tcb.c:82-221 | every allocation and free keeps regions disjoint, owned once and recorded with their size |
| StackOwnership.Stacks.TcbAlloc | src/internal/apth_tcb.c:82-178 | takes exactly the allocation step (minimum size, page rounding, pool before mmap) and succeeds exactly if the thread then has a stack |
| StackOwnership.Stacks.TcbFree | src/internal/apth_tcb.c:200-221 | takes exactly the free step: back to the pool unless it is full or there is no scheduler |
| StackOwnership.OneOwner | src/internal/apth_tcb.c:115-221 | after any run every mapped region belongs to exactly one live thread or one pool entry, which records its size |
| StackOwnership.HitIsSmallest | src/internal/apth_tcb.c:130-144 | a pool hit is the smallest sufficient region of that pool, and its whole size goes on record |
| StackOwnership.AllocExact | src/internal/apth_tcb.c:82-178 | a thread gets a stack exactly if it asks for a nonempty one and the pool or mmap has a region; it is at least as large as asked and as the minimum, its guard is the one asked for rounded up to whole pages, and mmap is used only if the pool has nothing sufficient |
| StackOwnership.FreeExact | src/internal/apth_tcb.c:200-221 | a freed thread's whole region goes to the back of the freeing scheduler's pool, or is unmapped if there is no scheduler or the pool is full, and nothing else changes |
| StackOwnership.GuardedIff | src/internal/apth_tcb.c:115-175 | in every run a live thread has the guard it asked for exactly if the call that mapped its region asked for the same guard and protected it |
| StackOwnership.OneGuardSize | src/internal/apth_tcb.c:115-175 | if all calls ask for one guard size and mprotect never fails, every live thread has its guard |
| StackOwnership.GuardMissing | src/internal/apth_tcb.c:135-144 | a run that ends with a thread whose guard is not protected |
| StackOwnership.FrameInside | src/core/apth_create.c:171-173 | in every run a thread's first frame lies in its own region, clear of its guard, of protected memory and of every other thread's stack |
| StackOwnership.Memory.CtxSet | src/internal/apth_ctx.c:78-113 | the first switch enters the function with rsp congruent to 8 modulo 16 and abort to return to; only the frame is written |

## Left out

- Cancellation, cleanup handlers and signal delivery in the protocols: a cancellation request readies a thread whatever its event says, and handlers run user code. `BatchedWake` does model that a request makes a thread due.
- Argument checks against NULL, attribute getters and setters, destroy functions and debug output: they would only add easy members.
- Clocks, timer expiry and epoll_wait: a timed waiter may wake at any time after it has queued.
- The C memory model: guard and queue-lock sections are atomic, and a waiter's frame stays live while it is queued. `lll` locks, `apth_sched_wake` and the guards themselves are not modelled.
- RwlockProtocol.Exclusion: readers and waiting_writers are unbounded integers, so the overflow of an int is not modelled.
- ScatterGather.Writev: sums of lengths are unbounded integers, so the overflow of ssize_t is not modelled; nor are a bad descriptor, a failed malloc of the scratch array, and what the calling thread does while it waits for the descriptor.
- FdSets.FdsMerge: the three pairs are handled one after another, where the source handles them in one loop; sets of different pairs must not be the same array. A word is a sequence of 64 bits.
- ThreadData.KeyTable.DestroyData: destructors may set keys of their own thread but not create or delete keys. A key created or deleted by another thread in the middle of an operation is not modelled.
- ThreadData.KeyTable.KeyCreate: calls do not overlap, so the retry after a failed compare-and-swap is not modelled.
- IntrusiveList.List.Splice: within one list; splicing between lists, list_append, list_unique, list_max and list_min are left out.
- QueueTable.Table.Steal: the three sections of a steal in a row; their interleaving with other workers is what the scheduler machine models. Victims that are closing and advised_next_th, which is never set, are left out.
- SchedulerTheorems.StepKeepsInv: dispatch, exit, join and detach are steps on values between two lock acquisitions, because what matters is how they interleave; `QueueTable` has the same operations in place, each in one piece.
- SchedulerTheorems.Dispatch: a scheduler's loop may take its transfers in any order and any number of times, which includes the source's order. The scan under the waiting queue's lock, thread counters, visit_thqueue, worker start-up and shutdown are left out.
- BatchedWake.EventManager.Wake: nobody else changes an event between the scans. Deferred SELECT events and the polling phase are left out, as is what a wake-up does to a thread that another scheduler is stealing.
- ReactorThread.Reactor.DrainRequests: requests that are well formed, one after another, with a fixed number of slots; the growth of the slot table, the request buffer and its races with schedulers are left out.
- StackOwnership.Stacks.TcbAlloc: pools are sequences here; `StackPool` has the array. A failed malloc of the TCB, its zeroing and its other fields are left out.
- StackOwnership.OneOwner: loaned stacks, which the library does not own, and the overflow of size_t are left out; a region's size is what was asked of mmap.
- io_uring, RDMA, NUMA, preemption timers, fork, socket and open or close hooks, preadv and readv.
