# Genie Bluetooth Mesh SDK: a verified model

A Dafny model of the parts of the Genie Bluetooth Mesh SDK 1.3.4 where a small slip goes unnoticed
for long, with proofs about them. `dafny verify dfyconfig.toml` checks the whole project. Nothing here
runs the original program.

## What is modelled

* **The Rhino kernel's priority inheritance** (`Lists`, `RunQueue`, `KernelState`, `MutexChains`, `Inheritance`,
  `KernelSteps`, `TickList`, `Kernel`, `KernelRuns`, `KernelWitness`). One global state: tasks, mutexes and other
  objects tasks can block on, ready lists with their bitmap, sorted wait lists, the tick list. Each
  critical section is one method of class `Kernel`, for the single-core configuration of the board; a
  call that blocks ends with the caller pended, and the reason it wakes up for is recorded. The
  invariant says, among other things, that every live task runs at the least of its base priority and
  the priorities of all tasks waiting for mutexes it owns. `KernelRuns.Run` carries it through any
  sequence of calls and ticks and records the run, so that `KernelRuns.LeavesOnTime` can say on which
  tick each timeout ends.
* **The heap** (`HeapLayout`, `FreeLists`, `HeapMoves`, `HeapRegions`, `Heap`, `HeapRuns`) with
  boundary tags, size-class free lists and a bitmap, and **the fixed-block pool** (`BlockPool`).
  Headers are a map from addresses, buffer contents a sequence of bytes; sizes are those of a 32-bit
  target with debug fields and of the board's configuration (header 16, alignment 8, smallest buffer 32,
  largest class 2^19). `HeapRuns.Client` shows that
  to its clients the heap is a set of independent byte arrays.
* **Queues over raw buffers** (`RingBuffer`, `BufQueue`, `Fifo`, `Bits`) and the kernel's **semaphores
  and events** (`Semaphore`, `Event`); a word of event flags is the set of its bit numbers.
* **Calendar, clock and weekly timers** (`Calendar`, `WeekTimer`), the **CRC-16** routines (`Crc16`), the
  **sequence number in flash** (`SeqStorage`) and the **retransmission list** (`SendList`).

Smaller numbers are more urgent priorities throughout, as in the kernel.

## Where the code falls short of its promise

Each of these is stated exactly by the member named.

* The tick list compares 64-bit deadlines as 32-bit signed numbers. A timeout of up to 2^31 ticks is
  exact in every run (`KernelRuns.LeavesOnTime`). A longer one ends early if and only if a tick before its
  last one finds it in the front of the list that passes the test (`KernelRuns.TickEnds`): on its first
  tick, or at the latest on its 2^31st, when it is first in the list (`KernelRuns.FirstLeaves`,
  `KernelWitness.LongSleep`), but not while one that is not due is ahead of it
  (`KernelWitness.ShieldedSleep`).
* Alignment wraps within 7 bytes of 2^32, so such a request gets a small block
  (`Heaps.RoundedCovers`). `krhino_add_mm_region` has no upper bound on a region; one from 2^19 + 56
  bytes on is accepted and lost (`Heaps.Heap.AddRegion`, `Heaps.LargestRegion`). The comment in
  k_mm.c line 77 is off by one; the model follows the code.
* `unix2UTC` is wrong from 2102-01-02 on, and the round trip with `UTC2unix` fails from 2101-01-01 to
  2102-01-01 (`Calendar.UnixToUtc`, `Calendar.RoundTrip`).
* The ticking clock sets the day to 0 at a month's end, so its date falls behind by a day per month
  since the last synchronisation and is right only until the end of the month it was set in
  (`WeekTimers.TimeService.Run`, `WeekTimers.DayZero`), and periodic timers started then are
  set as many days early (`WeekTimers.TimeService.PeriodicStart`).
* A periodic timer started on a scheduled day after its time of day is set for the past and never
  fires (`WeekTimers.SetForSchedule`, `WeekTimers.MissedToday`, `WeekTimers.TimeService.FiredExactly`).
* An index from 40 on is accepted but never found again, so that each start takes another slot
  (`WeekTimers.TimeService.PeriodicStart`, `WeekTimers.TwoSlots`).
* A queue of fixed blocks stores a short message together with what follows it in the sender's memory
  (`BufQueues.BufQueue.SendMsg`, `BufQueues.ShortMessage`).
* `transport_remove_by_tid` returns without unlocking the transport mutex exactly when it has removed a
  message (`SendLists.SendList.RemoveTid`, `SendLists.SendList.Send`).
* The sequence number restored after a reboot can equal the one reached before, though never one
  that a message carried (`SeqStorage.SeqStore.Reboot`, `SeqStorage.ReachedAgain`).
* Deleting a task hands its mutexes over without resetting the nesting count, unlike an unlock
  (k_task.c lines 715-718): the new owner needs as many unlocks as the dead one did
  (`KernelWitness.DeleteOwner`, `KernelWitness.NestingSurvives`). The priority results do not depend on it.
* Deleting a task that died holding mutexes a second time is refused only after its stale list has been
  walked (k_task.c lines 772 and 795), so mutexes that others own by then are taken from them
  (`Kernels.Kernel.TaskDel`, `KernelWitness.DeletedTwice`).
* A node that reboots before its first update event has no sequence number and is not restored
  (`SeqStorage.SeqStore.Reboot`).

## Model

| member | source | states |
|---|---|---|
| RunQueues.RunQueue.AddTail | genie-bt-mesh-sdk-rel_1.3.4/kernel/rhino/core/k_sched.c:195-203 | The task goes to the end of its list; the bitmap still matches the non-empty lists and `highest_pri` is still its least bit. |
| RunQueues.RunQueue.AddHead | genie-bt-mesh-sdk-rel_1.3.4/kernel/rhino/core/k_sched.c:205-214 | The same, for the front of the list. |
| RunQueues.RunQueue.Remove | genie-bt-mesh-sdk-rel_1.3.4/kernel/rhino/core/k_sched.c:285-320 | Exactly the one task leaves its list; bitmap and `highest_pri` are repaired, by a search only when the most urgent list ran empty. |
| RunQueues.RunQueue.Preferred | genie-bt-mesh-sdk-rel_1.3.4/kernel/rhino/core/k_sched.c:370-375 | The task picked is the first one of the most urgent non-empty list, so no listed task has a smaller priority number. |
| RunQueues.RunQueue.HeadToTail | genie-bt-mesh-sdk-rel_1.3.4/kernel/rhino/core/k_sched.c:322-325 | Rotates one list and changes nothing else. |
| KernelState.LimitIsInherited | genie-bt-mesh-sdk-rel_1.3.4/kernel/rhino/core/k_mutex.c:186-250 | Because wait lists are sorted, looking only at the first waiter of each owned mutex yields the least priority over all waiters. |
| Inheritance.RaisePass | genie-bt-mesh-sdk-rel_1.3.4/kernel/rhino/core/k_task.c:538-552 | One raising pass of the propagation loop: either every task satisfies the inheritance equation again, or exactly the next owner does not and needs the same new priority. |
| Inheritance.LowerPass | genie-bt-mesh-sdk-rel_1.3.4/kernel/rhino/core/k_task.c:553-564 | One lowering pass: the equation can only be broken at the next owner, and only if that owner ran at the priority just given up. |
| Inheritance.LowerOnlyDown | genie-bt-mesh-sdk-rel_1.3.4/kernel/rhino/core/k_task.c:553-564 | A lowering pass never raises the next owner, so each pass moves one priority in the same direction and the loop ends even on cyclic waits. |
| Inheritance.InheritedUnique | genie-bt-mesh-sdk-rel_1.3.4/kernel/rhino/core/k_mutex.c:186-250 | The inheritance equation determines the priority. |
| Inheritance.LendersJoin | genie-bt-mesh-sdk-rel_1.3.4/kernel/rhino/core/k_mutex.c:268-360 | New waiters that are no more urgent than the owner do not disturb the equation. |
| Inheritance.LendersLeave | genie-bt-mesh-sdk-rel_1.3.4/kernel/rhino/core/k_mutex.c:252-266 | When waiters leave, only the owner may be unsettled, and not even that if they did not run at its priority: why `mutex_task_pri_reset` may compare two priorities first. |
| Inheritance.NewLender | genie-bt-mesh-sdk-rel_1.3.4/kernel/rhino/core/k_mutex.c:336-340 | A more urgent new waiter unsettles exactly the owner, which needs the waiter's priority. |
| Inheritance.LeastOfAllWaiting | genie-bt-mesh-sdk-rel_1.3.4/kernel/rhino/core/k_task.c:510-581 | While nobody waits in a cycle, the equation makes a live task's priority exactly the least base priority of all tasks that wait for it, directly or through others, itself included. |
| Inheritance.ChainBelow | genie-bt-mesh-sdk-rel_1.3.4/kernel/rhino/core/k_task.c:510-581 | With or without cycles, no task on a chain of waits runs less urgently than a task behind it. |
| Inheritance.CycleSustains | genie-bt-mesh-sdk-rel_1.3.4/kernel/rhino/core/k_task.c:510-581 | On a cycle a priority can sustain itself: two tasks that wait for each other satisfy the equation at 1 with base priorities of 5. |
| Kernels.Kernel.constructor | genie-bt-mesh-sdk-rel_1.3.4/kernel/rhino/core/k_sched.c:168-177 | The start state, with only the idle task ready, satisfies the kernel invariant. |
| Kernels.Kernel.PendListAdd | genie-bt-mesh-sdk-rel_1.3.4/kernel/rhino/core/k_pend.c:7-20 | Sorted insertion into a wait list, behind equal priorities. |
| Kernels.Kernel.PendListReorder | genie-bt-mesh-sdk-rel_1.3.4/kernel/rhino/core/k_pend.c:101-108 | After a priority change the wait list is sorted again and holds the same tasks. |
| Kernels.Kernel.Unpend | genie-bt-mesh-sdk-rel_1.3.4/kernel/rhino/core/k_pend.c:22-48 | Waking a waiter: off its wait list and the tick list, ready or suspended, with the given wake-up reason. |
| Kernels.Kernel.PendTo | genie-bt-mesh-sdk-rel_1.3.4/kernel/rhino/core/k_pend.c:50-71 | Blocking the running task: off the ready list, on exactly one wait list at its place, and, unless it waits forever, on the tick list with exactly the given ticks left; the timeouts of others stay as they are. |
| Kernels.Kernel.MutexPriLook | genie-bt-mesh-sdk-rel_1.3.4/kernel/rhino/core/k_mutex.c:213-250 | The least of the base priority and the first waiters of the mutexes still owned, with the released mutex unlinked from the list. |
| Kernels.Kernel.MutexPriLimit | genie-bt-mesh-sdk-rel_1.3.4/kernel/rhino/core/k_mutex.c:186-211 | The same least value for a requested priority, without unlinking. |
| Kernels.Kernel.TaskPriChange | genie-bt-mesh-sdk-rel_1.3.4/kernel/rhino/core/k_task.c:510-581 | Terminates from every state with one unsettled task, cyclic waits included; afterwards every live task satisfies the inheritance equation, and priorities moved in one direction only. |
| Kernels.Kernel.OnePass | genie-bt-mesh-sdk-rel_1.3.4/kernel/rhino/core/k_task.c:516-578 | One pass sets one priority and hands on at most one unsettled task, strictly in the direction of the change. |
| Kernels.Kernel.MutexRelease | genie-bt-mesh-sdk-rel_1.3.4/kernel/rhino/core/k_mutex.c:40-53 | Unlinks a mutex and restores the equation for its former owner and everything behind it; changes nothing if the equation already held. |
| Kernels.Kernel.MutexTaskPriReset | genie-bt-mesh-sdk-rel_1.3.4/kernel/rhino/core/k_mutex.c:252-266 | After a waiter left a mutex's list, the owner's priority is recomputed where needed and the equation holds for all. |
| Kernels.Kernel.GiveUpWait | genie-bt-mesh-sdk-rel_1.3.4/kernel/rhino/core/k_tick.c:91-109 | A timeout, abort or deletion of a waiter keeps the whole invariant and takes the waiter off wait and tick list. |
| Kernels.Kernel.MutexLock | genie-bt-mesh-sdk-rel_1.3.4/kernel/rhino/core/k_mutex.c:268-360 | The result as one function of the state before: wrong object, nested, free, overflow, the refusals, blocked. A blocked caller is on the wait list with its timeout armed and the owner runs at least as urgently as it. The invariant is kept. |
| Kernels.Kernel.MutexUnlock | genie-bt-mesh-sdk-rel_1.3.4/kernel/rhino/core/k_mutex.c:362-432 | The result as one function of the state before; the first waiter becomes owner with nesting 1; without waiter no priority and no task state changes, so skipping the reschedule is safe. The invariant is kept. |
| Kernels.Kernel.MutexDel | genie-bt-mesh-sdk-rel_1.3.4/kernel/rhino/core/k_mutex.c:55-103 | Deleting a mutex wakes all waiters with the reason `deleted`, resets the owner's priority and keeps the invariant. |
| Kernels.Kernel.MutexCreate | genie-bt-mesh-sdk-rel_1.3.4/kernel/rhino/core/k_mutex.c:7-33 | A new mutex is free, its list pointer is cleared, and the invariant is kept. |
| Kernels.Kernel.TaskCreate | genie-bt-mesh-sdk-rel_1.3.4/kernel/rhino/core/k_task.c:7-127 | The new task is ready or suspended once, at its base priority, with no mutexes; wrong priorities are refused. |
| Kernels.Kernel.TaskSleep | genie-bt-mesh-sdk-rel_1.3.4/kernel/rhino/core/k_task.c:242-282 | The caller sleeps with exactly the given ticks remaining, or is refused. |
| Kernels.Kernel.TaskYield | genie-bt-mesh-sdk-rel_1.3.4/kernel/rhino/core/k_task.c:284-296 | Rotates the caller's list; if the caller headed the most urgent one, the task behind it runs. |
| KernelRuns.YieldRound | genie-bt-mesh-sdk-rel_1.3.4/kernel/rhino/core/k_task.c:284-296 | As many yields as the list has tasks give each of them exactly one turn, in list order, and leave the list as it was. |
| Kernels.Kernel.TaskSuspend | genie-bt-mesh-sdk-rel_1.3.4/kernel/rhino/core/k_task.c:310-384 | The result as one function of the state before; state and nesting count of exactly one task change, or nothing; waiting tasks keep waiting. |
| Kernels.Kernel.TaskResume | genie-bt-mesh-sdk-rel_1.3.4/kernel/rhino/core/k_task.c:386-442 | Succeeds for every suspended task; the exact inverse of suspending, once the nesting count is used up. |
| Kernels.Kernel.TaskPriSet | genie-bt-mesh-sdk-rel_1.3.4/kernel/rhino/core/k_task.c:583-632 | Succeeds for every live task but the idle one; the base priority becomes the requested one, and every effective priority is what the inheritance equation says. |
| Kernels.Kernel.TaskWaitAbort | genie-bt-mesh-sdk-rel_1.3.4/kernel/rhino/core/k_task.c:636-691 | Succeeds for every live task, which is then ready and on no wait or tick list; the reason is `abort`, the former owner's priority is reset, and the most urgent task runs. |
| Kernels.Kernel.TaskMutexFree | genie-bt-mesh-sdk-rel_1.3.4/kernel/rhino/core/k_task.c:695-724 | Each mutex of a dying task belongs to its first waiter, or to nobody if there is none, and keeps its nesting count; for the other tasks the equation holds as if the task were gone. |
| Kernels.Kernel.TaskDel | genie-bt-mesh-sdk-rel_1.3.4/kernel/rhino/core/k_task.c:726-820 | The result as one function of the state before. A deleted task owns no mutex and waits nowhere, its mutexes belong to their first waiters, other tasks are untouched or woken, and the invariant is kept. A second deletion is refused, and changes nothing if and only if none of the mutexes that the dead task's list still leads to has an owner or a waiter. |
| Kernels.Kernel.DeleteAgain | genie-bt-mesh-sdk-rel_1.3.4/kernel/rhino/core/k_task.c:771-797 | What the walk over a dead task's list does: it ends, and hands every mutex met on, or frees it, whoever owned it; owners and states stay the same if and only if nobody owns or awaits those mutexes. |
| Kernels.Kernel.LeftoversLive | genie-bt-mesh-sdk-rel_1.3.4/kernel/rhino/core/k_mutex.c:213-250 | In every reachable state the `mutex_list` pointers spell out the mutex list of every live task. |
| MutexChains.AllEndSet | genie-bt-mesh-sdk-rel_1.3.4/kernel/rhino/core/k_mutex.c:311-314 | Turning a pointer to a way that ends without coming back keeps all ways along the pointers ending, stale ones included. |
| MutexChains.CutSpelt | genie-bt-mesh-sdk-rel_1.3.4/kernel/rhino/core/k_mutex.c:230-236 | Unlinking any entry leaves pointers that spell out the rest of the list, and all ways ending. |
| MutexChains.ChainCut | genie-bt-mesh-sdk-rel_1.3.4/kernel/rhino/core/k_mutex.c:40-53 | A release keeps all owners' lists spelt out by the pointers. |
| MutexChains.ChainGive | genie-bt-mesh-sdk-rel_1.3.4/kernel/rhino/core/k_mutex.c:423-427 | Giving a mutex to a new owner keeps all owners' lists spelt out, even while a dying task's own list is being overwritten. |
| KernelWitness.DeletedTwice | genie-bt-mesh-sdk-rel_1.3.4/kernel/rhino/core/k_task.c:695-797 | A run: a task dies holding a mutex, another task locks it, the dead task is deleted again. The call is refused, but the mutex on the second task's list belongs to nobody and the invariant is broken. |
| KernelWitness.DeleteOwner | genie-bt-mesh-sdk-rel_1.3.4/kernel/rhino/core/k_task.c:695-724 | Whoever inherits a mutex from a deleted owner holds it with count 1 if and only if the dead owner held it once. |
| KernelWitness.NestingSurvives | genie-bt-mesh-sdk-rel_1.3.4/kernel/rhino/core/k_task.c:695-724 | A run: locked twice, one waiter, owner deleted; one unlock by the new owner returns `nested`, and it still owns the mutex. |
| Kernels.Kernel.ObjPend | genie-bt-mesh-sdk-rel_1.3.4/kernel/rhino/core/k_sem.c:260-281 | Blocking on any non-mutex object: the place in the wait list, by arrival or by priority, the timeout armed, a most urgent task runs, and the invariant is kept. |
| Kernels.Kernel.ObjWake | genie-bt-mesh-sdk-rel_1.3.4/kernel/rhino/core/k_event.c:280-325 | Waking any choice of waiters of such an object, as semaphores, queues and events do, takes exactly these off wait and tick list and keeps the invariant. |
| Kernels.Kernel.ObjDel | genie-bt-mesh-sdk-rel_1.3.4/kernel/rhino/core/k_sem.c:44-82 | Deleting such an object wakes everybody waiting for it, with the reason `deleted`, and the most urgent task runs. |
| Kernels.Kernel.EnableSched | genie-bt-mesh-sdk-rel_1.3.4/kernel/rhino/core/k_sched.c:57-84 | Refused without a level; a level less otherwise, and leaving the last one runs a most urgent ready task. |
| Kernels.Kernel.CoreSched | genie-bt-mesh-sdk-rel_1.3.4/kernel/rhino/core/k_sched.c:126-165 | Unless the scheduler is locked, the running task is the first one of the most urgent ready list. |
| Kernels.Kernel.Requeue | genie-bt-mesh-sdk-rel_1.3.4/kernel/rhino/core/k_sched.c:275-320 | A task that becomes ready goes behind the others at the running task's priority, and ahead of them at another; one that stops being ready leaves its list; nobody else moves. |
| Kernels.Kernel.TickUpdate | genie-bt-mesh-sdk-rel_1.3.4/kernel/rhino/core/k_tick.c:57-130 | Every tick or jump takes off the list exactly its longest front that passes the 32-bit expiry test; unless a jump exceeded half the range, these are the timeouts that are ripe by the ticks gone by since they were armed. They are woken with the right reason, no other task changes state, and the kernel invariant holds afterwards, priorities included. |
| TickLists.ExpiredExact | genie-bt-mesh-sdk-rel_1.3.4/kernel/rhino/core/k_tick.c:80-83 | Below half the 32-bit range the signed test says `expired` exactly when no time remains, whatever the counter. |
| TickLists.EarlyIff | genie-bt-mesh-sdk-rel_1.3.4/kernel/rhino/core/k_tick.c:80-83 | A timeout passes the test on its last tick, and on an earlier one iff it is longer than 2^31 ticks. |
| TickLists.FirstPass | genie-bt-mesh-sdk-rel_1.3.4/kernel/rhino/core/k_tick.c:80-83 | The tick on which a timeout first passes the test, in closed form: its last one iff it is at most 2^31 ticks. |
| TickLists.ExpiredLater | genie-bt-mesh-sdk-rel_1.3.4/kernel/rhino/core/k_tick.c:57-83 | The test on the wrapping counters is the test on the time left, also after a jump over the end of the timeout. |
| TickLists.RemainAhead | genie-bt-mesh-sdk-rel_1.3.4/kernel/rhino/core/k_tick.c:57-83 | Ticks take as many off the remaining time, also where the 64-bit counter wraps. |
| TickLists.InsertTimely | genie-bt-mesh-sdk-rel_1.3.4/kernel/rhino/core/k_tick.c:12-31 | Insertion keeps the list sorted by remaining time. |
| TickLists.TickList.Insert | genie-bt-mesh-sdk-rel_1.3.4/kernel/rhino/core/k_tick.c:12-45 | The list stays sorted by remaining time, the new task has exactly the given time left, nothing is armed for zero. |
| TickLists.TickList.Remove | genie-bt-mesh-sdk-rel_1.3.4/kernel/rhino/core/k_tick.c:47-55 | Takes one task off and keeps the order. |
| TickLists.FrontRipe | genie-bt-mesh-sdk-rel_1.3.4/kernel/rhino/core/k_tick.c:71-123 | The front of the list that passes the test is the front of the timeouts that are ripe, whatever their length. |
| TickLists.StillOnTime | genie-bt-mesh-sdk-rel_1.3.4/kernel/rhino/core/k_tick.c:71-123 | Once that front is off the list, the rest is sorted by the time left and nothing of it is overdue. |
| KernelRuns.InheritanceInPlainTerms | genie-bt-mesh-sdk-rel_1.3.4/kernel/rhino/core/k_mutex.c:186-432 | In every reachable state a live task's priority is the least of its base priority and the priorities of all tasks waiting for mutexes it owns. |
| KernelRuns.ListsInPlainTerms | genie-bt-mesh-sdk-rel_1.3.4/kernel/rhino/core/k_pend.c:7-108 | In every reachable state a task is on the ready list of its priority iff ready, on an object's wait list iff pended there, on the tick list if sleeping, and only then or if pended. |
| KernelRuns.PreferredIsMostUrgent | genie-bt-mesh-sdk-rel_1.3.4/kernel/rhino/core/k_sched.c:168-375 | In every reachable state a bitmap bit is set iff some ready task has that priority, `highest_pri` is the least bit, and its first task is a most urgent ready task. |
| KernelRuns.Perform | genie-bt-mesh-sdk-rel_1.3.4/kernel/rhino/core/k_task.c:242-820 | Every kernel call keeps the invariant and moves every task along the kernel's state diagram; a tick or jump ends exactly the ripe timeouts at the front of the list, no other call ends or changes one, and only the caller arms one, with the ticks it asked for; while the scheduler is locked the running task does not change. |
| KernelRuns.SuspendedStays | genie-bt-mesh-sdk-rel_1.3.4/kernel/rhino/core/k_pend.c:22-48 | Over any run a suspended task stays suspended, and does not run, until it is resumed, aborted or deleted, even if its wait ends in between. |
| KernelRuns.LeavesOnTime | genie-bt-mesh-sdk-rel_1.3.4/kernel/rhino/core/k_tick.c:12-130 | Over any run, whatever calls come in between and whatever others wait for: a task that a call made wait for n <= 2^31 ticks goes on by timeout if and only if the n-th tick since has come, on exactly that tick with single ticks; no timeout of any length ends late. |
| KernelRuns.TickEnds | genie-bt-mesh-sdk-rel_1.3.4/kernel/rhino/core/k_tick.c:71-123 | A tick ends a wait if and only if it finds the task in the front of the list that passes the test; so a timeout ends early only if it is longer than 2^31 ticks, and then iff a tick before its last one finds it there. |
| KernelRuns.FirstLeaves | genie-bt-mesh-sdk-rel_1.3.4/kernel/rhino/core/k_tick.c:71-123 | A task that stays first in the list goes on by timeout on exactly the tick `FirstPass` of its timeout. |
| KernelWitness.LongSleep | genie-bt-mesh-sdk-rel_1.3.4/kernel/rhino/core/k_tick.c:71-123 | A run: a task that sleeps for 2^31 + 1 ticks wakes on the first of them. |
| KernelWitness.ShieldedSleep | genie-bt-mesh-sdk-rel_1.3.4/kernel/rhino/core/k_tick.c:71-123 | A run: behind a sleep of 20 ticks one of 2^31 + 10 goes on after 20 ticks, with less than half the range left. |
| KernelRuns.WaitsNoLonger | genie-bt-mesh-sdk-rel_1.3.4/kernel/rhino/core/k_tick.c:12-130 | A task still waiting has had fewer ticks than it asked for. |
| KernelRuns.Elapsed | genie-bt-mesh-sdk-rel_1.3.4/kernel/rhino/core/k_tick.c:12-130 | A timeout stays as it was armed while its task waits, and time is the number of ticks among the calls. |
| KernelRuns.LeastOfWaiting | genie-bt-mesh-sdk-rel_1.3.4/kernel/rhino/core/k_mutex.c:186-432 | In every reachable state without deadlock a live task runs at the least base priority of all tasks that wait for it, directly or through others. |
| KernelRuns.Critical | genie-bt-mesh-sdk-rel_1.3.4/kernel/rhino/core/k_sched.c:33-55 | After `krhino_sched_disable`, whatever calls are made short of enabling it again, the running task goes on running. |
| KernelRuns.Run | genie-bt-mesh-sdk-rel_1.3.4/kernel/rhino/core/k_mutex.c:7-432 | After any sequence of calls, by whichever task runs, and ticks: inheritance, list membership, a trace that follows the state diagram and, unless time jumps by more than half the 32-bit range, treats timeouts as `Perform` says. |
| FreeLists.LevelBounds | genie-bt-mesh-sdk-rel_1.3.4/kernel/rhino/core/k_mm.c:78-90 | The level of a size is the power-of-two class it lies in; -1 exactly from 2^19 on. |
| FreeLists.HigherLevelIsLarger | genie-bt-mesh-sdk-rel_1.3.4/kernel/rhino/core/k_mm.c:380-392 | Every block of a higher class is larger than every block of a lower one. |
| HeapLayout.SetFreeTile | genie-bt-mesh-sdk-rel_1.3.4/kernel/rhino/core/k_mm.c:478-500 | Taking or releasing a block keeps blocks tiling their regions, with truthful flags and links. |
| HeapLayout.AbsorbTile | genie-bt-mesh-sdk-rel_1.3.4/kernel/rhino/core/k_mm.c:558-578 | Merging two adjacent blocks keeps the tiling, flags and links. |
| HeapLayout.SplitTile | genie-bt-mesh-sdk-rel_1.3.4/kernel/rhino/core/k_mm.c:478-500 | Splitting a block keeps the tiling, flags and links. |
| HeapMoves.Swallow | genie-bt-mesh-sdk-rel_1.3.4/kernel/rhino/core/k_mm.c:677-695 | A live block that absorbs its free right neighbour leaves no two adjacent free blocks; the other buffers keep place and size. |
| HeapMoves.GiveRight | genie-bt-mesh-sdk-rel_1.3.4/kernel/rhino/core/k_mm.c:554-563 | Freeing with a merge to the right leaves at most the block and its left neighbour as adjacent free blocks. |
| HeapMoves.GiveLeft | genie-bt-mesh-sdk-rel_1.3.4/kernel/rhino/core/k_mm.c:565-578 | After the merge to the left no two adjacent blocks are free. |
| HeapMoves.ShrinkSound | genie-bt-mesh-sdk-rel_1.3.4/kernel/rhino/core/k_mm.c:649-676 | When shrinking, a free right neighbour always leaves room for a split, so the space taken off its list is never lost. |
| HeapMoves.BuffersDisjoint | genie-bt-mesh-sdk-rel_1.3.4/kernel/rhino/core/k_mm.c:394-595 | Two blocks overlap neither in their buffers nor in their headers. |
| HeapMoves.ResizedByCopy | genie-bt-mesh-sdk-rel_1.3.4/kernel/rhino/core/k_mm.c:726-737 | Copying to a new block preserves the old bytes and every other buffer. |
| HeapRegions.RegionSound | genie-bt-mesh-sdk-rel_1.3.4/kernel/rhino/core/k_mm.c:35-75 | A new region in unused memory adds one free block between two sentinels to a sound layout. |
| HeapRegions.RegionForgotten | genie-bt-mesh-sdk-rel_1.3.4/kernel/rhino/core/k_mm.c:239-286 | A region too large for any class leaves the rest of the heap sound and as it was. |
| Heaps.RoundedCovers | genie-bt-mesh-sdk-rel_1.3.4/kernel/rhino/core/k_mm.c:433-434 | The rounded request covers the request iff it is at most 2^32 - 8: closer to the top the alignment wraps. |
| Heaps.RoundedLeast | genie-bt-mesh-sdk-rel_1.3.4/kernel/rhino/core/k_mm.c:433-434 | A request is rounded to the least multiple of 8 that covers it and 32. |
| Heaps.Heap.InitHead | genie-bt-mesh-sdk-rel_1.3.4/kernel/rhino/core/k_mm.c:135-227 | Accepts exactly lengths from 3072 bytes to 2^19; the first region lies behind the head, and the fixed-block pool always gets its buffer, the only live one, inside it. |
| Heaps.Heap.AddRegion | genie-bt-mesh-sdk-rel_1.3.4/kernel/rhino/core/k_mm.c:239-286 | For any length: too small regions are refused; otherwise the memory is cleared and one free block of the exact size laid out, which is in a free list if and only if it is smaller than 2^19 bytes, and whose memory is lost otherwise; everything else keeps its bytes. |
| Heaps.LargestRegion | genie-bt-mesh-sdk-rel_1.3.4/kernel/rhino/core/k_mm.c:239-286 | A run: 2^19 + 56 bytes are accepted and one free block results, but nothing can be allocated; with 8 bytes less all of it can. |
| Heaps.Heap.LostForever | genie-bt-mesh-sdk-rel_1.3.4/kernel/rhino/core/k_mm.c:239-347 | In every state no live buffer reaches into lost memory. |
| Heaps.Heap.FreelistInsert | genie-bt-mesh-sdk-rel_1.3.4/kernel/rhino/core/k_mm.c:325-347 | Lists hold exactly the free blocks, bits match; a block beyond the largest class is silently dropped. |
| Heaps.Heap.FreelistDelete | genie-bt-mesh-sdk-rel_1.3.4/kernel/rhino/core/k_mm.c:350-377 | Exactly one block leaves the lists, bits match. |
| Heaps.Heap.FindUpLevel | genie-bt-mesh-sdk-rel_1.3.4/kernel/rhino/core/k_mm.c:380-392 | Finds a block above the level iff there is one: the first of the lowest such list. |
| Heaps.Heap.FindBlock | genie-bt-mesh-sdk-rel_1.3.4/kernel/rhino/core/k_mm.c:436-475 | With the quick option on or off, a large enough block is found iff one exists anywhere; with it on, one of the same class only if there is none of a higher class, with it off the other way round. |
| Heaps.Heap.Alloc | genie-bt-mesh-sdk-rel_1.3.4/kernel/rhino/core/k_mm.c:394-516 | NULL exactly for size 0 or when no free block has as many bytes as asked for (below 2^32 - 7); otherwise a buffer that holds the request with too little over for another block; other buffers are untouched; the invariant is kept. |
| Heaps.Heap.Free | genie-bt-mesh-sdk-rel_1.3.4/kernel/rhino/core/k_mm.c:518-595 | Exactly the one buffer disappears; blocks merge both ways; the invariant is kept. |
| Heaps.Heap.Shrink | genie-bt-mesh-sdk-rel_1.3.4/kernel/rhino/core/k_mm.c:649-676 | In place; the result has the requested size, or its old one if too little is left over; exactly the requested one if the right neighbour was free. |
| Heaps.Heap.Enlarge | genie-bt-mesh-sdk-rel_1.3.4/kernel/rhino/core/k_mm.c:677-711 | In place into the free right neighbour; what would make a block of its own is given back. |
| Heaps.Heap.Realloc | genie-bt-mesh-sdk-rel_1.3.4/kernel/rhino/core/k_mm.c:597-738 | The first min(old, new) bytes survive, every other buffer keeps place, size and bytes; in place whenever the block, or the block and a free right neighbour, have as many bytes as asked for; failure leaves everything as it was and happens only if no free block has; the invariant is kept. |
| Heaps.Heap.LiveDisjoint | genie-bt-mesh-sdk-rel_1.3.4/kernel/rhino/core/k_mm.c:394-595 | Live buffers do not overlap. |
| HeapRuns.AgreeResize | genie-bt-mesh-sdk-rel_1.3.4/kernel/rhino/core/k_mm.c:597-738 | A resize of one buffer is a resize of one array with a kept prefix. |
| HeapRuns.Client.Perform | genie-bt-mesh-sdk-rel_1.3.4/kernel/rhino/core/k_mm.c:394-738 | Seen by its clients, each call changes at most one of a set of independent byte arrays; an allocation succeeds exactly if some free block has as many bytes. |
| HeapRuns.Client.Read | genie-bt-mesh-sdk-rel_1.3.4/kernel/rhino/core/k_mm.c:394-738 | What is read from a held buffer is what was last stored there. |
| HeapRuns.Client.HeldApart | genie-bt-mesh-sdk-rel_1.3.4/kernel/rhino/core/k_mm.c:394-738 | Buffers in different hands lie at least a header apart. |
| HeapRuns.Client.NoLeak | genie-bt-mesh-sdk-rel_1.3.4/kernel/rhino/core/k_mm.c:394-738 | Every live buffer is in somebody's hands or was in use before. |
| HeapRuns.Client.KeptApart | genie-bt-mesh-sdk-rel_1.3.4/kernel/rhino/core/k_mm.c:394-738 | Buffers in use before, such as the pool's, keep their place and bytes, a header apart from the clients'. |
| HeapRuns.Client.Run | genie-bt-mesh-sdk-rel_1.3.4/kernel/rhino/core/k_mm.c:394-738 | On any heap that satisfies its invariant, any run of alloc, free, realloc and stores refines independent byte arrays and keeps that invariant. |
| HeapRuns.Board | genie-bt-mesh-sdk-rel_1.3.4/kernel/rhino/core/k_mm.c:135-227 | The same for the heap as the board sets it up, with the fixed-block pool's buffer in use throughout. |
| BlockPools.Pool.Init | genie-bt-mesh-sdk-rel_1.3.4/kernel/rhino/core/k_mm_blk.c:8-83 | Refusals; otherwise all whole blocks are available, their number is size / block size, and a fragment ends the chain iff the division leaves a rest. |
| BlockPools.Pool.Alloc | genie-bt-mesh-sdk-rel_1.3.4/kernel/rhino/core/k_mm_blk.c:85-110 | A whole block that overlaps no outstanding one, or an error iff all are out; never the fragment. |
| BlockPools.Pool.Free | genie-bt-mesh-sdk-rel_1.3.4/kernel/rhino/core/k_mm_blk.c:112-127 | Outstanding plus available blocks stay constant, the chain stays intact. |
| BlockPools.ThreadedStep | genie-bt-mesh-sdk-rel_1.3.4/kernel/rhino/core/k_mm_blk.c:52-60 | A step of the threading loop chains exactly the blocks passed so far. |
| RingBuffers.LeRoundTrip | genie-bt-mesh-sdk-rel_1.3.4/kernel/rhino/core/k_ringbuf.c:54-153 | A length header decodes to the length it was made from. |
| RingBuffers.FlatSnoc | genie-bt-mesh-sdk-rel_1.3.4/kernel/rhino/core/k_ringbuf.c:23-100 | The byte stream of a queue grows by the encoded message. |
| RingBuffers.Extend | genie-bt-mesh-sdk-rel_1.3.4/kernel/rhino/core/k_ringbuf.c:60-95 | Writing at the tail appends to the circular stream, wherever head and tail are parked. |
| RingBuffers.Consume | genie-bt-mesh-sdk-rel_1.3.4/kernel/rhino/core/k_ringbuf.c:132-172 | Reading at the head takes the front of the circular stream. |
| RingBuffers.RingBuf.constructor | genie-bt-mesh-sdk-rel_1.3.4/kernel/rhino/core/k_ringbuf.c:9-21 | An empty queue. |
| RingBuffers.RingBuf.Push | genie-bt-mesh-sdk-rel_1.3.4/kernel/rhino/core/k_ringbuf.c:23-100 | The queue of messages grows by the message iff header and payload fit; both may be split at the end of the array. |
| RingBuffers.RingBuf.Pop | genie-bt-mesh-sdk-rel_1.3.4/kernel/rhino/core/k_ringbuf.c:102-176 | Returns and removes the oldest message, whole, or reports an empty buffer. |
| RingBuffers.RingBuf.FreeSize | genie-bt-mesh-sdk-rel_1.3.4/kernel/rhino/core/k_ringbuf.c:23-209 | The free size is the capacity less all headers and payloads. |
| RingBuffers.RingBuf.IsEmpty | genie-bt-mesh-sdk-rel_1.3.4/kernel/rhino/core/k_ringbuf.c:192-199 | Empty iff no message is stored, judged by the free size alone. |
| RingBuffers.RingBuf.IsFull | genie-bt-mesh-sdk-rel_1.3.4/kernel/rhino/core/k_ringbuf.c:178-190 | Full iff no message at all could be pushed. |
| RingBuffers.RingBuf.Reset | genie-bt-mesh-sdk-rel_1.3.4/kernel/rhino/core/k_ringbuf.c:202-209 | Empties the queue. |
| BufQueues.BufQueue.SendMsg | genie-bt-mesh-sdk-rel_1.3.4/kernel/rhino/core/k_buf_queue.c:190-268 | All outcomes; a waiting receiver gets the message directly, otherwise it is stored, in a queue of fixed blocks as a whole block. It is delivered as sent if and only if a receiver waits, or the queue is for variable lengths, or the message fills a block. |
| BufQueues.BufQueue.ReceiveMsg | genie-bt-mesh-sdk-rel_1.3.4/kernel/rhino/core/k_buf_queue.c:278-349 | The oldest stored message, or blocking in the wait list. |
| BufQueues.BufQueue.FlushAll | genie-bt-mesh-sdk-rel_1.3.4/kernel/rhino/core/k_buf_queue.c:351-374 | Drops what is stored, and only that. |
| BufQueues.BufQueue.Run | genie-bt-mesh-sdk-rel_1.3.4/kernel/rhino/core/k_buf_queue.c:190-374 | Any run, changes of the waiting order included, on queues of both kinds: receivers get an initial segment of the accepted messages, in order, over both ways of delivery; the rest is stored; each begins with the message sent; nobody waits while something is stored; `cur_num` is exact. |
| BufQueues.ShortMessage | genie-bt-mesh-sdk-rel_1.3.4/kernel/rhino/core/k_ringbuf.c:29-43 | A run: in a queue of two-byte blocks one byte arrives as sent if its receiver waits, and with a byte of the sender's memory otherwise. |
| Semaphores.Semaphore.GiveSem | genie-bt-mesh-sdk-rel_1.3.4/kernel/rhino/core/k_sem.c:155-236 | A unit goes to the first waiter, to all waiters, or to the count; overflow changes nothing. |
| Semaphores.Semaphore.TakeSem | genie-bt-mesh-sdk-rel_1.3.4/kernel/rhino/core/k_sem.c:238-291 | A unit from the count, a refusal, or a place in the wait list. |
| Semaphores.Semaphore.CountSet | genie-bt-mesh-sdk-rel_1.3.4/kernel/rhino/core/k_sem.c:293-332 | Refused exactly while tasks wait. |
| Semaphores.Semaphore.Run | genie-bt-mesh-sdk-rel_1.3.4/kernel/rhino/core/k_sem.c:155-332 | Any run: a positive count never meets a waiter; with single gives, initial count plus successful gives equals final count plus granted takes. |
| Events.FewerFlags | genie-bt-mesh-sdk-rel_1.3.4/kernel/rhino/core/k_event.c:273-279 | Clearing flags never satisfies a waiter. |
| Events.Event.Get | genie-bt-mesh-sdk-rel_1.3.4/kernel/rhino/core/k_event.c:157-244 | Succeeds iff all, or one, of the wanted flags are set, with the flags before clearing; a success that clears takes away exactly the wanted flags; otherwise refused or blocked at its place. No blocked task is satisfied afterwards. |
| Events.Event.GetTwice | genie-bt-mesh-sdk-rel_1.3.4/kernel/rhino/core/k_event.c:157-244 | Two gets that clear the same flags, with no set in between, do not both succeed. |
| Events.Event.Clear | genie-bt-mesh-sdk-rel_1.3.4/kernel/rhino/core/k_event.c:273-279 | Only clears, wakes nobody, and leaves no satisfied waiter. |
| Events.Event.Set | genie-bt-mesh-sdk-rel_1.3.4/kernel/rhino/core/k_event.c:280-325 | Wakes, in order, exactly the waiters whose condition holds of the flags as set, which they are told; a flag stays set iff none of those asks for it to be cleared; no satisfied waiter is left. |
| Events.Event.Run | genie-bt-mesh-sdk-rel_1.3.4/kernel/rhino/core/k_event.c:157-325 | Any run of gets, sets, clears, departures and changes of priority: nobody is left waiting for flags that are set. |
| Bits.PowerTest | genie-bt-mesh-sdk-rel_1.3.4/kernel/rhino/common/k_fifo.c:16-19 | The bit test accepts exactly the powers of two. |
| Bits.AndMask | genie-bt-mesh-sdk-rel_1.3.4/kernel/rhino/common/k_fifo.c:48-63 | Masking with size - 1 is the remainder. |
| Fifos.Advance | genie-bt-mesh-sdk-rel_1.3.4/kernel/rhino/common/k_fifo.c:65-86 | An index that wraps at 2^32 still names the right place of the buffer. |
| Fifos.Create | genie-bt-mesh-sdk-rel_1.3.4/kernel/rhino/common/k_fifo.c:21-46 | Accepts exactly the powers of two from 2 on. |
| Fifos.Fifo.Unused | genie-bt-mesh-sdk-rel_1.3.4/kernel/rhino/common/k_fifo.c:11-14 | In wrapping arithmetic, the size less the bytes stored, which is `free_bytes`. |
| Fifos.Fifo.In | genie-bt-mesh-sdk-rel_1.3.4/kernel/rhino/common/k_fifo.c:65-86 | Appends as many bytes as fit. |
| Fifos.Fifo.Peek | genie-bt-mesh-sdk-rel_1.3.4/kernel/rhino/common/k_fifo.c:103-134 | The oldest bytes, unchanged queue. |
| Fifos.Fifo.Out | genie-bt-mesh-sdk-rel_1.3.4/kernel/rhino/common/k_fifo.c:136-150 | Hands out and removes the oldest bytes, in order. |
| Fifos.Fifo.OutAll | genie-bt-mesh-sdk-rel_1.3.4/kernel/rhino/common/k_fifo.c:152-176 | Hands out everything. |
| Crc16.FoldIsFeed | genie-bt-mesh-sdk-rel_1.3.4/utility/crc/crc16.c:52-57 | The byte-wise loop body equals eight steps of the polynomial shift register, for every register and byte. |
| Crc16.Compute | genie-bt-mesh-sdk-rel_1.3.4/utility/crc/crc16.c:46-60 | The byte-wise routine computes the polynomial CRC. |
| Crc16.Ccitt | genie-bt-mesh-sdk-rel_1.3.4/utility/crc/crc16.c:62-86 | The bit-wise routine computes the same CRC. |
| Crc16.WordInjective | genie-bt-mesh-sdk-rel_1.3.4/utility/crc/crc16.c:46-86 | Equal registers are equal words, so both routines agree on every input. |
| Crc16.Concatenation | genie-bt-mesh-sdk-rel_1.3.4/utility/crc/crc16.c:46-60 | Feeding blocks one after another equals feeding their concatenation. |
| Crc16.BurstDetected | genie-bt-mesh-sdk-rel_1.3.4/utility/crc/crc16.c:46-86 | Any two messages that differ only within 16 adjacent bits, anywhere, have different CRCs. |
| Crc16.OneByteDetected | genie-bt-mesh-sdk-rel_1.3.4/utility/crc/crc16.c:46-86 | Messages of equal length that differ in one byte have different CRCs. |
| Crc16.Residue | genie-bt-mesh-sdk-rel_1.3.4/utility/crc/crc16.c:46-86 | A message followed by its CRC has CRC zero. |
| Calendar.TomorrowIsNext | genie-bt-mesh-sdk-rel_1.3.4/genie_service/core/src/genie_time.c:886-900 | The day count of the Gregorian calendar grows by one from day to day. |
| Calendar.DayNumberIsDate | genie-bt-mesh-sdk-rel_1.3.4/genie_service/core/src/genie_time.c:720-884 | Adding up years and months names the same day as counting day by day from 1970-01-01. |
| Calendar.UnixToUtc | genie-bt-mesh-sdk-rel_1.3.4/genie_service/core/src/genie_time.c:720-884 | Time of day and weekday are right for every 32-bit time; the date is valid, and right exactly before 2102-01-02; later it is one day behind. |
| Calendar.FindYear | genie-bt-mesh-sdk-rel_1.3.4/genie_service/core/src/genie_time.c:750-788 | Four-year periods, then single years: the year and day of the counted day. |
| Calendar.FindMonth | genie-bt-mesh-sdk-rel_1.3.4/genie_service/core/src/genie_time.c:790-866 | The binary search ends and finds the month the day lies in. |
| Calendar.LeapCount | genie-bt-mesh-sdk-rel_1.3.4/genie_service/core/src/genie_time.c:57-58 | The leap day formula is right up to 2100 and counts one too many from 2101 on. |
| Calendar.UtcToUnixIs | genie-bt-mesh-sdk-rel_1.3.4/genie_service/core/src/genie_time.c:52-70 | What the inverse conversion returns, for days beyond the end of a month, too. |
| Calendar.RoundTrip | genie-bt-mesh-sdk-rel_1.3.4/genie_service/core/src/genie_time.c:52-70 | `UTC2unix` maps the result of `unix2UTC` back to the same time exactly for days before 2101-01-01 and from 2102-01-02 on. |
| WeekTimers.MaskRead | genie-bt-mesh-sdk-rel_1.3.4/genie_service/core/src/genie_time.c:76-81 | The doubled and shifted mask read at d tells whether the weekday d days ahead is scheduled. |
| WeekTimers.NextWeekdayDiff | genie-bt-mesh-sdk-rel_1.3.4/genie_service/core/src/genie_time.c:72-96 | The least distance to a scheduled weekday, 7 iff none is. |
| WeekTimers.Clock.DaysUpdate | genie-bt-mesh-sdk-rel_1.3.4/genie_service/core/src/genie_time.c:902-946 | The weekday moves on; the date moves on by one day, except that at each month's end it becomes day 0 of the next month and its day number stands still (line 941). |
| WeekTimers.Clock.SecondsUpdate | genie-bt-mesh-sdk-rel_1.3.4/genie_service/core/src/genie_time.c:948-979 | A tick keeps hour, minute, second and weekday equal to direct conversion. |
| WeekTimers.Rearm | genie-bt-mesh-sdk-rel_1.3.4/genie_service/core/src/genie_time.c:1087-1090 | Re-arming finds the very next due instant, skipping none. |
| WeekTimers.SetForSchedule | genie-bt-mesh-sdk-rel_1.3.4/genie_service/core/src/genie_time.c:186-192 | With a right date and an offset below one day a timer is set for a scheduled weekday, and for the future iff today is not scheduled or the time is still to come. |
| WeekTimers.MissedToday | genie-bt-mesh-sdk-rel_1.3.4/genie_service/core/src/genie_time.c:186-192 | A run: a timer for Mondays at six, started on a Monday at noon, is set for the past and has not fired two weeks later. |
| WeekTimers.TwoSlots | genie-bt-mesh-sdk-rel_1.3.4/genie_service/core/src/genie_time.c:98-122 | A run: two starts with index 40 take two slots. |
| WeekTimers.TimeService.constructor | genie-bt-mesh-sdk-rel_1.3.4/genie_service/core/src/genie_time.c:1195-1217 | A synchronisation sets the clock right; the date has no lag before 2102-01-02. |
| WeekTimers.TimeService.Tick | genie-bt-mesh-sdk-rel_1.3.4/genie_service/core/src/genie_time.c:1119-1135 | One second with its callbacks, one for each timer whose log grows; time of day and weekday stay right forever; the date's lag grows by one exactly at each month's end since the synchronisation. |
| WeekTimers.TimeService.DoWork | genie-bt-mesh-sdk-rel_1.3.4/genie_service/core/src/genie_time.c:1065-1093 | Exactly the timers whose instant has come are called back, in list order, and each then waits for its next due instant. |
| WeekTimers.TimeService.PeriodicStart | genie-bt-mesh-sdk-rel_1.3.4/genie_service/core/src/genie_time.c:133-203 | Refusals, slot reuse for indices below 40 and a new slot for others, and the instant the timer is set for, as many days early as the date lags. |
| WeekTimers.TimeService.Run | genie-bt-mesh-sdk-rel_1.3.4/genie_service/core/src/genie_time.c:1065-1135 | Any number of ticks: index x is called back at t if and only if a timer with that index was set for the future and t is due for it. From a right date, the date is right if and only if the true local date is still in the month of the start; in general one day is lost for each month the clock has begun. |
| WeekTimers.BehindUnique | genie-bt-mesh-sdk-rel_1.3.4/genie_service/core/src/genie_time.c:902-946 | The days lost are determined by the true day and the month of the start. |
| WeekTimers.InMonth | genie-bt-mesh-sdk-rel_1.3.4/genie_service/core/src/genie_time.c:902-946 | Nothing is lost if and only if the true date is in the month of the start. |
| WeekTimers.TimeService.RightIff | genie-bt-mesh-sdk-rel_1.3.4/genie_service/core/src/genie_time.c:902-979 | The date shown is the true local date if and only if no day is lost. |
| WeekTimers.DayZero | genie-bt-mesh-sdk-rel_1.3.4/genie_service/core/src/genie_time.c:927-946 | A run: set on 1970-01-31, the clock shows day 0 of February a day later. |
| WeekTimers.TimeService.FiredExactly | genie-bt-mesh-sdk-rel_1.3.4/genie_service/core/src/genie_time.c:1065-1135 | A timer has fired at t iff it was set for the future and t is its first instant or a later one with the same time of day on a scheduled weekday. |
| WeekTimers.DueListHolds | genie-bt-mesh-sdk-rel_1.3.4/genie_service/core/src/genie_time.c:1065-1135 | The list of due instants holds exactly the due instants. |
| SeqStorage.SeqStore.Use | genie-bt-mesh-sdk-rel_1.3.4/network/bluetooth/bt_mesh/src/net.c:851-855 | A message carries a number no message has carried before. |
| SeqStorage.SeqStore.Update | genie-bt-mesh-sdk-rel_1.3.4/genie_service/core/src/genie_event.c:213-228 | The update event saves 1 to 3 and each multiple of the interval, and with that keeps the saved number within one interval of the number reached. |
| SeqStorage.SeqStore.Reboot | genie-bt-mesh-sdk-rel_1.3.4/genie_service/core/src/genie_storage.c:289-307 | The node is restored unless no message had its update event yet. At whatever point a reboot comes, the restored number is above every number carried, and above the number reached unless the reboot fell between reaching a multiple of the interval and saving it, one interval after the last save. |
| SeqStorage.SeqStore.Run | genie-bt-mesh-sdk-rel_1.3.4/genie_service/core/src/genie_storage.c:263-307 | Over any run of messages and reboots numbers are strictly increasing, as section 3.8.3 of the Bluetooth Mesh Profile specification needs, at most one number is taken per message and an interval per reboot, and the node is lost only if a reboot comes before the first update event. |
| SeqStorage.Reach200 | genie-bt-mesh-sdk-rel_1.3.4/genie_service/core/src/genie_storage.c:263-287 | The run that leads there: numbers 0 to 199 carried, 200 reached, 100 in flash. |
| SeqStorage.ReachedAgain | genie-bt-mesh-sdk-rel_1.3.4/genie_service/core/src/genie_storage.c:263-307 | A run: 200 messages in, before the update event of the last one, a reboot restores 200, the number reached. |
| SendLists.TidsDiffer | genie-bt-mesh-sdk-rel_1.3.4/genie_service/core/src/genie_transport.c:414-429 | Sixty-four generated transaction ids in a row are different. |
| SendLists.SendList.Send | genie-bt-mesh-sdk-rel_1.3.4/genie_service/core/src/genie_transport.c:314-380 | All outcomes, the id taken or generated, and the exact list: an older message with the same id dropped, the new one sent once, and queued iff it is of a kind to be repeated, has a retry period and there is room; the mutex stays locked iff an older message was dropped. |
| SendLists.SendList.Ack | genie-bt-mesh-sdk-rel_1.3.4/genie_service/core/src/genie_transport.c:540-581 | The one message with this id is told of success and dropped; nothing happens to the others. |
| SendLists.SendList.TimerCallback | genie-bt-mesh-sdk-rel_1.3.4/genie_service/core/src/genie_transport.c:461-530 | Every overdue message before the first one without retries left is sent once more and gets its next time; that one is told of the timeout and dropped; nothing happens to the others. |
| SendLists.SendList.RemoveTid | genie-bt-mesh-sdk-rel_1.3.4/genie_service/core/src/genie_transport.c:277-307 | Exactly the message with this id leaves the list; the mutex stays locked iff there was one. |
| SendLists.SendList.Run | genie-bt-mesh-sdk-rel_1.3.4/genie_service/core/src/genie_transport.c:179-581 | Any run: pending ids are distinct, at most 8 messages pend, each message is sent at most retry + 1 times, gets at most one verdict, and a timeout verdict only after the last retry. |

## Left out

- RunQueues.RunQueue.Remove: never of the last ready task, since the idle task is always ready; the source answers it with a fatal error.
- Kernels.Kernel.TaskDel: a second deletion is covered until one has broken the invariant, and as long as no storage on the dead task's list has become something other than a mutex.
- Kernels.Kernel.ObjPend: the counters and messages behind semaphores, queues and events are modelled in their own classes, where the place a task takes in the wait list, and its moves when priorities change, are left open; this member only covers the kernel side, for a timeout that is not zero.
- Kernels.Kernel.MutexLock: is not called by the idle task, which never waits. The same holds for sleeping.
- KernelRuns.Run: skips calls a caller must not make: objects of the wrong kind where the source does not look, creation in storage that is in use, the idle task blocking, a second deletion of a task that died holding mutexes, after which the invariant can be broken.
- KernelRuns.LeavesOnTime: for runs in which no single update of the tick list moves time on by more than 2^31 ticks; `Kernels.Kernel.TickUpdate` says what any update does.
- Heaps.Heap.AddRegion: for a start that is at most the length away from alignment; otherwise the length wraps.
- Heaps.Heap.InitHead: for the same starts, and a head and a pool structure of at most 900 bytes together, whose exact sizes depend on the compiler.
- Heaps.Heap.Free: of live pointers only; the checks against corrupted or foreign blocks are diagnostics.
- BlockPools.Pool.Init: for a block size that is neither 0, where the loop never ends, nor so large that doubling it wraps.
- RingBuffers.RingBuf.Push: for lengths below 2^32 - 4, above which header plus payload wraps; lengths are stored least significant byte first.
- Fifos.Fifo.In: update in place is captured, concurrent use by an interrupt handler is not.
- WeekTimers.TimeService.PeriodicStart: for offsets of at most 12 bits of minutes and 7-bit schedules, as the message handler passes them, and the statement about the instant for years up to 2100.
- WeekTimers.TimeService.Tick: with a fixed time zone, no new synchronisation while timers are armed, the work item run in the second it is submitted, and more than eight days before the counter ends.
- SeqStorage.SeqStore.Run: within one IV index, with writes that succeed and numbers below 24 bits; a failed read counts as no number, although the source then tests an uninitialised word, and a node that is not restored sends nothing before it is provisioned anew.
- SendLists.SendList.Send: on a provisioned node, for a message with data, and with memory for the list entry; the transport mutex is a count of locks left behind, and the time of the next callback is not modelled.
- Multi-core branches, context switches, interrupt nesting, stack and trace hooks, and the stopped system state: machine level. Round-robin time slices only rotate a ready list, as yielding does.
- Dynamic creation and deletion of kernel objects: the static versions plus allocation.
- The dispatch of small requests to the fixed-block pool in front of the heap, statistics and leak checks.
- One-shot timers, slot clean-up and the periodic synchronisation request in genie_time.c: they add cases, not harder properties.
- Duplicate detection by transaction id on reception, segmentation counts, and all message encodings of the mesh models.
- Storage other than the sequence number, encryption, provisioning, over-the-air update and low power: thin layers over code that is not shown.
