# TaskScheduler scheduling core in Dafny

This project models the scheduling and context-switch core of the
TaskScheduler kernel for a Cortex-M microcontroller and proves properties
of it. The kernel runs four LED tasks and an idle task on one core. It
keeps five statically allocated task control blocks (TCBs), a ready queue
and a blocked queue threaded through the TCBs' `next` fields, a running
task pointer and a tick counter. A SysTick interrupt advances the tick
and wakes delayed tasks. A PendSV interrupt switches tasks by saving
R4–R11 on the outgoing task's stack and restoring those of the task that
`Schedule` picks.

Modules, following the source files:

- `Layout` (`Inc/main.h`): task identifiers, task states, the stack and
  SRAM layout, the xPSR, EXC_RETURN and clock constants. It models uint32
  addition, and the SysTick reload value `SysTick_Init` computes.
- `Queue` (`Src/queue.c`): `Enqueue` in its three modes and `Dequeue` in
  its two modes. They are methods over the `next` array, with an integer
  head and `-1` as NULL. A ghost sequence is tied to the links by
  `IsQueue`. Each method is proved against a sequence function:
  `InsertBeforeIdle` for the rear-idle mode, append for the regular mode,
  and `InsertSorted` for the sorted mode.
- `Scheduling`: the policy of `Schedule` as a function on the sequence
  view (`Scheduled`), the queue shape it keeps, and round-robin lemmas.
- `Delay`: the uint32 tick arithmetic of `Task_Delay` and
  `Increment_Global_Tick_Count`, and the number of tasks `Unblock_Tasks`
  releases (`DueCount`).
- `StackFrame`: `STMDB`/`LDMIA` and the frame `Task_Init` primes, as
  functions on the word view of SRAM.
- `Invariant`: the kernel invariant on values, and one lemma per
  operation showing that the operation keeps it.
- `Boot`: what `main()` has set up before its first `Schedule`.
- `Kernel` (`Src/main.c`): class `Scheduler` holds the TCB fields as
  parallel arrays indexed by `TaskID_e`, the queue heads, the running
  task, the tick, SRAM as a word array, and MSP, PSP, LR and R4–R11. Its
  methods are the operations of `main.c`, each proved against the
  functions above. Each method keeps `Valid()`, the kernel invariant:
  - both queues are well-formed lists;
  - idle is last in the ready queue;
  - the running task is not queued unless it is idle;
  - the blocked queue is sorted by block count;
  - a task is Blocked exactly when it is in the blocked queue;
  - every task is queued or running;
  - every saved stack pointer lies in its own stack.
- `Interrupts` (`Src/it.c`): `SysTick_Handler` and `PendSV_Handler`.
  The assembly is modelled one instruction at a time.

Where the code and its documentation differ, the model follows the code.
- Ties in `ENQUEUE_SORTED`. The comments give no rule for equal block
  counts; they speak only of smaller and bigger ones. The code puts a new
  task after an equal head but ahead of equal incumbents further down the
  queue (`Queue.InsertSortedTies`).
- Block-count wraparound. `block_count = gTickCount + DelayTickCount`
  wraps around at 2^32, and the blocked queue is sorted by the wrapped
  value. `Unblock_Tasks` tests only for equality at the head. A task whose
  deadline wrapped therefore sorts ahead of an earlier deadline and holds
  it back past its tick (`Delay.WrappedBlockCountHoldsBackDueTask`).
  `Task_Delay(0)` does the same without any overflow: its block count is
  the current tick, which the next SysTick has already passed, so the task
  waits 2^32 ticks at the head of the blocked queue and holds back every
  task behind it (`Delay.ZeroDelayWaitsFullWrap`,
  `Delay.ZeroDelayHoldsBackDueTask`). While no block count has wrapped and
  no task is pending with a delay of 0, every task is released at exactly
  its deadline (`Delay.WakesExactlyAtDeadline`, `Delay.DueTasksAreReleased`).

Documented behaviour the model confirms: a running task that stays Ready
stays scheduled (`main.c:122-123`). When the ready queue holds only idle,
such a task never yields to idle (`Scheduling.LoneReadyTaskKeepsRunning`).

Preconditions that the code assumes but does not check:
- The rear-idle enqueue requires idle to be in a non-empty queue, because
  the scan at `queue.c:54` would otherwise dereference NULL.
- `SysTick_Handler` requires the running task not to be Blocked. A
  `Task_Delay` pends PendSV with interrupts masked, and at equal priority
  PendSV, the lower exception number, runs before a pending SysTick. A
  running task that is still marked Blocked would otherwise be released
  into the ready queue while it is running.
- `Task_Delay` requires the running task to be Ready. A task calls it
  only while it runs, and the PendSV it pends switches the task out
  before it can run again.
- `PendSV_Handler` requires a running task and PSP inside that task's
  stack with room for R4–R11. It requires MSP inside the scheduler stack
  with room for LR. It re-establishes both on return.

## Model

| member | source | states |
|---|---|---|
| Layout.AddUint32 | TaskScheduler/Src/main.c:378 | the uint32 sum is a uint32, and it is the true sum or the true sum less 2^32 |
| Layout.StackStartAddress | TaskScheduler/Src/main.c:56-60 | the stack start each Task_Init call receives lies above the scheduler stack start and at most SRAM_END, a whole number of task stacks below SRAM_END |
| Layout.ByteAddress | TaskScheduler/Inc/main.h:36-38 | the word index of the byte address of word w is w again |
| Layout.StackStart | TaskScheduler/Inc/main.h:41-46 | every task stack start lies inside SRAM and a whole task stack above the scheduler stack start |
| Layout.SramEndValue | TaskScheduler/Inc/main.h:36-38 | SRAM_END is 0x20020000, and SRAM is 32768 words |
| Layout.StackStartsStepDown | TaskScheduler/Inc/main.h:41-46 | the stack starts of T1, T2, T3, T4, idle and the scheduler are SRAM_END − k·SIZE_TASK_STACK for k = 0..5 |
| Layout.StackStartsApart | TaskScheduler/Inc/main.h:41-46 | two different task stacks start at least one task stack apart |
| Layout.StackRegionsDisjoint | TaskScheduler/Inc/main.h:32-46 | the five task stacks and the scheduler stack are pairwise disjoint and lie inside SRAM |
| Layout.PrimedFrameFits | TaskScheduler/Inc/main.h:32-33 | the 16-word (64-byte) primed frame fits inside every 1024-byte task stack |
| Layout.DummyXpsrIsThumbBit | TaskScheduler/Inc/main.h:54 | DUMMY_XPSR has exactly bit 24, the Thumb bit, set |
| Layout.SysTickReload | TaskScheduler/Src/main.c:221-222 | the reload value is a uint32; plus one, it is SYSTICK_TIM_CLK / TickHz when TickHz does not exceed the clock |
| Layout.ReloadForOneKilohertz | TaskScheduler/Src/main.c:221-222 | at TICK_HZ = 1000 off the 16 MHz clock the reload is 15999, which fits the 24-bit reload field |
| Queue.IdleIndex | TaskScheduler/Src/queue.c:53-57 | the position the walk looks for: an idle task, with no idle task before it |
| Queue.InsertBeforeIdle | TaskScheduler/Src/queue.c:33-64 | ENQUEUE_WITH_REAR_IDLE_TASK on the sequence view: one element longer, and the rear element stays the rear (placement: InsertBeforeIdleAt; contents: InsertBeforeIdleMultiset) |
| Queue.InsertSorted | TaskScheduler/Src/queue.c:94-139 | ENQUEUE_SORTED on the sequence view: one element longer (placement: InsertSortedAt; order and contents: InsertSortedKeepsSorted) |
| Queue.InsertAfterHead | TaskScheduler/Src/queue.c:111-138 | the scan past the head on the sequence view: one element longer (placement: InsertAfterHeadAt) |
| Queue.Enqueued | TaskScheduler/Src/queue.c:30-141 | the queue each Enqueue mode prescribes is one element longer than the old one |
| Queue.EnqueuedAddsTask | TaskScheduler/Src/queue.c:30-141 | in every mode, Enqueue adds exactly the new task and loses none (multiset) |
| Queue.DequeueRefused | TaskScheduler/Src/queue.c:156-182 | a regular Dequeue refuses exactly an empty queue; a granted Dequeue has a head, and in rear-idle mode that head is not idle |
| Queue.SortedPosition | TaskScheduler/Src/queue.c:97-138 | where ENQUEUE_SORTED inserts: at the front if and only if the queue is empty or the head's key is strictly greater; every element after the head and before the position has a strictly smaller key; the element at the position has a key at least as large |
| Queue.SortedPositionUnique | TaskScheduler/Src/queue.c:97-138 | that characterisation pins the position down uniquely |
| Queue.ScanPosition | TaskScheduler/Src/queue.c:113-131 | the scan after the head stops at the first element whose key is not below the new task's, or at the end |
| Queue.InsertBeforeIdleAt | TaskScheduler/Src/queue.c:43-63 | the rear-idle insertion splices the task in immediately before the first idle task |
| Queue.InsertBeforeIdleKeepsIdleLast | TaskScheduler/Src/queue.c:49-63 | with idle last, the task lands just before idle and every other element keeps its order |
| Queue.InsertSortedAt | TaskScheduler/Src/queue.c:94-139 | the sorted insertion splices the task in at SortedPosition |
| Queue.InsertAfterHeadAt | TaskScheduler/Src/queue.c:111-138 | the scan past the head splices the task in at ScanPosition |
| Queue.InsertSortedTies | TaskScheduler/Src/queue.c:104-129 | a new task with a key equal to the head's goes after the head; one equal to a later element's goes ahead of that element |
| Queue.InsertSortedKeepsSorted | TaskScheduler/Src/queue.c:94-139 | the sorted insertion keeps the queue non-decreasing in block count and adds exactly the new task (multiset) |
| Queue.InsertBeforeIdleMultiset | TaskScheduler/Src/queue.c:33-64 | the rear-idle insertion adds exactly the new task (multiset) |
| Queue.SpliceIsQueue | TaskScheduler/Src/queue.c:59-62 | pointing the predecessor at the task and the task at the successor splices it into the list; no other link changes |
| Queue.RelinkBeforeIdle | TaskScheduler/Src/queue.c:33-64 | the links after a rear-idle insertion form InsertBeforeIdle of the old queue |
| Queue.RelinkAtRear | TaskScheduler/Src/queue.c:67-90 | the links after a regular insertion form the old queue followed by the task |
| Queue.RelinkSorted | TaskScheduler/Src/queue.c:94-139 | the links after a sorted insertion form InsertSorted of the old queue |
| Queue.Enqueue | TaskScheduler/Src/queue.c:30-141 | the new head and links form the queue the mode prescribes (append, before idle, or sorted); only the links of the task and of queue members change |
| Queue.EnqueueBeforeIdle | TaskScheduler/Src/queue.c:33-64 | an empty queue becomes [task]; an idle head gets the task in front; otherwise the task goes just before idle |
| Queue.SeekBeforeIdle | TaskScheduler/Src/queue.c:53-57 | the walk stops at the element whose successor is the first idle task |
| Queue.EnqueueAtRear | TaskScheduler/Src/queue.c:67-90 | the queue becomes the old queue followed by the task, whose link is NULL |
| Queue.EnqueueByBlockCount | TaskScheduler/Src/queue.c:94-140 | the queue becomes InsertSorted of the old queue under the current block counts |
| Queue.LinkAfterHead | TaskScheduler/Src/queue.c:111-138 | when the head's key does not exceed the task's, the scan relinks the task in at SortedPosition, which is after the head |
| Queue.Dequeue | TaskScheduler/Src/queue.c:154-190 | an empty queue, or an idle head in rear-idle mode, yields NULL and an unchanged head; otherwise it yields the old head, and the new head starts the rest of the queue; rear-idle mode never yields idle; no link changes |
| Scheduling.Scheduled | TaskScheduler/Src/main.c:92-133 | the next running task is the old one or the old ready head; it is NULL exactly when nothing was running and the queue was empty or idle-headed; an idle head leaves the ready queue as it was |
| Scheduling.InsertBeforeIdleAtTail | TaskScheduler/Src/main.c:114 | re-enqueuing the outgoing task before idle keeps idle last and adds exactly that task |
| Scheduling.ScheduleKeepsInvariant | TaskScheduler/Src/main.c:97-132 | given idle last and the running task not queued, Schedule dereferences only what exists, and both facts hold afterwards |
| Scheduling.ScheduleAccountsForEveryTask | TaskScheduler/Src/main.c:103-132 | after Schedule, a task is queued or running if and only if it was queued, or was running and Ready; a Blocked task is not re-inserted |
| Scheduling.RotateBehindWaiting | TaskScheduler/Src/main.c:103-115 | with every task Ready, a non-idle head starts running and the outgoing task goes behind the waiting tasks, before idle |
| Scheduling.RoundRobinStep | TaskScheduler/Src/main.c:103-115 | one Schedule moves a cycle of Ready tasks on by one position |
| Scheduling.RoundRobinPrefix | TaskScheduler/Src/main.c:92-133 | after k calls, task order[k] runs and the ready queue is the rest of the cycle, rotated, then idle |
| Scheduling.RoundRobin | TaskScheduler/Src/main.c:92-133 | with every task Ready, the k-th Schedule runs the k-th task of the initial order |
| Scheduling.CycleWrapsAround | TaskScheduler/Src/main.c:103-115 | after the last task of the cycle, the first runs again |
| Scheduling.RoundRobinPeriod | TaskScheduler/Src/main.c:92-133 | as many calls as there are Ready tasks bring the scheduler back to where it started |
| Scheduling.LoneReadyTaskKeepsRunning | TaskScheduler/Src/main.c:120-132 | a Ready task with only idle queued keeps running through any number of calls |
| Delay.Increment | TaskScheduler/Src/main.c:399-402 | gTickCount++ adds one, wrapping 2^32 − 1 to 0 |
| Delay.BlockCount | TaskScheduler/Src/main.c:378 | gTickCount + DelayTickCount is the sum, less 2^32 when it overflows |
| Delay.TickAfterIsModular | TaskScheduler/Src/main.c:399-402 | n increments take the tick to (tick + n) mod 2^32 |
| Delay.WakesExactlyAtDeadline | TaskScheduler/Src/main.c:378-415 | for a delay 0 < d < 2^32, the tick equals the block count after exactly d increments and after no fewer |
| Delay.ZeroDelayWaitsFullWrap | TaskScheduler/Src/main.c:378-415 | a delay of 0 equals the tick again only after 2^32 increments |
| Delay.TickAfter | TaskScheduler/Src/main.c:399-402 | the counter after n SysTicks stays a uint32 (its value: TickAfterIsModular) |
| Delay.DueCount | TaskScheduler/Src/main.c:413-434 | the released prefix: its tasks' block counts equal the tick, and the next one's does not |
| Delay.DueTasksAreReleased | TaskScheduler/Src/main.c:409-435 | with the blocked queue sorted and every block count ahead of the tick, the next tick releases exactly the tasks due at it, and the rest stay ahead |
| Delay.WrappedBlockCountHoldsBackDueTask | TaskScheduler/Src/main.c:378-434 | a block count that wrapped sorts ahead of a larger one and stops Unblock_Tasks from releasing the task that is due |
| Delay.ZeroDelayHoldsBackDueTask | TaskScheduler/Src/main.c:369-415 | at tick 100, a task delayed by 0 stores 100 and sorts ahead of one delayed by 5, which stores 105; at tick 105 Unblock_Tasks releases neither |
| StackFrame.StoreMultipleDecrementBefore | TaskScheduler/Src/it.c:34 | R4–R11 land in the 8 words below the pointer, lowest register lowest; no other word changes |
| StackFrame.LoadMultipleIncrementAfter | TaskScheduler/Src/it.c:47 | R4–R11 are the 8 words from the pointer up |
| StackFrame.SaveRestoreRoundTrip | TaskScheduler/Src/it.c:34-49 | loading from sp − 8 after storing below sp gives back the registers, and the pointer returns to sp |
| StackFrame.SavedFrameSurvivesOtherWrite | TaskScheduler/Src/it.c:34-47 | a word written outside the saved frame, such as LR on the scheduler stack, does not disturb it |
| StackFrame.SavingLeavesOtherFrames | TaskScheduler/Src/it.c:34-47 | storing one frame and writing one other word leave a disjoint frame as it was |
| StackFrame.PrimedFrame | TaskScheduler/Src/main.c:278-286 | the primed frame is 16 words |
| StackFrame.Primed | TaskScheduler/Src/main.c:275-289 | start − 1 is DUMMY_XPSR, start − 2 the handler, start − 3 EXC_RETURN_THREAD_PSP, start − 16 … start − 4 zero; nothing outside the 16 words changes |
| StackFrame.PrimedTaskResumesAtEntry | TaskScheduler/Src/it.c:47-49 | the first restore of a primed task loads zeros into R4–R11 and leaves PSP at start − 8; words 5, 6 and 7 of that frame are EXC_RETURN_THREAD_PSP, the handler and DUMMY_XPSR |
| StackFrame.PrimingKeepsOtherFrames | TaskScheduler/Src/main.c:56-60 | priming one task's stack adds its frame and keeps the frames already primed in the other stacks |
| Invariant.SavedPointerInStack | TaskScheduler/Src/main.c:323-326 | saving a stack pointer inside the running task's stack, with room for R4–R11, keeps every saved pointer in its own stack |
| Invariant.ScheduleStep | TaskScheduler/Src/main.c:92-133 | relinking the ready queue to Scheduled's result, with the blocked links untouched, keeps the kernel invariant |
| Invariant.InsertSortedMembers | TaskScheduler/Src/queue.c:94-139 | the sorted insertion holds exactly the old elements and the new task |
| Invariant.DelayKeepsQueues | TaskScheduler/Src/main.c:375-384 | blocking the running task keeps both queues well-formed and the blocked queue sorted under the new block counts |
| Invariant.DelayKeepsTasks | TaskScheduler/Src/main.c:375-384 | blocking the running task keeps "Blocked exactly when in the blocked queue" and "every task queued or running" |
| Invariant.DelayStep | TaskScheduler/Src/main.c:375-384 | the body of Task_Delay for a non-idle task keeps the whole kernel invariant |
| Invariant.ReleaseKeepsQueues | TaskScheduler/Src/main.c:419-425 | moving the blocked head to just before idle keeps both queues well-formed and sorted |
| Invariant.ReleaseKeepsTasks | TaskScheduler/Src/main.c:419-425 | moving the blocked head to the ready queue as Ready keeps the task-state invariant |
| Invariant.ReleaseStep | TaskScheduler/Src/main.c:417-427 | one turn of Unblock_Tasks' loop keeps the kernel invariant, and the released task lands just before idle |
| Invariant.ReleasedBeforeIdle | TaskScheduler/Src/main.c:425 | with idle last, the rear-idle enqueue appends the task in front of idle |
| Boot.BootStep | TaskScheduler/Src/main.c:56-60 | one more Task_Init at the task's own stack start extends the initialised TCBs and primed frames by that task |
| Boot.BootedIsValid | TaskScheduler/Src/main.c:56-67 | after the five Task_Init calls and the five regular enqueues, the kernel invariant holds, with every task Ready and queued, none running and none blocked |
| Boot.FirstSchedule | TaskScheduler/Src/main.c:70 | the first Schedule runs task 1 and leaves 2, 3, 4, idle queued |
| Kernel.Scheduler.constructor | TaskScheduler/Src/main.c:17-38 | the zero-initialised globals: empty queues, no running task, tick 0 |
| Kernel.Scheduler.TaskInit | TaskScheduler/Src/main.c:264-290 | the TCB gets its id and handler, block count 0, Ready and a NULL link; the saved pointer is 16 words below the start; SRAM changes exactly by the primed frame |
| Kernel.Scheduler.PushInitialFrame | TaskScheduler/Src/main.c:275-289 | the pushes and the 13-iteration loop write exactly the primed frame and return start − 16 |
| Kernel.Scheduler.Start | TaskScheduler/Src/main.c:47-79 | after main()'s set-up, the kernel invariant holds, task 1 runs, the ready queue is [2, 3, 4, idle], nothing is blocked, every frame is primed, MSP is at the scheduler stack and PSP is task 1's saved pointer |
| Kernel.Scheduler.SetUpTasks | TaskScheduler/Src/main.c:56-67 | before the first Schedule, the invariant holds with every task Ready, queued in the order 1, 2, 3, 4, idle, with its handler and primed frame |
| Kernel.Scheduler.InitAllTasks | TaskScheduler/Src/main.c:56-60 | the five Task_Init calls initialise every TCB and prime every stack |
| Kernel.Scheduler.InitTask | TaskScheduler/Src/main.c:56-60 | one Task_Init call of main() adds its TCB and frame and keeps those set up before |
| Kernel.Scheduler.EnqueueAllTasks | TaskScheduler/Src/main.c:63-67 | the five regular enqueues build the ready queue [1, 2, 3, 4, idle] |
| Kernel.Scheduler.EnqueueReady | TaskScheduler/Src/main.c:63-67 | one regular enqueue appends the task to the ready queue |
| Kernel.Scheduler.GetPspValue | TaskScheduler/Src/main.c:313-316 | the running task's saved pointer lies in its own stack, with room for R4–R11 |
| Kernel.Scheduler.SavePspValue | TaskScheduler/Src/main.c:323-326 | only the running task's saved pointer changes, to the given value |
| Kernel.Scheduler.PendPendSV | TaskScheduler/Src/main.c:355-362 | PendSV becomes pending |
| Kernel.Scheduler.IncrementGlobalTickCount | TaskScheduler/Src/main.c:399-402 | the tick advances by one in uint32 and the invariant holds |
| Kernel.Scheduler.Schedule | TaskScheduler/Src/main.c:92-133 | the running task and ready queue become Scheduled's result; the invariant holds; the blocked queue and tick are unchanged |
| Kernel.Scheduler.TaskDelay | TaskScheduler/Src/main.c:369-392 | a non-idle running task gets block count tick + delay (uint32), becomes Blocked, joins the blocked queue in sorted position, and PendSV is pended; for idle nothing changes |
| Kernel.Scheduler.BlockRunningTask | TaskScheduler/Src/main.c:375-384 | the block count, state and sorted insertion of Task_Delay, keeping the invariant |
| Kernel.Scheduler.UnblockTasks | TaskScheduler/Src/main.c:409-435 | exactly the DueCount tasks at the head of the blocked queue are released; they become Ready and join the ready queue before idle, in queue order; the invariant holds |
| Kernel.Scheduler.ReleasedAllDue | TaskScheduler/Src/main.c:413-434 | the loop stops after releasing exactly DueCount tasks |
| Kernel.Scheduler.ReleaseNext | TaskScheduler/Src/main.c:415-426 | one turn of the loop releases the next task of the blocked queue |
| Kernel.Scheduler.ReleaseHead | TaskScheduler/Src/main.c:417-427 | the blocked head is dequeued, becomes Ready and is enqueued just before idle |
| Kernel.Released | TaskScheduler/Src/main.c:422 | exactly the released tasks become Ready, and every other state is as before |
| Kernel.DueCountIs | TaskScheduler/Src/main.c:413-434 | a loop that releases k due tasks and stops at a head that is not due has released DueCount tasks |
| Interrupts.SysTickHandler | TaskScheduler/Src/it.c:63-73 | the tick advances by one; the tasks due at the new tick are released before idle, in order; PendSV is pended; the invariant holds |
| Interrupts.PendSVHandler | TaskScheduler/Src/it.c:28-54 | Schedule's selection is made; the outgoing task's saved pointer is PSP − 8 and its R4–R11 are stored below PSP; R4–R11 and PSP become those saved by the incoming task; keeping the task leaves PSP and R4–R11 as they were; LR and MSP are restored |
| Interrupts.SwitchRestoresSavedRegisters | TaskScheduler/Src/it.c:34-47 | the restore loads the registers just saved when the running task stays, and otherwise the incoming task's untouched frame |
| Interrupts.SaveContext | TaskScheduler/Src/it.c:32-38 | R4–R11 are stored below PSP, LR is pushed on the scheduler stack, and the running task's saved pointer becomes PSP − 8 |
| Interrupts.RestoreContext | TaskScheduler/Src/it.c:45-51 | R4–R11 are loaded from the running task's saved pointer, PSP is set 8 words above it, and LR is popped |
| Interrupts.StoreMultiple | TaskScheduler/Src/it.c:34 | SRAM changes exactly as STMDB stores R4–R11 below the pointer |
| Interrupts.LoadMultiple | TaskScheduler/Src/it.c:47 | R4–R11 become the 8 words at the pointer, and the pointer moves up 8 words |
| Interrupts.PushLr | TaskScheduler/Src/it.c:36 | MSP moves down one word, and LR is written there |
| Interrupts.PopLr | TaskScheduler/Src/it.c:51 | LR is read from MSP, and MSP moves up one word |

## Left out

- `led.c`, the LED task bodies and `IdleTask_Handler` are hardware I/O and infinite loops. A task handler is an opaque integer address.
- `SysTick_Init`'s register writes and `System_Exceptions_Enable` are memory-mapped I/O; only the reload arithmetic is modelled (`Layout.SysTickReload`).
- `Pend_PendSV`'s ICSR write is a boolean `pendSwitch`. The hardware clears the pending bit when PendSV is taken, so the handlers leave it alone.
- `Scheduler_Stack_Init` and `Switch_SP_To_PSP` are only the MSP and PSP assignments in `Kernel.Scheduler.Start`. The CONTROL register and the thread-mode switch are not modelled.
- The call `gpCurrentRunningTask->task_handler()` and the rest of `main()` after `Switch_SP_To_PSP` (LED set-up, SysTick start) are not modelled.
- PRIMASK (`INTERRUPT_DISABLE`/`INTERRUPT_ENABLE`), interrupt priorities and preemption are not modelled. Each handler and each `Task_Delay` is one atomic step, and the fact that `Task_Delay` returns only once the task is rescheduled is not modelled.
- The exception entry and return the hardware performs are not modelled: the stacking of R0–R3, R12, LR, PC and xPSR, and `BX LR`. The handler's PSP is the value after hardware stacking. The return address the `BL` instructions leave in LR is a parameter.
- The fault handlers (`it.c:80-117`) and the `printf` diagnostics of `Dequeue` are left out; only the NULL result of `Dequeue` is modelled.
- The `ENQUEUE`/`DEQUEUE` function-pointer fields and `queue_type` of the queue objects are left out. They are always bound to `Enqueue` and `Dequeue`, which are called directly.
- TCB pointers are slot indices, with slot t holding the TCB `main()` gives `TaskID_e` t. A pointer into SRAM is a word index. Byte addresses are `Layout.ByteAddress`.
- Several steps are split into helper methods so that each proof stays small: `SeekBeforeIdle`, `LinkAfterHead`, `PushInitialFrame`, `BlockRunningTask`, `ReleaseHead`/`ReleaseNext`, and the phases of `main()` (`InitTask`, `InitAllTasks`, `EnqueueReady`, `EnqueueAllTasks`, `SetUpTasks`). `Schedule` computes in locals and writes its three globals back once at the end; the globals hold the same values as in the source.
- Delay.DueTasksAreReleased: holds only while no block count has wrapped past 2^32 and no task is pending with a delay of 0 (its hypothesis `AllAhead` excludes both). Across a wrap the source's equality test does not release tasks in deadline order (see `Delay.WrappedBlockCountHoldsBackDueTask`).
