/**
 * The kernel state and the thread-level operations of
 * TaskScheduler/Src/main.c: the five statically allocated TCBs, the ready
 * and blocked queues, the running task, the tick counter, SRAM as words,
 * and the core registers the context switch touches.
 *
 * The TCBs are held as parallel arrays indexed by slot; slot t holds the
 * TCB main() gives TaskID_e t, so a TCB pointer is a slot index or NULL.
 */
module Kernel {
  import opened Layout
  import opened Queue
  import opened Scheduling
  import opened Delay
  import opened StackFrame
  import opened Invariant
  import opened Boot

  class Scheduler {
    // TaskControlBlock_t fields, one entry per TCB
    const taskId: array<int>
    const pspValue: array<int>
    const blockCount: array<int>
    const state: array<TaskState>
    const handler: array<int>
    const next: array<int>

    /** SRAM, one entry per 32-bit word. */
    const ram: array<int>

    /** gReadyQueue.head, gBlockedQueue.head, gpCurrentRunningTask, gTickCount */
    var readyHead: int
    var blockedHead: int
    var current: int
    var tickCount: int

    /** The PendSV pending bit of ICSR. */
    var pendSwitch: bool

    /** Core registers: MSP and PSP (word indices), LR, and R4–R11. */
    var msp: int
    var psp: int
    var lr: int
    var regs: seq<int>

    /** The two queues as sequences, head first. */
    ghost var ready: seq<int>
    ghost var blocked: seq<int>

    /** One entry per TCB in each field array, the arrays distinct, and eight saved registers. */
    ghost predicate Shape()
      reads this`regs
    {
      && taskId.Length == NUM_TASKS && pspValue.Length == NUM_TASKS && blockCount.Length == NUM_TASKS
      && state.Length == NUM_TASKS && handler.Length == NUM_TASKS && next.Length == NUM_TASKS
      && ram.Length == SRAM_WORDS
      && taskId != pspValue && taskId != blockCount && taskId != handler && taskId != next && taskId != ram
      && pspValue != blockCount && pspValue != handler && pspValue != next && pspValue != ram
      && blockCount != handler && blockCount != next && blockCount != ram
      && handler != next && handler != ram
      && next != ram
      && |regs| == SAVED_REGS
    }

    /** The kernel invariant (module Invariant) on the current contents of the arrays. */
    ghost predicate Valid()
      reads this`readyHead, this`blockedHead, this`current, this`tickCount, this`ready, this`blocked, this`regs
      reads taskId, pspValue, blockCount, state, next
    {
      && Shape()
      && Identified(taskId[..])
      && QueuesInv(next[..], readyHead, blockedHead, current, ready, blocked, blockCount[..])
      && TasksInv(state[..], blockCount[..], tickCount, current, ready, blocked)
      && StacksInv(pspValue[..])
    }

    /**
     * The kernel invariant holds of the current state once it holds of
     * values known to be the current contents of the arrays and fields.
     */
    lemma ValidFromValues(ids: seq<int>, links: seq<int>, keys: seq<int>, states: seq<TaskState>, psps: seq<int>,
                          head: int, blockedHead': int, running: int, queue: seq<int>, waiting: seq<int>, tick: int)
      requires Shape()
      requires taskId[..] == ids && next[..] == links && blockCount[..] == keys && state[..] == states
      requires pspValue[..] == psps
      requires readyHead == head && blockedHead == blockedHead' && current == running
      requires ready == queue && blocked == waiting && tickCount == tick
      requires Identified(ids) && QueuesInv(links, head, blockedHead', running, queue, waiting, keys)
      requires TasksInv(states, keys, tick, running, queue, waiting) && StacksInv(psps)
      ensures Valid()
    {
    }

    /** The globals before main() runs: empty queues, no running task, tick 0. */
    ghost predicate Reset()
      reads this
    {
      && readyHead == NULL && blockedHead == NULL && current == NULL
      && ready == [] && blocked == []
      && tickCount == 0 && !pendSwitch
    }

    /** The statically zero-initialised globals of main.c. */
    constructor ()
      ensures Shape() && Reset()
      ensures fresh(taskId) && fresh(pspValue) && fresh(blockCount) && fresh(state)
      ensures fresh(handler) && fresh(next) && fresh(ram)
    {
      taskId := new int[NUM_TASKS](_ => 0);
      pspValue := new int[NUM_TASKS](_ => 0);
      blockCount := new int[NUM_TASKS](_ => 0);
      state := new TaskState[NUM_TASKS](_ => Ready);
      handler := new int[NUM_TASKS](_ => 0);
      next := new int[NUM_TASKS](_ => NULL);
      ram := new int[SRAM_WORDS](_ => 0);
      readyHead, blockedHead, current := NULL, NULL, NULL;
      tickCount := 0;
      pendSwitch := false;
      msp, psp, lr := 0, 0, 0;
      regs := [0, 0, 0, 0, 0, 0, 0, 0];
      ready, blocked := [], [];
    }

    /**
     * Task_Init(pTask, TaskID, pPSPValue, pTaskHandler): fills in the TCB in
     * `slot` and primes the 16 words below `start` so that the first switch
     * to the task enters its handler in thread mode on PSP.
     */
    method TaskInit(slot: int, id: int, start: int, entry: int)
      requires Shape() && IsTask(slot) && PRIMED_WORDS <= start <= ram.Length
      modifies taskId, pspValue, blockCount, state, handler, next, ram
      ensures taskId[..] == old(taskId[..])[slot := id]
      ensures handler[..] == old(handler[..])[slot := entry]
      ensures blockCount[..] == old(blockCount[..])[slot := 0]
      ensures state[..] == old(state[..])[slot := Ready]
      ensures next[..] == old(next[..])[slot := NULL]
      ensures pspValue[..] == old(pspValue[..])[slot := start - PRIMED_WORDS]
      ensures ram[..] == Primed(old(ram[..]), start, entry)
    {
      taskId[slot] := id;
      pspValue[slot] := start;
      blockCount[slot] := 0;
      state[slot] := Ready;
      handler[slot] := entry;
      next[slot] := NULL;
      var p := PushInitialFrame(pspValue[slot], entry);
      pspValue[slot] := p;
    }

    /**
     * The pushes of Task_Init below `start`: xPSR, PC and LR, then thirteen
     * zeros for R12, R3–R0 and R11–R4; returns the stack pointer left.
     */
    method PushInitialFrame(start: int, entry: int) returns (p: int)
      requires ram.Length == SRAM_WORDS && PRIMED_WORDS <= start <= ram.Length
      modifies ram
      ensures p == start - PRIMED_WORDS
      ensures ram[..] == Primed(old(ram[..]), start, entry)
    {
      p := start;
      p := p - 1;
      ram[p] := DUMMY_XPSR;
      p := p - 1;
      ram[p] := entry;
      p := p - 1;
      ram[p] := EXC_RETURN_THREAD_PSP;
      for j := 0 to 13
        invariant p == start - 3 - j
        invariant ram[start - 1] == DUMMY_XPSR && ram[start - 2] == entry && ram[start - 3] == EXC_RETURN_THREAD_PSP
        invariant forall w :: p <= w < start - 3 ==> ram[w] == 0
        invariant forall w :: 0 <= w < ram.Length && !(p <= w < start) ==> ram[w] == old(ram[w])
      {
        p := p - 1;
        ram[p] := 0;
      }
      assert ram[..] == Primed(old(ram[..]), start, entry);
    }

    /**
     * main() up to the first task: MSP at the scheduler stack, the five TCBs
     * initialised with `entries[t]` as task t's handler, tasks 1–4 and idle
     * enqueued in that order, the first Schedule, and PSP loaded with the
     * running task's stack pointer.
     */
    method Start(entries: seq<int>)
      requires Shape() && Reset() && |entries| == NUM_TASKS
      modifies this, taskId, pspValue, blockCount, state, handler, next, ram
      ensures Valid()
      ensures current == TASK1 && ready == [TASK2, TASK3, TASK4, IDLE_TASK] && blocked == []
      ensures tickCount == 0 && !pendSwitch
      ensures handler[..] == entries
      ensures forall t :: IsTask(t) ==> pspValue[t] == StackStart(t) - PRIMED_WORDS
      ensures FramesPrimed(ram[..], entries, ALL_TASKS)
      ensures msp == SchedulerStackStart() && psp == pspValue[TASK1]
    {
      msp := SchedulerStackStart();
      SetUpTasks(entries);
      ghost var handlers, psps, mem := handler[..], pspValue[..], ram[..];
      FirstSchedule();
      Schedule();
      assert state[..] == ALL_READY;
      assert Selection(current, ready) == Selection(TASK1, [TASK2, TASK3, TASK4, IDLE_TASK]);
      assert current == TASK1 && ready == [TASK2, TASK3, TASK4, IDLE_TASK];
      psp := GetPspValue();
      assert handler[..] == handlers && pspValue[..] == psps && ram[..] == mem;
    }

    /**
     * main() before its first Schedule: the five TCBs initialised and
     * enqueued, so that the kernel invariant holds with every task Ready
     * and queued, none running and none blocked.
     */
    method SetUpTasks(entries: seq<int>)
      requires Shape() && Reset() && |entries| == NUM_TASKS
      modifies this`readyHead, this`ready, taskId, pspValue, blockCount, state, handler, next, ram
      ensures Valid() && ready == [TASK1, TASK2, TASK3, TASK4, IDLE_TASK]
      ensures current == NULL && blocked == [] && tickCount == 0 && !pendSwitch && msp == old(msp)
      ensures state[..] == ALL_READY && handler[..] == entries
      ensures forall t :: IsTask(t) ==> pspValue[t] == StackStart(t) - PRIMED_WORDS
      ensures FramesPrimed(ram[..], entries, ALL_TASKS)
    {
      InitAllTasks(entries);
      ghost var ids, handlers, keys, states := taskId[..], handler[..], blockCount[..], state[..];
      ghost var links, psps, mem := next[..], pspValue[..], ram[..];
      EnqueueAllTasks();
      assert taskId[..] == ids && handler[..] == handlers && blockCount[..] == keys && state[..] == states;
      assert pspValue[..] == psps && ram[..] == mem;
      BootedIsValid(ids, handlers, keys, states, links, psps, mem, entries, next[..], readyHead);
    }

    /** The five Task_Init calls of main(), tasks 1–4 and then idle. */
    method InitAllTasks(entries: seq<int>)
      requires Shape() && |entries| == NUM_TASKS
      modifies taskId, pspValue, blockCount, state, handler, next, ram
      ensures Booted(taskId[..], handler[..], blockCount[..], state[..], next[..], pspValue[..], ram[..], entries, ALL_TASKS)
    {
      ghost var done := {};
      InitTask(TASK1, entries, done);
      done := done + {TASK1};
      InitTask(TASK2, entries, done);
      done := done + {TASK2};
      InitTask(TASK3, entries, done);
      done := done + {TASK3};
      InitTask(TASK4, entries, done);
      done := done + {TASK4};
      InitTask(IDLE_TASK, entries, done);
      done := done + {IDLE_TASK};
      assert done == ALL_TASKS;
    }

    /**
     * Task_Init for TCB t at its stack start, as main() calls it, after the
     * TCBs in `done`: slot t gets TaskID_e t and handler `entries[t]`, and
     * the TCBs and stacks set up before are left intact.
     */
    method InitTask(t: int, entries: seq<int>, ghost done: set<int>)
      requires Shape() && IsTask(t) && t !in done
      requires Booted(taskId[..], handler[..], blockCount[..], state[..], next[..], pspValue[..], ram[..], entries, done)
      modifies taskId, pspValue, blockCount, state, handler, next, ram
      ensures Booted(taskId[..], handler[..], blockCount[..], state[..], next[..], pspValue[..], ram[..], entries, done + {t})
    {
      BootStep(taskId[..], handler[..], blockCount[..], state[..], next[..], pspValue[..], ram[..], entries, done, t);
      TaskInit(t, t, StackStart(t), entries[t]);
    }

    /**
     * The five REGULAR_ENQUEUE calls of main(): the ready queue becomes
     * tasks 1–4 followed by idle, and the blocked queue stays empty.
     */
    method EnqueueAllTasks()
      requires Shape() && Identified(taskId[..]) && readyHead == NULL && blockedHead == NULL
      modifies next, this`readyHead, this`ready
      ensures ready == [TASK1, TASK2, TASK3, TASK4, IDLE_TASK]
      ensures IsQueue(next[..], readyHead, ready) && IsQueue(next[..], blockedHead, [])
    {
      ready := [];
      EnqueueReady(TASK1);
      EnqueueReady(TASK2);
      EnqueueReady(TASK3);
      EnqueueReady(TASK4);
      EnqueueReady(IDLE_TASK);
    }

    /** One REGULAR_ENQUEUE of main(): task t goes to the rear of the ready queue. */
    method EnqueueReady(t: int)
      requires Shape() && Identified(taskId[..]) && IsQueue(next[..], readyHead, ready) && IsTask(t) && t !in ready
      modifies next, this`readyHead, this`ready
      ensures ready == old(ready) + [t] && IsQueue(next[..], readyHead, ready)
    {
      readyHead := Enqueue(next, taskId, blockCount, readyHead, t, RegularEnqueue, ready);
      ready := ready + [t];
    }

    /** Get_PSP_Value: the saved stack pointer of the running task. */
    function GetPspValue(): (r: int)
      reads this`readyHead, this`blockedHead, this`current, this`tickCount, this`ready, this`blocked, this`regs
      reads taskId, pspValue, blockCount, state, next
      requires Shape() && IsTask(current)
      ensures Valid() ==> StackLimit(current) <= r && r + SAVED_REGS <= StackStart(current)
    {
      pspValue[current]
    }

    /** Save_PSP_Value: records the running task's stack pointer; no other TCB changes. */
    method SavePspValue(value: int)
      requires Shape() && IsTask(current)
      modifies pspValue
      ensures pspValue[..] == old(pspValue[..])[current := value]
    {
      pspValue[current] := value;
    }

    /** Pend_PendSV: sets the PendSV pending bit. */
    method PendPendSV()
      modifies this`pendSwitch
      ensures pendSwitch
    {
      pendSwitch := true;
    }

    /** Increment_Global_Tick_Count: one uint32 increment. */
    method IncrementGlobalTickCount()
      requires Valid()
      modifies this`tickCount
      ensures Valid()
      ensures tickCount == Increment(old(tickCount))
    {
      tickCount := Increment(tickCount);
    }

    /**
     * Schedule: picks the next running task by the policy `Scheduled`,
     * dequeuing from and re-enqueuing into the ready list in place.
     */
    method Schedule()
      requires Valid()
      modifies this`current, this`readyHead, this`ready, next
      ensures Valid()
      ensures Selection(current, ready) == Scheduled(old(current), old(ready), state[..])
      ensures blocked == old(blocked) && tickCount == old(tickCount) && pendSwitch == old(pendSwitch)
      ensures msp == old(msp) && lr == old(lr)
    {
      ghost var states, keys, links := state[..], blockCount[..], next[..];
      ghost var ids, psps := taskId[..], pspValue[..];
      ScheduleKeepsInvariant(current, ready, states);
      var head, running := readyHead, current;
      ghost var queue := ready;
      if running == NULL {
        var task;
        head, task := Dequeue(next, taskId, head, DequeueWithRearIdleTask, queue);
        running := task;
        if task != NULL {
          queue := queue[1..];
        }
      } else if taskId[head] != IDLE_TASK {
        var scheduledOut := running;
        head, running := Dequeue(next, taskId, head, DequeueWithRearIdleTask, queue);
        queue := queue[1..];
        if taskId[scheduledOut] != IDLE_TASK && state[scheduledOut] == Ready {
          assert scheduledOut !in blocked;
          head := Enqueue(next, taskId, blockCount, head, scheduledOut, EnqueueWithRearIdleTask, queue);
          forall x | x in blocked ensures next[..][x] == links[x] {
            assert next[x] == links[x];
          }
          queue := InsertBeforeIdle(queue, scheduledOut);
        }
      } else if taskId[running] != IDLE_TASK && state[running] != Ready {
        running := head;
      }
      assert Selection(running, queue) == Scheduled(current, ready, states);
      ScheduleStep(links, next[..], readyHead, head, blockedHead, current, running,
                   ready, queue, blocked, keys, states, tickCount);
      readyHead, current, ready := head, running, queue;
      ValidFromValues(ids, next[..], keys, states, psps, head, blockedHead, running, queue, blocked, tickCount);
    }

    /**
     * Task_Delay: a non-idle running task records `tickCount + delay`
     * (uint32) as its block count, becomes Blocked, is inserted into the
     * blocked queue in block-count order, and pends a context switch. The
     * idle task changes nothing.
     */
    method TaskDelay(delay: int)
      requires Valid() && IsTask(current) && state[current] == Ready && IsUint32(delay)
      modifies blockCount, state, next, this`blockedHead, this`blocked, this`pendSwitch
      ensures Valid()
      ensures current == IDLE_TASK ==>
        && blocked == old(blocked) && blockCount[..] == old(blockCount[..]) && state[..] == old(state[..])
        && next[..] == old(next[..]) && pendSwitch == old(pendSwitch)
      ensures current != IDLE_TASK ==>
        && blockCount[..] == old(blockCount[..])[current := BlockCount(tickCount, delay)]
        && state[..] == old(state[..])[current := Blocked]
        && blocked == InsertSorted(old(blocked), current, blockCount[..])
        && pendSwitch
    {
      if taskId[current] != IDLE_TASK {
        BlockRunningTask(delay);
        ghost var keys, states := blockCount[..], state[..];
        PendPendSV();
        assert blockCount[..] == keys && state[..] == states;
      }
    }

    /**
     * The body of Task_Delay for a task other than idle, up to Pend_PendSV:
     * the running task gets block count `tickCount + delay` (uint32), turns
     * Blocked, and joins the blocked queue in block-count order.
     */
    method BlockRunningTask(delay: int)
      requires Valid() && IsTask(current) && current != IDLE_TASK && state[current] == Ready && IsUint32(delay)
      modifies blockCount, state, next, this`blockedHead, this`blocked
      ensures Valid()
      ensures blockCount[..] == old(blockCount[..])[current := BlockCount(tickCount, delay)]
      ensures state[..] == old(state[..])[current := Blocked]
      ensures blocked == InsertSorted(old(blocked), current, blockCount[..])
    {
      ghost var links := next[..];
      ghost var keys := blockCount[..];
      ghost var states := state[..];
      ghost var ids, psps := taskId[..], pspValue[..];
      ghost var count := BlockCount(tickCount, delay);
      assert current !in blocked;
      blockCount[current] := BlockCount(tickCount, delay);
      state[current] := Blocked;
      assert blockCount[..] == keys[current := count];
      assert state[..] == states[current := Blocked];
      blockedHead := Enqueue(next, taskId, blockCount, blockedHead, current, EnqueueSorted, blocked);
      forall x | x in ready ensures next[..][x] == links[x] {
        assert next[x] == links[x];
      }
      DelayStep(links, next[..], readyHead, old(blockedHead), blockedHead, current, ready, blocked, keys, states,
                tickCount, count);
      blocked := InsertSorted(blocked, current, blockCount[..]);
      ValidFromValues(ids, next[..], keys[current := count], states[current := Blocked], psps,
                      readyHead, blockedHead, current, ready, blocked, tickCount);
    }

    /**
     * Unblock_Tasks: while the head of the blocked queue has a block count
     * equal to the tick, moves it to the ready queue, before idle, as Ready.
     */
    method UnblockTasks()
      requires Valid() && (current == NULL || state[current] != Blocked)
      modifies state, next, this`readyHead, this`ready, this`blockedHead, this`blocked
      ensures Valid()
      ensures var n := DueCount(old(blocked), blockCount[..], tickCount);
        && blocked == old(blocked)[n..]
        && ready == old(ready)[..|old(ready)| - 1] + old(blocked)[..n] + [IDLE_TASK]
        && state[..] == Released(old(state[..]), old(blocked)[..n])
    {
      ghost var queued := blocked;
      ghost var waiting := ready[..|ready| - 1];
      ghost var states := state[..];
      ghost var k := 0;
      assert ready == waiting + [IDLE_TASK];
      assert Released(states, queued[..0]) == states;
      while blockedHead != NULL
        invariant Releasing(queued, waiting, states, k)
        decreases |queued| - k
      {
        if blockCount[blockedHead] == tickCount {
          ReleaseNext(queued, waiting, states, k);
          k := k + 1;
        } else {
          break;
        }
      }
      ReleasedAllDue(queued, waiting, states, k);
    }

    /** Unblock_Tasks' loop stops after releasing exactly the due tasks. */
    lemma ReleasedAllDue(queued: seq<int>, waiting: seq<int>, states: seq<TaskState>, k: int)
      requires Releasing(queued, waiting, states, k)
      requires blockedHead != NULL ==> blockCount[blockedHead] != tickCount
      ensures var n := DueCount(queued, blockCount[..], tickCount);
        && n == k && blocked == queued[n..] && ready == waiting + queued[..n] + [IDLE_TASK]
        && state[..] == Released(states, queued[..n])
    {
      DueCountIs(queued, blockCount[..], tickCount, k);
    }

    /**
     * Unblock_Tasks after releasing the first k tasks of `queued`, the
     * blocked queue it started from: the rest are still blocked, the k
     * released ones are Ready and follow the `waiting` tasks in the ready
     * queue, just before idle.
     */
    ghost predicate Releasing(queued: seq<int>, waiting: seq<int>, states: seq<TaskState>, k: int)
      reads this`readyHead, this`blockedHead, this`current, this`tickCount, this`ready, this`blocked, this`regs
      reads taskId, pspValue, blockCount, state, next
    {
      && Valid() && (current == NULL || state[current] != Blocked)
      && Members(queued) && 0 <= k <= |queued| && blocked == queued[k..]
      && ready == waiting + queued[..k] + [IDLE_TASK]
      && (forall i :: 0 <= i < k ==> blockCount[queued[i]] == tickCount)
      && |states| == NUM_TASKS && state[..] == Released(states, queued[..k])
    }

    /** One turn of Unblock_Tasks' loop that releases the head of the blocked queue. */
    method ReleaseNext(ghost queued: seq<int>, ghost waiting: seq<int>, ghost states: seq<TaskState>, ghost k: int)
      requires Releasing(queued, waiting, states, k)
      requires blockedHead != NULL && blockCount[blockedHead] == tickCount
      modifies state, next, this`readyHead, this`ready, this`blockedHead, this`blocked
      ensures k < |queued| && Releasing(queued, waiting, states, k + 1)
    {
      ReleaseHead();
      assert queued[..k + 1] == queued[..k] + [queued[k]];
    }

    /**
     * The body of Unblock_Tasks' loop: dequeue the head of the blocked
     * queue, mark it Ready, and enqueue it before idle.
     */
    method ReleaseHead()
      requires Valid() && blockedHead != NULL && (current == NULL || state[current] != Blocked)
      modifies state, next, this`readyHead, this`ready, this`blockedHead, this`blocked
      ensures Valid() && old(blocked) != []
      ensures blocked == old(blocked)[1..]
      ensures ready == old(ready)[..|old(ready)| - 1] + [old(blocked)[0], IDLE_TASK]
      ensures state[..] == old(state[..])[old(blocked)[0] := Ready]
    {
      ghost var links, states, keys := next[..], state[..], blockCount[..];
      ghost var ids, psps := taskId[..], pspValue[..];
      ghost var readyHead0, blockedHead0, ready0, blocked0 := readyHead, blockedHead, ready, blocked;
      var head, temp := Dequeue(next, taskId, blockedHead, RegularDequeue, blocked);
      blockedHead := head;
      state[temp] := Ready;
      assert temp !in ready && IDLE_TASK in ready;
      readyHead := Enqueue(next, taskId, blockCount, readyHead, temp, EnqueueWithRearIdleTask, ready);
      ReleaseStep(links, next[..], readyHead0, readyHead, blockedHead0, head,
                  current, ready0, blocked0, keys, states, tickCount);
      ready, blocked := InsertBeforeIdle(ready0, temp), blocked0[1..];
      ValidFromValues(ids, next[..], keys, states[temp := Ready], psps, readyHead, head, current, ready, blocked, tickCount);
    }
  }

  /** `states` with every task of `ts` set to Ready, as Unblock_Tasks leaves them. */
  ghost function Released(states: seq<TaskState>, ts: seq<int>): (r: seq<TaskState>)
    requires forall i :: 0 <= i < |ts| ==> 0 <= ts[i] < |states|
    ensures |r| == |states|
    ensures forall t :: 0 <= t < |states| ==> r[t] == (if t in ts then Ready else states[t])
  {
    if ts == [] then states
    else Released(states, ts[..|ts| - 1])[ts[|ts| - 1] := Ready]
  }

  /** Unblock_Tasks stops after exactly `DueCount` tasks. */
  lemma DueCountIs(blocked: seq<int>, keys: seq<int>, tick: int, k: int)
    requires Keyed(blocked, keys) && 0 <= k <= |blocked|
    requires forall i :: 0 <= i < k ==> keys[blocked[i]] == tick
    requires k < |blocked| ==> keys[blocked[k]] != tick
    ensures DueCount(blocked, keys, tick) == k
  {
    var n := DueCount(blocked, keys, tick);
    if n < k {
      assert false;
    } else if k < n {
      assert false;
    }
  }
}
