/**
 * The kernel invariant on values (snapshots of the TCB arrays and the
 * queue sequences), and the step lemmas that show each operation of
 * TaskScheduler/Src/main.c keeps it.
 */
module Invariant {
  import opened Layout
  import opened Queue
  import opened Scheduling

  /**
   * The linked lists are the ready and blocked sequences; the ready queue
   * ends in idle and does not hold the running task unless it is idle; the
   * blocked queue never holds idle, shares no task with the ready queue,
   * and is sorted by block count.
   */
  ghost predicate QueuesInv(links: seq<int>, readyHead: int, blockedHead: int, current: int,
                            ready: seq<int>, blocked: seq<int>, keys: seq<int>)
  {
    && IsQueue(links, readyHead, ready)
    && IsQueue(links, blockedHead, blocked)
    && Schedulable(current, ready)
    && IDLE_TASK !in blocked
    && (forall t :: t in blocked ==> t !in ready)
    && |keys| == NUM_TASKS
    && SortedBy(blocked, keys)
  }

  /**
   * A task is Blocked exactly when it is in the blocked queue, none is
   * Terminated, every task is queued or running, and the tick and the
   * block counts are 32-bit values.
   */
  ghost predicate TasksInv(states: seq<TaskState>, keys: seq<int>, tick: int, current: int,
                           ready: seq<int>, blocked: seq<int>)
  {
    && |states| == NUM_TASKS && |keys| == NUM_TASKS
    && (forall t :: 0 <= t < NUM_TASKS ==> (states[t] == Blocked <==> t in blocked))
    && (forall t :: 0 <= t < NUM_TASKS ==> states[t] != Terminated)
    && (forall t :: 0 <= t < NUM_TASKS ==> t in ready || t in blocked || t == current)
    && IsUint32(tick)
    && (forall t :: 0 <= t < NUM_TASKS ==> IsUint32(keys[t]))
  }

  /** Every saved stack pointer lies in its own task's stack, with room for R4–R11 above it. */
  ghost predicate StacksInv(psps: seq<int>)
  {
    |psps| == NUM_TASKS
    && forall t :: 0 <= t < NUM_TASKS ==> StackLimit(t) <= psps[t] && psps[t] + 8 <= StackStart(t)
  }

  /** A stack pointer saved inside the task's own stack, with room for R4–R11, keeps the stacks invariant. */
  lemma SavedPointerInStack(psps: seq<int>, t: int, v: int)
    requires StacksInv(psps) && IsTask(t) && StackLimit(t) <= v && v + 8 <= StackStart(t)
    ensures StacksInv(psps[t := v])
  {
  }

  /** Schedule keeps the invariant: the blocked list is untouched and no task is lost. */
  lemma ScheduleStep(links: seq<int>, links': seq<int>, readyHead: int, readyHead': int, blockedHead: int,
                     current: int, current': int, ready: seq<int>, ready': seq<int>, blocked: seq<int>,
                     keys: seq<int>, states: seq<TaskState>, tick: int)
    requires QueuesInv(links, readyHead, blockedHead, current, ready, blocked, keys)
    requires TasksInv(states, keys, tick, current, ready, blocked)
    requires CanSchedule(current, ready, states)
    requires Selection(current', ready') == Scheduled(current, ready, states)
    requires IsQueue(links', readyHead', ready')
    requires forall x :: x in blocked ==> links'[x] == links[x]
    ensures QueuesInv(links', readyHead', blockedHead, current', ready', blocked, keys)
    ensures TasksInv(states, keys, tick, current', ready', blocked)
  {
    ScheduleKeepsInvariant(current, ready, states);
    IsQueueFrame(links, links', blockedHead, blocked);
    forall t | 0 <= t < NUM_TASKS
      ensures (t in blocked ==> t !in ready')
      ensures t in ready' || t in blocked || t == current'
    {
      ScheduleAccountsForEveryTask(current, ready, states, t);
    }
  }

  /** The sorted insertion holds the old members and the new task, and nothing else. */
  lemma InsertSortedMembers(q: seq<int>, t: int, keys: seq<int>)
    requires Keyed(q, keys) && 0 <= t < |keys|
    ensures forall x :: x in InsertSorted(q, t, keys) <==> x in q || x == t
  {
    InsertSortedAt(q, t, keys);
    SpliceMultiset(q, SortedPosition(q, t, keys), t);
    var r := InsertSorted(q, t, keys);
    forall x ensures x in r <==> x in q || x == t {
      assert x in r <==> x in multiset(r);
      assert x in q <==> x in multiset(q);
    }
  }

  /** A block count written for a task outside the blocked list keeps the list sorted. */
  lemma SortedByUpdate(blocked: seq<int>, keys: seq<int>, t: int, count: int)
    requires |keys| == NUM_TASKS && Members(blocked) && SortedBy(blocked, keys)
    requires 0 <= t < NUM_TASKS && t !in blocked
    ensures SortedBy(blocked, keys[t := count])
  {
    var keys' := keys[t := count];
    forall i, j | 0 <= i < j < |blocked| ensures keys'[blocked[i]] <= keys'[blocked[j]] {
      assert blocked[i] != t && blocked[j] != t;
    }
  }

  /**
   * Task_Delay keeps the queue part of the invariant: the running task
   * joins the blocked list, in order, with its new block count.
   */
  lemma DelayKeepsQueues(links: seq<int>, links': seq<int>, readyHead: int, blockedHead: int, blockedHead': int,
                         current: int, ready: seq<int>, blocked: seq<int>, keys: seq<int>, count: int)
    requires QueuesInv(links, readyHead, blockedHead, current, ready, blocked, keys)
    requires IsTask(current) && current != IDLE_TASK && current !in blocked
    requires IsQueue(links', blockedHead', InsertSorted(blocked, current, keys[current := count]))
    requires forall x :: x in ready ==> links'[x] == links[x]
    ensures QueuesInv(links', readyHead, blockedHead', current, ready,
                      InsertSorted(blocked, current, keys[current := count]), keys[current := count])
  {
    var keys' := keys[current := count];
    SortedByUpdate(blocked, keys, current, count);
    InsertSortedKeepsSorted(blocked, current, keys');
    InsertSortedMembers(blocked, current, keys');
    IsQueueFrame(links, links', readyHead, ready);
  }

  /**
   * Task_Delay keeps the task part of the invariant: the running task is
   * now Blocked and in the blocked list, with a 32-bit block count.
   */
  lemma DelayKeepsTasks(current: int, ready: seq<int>, blocked: seq<int>, keys: seq<int>,
                        states: seq<TaskState>, tick: int, count: int)
    requires TasksInv(states, keys, tick, current, ready, blocked) && Members(blocked)
    requires IsTask(current) && current !in blocked && IsUint32(count)
    ensures TasksInv(states[current := Blocked], keys[current := count], tick, current, ready,
                     InsertSorted(blocked, current, keys[current := count]))
  {
    InsertSortedMembers(blocked, current, keys[current := count]);
  }

  /**
   * One whole Task_Delay of a task other than idle keeps the invariant:
   * the running task, Ready and so in neither queue, gets a 32-bit block
   * count and is inserted into the blocked queue, where the enqueue
   * rewrote no link of a ready task.
   */
  lemma DelayStep(links: seq<int>, links': seq<int>, readyHead: int, blockedHead: int, blockedHead': int,
                  current: int, ready: seq<int>, blocked: seq<int>, keys: seq<int>, states: seq<TaskState>,
                  tick: int, count: int)
    requires QueuesInv(links, readyHead, blockedHead, current, ready, blocked, keys)
    requires TasksInv(states, keys, tick, current, ready, blocked)
    requires IsTask(current) && current != IDLE_TASK && states[current] == Ready && IsUint32(count)
    requires IsQueue(links', blockedHead', InsertSorted(blocked, current, keys[current := count]))
    requires forall x :: x in ready ==> links'[x] == links[x]
    ensures QueuesInv(links', readyHead, blockedHead', current, ready,
                      InsertSorted(blocked, current, keys[current := count]), keys[current := count])
    ensures TasksInv(states[current := Blocked], keys[current := count], tick, current, ready,
                     InsertSorted(blocked, current, keys[current := count]))
  {
    DelayKeepsQueues(links, links', readyHead, blockedHead, blockedHead', current, ready, blocked, keys, count);
    DelayKeepsTasks(current, ready, blocked, keys, states, tick, count);
  }

  /**
   * One step of Unblock_Tasks keeps the invariant: the head of the blocked
   * list, marked Ready, goes in before idle.
   */
  lemma ReleaseKeepsQueues(links: seq<int>, links': seq<int>, readyHead: int, readyHead': int,
                           blockedHead: int, blockedHead': int, current: int, ready: seq<int>,
                           blocked: seq<int>, keys: seq<int>)
    requires QueuesInv(links, readyHead, blockedHead, current, ready, blocked, keys)
    requires blocked != [] && blocked[0] != current
    requires IsQueue(links', blockedHead', blocked[1..])
    requires IsQueue(links', readyHead', InsertBeforeIdle(ready, blocked[0]))
    ensures QueuesInv(links', readyHead', blockedHead', current, InsertBeforeIdle(ready, blocked[0]), blocked[1..], keys)
  {
    var task := blocked[0];
    var rest := blocked[1..];
    assert task !in rest by {
      forall i | 0 <= i < |rest| ensures rest[i] != task { assert rest[i] == blocked[i + 1]; }
    }
    assert forall x :: x in rest ==> x in blocked;
    InsertBeforeIdleAtTail(ready, task);
    forall i, j | 0 <= i < j < |rest| ensures keys[rest[i]] <= keys[rest[j]] {
      assert rest[i] == blocked[i + 1] && rest[j] == blocked[j + 1];
    }
  }

  lemma ReleaseKeepsTasks(current: int, ready: seq<int>, blocked: seq<int>, keys: seq<int>,
                          states: seq<TaskState>, tick: int)
    requires TasksInv(states, keys, tick, current, ready, blocked)
    requires Members(blocked) && blocked != [] && IdleAtTail(ready) && blocked[0] !in ready
    ensures TasksInv(states[blocked[0] := Ready], keys, tick, current, InsertBeforeIdle(ready, blocked[0]), blocked[1..])
  {
    var task := blocked[0];
    var rest := blocked[1..];
    assert task !in rest by {
      forall i | 0 <= i < |rest| ensures rest[i] != task { assert rest[i] == blocked[i + 1]; }
    }
    assert forall x :: x in blocked <==> x == task || x in rest;
    InsertBeforeIdleAtTail(ready, task);
  }

  /**
   * One whole step of Unblock_Tasks keeps the invariant: the blocked head
   * is dequeued, marked Ready and linked in before idle, where the enqueue
   * rewrote no link of another queued task.
   */
  lemma ReleaseStep(links: seq<int>, links': seq<int>, readyHead: int, readyHead': int,
                    blockedHead: int, blockedHead': int, current: int, ready: seq<int>,
                    blocked: seq<int>, keys: seq<int>, states: seq<TaskState>, tick: int)
    requires QueuesInv(links, readyHead, blockedHead, current, ready, blocked, keys)
    requires TasksInv(states, keys, tick, current, ready, blocked)
    requires blocked != [] && (current == NULL || states[current] != Blocked)
    requires IsQueue(links, blockedHead', blocked[1..])
    requires IsQueue(links', readyHead', InsertBeforeIdle(ready, blocked[0]))
    requires forall x :: 0 <= x < NUM_TASKS && x != blocked[0] && x !in ready ==> links'[x] == links[x]
    ensures QueuesInv(links', readyHead', blockedHead', current, InsertBeforeIdle(ready, blocked[0]), blocked[1..], keys)
    ensures TasksInv(states[blocked[0] := Ready], keys, tick, current, InsertBeforeIdle(ready, blocked[0]), blocked[1..])
    ensures InsertBeforeIdle(ready, blocked[0]) == ready[..|ready| - 1] + [blocked[0], IDLE_TASK]
  {
    var task := blocked[0];
    var rest := blocked[1..];
    assert blocked == [task] + rest;
    forall x | x in rest ensures links'[x] == links[x] {
      assert x in blocked && x != task;
    }
    IsQueueFrame(links, links', blockedHead', rest);
    ReleaseKeepsQueues(links, links', readyHead, readyHead', blockedHead, blockedHead', current, ready, blocked, keys);
    ReleaseKeepsTasks(current, ready, blocked, keys, states, tick);
    ReleasedBeforeIdle(ready, task);
  }

  /** With idle last, the task released goes in just before it. */
  lemma ReleasedBeforeIdle(ready: seq<int>, t: int)
    requires IdleAtTail(ready)
    ensures InsertBeforeIdle(ready, t) == ready[..|ready| - 1] + [t, IDLE_TASK]
  {
    var waiting := ready[..|ready| - 1];
    assert ready == waiting + [IDLE_TASK];
    assert IDLE_TASK !in waiting by {
      forall i | 0 <= i < |waiting| ensures waiting[i] != IDLE_TASK { assert waiting[i] == ready[i]; }
    }
    InsertBeforeIdleKeepsIdleLast(waiting, t);
  }
}
