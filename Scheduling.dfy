/**
 * The scheduling policy of `Schedule` (TaskScheduler/Src/main.c) on the
 * sequence view of the ready queue, with the invariants it keeps and the
 * round-robin order it produces.
 */
module Scheduling {
  import opened Layout
  import opened Queue

  /** The ready queue holds distinct tasks and ends in the idle task. */
  ghost predicate IdleAtTail(ready: seq<int>)
  {
    Members(ready) && ready != [] && ready[|ready| - 1] == IDLE_TASK
  }

  /**
   * The scheduler's view: the ready queue ends in idle, and the running
   * task (NULL before the first Schedule) is not queued unless it is idle.
   */
  ghost predicate Schedulable(current: int, ready: seq<int>)
  {
    && IdleAtTail(ready)
    && (current == NULL || IsTask(current))
    && (current != NULL && current != IDLE_TASK ==> current !in ready)
  }

  /** The result of a Schedule call: the running task and the ready queue. */
  datatype Selection = Selection(current: int, ready: seq<int>)

  /** Every task is Ready. */
  const ALL_READY: seq<TaskState> := [Ready, Ready, Ready, Ready, Ready]

  /**
   * What Schedule dereferences: the ready head once a task is running, and
   * an idle task behind the head whenever the outgoing task is re-enqueued
   * (the scan at queue.c:54 does not stop at NULL).
   */
  predicate CanSchedule(current: int, ready: seq<int>, states: seq<TaskState>)
  {
    && |states| == NUM_TASKS
    && (current == NULL || IsTask(current))
    && (forall i :: 0 <= i < |ready| ==> IsTask(ready[i]))
    && (current != NULL ==> ready != [])
    && (current != NULL && ready[0] != IDLE_TASK && current != IDLE_TASK && states[current] == Ready
        ==> ready[1..] == [] || IDLE_TASK in ready[1..])
  }

  /**
   * Schedule: the first call takes the head unless it is idle; later calls
   * rotate a non-idle head in and the outgoing Ready task in before idle,
   * and fall back to idle, without dequeuing it, only when the running task
   * is no longer Ready.
   */
  function Scheduled(current: int, ready: seq<int>, states: seq<TaskState>): (s: Selection)
    requires CanSchedule(current, ready, states)
    ensures s.current == current || (ready != [] && s.current == ready[0])
    ensures s.current == NULL <==> current == NULL && (ready == [] || ready[0] == IDLE_TASK)
    ensures ready != [] && ready[0] == IDLE_TASK ==> s.ready == ready
  {
    if current == NULL then
      if DequeueRefused(ready, DequeueWithRearIdleTask) then Selection(NULL, ready)
      else Selection(ready[0], ready[1..])
    else if ready[0] != IDLE_TASK then
      if current != IDLE_TASK && states[current] == Ready then
        Selection(ready[0], InsertBeforeIdle(ready[1..], current))
      else
        Selection(ready[0], ready[1..])
    else if current != IDLE_TASK && states[current] != Ready then
      Selection(ready[0], ready)
    else
      Selection(current, ready)
  }

  // ---------------------------------------------------------------------
  // Invariants
  // ---------------------------------------------------------------------

  /** Re-enqueuing before idle keeps idle last and the members distinct. */
  lemma InsertBeforeIdleAtTail(ready: seq<int>, t: int)
    requires IdleAtTail(ready) && IsTask(t) && t !in ready
    ensures IdleAtTail(InsertBeforeIdle(ready, t))
    ensures forall x :: x in InsertBeforeIdle(ready, t) <==> x in ready || x == t
  {
    var rest := ready[..|ready| - 1];
    assert ready == rest + [IDLE_TASK];
    assert IDLE_TASK !in rest by {
      forall i | 0 <= i < |rest| ensures rest[i] != IDLE_TASK {
        assert rest[i] == ready[i];
      }
    }
    InsertBeforeIdleKeepsIdleLast(rest, t);
    var r := rest + [t, IDLE_TASK];
    forall i, j | 0 <= i < j < |r| ensures r[i] != r[j] {
      if j < |rest| {
        assert r[i] == ready[i] && r[j] == ready[j];
      } else if i < |rest| {
        assert r[i] == ready[i];
      }
    }
  }

  /** Schedule keeps idle at the tail of the ready queue and the running task out of it. */
  lemma ScheduleKeepsInvariant(current: int, ready: seq<int>, states: seq<TaskState>)
    requires Schedulable(current, ready) && |states| == NUM_TASKS
    ensures CanSchedule(current, ready, states)
    ensures Schedulable(Scheduled(current, ready, states).current, Scheduled(current, ready, states).ready)
  {
    assert IDLE_TASK in ready;
    if ready[0] != IDLE_TASK {
      var rest := ready[1..];
      assert rest[|rest| - 1] == IDLE_TASK;
      assert IdleAtTail(rest);
      assert ready[0] !in rest by {
        forall i | 0 <= i < |rest| ensures rest[i] != ready[0] {
          assert rest[i] == ready[i + 1];
        }
      }
      if current != NULL && current != IDLE_TASK && states[current] == Ready {
        InsertBeforeIdleAtTail(rest, current);
      }
    }
  }

  /**
   * No task is lost or duplicated: after Schedule a task is queued or
   * running exactly when it was queued before, or it was running and Ready.
   * In particular a running task that has become Blocked is descheduled.
   */
  lemma ScheduleAccountsForEveryTask(current: int, ready: seq<int>, states: seq<TaskState>, x: int)
    requires Schedulable(current, ready) && |states| == NUM_TASKS && IsTask(x)
    ensures CanSchedule(current, ready, states)
    ensures x in Scheduled(current, ready, states).ready || x == Scheduled(current, ready, states).current
        <==> x in ready || (x == current && states[current] == Ready)
  {
    ScheduleKeepsInvariant(current, ready, states);
    assert ready == [ready[0]] + ready[1..];
    if current != NULL && ready[0] != IDLE_TASK && current != IDLE_TASK && states[current] == Ready {
      InsertBeforeIdleAtTail(ready[1..], current);
    }
  }

  // ---------------------------------------------------------------------
  // Round robin
  // ---------------------------------------------------------------------

  /** The running task is a task, and idle is at the tail of the ready queue. */
  ghost predicate Dispatched(s: Selection)
  {
    Schedulable(s.current, s.ready) && s.current != NULL
  }

  /** n consecutive Schedule calls while every task stays Ready. */
  ghost function Rounds(n: nat, start: Selection): (s: Selection)
    requires Dispatched(start)
    ensures Dispatched(s)
  {
    if n == 0 then start
    else
      var s := Rounds(n - 1, start);
      ScheduleKeepsInvariant(s.current, s.ready, ALL_READY);
      Scheduled(s.current, s.ready, ALL_READY)
  }

  /** Non-idle tasks, each once, running in the listed order. */
  ghost predicate Cycle(order: seq<int>)
  {
    Members(order) && order != [] && IDLE_TASK !in order
  }

  /** The ready queue when order[k] runs: the tasks after it, then those before it, then idle. */
  lemma CycleStateIsSchedulable(order: seq<int>, k: int)
    requires Cycle(order) && 0 <= k < |order|
    ensures Dispatched(Selection(order[k], order[k + 1..] + order[..k] + [IDLE_TASK]))
  {
    var r := order[k + 1..] + order[..k] + [IDLE_TASK];
    forall i | 0 <= i < |r| ensures IsTask(r[i]) && r[i] != order[k] {
      if i < |order| - k - 1 {
        assert r[i] == order[k + 1 + i];
      } else if i < |order| - 1 {
        assert r[i] == order[i - (|order| - k - 1)];
      }
    }
    forall i, j | 0 <= i < j < |r| ensures r[i] != r[j] {
      var a := |order| - k - 1;
      if j < a {
        assert r[i] == order[k + 1 + i] && r[j] == order[k + 1 + j];
      } else if j < |order| - 1 {
        if i < a {
          assert r[i] == order[k + 1 + i] && r[j] == order[j - a];
        } else {
          assert r[i] == order[i - a] && r[j] == order[j - a];
        }
      } else {
        assert r[j] == IDLE_TASK;
        if i < a { assert r[i] == order[k + 1 + i]; } else { assert r[i] == order[i - a]; }
      }
    }
    assert order[k] in order;
  }

  /**
   * A Ready non-idle task handing over to a non-idle head goes back in
   * just before idle, behind everything else that was waiting.
   */
  lemma RotateBehindWaiting(prev: int, head: int, rest: seq<int>)
    requires IsTask(prev) && prev != IDLE_TASK && IsTask(head) && head != IDLE_TASK
    requires (forall i :: 0 <= i < |rest| ==> IsTask(rest[i])) && IDLE_TASK !in rest
    ensures CanSchedule(prev, [head] + (rest + [IDLE_TASK]), ALL_READY)
    ensures Scheduled(prev, [head] + (rest + [IDLE_TASK]), ALL_READY) == Selection(head, rest + [prev, IDLE_TASK])
  {
    var ready := [head] + (rest + [IDLE_TASK]);
    assert ready[1..] == rest + [IDLE_TASK];
    assert IDLE_TASK in ready[1..];
    InsertBeforeIdleKeepsIdleLast(rest, prev);
  }

  /**
   * One Schedule call of the cycle: with order[k - 1] running, order[k]
   * at the head and every task Ready, order[k] runs next and order[k - 1]
   * goes back in just before idle.
   */
  lemma RoundRobinStep(order: seq<int>, k: int)
    requires Cycle(order) && 0 < k < |order|
    ensures CanSchedule(order[k - 1], order[k..] + order[..k - 1] + [IDLE_TASK], ALL_READY)
    ensures Scheduled(order[k - 1], order[k..] + order[..k - 1] + [IDLE_TASK], ALL_READY)
         == Selection(order[k], order[k + 1..] + order[..k] + [IDLE_TASK])
  {
    var prev := order[k - 1];
    var rest := order[k + 1..] + order[..k - 1];
    forall i | 0 <= i < |rest| ensures IsTask(rest[i]) && rest[i] != IDLE_TASK {
      if i < |order| - k - 1 { assert rest[i] == order[k + 1 + i]; }
      else { assert rest[i] == order[i - (|order| - k - 1)]; }
    }
    assert order[k..] + order[..k - 1] + [IDLE_TASK] == [order[k]] + (rest + [IDLE_TASK]);
    RotateBehindWaiting(prev, order[k], rest);
    assert order[..k - 1] + [prev] == order[..k];
    assert rest + [prev, IDLE_TASK] == order[k + 1..] + order[..k] + [IDLE_TASK];
  }

  /**
   * With every task Ready and idle at the tail, the k-th Schedule call runs
   * the k-th task of the cycle, and the ready queue is the cycle rotated.
   */
  lemma {:induction false} RoundRobinPrefix(order: seq<int>, k: nat)
    requires Cycle(order) && k < |order|
    ensures Dispatched(Selection(order[0], order[1..] + [IDLE_TASK]))
    ensures Rounds(k, Selection(order[0], order[1..] + [IDLE_TASK]))
         == Selection(order[k], order[k + 1..] + order[..k] + [IDLE_TASK])
  {
    CycleStateIsSchedulable(order, 0);
    var start := Selection(order[0], order[1..] + [IDLE_TASK]);
    if k == 0 {
      assert order[1..] + order[..0] + [IDLE_TASK] == order[1..] + [IDLE_TASK];
    } else {
      RoundRobinPrefix(order, k - 1);
      var s := Rounds(k - 1, start);
      assert s == Selection(order[k - 1], order[k..] + order[..k - 1] + [IDLE_TASK]);
      RoundRobinStep(order, k);
      assert Rounds(k, start) == Scheduled(s.current, s.ready, ALL_READY);
    }
  }

  /**
   * Round-robin fairness: while every task stays Ready, the k-th of the
   * first |order| Schedule calls gives the processor to the k-th task of
   * the cycle.
   */
  lemma RoundRobin(order: seq<int>)
    requires Cycle(order)
    ensures Dispatched(Selection(order[0], order[1..] + [IDLE_TASK]))
    ensures forall k :: 0 <= k < |order| ==>
      Rounds(k, Selection(order[0], order[1..] + [IDLE_TASK])).current == order[k]
  {
    CycleStateIsSchedulable(order, 0);
    var start := Selection(order[0], order[1..] + [IDLE_TASK]);
    forall k | 0 <= k < |order| ensures Rounds(k, start).current == order[k] {
      RoundRobinPrefix(order, k);
    }
  }

  /** The Schedule call after the last task of the cycle runs hands the processor back to the first. */
  lemma CycleWrapsAround(order: seq<int>)
    requires Cycle(order)
    ensures CanSchedule(order[|order| - 1], order[..|order| - 1] + [IDLE_TASK], ALL_READY)
    ensures Scheduled(order[|order| - 1], order[..|order| - 1] + [IDLE_TASK], ALL_READY)
         == Selection(order[0], order[1..] + [IDLE_TASK])
  {
    var last := |order| - 1;
    var ready := order[..last] + [IDLE_TASK];
    assert forall i :: 0 <= i < |ready| ==> IsTask(ready[i]) by {
      forall i | 0 <= i < |ready| ensures IsTask(ready[i]) {
        if i < last { assert ready[i] == order[i]; }
      }
    }
    if last > 0 {
      var rest := order[1..last];
      assert ready == [order[0]] + (rest + [IDLE_TASK]);
      assert ready[1..] == rest + [IDLE_TASK];
      assert IDLE_TASK !in rest by {
        forall i | 0 <= i < |rest| ensures rest[i] != IDLE_TASK { assert rest[i] == order[i + 1]; }
      }
      InsertBeforeIdleKeepsIdleLast(rest, order[last]);
      assert rest + [order[last], IDLE_TASK] == order[1..] + [IDLE_TASK];
    }
  }

  /** ... and after |order| calls the scheduler is back where it started. */
  lemma RoundRobinPeriod(order: seq<int>)
    requires Cycle(order)
    ensures Dispatched(Selection(order[0], order[1..] + [IDLE_TASK]))
    ensures Rounds(|order|, Selection(order[0], order[1..] + [IDLE_TASK]))
         == Selection(order[0], order[1..] + [IDLE_TASK])
  {
    CycleStateIsSchedulable(order, 0);
    var start := Selection(order[0], order[1..] + [IDLE_TASK]);
    var last := |order| - 1;
    RoundRobinPrefix(order, last);
    var s := Rounds(last, start);
    assert s == Selection(order[last], order[..last] + [IDLE_TASK]) by {
      assert order[last + 1..] + order[..last] + [IDLE_TASK] == order[..last] + [IDLE_TASK];
    }
    CycleWrapsAround(order);
  }

  /**
   * When only idle is queued, a running task that stays Ready keeps the
   * processor for ever: Schedule never hands it to idle.
   */
  lemma {:induction false} LoneReadyTaskKeepsRunning(t: int, n: nat)
    requires IsTask(t) && t != IDLE_TASK
    ensures Dispatched(Selection(t, [IDLE_TASK]))
    ensures Rounds(n, Selection(t, [IDLE_TASK])) == Selection(t, [IDLE_TASK])
  {
    if n > 0 {
      LoneReadyTaskKeepsRunning(t, n - 1);
    }
  }
}
