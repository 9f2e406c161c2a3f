/**
 * What main() of TaskScheduler/Src/main.c sets up before the first task
 * runs, on values: the TCBs Task_Init has filled in, and the state the
 * five REGULAR_ENQUEUE calls and the first Schedule start from.
 */
module Boot {
  import opened Layout
  import opened Queue
  import opened Scheduling
  import opened StackFrame
  import opened Invariant

  /**
   * Every TCB in `done` holds what Task_Init gives it in main(): its own
   * TaskID_e, handler `entries[t]`, block count 0, state Ready, no
   * successor, a stack pointer 16 words below its stack start, and the
   * primed frame for its handler in those 16 words.
   */
  ghost predicate Booted(ids: seq<int>, handlers: seq<int>, keys: seq<int>, states: seq<TaskState>,
                         links: seq<int>, psps: seq<int>, mem: seq<int>, entries: seq<int>, done: set<int>)
  {
    && |ids| == NUM_TASKS && |handlers| == NUM_TASKS && |keys| == NUM_TASKS && |states| == NUM_TASKS
    && |links| == NUM_TASKS && |psps| == NUM_TASKS
    && FramesPrimed(mem, entries, done)
    && forall t :: t in done ==>
         && ids[t] == t && handlers[t] == entries[t] && keys[t] == 0 && states[t] == Ready
         && links[t] == NULL && psps[t] == StackStart(t) - PRIMED_WORDS
  }

  /** Task_Init on one more TCB, at its own stack start, extends what is booted by that TCB. */
  lemma BootStep(ids: seq<int>, handlers: seq<int>, keys: seq<int>, states: seq<TaskState>,
                 links: seq<int>, psps: seq<int>, mem: seq<int>, entries: seq<int>, done: set<int>, t: int)
    requires Booted(ids, handlers, keys, states, links, psps, mem, entries, done)
    requires IsTask(t) && t !in done
    ensures PRIMED_WORDS <= StackStart(t) <= |mem|
    ensures Booted(ids[t := t], handlers[t := entries[t]], keys[t := 0], states[t := Ready], links[t := NULL],
                   psps[t := StackStart(t) - PRIMED_WORDS], Primed(mem, StackStart(t), entries[t]), entries, done + {t})
  {
    StackRegionsDisjoint(t, t, 0);
    PrimedFrameFits(t);
    PrimingKeepsOtherFrames(mem, entries, done, t);
  }

  /**
   * Once all five TCBs are booted and enqueued in the order 1, 2, 3, 4,
   * idle, the kernel invariant holds with no task running and nothing
   * blocked, and the first Schedule picks task 1 and leaves 2, 3, 4, idle.
   */
  lemma BootedIsValid(ids: seq<int>, handlers: seq<int>, keys: seq<int>, states: seq<TaskState>,
                      links: seq<int>, psps: seq<int>, mem: seq<int>, entries: seq<int>,
                      links': seq<int>, readyHead: int)
    requires Booted(ids, handlers, keys, states, links, psps, mem, entries, ALL_TASKS)
    requires IsQueue(links', readyHead, [TASK1, TASK2, TASK3, TASK4, IDLE_TASK])
    ensures Identified(ids) && handlers == entries && states == ALL_READY && keys == [0, 0, 0, 0, 0]
    ensures forall t :: IsTask(t) ==> psps[t] == StackStart(t) - PRIMED_WORDS
    ensures StacksInv(psps)
    ensures QueuesInv(links', readyHead, NULL, NULL, [TASK1, TASK2, TASK3, TASK4, IDLE_TASK], [], keys)
    ensures TasksInv(states, keys, 0, NULL, [TASK1, TASK2, TASK3, TASK4, IDLE_TASK], [])
  {
    forall t | IsTask(t) ensures t in ALL_TASKS && StackLimit(t) <= psps[t] {
      PrimedFrameFits(t);
    }
    assert states == ALL_READY;
    assert handlers == entries;
  }

  /** The first Schedule of main() picks task 1 and leaves 2, 3, 4 and idle queued. */
  lemma FirstSchedule()
    ensures CanSchedule(NULL, [TASK1, TASK2, TASK3, TASK4, IDLE_TASK], ALL_READY)
    ensures Scheduled(NULL, [TASK1, TASK2, TASK3, TASK4, IDLE_TASK], ALL_READY)
      == Selection(TASK1, [TASK2, TASK3, TASK4, IDLE_TASK])
  {
  }
}
