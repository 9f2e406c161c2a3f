/**
 * The tick-driven delay mechanism of TaskScheduler/Src/main.c on values:
 * the 32-bit tick counter, the block count Task_Delay records, and the
 * part of the blocked queue Unblock_Tasks releases on a tick.
 */
module Delay {
  import opened Layout
  import opened Queue

  // ---------------------------------------------------------------------
  // The tick counter
  // ---------------------------------------------------------------------

  /** `gTickCount++` on a uint32_t. */
  function Increment(tick: int): (r: int)
    requires IsUint32(tick)
    ensures IsUint32(r)
    ensures tick < UINT32_MODULUS - 1 ==> r == tick + 1
    ensures tick == UINT32_MODULUS - 1 ==> r == 0
  {
    AddUint32(tick, 1)
  }

  /** `gTickCount + DelayTickCount` as Task_Delay stores it in `block_count`. */
  function BlockCount(tick: int, delay: int): (r: int)
    requires IsUint32(tick) && IsUint32(delay)
    ensures IsUint32(r)
    ensures tick + delay < UINT32_MODULUS ==> r == tick + delay
    ensures tick + delay >= UINT32_MODULUS ==> r == tick + delay - UINT32_MODULUS
  {
    AddUint32(tick, delay)
  }

  /** The counter after n SysTick interrupts. */
  function TickAfter(tick: int, n: nat): (r: int)
    requires IsUint32(tick)
    ensures IsUint32(r)
  {
    if n == 0 then tick else Increment(TickAfter(tick, n - 1))
  }

  /** n increments of a uint32 counter add n modulo 2^32. */
  lemma {:induction false} TickAfterIsModular(tick: int, n: nat)
    requires IsUint32(tick)
    ensures TickAfter(tick, n) == (tick + n) % UINT32_MODULUS
  {
    if n > 0 {
      TickAfterIsModular(tick, n - 1);
      var m := UINT32_MODULUS;
      var q := (tick + n - 1) / m;
      assert tick + n - 1 == q * m + (tick + n - 1) % m;
      if (tick + n - 1) % m == m - 1 {
        assert tick + n == (q + 1) * m;
      } else {
        assert tick + n == q * m + ((tick + n - 1) % m + 1);
      }
    }
  }

  /**
   * A task delayed by 0 < d < 2^32 ticks at tick `tick` sees its block
   * count come round on exactly the d-th following SysTick, and on none
   * before it.
   */
  lemma WakesExactlyAtDeadline(tick: int, d: int, n: nat)
    requires IsUint32(tick) && 0 < d < UINT32_MODULUS
    ensures TickAfter(tick, d) == BlockCount(tick, d)
    ensures 0 < n < d ==> TickAfter(tick, n) != BlockCount(tick, d)
  {
    TickAfterIsModular(tick, d);
    TickAfterIsModular(tick, n);
  }

  /**
   * Task_Delay(0) stores the current tick, which SysTick has already passed
   * when it first compares: the match comes only after a full 2^32-tick wrap.
   */
  lemma ZeroDelayWaitsFullWrap(tick: int, n: nat)
    requires IsUint32(tick)
    ensures TickAfter(tick, UINT32_MODULUS) == BlockCount(tick, 0)
    ensures 0 < n < UINT32_MODULUS ==> TickAfter(tick, n) != BlockCount(tick, 0)
  {
    TickAfterIsModular(tick, UINT32_MODULUS);
    TickAfterIsModular(tick, n);
  }

  // ---------------------------------------------------------------------
  // Releasing blocked tasks
  // ---------------------------------------------------------------------

  /**
   * How many tasks Unblock_Tasks moves: the leading run of the blocked queue
   * whose block count equals the tick. Nothing behind the first mismatch is
   * looked at.
   */
  function DueCount(blocked: seq<int>, keys: seq<int>, tick: int): (n: nat)
    requires Keyed(blocked, keys)
    ensures n <= |blocked|
    ensures forall i :: 0 <= i < n ==> keys[blocked[i]] == tick
    ensures n < |blocked| ==> keys[blocked[n]] != tick
  {
    if blocked == [] || keys[blocked[0]] != tick then 0
    else 1 + DueCount(blocked[1..], keys, tick)
  }

  /** Every block count in the queue lies ahead of the tick. */
  ghost predicate AllAhead(blocked: seq<int>, keys: seq<int>, tick: int)
    requires Keyed(blocked, keys)
  {
    forall i :: 0 <= i < |blocked| ==> tick < keys[blocked[i]]
  }

  /**
   * While no block count has wrapped past the counter, the sorted blocked
   * queue loses no wake-up: on the next tick exactly the tasks whose block
   * count equals it are released, and every task left behind is still ahead
   * of the counter.
   */
  lemma {:induction false} DueTasksAreReleased(blocked: seq<int>, keys: seq<int>, tick: int)
    requires Keyed(blocked, keys) && SortedBy(blocked, keys)
    requires AllAhead(blocked, keys, tick) && tick + 1 < UINT32_MODULUS
    ensures forall i :: 0 <= i < |blocked| ==>
      (i < DueCount(blocked, keys, tick + 1) <==> keys[blocked[i]] == tick + 1)
    ensures AllAhead(blocked[DueCount(blocked, keys, tick + 1)..], keys, tick + 1)
  {
    var n := DueCount(blocked, keys, tick + 1);
    forall i | n <= i < |blocked| ensures tick + 1 < keys[blocked[i]] {
      assert keys[blocked[n]] <= keys[blocked[i]];
    }
    var rest := blocked[n..];
    forall i | 0 <= i < |rest| ensures tick + 1 < keys[rest[i]] {
      assert rest[i] == blocked[n + i];
    }
  }

  /**
   * Across the wrap the raw block counts no longer sort by wake-up time: a
   * task delayed 20 ticks at 2^32 - 10 stores 10, one delayed 5 ticks stores
   * 2^32 - 5, and when the counter reaches 2^32 - 5 the first one, at the
   * head, stops the scan before the due task behind it.
   */
  lemma WrappedBlockCountHoldsBackDueTask()
    ensures var keys := [0, BlockCount(UINT32_MODULUS - 10, 20), BlockCount(UINT32_MODULUS - 10, 5), 0, 0];
      && keys[TASK1] == 10 && keys[TASK2] == UINT32_MODULUS - 5
      && InsertSorted([TASK2], TASK1, keys) == [TASK1, TASK2]
      && TickAfter(UINT32_MODULUS - 10, 5) == keys[TASK2]
      && DueCount([TASK1, TASK2], keys, keys[TASK2]) == 0
  {
    TickAfterIsModular(UINT32_MODULUS - 10, 5);
  }

  /**
   * Task_Delay(0) stores the current tick as the block count, the smallest
   * key the blocked queue can hold, so the task sits at its head for 2^32
   * ticks: at tick 100 a task delayed by 0 and one delayed by 5 store 100
   * and 105, and when the counter reaches 105 the first one stops the scan
   * before the due task behind it.
   */
  lemma ZeroDelayHoldsBackDueTask()
    ensures var keys := [0, BlockCount(100, 0), BlockCount(100, 5), 0, 0];
      && keys[TASK1] == 100 && keys[TASK2] == 105
      && InsertSorted([TASK1], TASK2, keys) == [TASK1, TASK2]
      && TickAfter(100, 5) == keys[TASK2]
      && DueCount([TASK1, TASK2], keys, keys[TASK2]) == 0
  {
    TickAfterIsModular(100, 5);
  }
}
