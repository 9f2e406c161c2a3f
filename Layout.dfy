/**
 * Constants, identifiers and memory layout of the TaskScheduler kernel
 * (TaskScheduler/Inc/main.h).
 *
 * A `uint32_t*` into SRAM is modelled as a word index `w` into the SRAM
 * word array; its byte address is `SRAM_START + 4 * w`.
 */
module Layout {

  // ---------------------------------------------------------------------
  // Task identities (TaskID_e) and the NULL task pointer
  // ---------------------------------------------------------------------

  const IDLE_TASK := 0
  const TASK1 := 1
  const TASK2 := 2
  const TASK3 := 3
  const TASK4 := 4

  /** Four LED tasks and the idle task: one statically allocated TCB each. */
  const NUM_TASKS := 5

  /** A TCB "pointer" is a slot index; NULL is the one value that is no slot. */
  const NULL := -1

  /** The five TaskID_e values. */
  const ALL_TASKS: set<int> := {IDLE_TASK, TASK1, TASK2, TASK3, TASK4}

  predicate IsTask(t: int) { 0 <= t < NUM_TASKS }

  /** TaskState_e: exactly these three states. */
  datatype TaskState = Ready | Blocked | Terminated

  // ---------------------------------------------------------------------
  // 32-bit words
  // ---------------------------------------------------------------------

  const UINT32_MODULUS := 0x1_0000_0000

  predicate IsUint32(x: int) { 0 <= x < UINT32_MODULUS }

  /** `uint32_t` addition, which wraps around. */
  function AddUint32(a: int, b: int): (r: int)
    requires IsUint32(a) && IsUint32(b)
    ensures IsUint32(r)
    ensures r == a + b || r == a + b - UINT32_MODULUS
  {
    (a + b) % UINT32_MODULUS
  }

  // ---------------------------------------------------------------------
  // Stacks and SRAM (bytes)
  // ---------------------------------------------------------------------

  const SIZE_TASK_STACK := 1024
  const SIZE_SCHEDULER_STACK := 1024

  const SRAM_START := 0x2000_0000
  const SIZE_SRAM := 128 * 1024
  const SRAM_END := SRAM_START + SIZE_SRAM

  const T1_STACK_START := SRAM_END
  const T2_STACK_START := SRAM_END - 1 * SIZE_TASK_STACK
  const T3_STACK_START := SRAM_END - 2 * SIZE_TASK_STACK
  const T4_STACK_START := SRAM_END - 3 * SIZE_TASK_STACK
  const IDLE_STACK_START := SRAM_END - 4 * SIZE_TASK_STACK
  const SCHEDULER_STACK_START := SRAM_END - 5 * SIZE_TASK_STACK

  // ---------------------------------------------------------------------
  // Clocking and exception-frame constants
  // ---------------------------------------------------------------------

  const TICK_HZ := 1000
  const HSI_CLOCK := 16_000_000
  const SYSTICK_TIM_CLK := HSI_CLOCK

  /** The SysTick reload register holds 24 bits. */
  const SYST_RVR_LIMIT := 0x100_0000

  /** xPSR with only the Thumb bit (bit 24) set. */
  const DUMMY_XPSR := 0x0100_0000

  /** The Thumb (T) bit of xPSR, bit 24. */
  const XPSR_T_BIT: bv32 := 1 << 24

  const EXC_RETURN_HANDLER := 0xFFFF_FFF1
  const EXC_RETURN_THREAD_MSP := 0xFFFF_FFF9
  const EXC_RETURN_THREAD_PSP := 0xFFFF_FFFD

  /** Delays used by the LED task bodies (led.h), in ticks. */
  const DELAY_1S := 1000
  const DELAY_500MS := 500
  const DELAY_250MS := 250
  const DELAY_125MS := 125

  // ---------------------------------------------------------------------
  // Word view of SRAM
  // ---------------------------------------------------------------------

  const WORD_SIZE := 4
  const SRAM_WORDS := SIZE_SRAM / WORD_SIZE
  const TASK_STACK_WORDS := SIZE_TASK_STACK / WORD_SIZE
  const SCHEDULER_STACK_WORDS := SIZE_SCHEDULER_STACK / WORD_SIZE

  /** The word index of a word-aligned byte address in SRAM. */
  function WordIndex(addr: int): int
  {
    (addr - SRAM_START) / WORD_SIZE
  }

  /** The byte address of word `w` of SRAM (what `(uint32_t) ptr` yields). */
  function ByteAddress(w: int): (a: int)
    ensures WordIndex(a) == w
  {
    SRAM_START + WORD_SIZE * w
  }

  /** The stack start that main() hands to Task_Init for each task, as a byte address. */
  function StackStartAddress(t: int): (a: int)
    requires IsTask(t)
    ensures SCHEDULER_STACK_START < a <= SRAM_END
    ensures (SRAM_END - a) % SIZE_TASK_STACK == 0
  {
    if t == TASK1 then T1_STACK_START
    else if t == TASK2 then T2_STACK_START
    else if t == TASK3 then T3_STACK_START
    else if t == TASK4 then T4_STACK_START
    else IDLE_STACK_START
  }

  /** The position of a task's stack counted down from SRAM_END: T1 is 0, idle is 4. */
  function StackSlot(t: int): int
    requires IsTask(t)
  {
    if t == IDLE_TASK then 4 else t - 1
  }

  /** First word above task t's stack (stacks are full descending). */
  function StackStart(t: int): (w: int)
    requires IsTask(t)
    ensures SchedulerStackStart() + TASK_STACK_WORDS <= w <= SRAM_WORDS
  {
    WordIndex(StackStartAddress(t))
  }

  /** Lowest word of task t's stack region. */
  function StackLimit(t: int): int
    requires IsTask(t)
  {
    StackStart(t) - TASK_STACK_WORDS
  }

  /** The scheduler (MSP) stack region, below the five task stacks. */
  function SchedulerStackStart(): int { WordIndex(SCHEDULER_STACK_START) }
  function SchedulerStackLimit(): int { SchedulerStackStart() - SCHEDULER_STACK_WORDS }

  /** Word w lies in task t's stack region. */
  predicate InTaskStack(t: int, w: int)
    requires IsTask(t)
  {
    StackLimit(t) <= w < StackStart(t)
  }

  /** Word w lies in the scheduler stack region. */
  predicate InSchedulerStack(w: int)
  {
    SchedulerStackLimit() <= w < SchedulerStackStart()
  }

  // ---------------------------------------------------------------------
  // Facts about the layout
  // ---------------------------------------------------------------------

  /** SRAM ends 128 KiB above 0x20000000. */
  lemma SramEndValue()
    ensures SRAM_END == 0x2002_0000
    ensures SRAM_WORDS == 32768 && WordIndex(SRAM_END) == SRAM_WORDS
  {
  }

  /** The stack of the k-th task (counted down from SRAM_END) starts k stack sizes below the end. */
  lemma StackStartsStepDown(t: int)
    requires IsTask(t)
    ensures StackStartAddress(t) == SRAM_END - StackSlot(t) * SIZE_TASK_STACK
    ensures StackStart(t) == SRAM_WORDS - StackSlot(t) * TASK_STACK_WORDS
    ensures SCHEDULER_STACK_START == SRAM_END - 5 * SIZE_TASK_STACK
  {
  }

  /** Two different task stacks start at least a whole stack apart. */
  lemma StackStartsApart(t: int, u: int)
    requires IsTask(t) && IsTask(u) && t != u
    ensures StackStart(t) + TASK_STACK_WORDS <= StackStart(u) || StackStart(u) + TASK_STACK_WORDS <= StackStart(t)
  {
    StackStartsStepDown(t);
    StackStartsStepDown(u);
  }

  /** The five task stacks and the scheduler stack are pairwise disjoint and lie inside SRAM. */
  lemma StackRegionsDisjoint(t: int, u: int, w: int)
    requires IsTask(t) && IsTask(u)
    ensures 0 <= StackLimit(t) && StackStart(t) <= SRAM_WORDS
    ensures 0 <= SchedulerStackLimit()
    ensures t != u ==> !(InTaskStack(t, w) && InTaskStack(u, w))
    ensures !(InTaskStack(t, w) && InSchedulerStack(w))
  {
  }

  /** The 16-word (64-byte) frame Task_Init primes fits inside every task stack. */
  lemma PrimedFrameFits(t: int)
    requires IsTask(t)
    ensures 16 * WORD_SIZE == 64 && 64 <= SIZE_TASK_STACK
    ensures StackLimit(t) <= StackStart(t) - 16
  {
  }

  /** DUMMY_XPSR has exactly bit 24, the Thumb bit, set. */
  lemma DummyXpsrIsThumbBit()
    ensures DUMMY_XPSR == XPSR_T_BIT as int
  {
  }

  /**
   * The value SysTick_Init computes for the reload register:
   * `SYSTICK_TIM_CLK / TickHz - 1` in uint32 arithmetic.
   */
  function SysTickReload(tickHz: int): (r: int)
    requires 0 < tickHz && IsUint32(tickHz)
    ensures IsUint32(r)
    ensures tickHz <= SYSTICK_TIM_CLK ==> r + 1 == SYSTICK_TIM_CLK / tickHz
  {
    (SYSTICK_TIM_CLK / tickHz - 1 + UINT32_MODULUS) % UINT32_MODULUS
  }

  /** At 1 kHz off the 16 MHz HSI the reload is 15999, which fits the 24-bit field. */
  lemma ReloadForOneKilohertz()
    ensures SysTickReload(TICK_HZ) == 15999
    ensures SysTickReload(TICK_HZ) < SYST_RVR_LIMIT
  {
  }
}
