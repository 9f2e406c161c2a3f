/**
 * The two exception handlers of TaskScheduler/Src/it.c that drive the
 * scheduler: SysTick_Handler, every tick, and PendSV_Handler, the context
 * switch. Each runs on a Scheduler; the assembly of PendSV_Handler is
 * modelled instruction by instruction on its registers and SRAM.
 */
module Interrupts {
  import opened Layout
  import opened Scheduling
  import opened Delay
  import opened StackFrame
  import opened Invariant
  import opened Kernel

  /**
   * SysTick_Handler: one uint32 tick, every blocked task whose block count
   * is the new tick released to the ready queue before idle, and a context
   * switch pended.
   */
  method SysTickHandler(k: Scheduler)
    requires k.Valid() && (k.current == NULL || k.state[k.current] != Blocked)
    modifies k`tickCount, k`pendSwitch, k.state, k.next, k`readyHead, k`ready, k`blockedHead, k`blocked
    ensures k.Valid() && k.pendSwitch
    ensures k.tickCount == Increment(old(k.tickCount))
    ensures var n := DueCount(old(k.blocked), k.blockCount[..], k.tickCount);
      && k.blocked == old(k.blocked)[n..]
      && k.ready == old(k.ready)[..|old(k.ready)| - 1] + old(k.blocked)[..n] + [IDLE_TASK]
      && k.state[..] == Released(old(k.state[..]), old(k.blocked)[..n])
  {
    ghost var states0, queue0, waiting0 := k.state[..], k.ready, k.blocked;
    k.IncrementGlobalTickCount();
    ghost var tick, keys := k.tickCount, k.blockCount[..];
    assert k.state[..] == states0 && k.ready == queue0 && k.blocked == waiting0;
    k.UnblockTasks();
    assert k.tickCount == tick && k.blockCount[..] == keys;
    ghost var states, queue, waiting := k.state[..], k.ready, k.blocked;
    k.PendPendSV();
    assert k.state[..] == states && k.ready == queue && k.blocked == waiting;
  }

  /**
   * PendSV_Handler: saves R4–R11 of the running task on its own stack and
   * its stack pointer in its TCB, keeps EXC_RETURN on the scheduler stack
   * across the calls, runs Schedule, and restores R4–R11 and PSP of the
   * task Schedule picked. `ret` is the return address the BL instructions
   * leave in LR.
   *
   * The registers the incoming task finds are the ones saved on its stack:
   * the running task's own, when Schedule keeps it, and otherwise the words
   * at the incoming task's saved stack pointer, which the handler's stores
   * leave untouched.
   */
  method PendSVHandler(k: Scheduler, ret: int)
    requires k.Valid() && IsTask(k.current)
    requires StackLimit(k.current) + SAVED_REGS <= k.psp <= StackStart(k.current)
    requires SchedulerStackLimit() < k.msp <= SchedulerStackStart()
    modifies k`current, k`readyHead, k`ready, k.next, k.ram, k.pspValue, k`msp, k`lr, k`regs, k`psp
    ensures k.Valid() && IsTask(k.current)
    ensures Selection(k.current, k.ready) == Scheduled(old(k.current), old(k.ready), k.state[..])
    ensures k.pspValue[..] == old(k.pspValue[..])[old(k.current) := old(k.psp) - SAVED_REGS]
    ensures k.ram[..] == StoreMultipleDecrementBefore(old(k.ram[..]), old(k.psp), old(k.regs))[old(k.msp) - 1 := old(k.lr)]
    ensures k.regs == if k.current == old(k.current) then old(k.regs)
                      else LoadMultipleIncrementAfter(old(k.ram[..]), k.pspValue[k.current])
    ensures k.psp == k.pspValue[k.current] + SAVED_REGS
    ensures StackLimit(k.current) + SAVED_REGS <= k.psp <= StackStart(k.current)
    ensures k.current == old(k.current) ==> k.psp == old(k.psp) && k.regs == old(k.regs)
    ensures k.msp == old(k.msp) && k.lr == old(k.lr)
  {
    ghost var mem, regs, sp, top, link := k.ram[..], k.regs, k.psp, k.msp - 1, k.lr;
    ghost var running, queue := k.current, k.ready;
    SaveContext(k, ret);
    ghost var saved := k.ram[..];
    k.Schedule();
    assert k.ram[..] == saved;
    RestoreContext(k);
    assert k.ram[..] == saved;
    SwitchRestoresSavedRegisters(mem, sp, regs, top, link, running, k.current, k.pspValue[k.current]);
  }

  /**
   * What LDMIA loads at the incoming task's saved stack pointer p once
   * PendSV_Handler has stored R4–R11 below sp, in the running task's stack,
   * and pushed LR at `top`, on the scheduler stack: the registers just
   * stored when the running task is switched back in, and otherwise the
   * words that were already there.
   */
  lemma SwitchRestoresSavedRegisters(mem: seq<int>, sp: int, regs: seq<int>, top: int, link: int,
                                     running: int, incoming: int, p: int)
    requires |mem| == SRAM_WORDS && |regs| == SAVED_REGS && IsTask(running) && IsTask(incoming)
    requires StackLimit(running) + SAVED_REGS <= sp <= StackStart(running) && InSchedulerStack(top)
    requires incoming == running ==> p == sp - SAVED_REGS
    requires incoming != running ==> StackLimit(incoming) <= p && p + SAVED_REGS <= StackStart(incoming)
    ensures 0 <= top < |mem| && 0 <= p && p + SAVED_REGS <= |mem|
    ensures LoadMultipleIncrementAfter(StoreMultipleDecrementBefore(mem, sp, regs)[top := link], p)
         == if incoming == running then regs else LoadMultipleIncrementAfter(mem, p)
  {
    StackRegionsDisjoint(running, incoming, top);
    StackRegionsDisjoint(incoming, incoming, top);
    StackRegionsDisjoint(running, running, top);
    if incoming == running {
      SavedFrameSurvivesOtherWrite(mem, sp, regs, top, link);
    } else {
      StackStartsApart(running, incoming);
      SavingLeavesOtherFrames(mem, sp, regs, top, link, p);
    }
  }

  /**
   * MRS R0, PSP; STMDB R0!, {R4-R11}; PUSH {LR}; BL Save_PSP_Value: the
   * first half of PendSV_Handler, up to the call of Schedule.
   */
  method SaveContext(k: Scheduler, ret: int)
    requires k.Valid() && IsTask(k.current)
    requires StackLimit(k.current) + SAVED_REGS <= k.psp <= StackStart(k.current)
    requires SchedulerStackLimit() < k.msp <= SchedulerStackStart()
    modifies k.ram, k.pspValue, k`msp, k`lr
    ensures k.Valid() && k.msp == old(k.msp) - 1 && k.lr == ret
    ensures k.pspValue[..] == old(k.pspValue[..])[k.current := old(k.psp) - SAVED_REGS]
    ensures k.ram[..] == StoreMultipleDecrementBefore(old(k.ram[..]), old(k.psp), k.regs)[k.msp := old(k.lr)]
  {
    StackRegionsDisjoint(k.current, k.current, k.psp);
    ghost var ids, links, keys, states, psps := k.taskId[..], k.next[..], k.blockCount[..], k.state[..], k.pspValue[..];
    var r0 := k.psp;
    r0 := StoreMultiple(k, r0);
    PushLr(k);
    k.lr := ret;
    k.SavePspValue(r0);
    assert k.taskId[..] == ids && k.next[..] == links && k.blockCount[..] == keys && k.state[..] == states;
    SavedPointerInStack(psps, k.current, r0);
    k.ValidFromValues(ids, links, keys, states, psps[k.current := r0], k.readyHead, k.blockedHead, k.current,
                      k.ready, k.blocked, k.tickCount);
  }

  /**
   * BL Get_PSP_Value; LDMIA R0!, {R4-R11}; MSR PSP, R0; POP {LR}: the
   * second half of PendSV_Handler, after Schedule.
   */
  method RestoreContext(k: Scheduler)
    requires k.Valid() && IsTask(k.current)
    requires SchedulerStackLimit() <= k.msp < SchedulerStackStart()
    modifies k`regs, k`psp, k`msp, k`lr
    ensures k.Valid()
    ensures k.regs == LoadMultipleIncrementAfter(k.ram[..], k.pspValue[k.current])
    ensures k.psp == k.pspValue[k.current] + SAVED_REGS
    ensures k.lr == k.ram[old(k.msp)] && k.msp == old(k.msp) + 1
  {
    var r0 := k.GetPspValue();
    StackRegionsDisjoint(k.current, k.current, r0);
    r0 := LoadMultiple(k, r0);
    k.psp := r0;
    PopLr(k);
  }

  /**
   * STMDB R0!, {R4-R11}: R4–R11 go to the eight words below `sp`, lowest
   * register lowest, and the pointer moves down past them.
   */
  method StoreMultiple(k: Scheduler, sp: int) returns (sp': int)
    requires k.ram.Length == SRAM_WORDS && |k.regs| == SAVED_REGS && SAVED_REGS <= sp <= k.ram.Length
    modifies k.ram
    ensures sp' == sp - SAVED_REGS
    ensures k.ram[..] == StoreMultipleDecrementBefore(old(k.ram[..]), sp, k.regs)
  {
    sp' := sp - SAVED_REGS;
    for i := 0 to SAVED_REGS
      invariant forall j :: 0 <= j < i ==> k.ram[sp' + j] == k.regs[j]
      invariant forall w :: 0 <= w < k.ram.Length && !(sp' <= w < sp' + i) ==> k.ram[w] == old(k.ram[w])
    {
      k.ram[sp' + i] := k.regs[i];
    }
    assert k.ram[..] == StoreMultipleDecrementBefore(old(k.ram[..]), sp, k.regs);
  }

  /** LDMIA R0!, {R4-R11}: R4–R11 from the eight words at `sp`, and the pointer moves up past them. */
  method LoadMultiple(k: Scheduler, sp: int) returns (sp': int)
    requires 0 <= sp && sp + SAVED_REGS <= k.ram.Length
    modifies k`regs
    ensures sp' == sp + SAVED_REGS
    ensures k.regs == LoadMultipleIncrementAfter(k.ram[..], sp)
  {
    k.regs := k.ram[sp..sp + SAVED_REGS];
    sp' := sp + SAVED_REGS;
  }

  /** PUSH {LR} on the scheduler stack (MSP). */
  method PushLr(k: Scheduler)
    requires k.ram.Length == SRAM_WORDS && SchedulerStackLimit() < k.msp <= SchedulerStackStart()
    modifies k`msp, k.ram
    ensures k.msp == old(k.msp) - 1
    ensures k.ram[..] == old(k.ram[..])[k.msp := k.lr]
  {
    k.msp := k.msp - 1;
    k.ram[k.msp] := k.lr;
  }

  /** POP {LR} from the scheduler stack (MSP). */
  method PopLr(k: Scheduler)
    requires k.ram.Length == SRAM_WORDS && SchedulerStackLimit() <= k.msp < SchedulerStackStart()
    modifies k`msp, k`lr
    ensures k.lr == k.ram[old(k.msp)] && k.msp == old(k.msp) + 1
  {
    k.lr := k.ram[k.msp];
    k.msp := k.msp + 1;
  }
}
