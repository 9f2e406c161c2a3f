/**
 * Stack words moved by the context switch (TaskScheduler/Src/it.c) and
 * written by Task_Init (TaskScheduler/Src/main.c), on the word view of SRAM.
 * Stacks are full descending: a push pre-decrements the pointer.
 */
module StackFrame {
  import opened Layout

  /** R4–R11: the registers PendSV saves and restores in software. */
  const SAVED_REGS := 8

  /** The words Task_Init primes: R4–R11, then the frame the hardware unstacks. */
  const PRIMED_WORDS := 16

  /** Positions, within the 8-word frame the hardware unstacks, of LR, PC and xPSR. */
  const LR_SLOT := 5
  const PC_SLOT := 6
  const XPSR_SLOT := 7

  /**
   * `STMDB sp!, {R4-R11}`: the 8 registers go to the 8 words just below sp,
   * lowest register lowest; no other word changes.
   */
  function StoreMultipleDecrementBefore(mem: seq<int>, sp: int, regs: seq<int>): (m: seq<int>)
    requires |regs| == SAVED_REGS && SAVED_REGS <= sp <= |mem|
    ensures |m| == |mem|
    ensures forall i :: 0 <= i < SAVED_REGS ==> m[sp - SAVED_REGS + i] == regs[i]
    ensures forall w :: 0 <= w < |mem| && !(sp - SAVED_REGS <= w < sp) ==> m[w] == mem[w]
  {
    mem[..sp - SAVED_REGS] + regs + mem[sp..]
  }

  /** `LDMIA sp!, {R4-R11}`: the 8 words from sp upwards. */
  function LoadMultipleIncrementAfter(mem: seq<int>, sp: int): (regs: seq<int>)
    requires 0 <= sp && sp + SAVED_REGS <= |mem|
    ensures |regs| == SAVED_REGS
    ensures forall i :: 0 <= i < SAVED_REGS ==> regs[i] == mem[sp + i]
  {
    mem[sp..sp + SAVED_REGS]
  }

  /**
   * Storing the registers below sp and loading them back from sp - 8 gives
   * the same registers, and leaves the pointer where it started.
   */
  lemma SaveRestoreRoundTrip(mem: seq<int>, sp: int, regs: seq<int>)
    requires |regs| == SAVED_REGS && SAVED_REGS <= sp <= |mem|
    ensures LoadMultipleIncrementAfter(StoreMultipleDecrementBefore(mem, sp, regs), sp - SAVED_REGS) == regs
    ensures (sp - SAVED_REGS) + SAVED_REGS == sp
  {
    var m := StoreMultipleDecrementBefore(mem, sp, regs);
    var r := LoadMultipleIncrementAfter(m, sp - SAVED_REGS);
    assert forall i :: 0 <= i < SAVED_REGS ==> r[i] == regs[i];
  }

  /** A word written outside the 8 saved words does not disturb them. */
  lemma SavedFrameSurvivesOtherWrite(mem: seq<int>, sp: int, regs: seq<int>, w: int, v: int)
    requires |regs| == SAVED_REGS && SAVED_REGS <= sp <= |mem|
    requires 0 <= w < |mem| && !(sp - SAVED_REGS <= w < sp)
    ensures LoadMultipleIncrementAfter(StoreMultipleDecrementBefore(mem, sp, regs)[w := v], sp - SAVED_REGS) == regs
  {
    var m := StoreMultipleDecrementBefore(mem, sp, regs)[w := v];
    var r := LoadMultipleIncrementAfter(m, sp - SAVED_REGS);
    forall i | 0 <= i < SAVED_REGS ensures r[i] == regs[i] {
      assert m[sp - SAVED_REGS + i] == StoreMultipleDecrementBefore(mem, sp, regs)[sp - SAVED_REGS + i];
    }
  }

  /**
   * Saving registers below sp and writing one word elsewhere leaves a frame
   * of eight words at p that overlaps neither as it was.
   */
  lemma SavingLeavesOtherFrames(mem: seq<int>, sp: int, regs: seq<int>, w: int, v: int, p: int)
    requires |regs| == SAVED_REGS && SAVED_REGS <= sp <= |mem|
    requires 0 <= p && p + SAVED_REGS <= |mem| && (p + SAVED_REGS <= sp - SAVED_REGS || sp <= p)
    requires 0 <= w < |mem| && !(p <= w < p + SAVED_REGS)
    ensures LoadMultipleIncrementAfter(StoreMultipleDecrementBefore(mem, sp, regs)[w := v], p)
         == LoadMultipleIncrementAfter(mem, p)
  {
    var m := StoreMultipleDecrementBefore(mem, sp, regs)[w := v];
    forall i | 0 <= i < SAVED_REGS
      ensures LoadMultipleIncrementAfter(m, p)[i] == LoadMultipleIncrementAfter(mem, p)[i]
    {
      assert m[p + i] == StoreMultipleDecrementBefore(mem, sp, regs)[p + i];
    }
  }

  /**
   * The 16 words Task_Init leaves below a task's stack start, lowest first:
   * R4–R11 and R0–R3, R12 as zeros, then EXC_RETURN_THREAD_PSP as LR, the
   * handler address as PC, and DUMMY_XPSR.
   */
  function PrimedFrame(entry: int): (f: seq<int>)
    ensures |f| == PRIMED_WORDS
  {
    seq(13, _ => 0) + [EXC_RETURN_THREAD_PSP, entry, DUMMY_XPSR]
  }

  /** Memory after Task_Init primes the stack that starts at word `start`. */
  function Primed(mem: seq<int>, start: int, entry: int): (m: seq<int>)
    requires PRIMED_WORDS <= start <= |mem|
    ensures |m| == |mem|
    ensures m[start - 1] == DUMMY_XPSR && m[start - 2] == entry && m[start - 3] == EXC_RETURN_THREAD_PSP
    ensures forall w :: start - PRIMED_WORDS <= w < start - 3 ==> m[w] == 0
    ensures forall w :: 0 <= w < |mem| && !(start - PRIMED_WORDS <= w < start) ==> m[w] == mem[w]
  {
    mem[..start - PRIMED_WORDS] + PrimedFrame(entry) + mem[start..]
  }

  /**
   * The first switch to a primed task restores zeros into R4–R11 from
   * start - 16 and leaves PSP at start - 8, where the frame the hardware
   * unstacks holds EXC_RETURN_THREAD_PSP as LR, the handler as PC and the
   * Thumb bit in xPSR.
   */
  lemma PrimedTaskResumesAtEntry(mem: seq<int>, start: int, entry: int)
    requires PRIMED_WORDS <= start <= |mem|
    ensures LoadMultipleIncrementAfter(Primed(mem, start, entry), start - PRIMED_WORDS) == seq(SAVED_REGS, _ => 0)
    ensures var frame := start - PRIMED_WORDS + SAVED_REGS;
      && frame == start - 8
      && Primed(mem, start, entry)[frame + LR_SLOT] == EXC_RETURN_THREAD_PSP
      && Primed(mem, start, entry)[frame + PC_SLOT] == entry
      && Primed(mem, start, entry)[frame + XPSR_SLOT] == DUMMY_XPSR
  {
    var m := Primed(mem, start, entry);
    var r := LoadMultipleIncrementAfter(m, start - PRIMED_WORDS);
    assert forall i :: 0 <= i < SAVED_REGS ==> r[i] == 0;
  }

  /** Each task in `done` has the frame for its handler in the 16 words below its stack start. */
  ghost predicate FramesPrimed(mem: seq<int>, entries: seq<int>, done: set<int>)
  {
    && |mem| == SRAM_WORDS && |entries| == NUM_TASKS
    && forall t :: t in done ==> IsTask(t) && mem[StackStart(t) - PRIMED_WORDS..StackStart(t)] == PrimedFrame(entries[t])
  }

  /**
   * Priming task t's stack adds its frame and leaves the frames already
   * primed in the other, disjoint, task stacks intact.
   */
  lemma PrimingKeepsOtherFrames(mem: seq<int>, entries: seq<int>, done: set<int>, t: int)
    requires FramesPrimed(mem, entries, done) && IsTask(t) && t !in done
    requires PRIMED_WORDS <= StackStart(t) <= |mem|
    ensures FramesPrimed(Primed(mem, StackStart(t), entries[t]), entries, done + {t})
  {
    var m := Primed(mem, StackStart(t), entries[t]);
    forall u | u in done + {t}
      ensures m[StackStart(u) - PRIMED_WORDS..StackStart(u)] == PrimedFrame(entries[u])
    {
      if u == t {
        assert m[StackStart(t) - PRIMED_WORDS..StackStart(t)] == PrimedFrame(entries[t]);
      } else {
        StackStartsApart(t, u);
        StackRegionsDisjoint(u, u, 0);
        assert m[StackStart(u) - PRIMED_WORDS..StackStart(u)] == mem[StackStart(u) - PRIMED_WORDS..StackStart(u)];
      }
    }
  }
}
