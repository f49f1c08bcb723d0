/** The timer interrupt on the scheduler's arrays, the processor and memory together. */
module Kernel {
  import opened KernelBase
  import opened SchedulerSpec
  import opened ContextSwitch
  import opened MachineRuns
  import S = Scheduler

  lemma SwitchReady(m: Machine, s1: Sched)
    requires Good(m) && Room(m) && s1 == Irq(m.sched) && s1.current != m.sched.current
    ensures CanSwitch(m, s1) && 64 <= s1.tasks[s1.current].stackPtr
  {
    IrqResult(m);
    TickCanSwitch(m, s1);
    if s1.current == m.onCpu { assert Usable(m.cpuStack); }
  }

  /** A switch taken apart: the processor's part mem1, then the store through the first argument,
      which, if that is NULL, does not reach the frame that is popped. */
  lemma SwitchParts(m: Machine, s1: Sched, slot: int, mem1: seq<int>)
    requires CanSwitch(m, s1) && 64 <= s1.tasks[s1.current].stackPtr
    requires mem1 == Pushed(m.mem, m.regs, slot, s1.tasks[s1.current].stackPtr)
    ensures var prev, top, r := m.sched.current, m.regs.esp - 28, SwitchOn(m, s1, slot);
            && Aligned(mem1, NULL_SLOT)
            && r == Machine(SavedTop(s1, prev, top),
                            if prev == NULL then Store(mem1, NULL_SLOT, top) else mem1,
                            Popped(mem1, s1.tasks[s1.current].stackPtr),
                            s1.current, StackOf(m.(sched := s1), s1.current),
                            if m.onCpu == NULL then m.saved else m.saved[m.onCpu := AfterReturn(m.regs)],
                            m.freePages, m.boot, m.trampoline)
  {
  }

  class Kernel {
    const sched: S.Scheduler
    const cpu: Cpu
    const trampoline: int

    constructor (sched: S.Scheduler, cpu: Cpu, trampoline: int)
      ensures this.sched == sched && this.cpu == cpu && this.trampoline == trampoline
    {
      this.sched, this.cpu, this.trampoline := sched, cpu, trampoline;
    }

    /** The arrays of the scheduler, memory and the registers hold the machine m. */
    ghost predicate Holds(m: Machine)
      reads sched, sched.pcb, sched.next, sched.heads, sched.tails, cpu, cpu.mem
    {
      && sched.Links() && cpu.mem != sched.next && cpu.mem != sched.heads && cpu.mem != sched.tails
      && m.sched == sched.Abs() && m.mem == cpu.mem[..] && m.regs == cpu.Context() && m.trampoline == trampoline
    }

    /** irq0_handler and scheduler_tick(10) with the context switch. */
    method TimerInterrupt(slot: int, ghost m: Machine)
      requires Holds(m) && Good(m) && Room(m)
      modifies sched, sched.pcb, sched.next, sched.heads, sched.tails, cpu, cpu.mem
      ensures Holds(IrqOn(m, slot))
    {
      var prev := sched.current;
      sched.Interrupt();
      ghost var s1 := sched.Abs();
      if prev != sched.current {
        SwitchReady(m, s1);
        SwitchFrom(prev, slot, m, s1);
      }
    }

    /** The end of scheduler_tick, when the process to run is not the previous one. */
    method SwitchFrom(prev: int, slot: int, ghost m: Machine, ghost s1: Sched)
      requires Holds(m.(sched := s1)) && CanSwitch(m, s1) && prev == m.sched.current
      requires 64 <= s1.tasks[s1.current].stackPtr
      modifies sched.pcb, cpu, cpu.mem
      ensures Holds(SwitchOn(m, s1, slot))
    {
      var sp := sched.pcb[sched.current].stackPtr;
      SwitchParts(m, s1, slot, Pushed(m.mem, m.regs, slot, sp));
      var top := cpu.Switch(slot, sp);
      StoreTop(prev, top);
    }

    /** mov [eax], esp: through a pointer to the stack_ptr field of prev, or of nobody. */
    method StoreTop(prev: int, top: int)
      requires sched.Links() && (prev == NULL || IsSlot(prev)) && Aligned(cpu.mem[..], NULL_SLOT)
      requires cpu.mem != sched.next && cpu.mem != sched.heads && cpu.mem != sched.tails
      modifies sched.pcb, cpu.mem
      ensures sched.Links()
      ensures sched.Abs() == SavedTop(old(sched.Abs()), prev, top)
      ensures cpu.mem[..] == if prev == NULL then Store(old(cpu.mem[..]), NULL_SLOT, top) else old(cpu.mem[..])
    {
      if prev == NULL {
        cpu.Write(NULL_SLOT, top);
      } else {
        sched.SetBlock(prev, sched.pcb[prev].(stackPtr := top));
      }
    }

    /** scheduler_create_process once the address space (dir) and the stack page are allocated. */
    method CreateProcess(entry: int, arg: int, priority: nat, dir: int, stack: int, ghost m: Machine) returns (p: int)
      requires Holds(m) && Apart(sched.lists) && priority < PRIORITY_COUNT
      requires stack != 0 ==> Span(m.mem, stack + STACK_SIZE - 20, stack + STACK_SIZE)
      modifies sched, sched.pcb, sched.next, sched.heads, sched.tails, cpu.mem
      ensures Holds(CreateOn(m, entry, arg, priority, dir, stack, m.mem))
      ensures p == if stack == 0 then NULL else S.First(m.sched.lists[FREE])
    {
      CreateOnParts(m, entry, arg, priority, dir, stack);
      if sched.freeList == NULL {
        return NULL;
      }
      if stack != 0 {
        BuildFrame(stack + STACK_SIZE);
      }
      ghost var mem1 := cpu.mem[..];
      p := sched.CreateProcess(entry, arg, priority, dir, stack);
      assert cpu.mem[..] == mem1;
    }

    /** The stores of scheduler_create_process that build the first frame of a stack. */
    method BuildFrame(end: int)
      requires Span(cpu.mem[..], end - 20, end)
      modifies cpu.mem
      ensures cpu.mem[..] == FirstFrame(old(cpu.mem[..]), end, trampoline)
    {
      cpu.Write(end - 4, trampoline);
      cpu.Write(end - 8, 0);
      cpu.Write(end - 12, 0);
      cpu.Write(end - 16, 0);
      cpu.Write(end - 20, 0);
    }
  }
}
