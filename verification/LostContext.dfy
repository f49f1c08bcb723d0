/** Runs from boot in which a process that yields loses its context (kernel/process/scheduler.c). */
module LostContext {
  import opened SchedulerSpec
  import opened SchedulerInv
  import opened SchedulerRuns
  import opened ContextSwitch
  import opened MachineRuns

  /** A pool process in its first slice still has the stack pointer that its creation gave it. */
  predicate FirstSlice(s: Sched)
    requires Shape(s)
  {
    var p := s.current;
    && 0 <= p < MAX_PROCESSES && s.tasks[p].state == Running
    && s.tasks[p].stackPtr == s.tasks[p].stackPhys + STACK_SIZE - FRAME_BYTES
  }

  /** A process that yields in its first slice always loses its context at the next tick. */
  lemma FirstSliceLoses(m: Machine, slot: int)
    requires Good(m) && Room(m) && FirstSlice(m.sched)
    ensures Legal(m.sched, DoYield)
    ensures var y := m.(sched := Yield(m.sched));
            Good(y) && !(Good(IrqOn(y, slot)) && Resumed(y, IrqOn(y, slot)))
  {
    YieldLosesContext(m, slot);
  }

  /** With one process ready and idle running, a tick runs that process. */
  lemma OnlyReadyRuns(s: Sched, p: int, q: nat)
    requires Inv(s) && s.current == IDLE && s.tasks[IDLE].state == Running && s.tasks[IDLE].priority == PRIORITY_LOW
    requires q < PRIORITY_COUNT && s.lists[q] == [p] && s.lists[SLEEP] == []
    requires forall r :: 0 <= r < PRIORITY_COUNT && r != q ==> s.lists[r] == []
    ensures Irq(s).current == p
  {
    var w := ToPickFromWake(s);
    WakeNone(Counted(s));
    TickAdvances(s, q, 0);
  }

  /** The process that was created right after boot is the only one ready. */
  lemma CreatedFirst(tasks: seq<Task>, entry: int, arg: int, priority: nat, dir: int, stack: int)
    requires |tasks| == SLOTS && priority < PRIORITY_COUNT && stack != 0
    requires forall i :: 0 <= i < SLOTS ==> tasks[i].priority < PRIORITY_COUNT
    ensures var s := Create(Init(tasks), entry, arg, priority, dir, stack);
            && Inv(s) && Irq(s).current == 0
            && s.tasks[0].stackPhys == stack && s.tasks[0].stackPtr == stack + STACK_SIZE - FRAME_BYTES
  {
    InitInv(tasks);
    CreateInv(Init(tasks), entry, arg, priority, dir, stack);
    OnlyReadyRuns(Create(Init(tasks), entry, arg, priority, dir, stack), 0, priority);
  }

  /** A machine as scheduler_init leaves it, with the processor inside the boot stack. */
  ghost predicate Boots(m: Machine, tasks: seq<Task>) {
    && |tasks| == SLOTS && (forall i :: 0 <= i < SLOTS ==> tasks[i].priority < PRIORITY_COUNT)
    && m.sched == Init(tasks) && m.onCpu == IDLE && m.cpuStack == m.boot && 4 * |m.mem| == RAM
    && Usable(m.boot) && Room(m)
    && forall f :: f in m.freePages ==>
         f % STACK_SIZE == 0 && Usable(Region(f, f + STACK_SIZE)) && Disjoint(Region(f, f + STACK_SIZE), m.boot)
  }

  /** The next tick takes away a context that it does not save. */
  ghost predicate LosesNext(m: Machine, slot: int) {
    Good(m) && Room(m) && !(Good(IrqOn(m, slot)) && Resumed(m, IrqOn(m, slot)))
  }

  /** From boot, a process is created on a free page. */
  lemma BootCreates(m: Machine, tasks: seq<Task>, priority: nat, stack: int) returns (m1: Machine)
    requires Boots(m, tasks) && priority < PRIORITY_COUNT && stack in m.freePages
    ensures KGoes(m, KCreate(0, 0, priority, 0, stack, m.mem), m1) && Good(m1) && Room(m1)
    ensures m1.sched == Create(Init(tasks), 0, 0, priority, 0, stack)
    ensures 0 in m1.saved && m1.saved[0].esp == stack + STACK_SIZE
  {
    BootGood(m, tasks);
    var st := KCreate(0, 0, priority, 0, stack, m.mem);
    StepGood(m, st);
    m1 := KNext(m, st);
  }

  /** The scheduler after the first tick: the created process is in its first slice. */
  lemma FirstPick(tasks: seq<Task>, priority: nat, stack: int)
    requires |tasks| == SLOTS && priority < PRIORITY_COUNT && stack != 0
    requires forall i :: 0 <= i < SLOTS ==> tasks[i].priority < PRIORITY_COUNT
    ensures var s := Create(Init(tasks), 0, 0, priority, 0, stack);
            && Inv(s) && s.current == IDLE && s.tasks[0].stackPhys == stack
            && Shape(Irq(s)) && Irq(s).current == 0 && FirstSlice(Irq(s))
  {
    var s := Create(Init(tasks), 0, 0, priority, 0, stack);
    CreatedFirst(tasks, 0, 0, priority, 0, stack);
    IrqKeepsStacks(s);
    IrqRuns(s);
  }

  /** A switch from idle to process 0. */
  lemma SwitchStarts(m: Machine, s1: Sched, slot: int)
    requires CanSwitch(m, s1) && m.sched.current == IDLE && m.onCpu == IDLE && s1.current == 0 && 0 in m.saved
    ensures var r := SwitchOn(m, s1, slot);
            && r.sched.current == 0 && |r.sched.tasks| == SLOTS && r.sched.tasks[0] == s1.tasks[0]
            && r.onCpu == 0 && 0 in r.saved && r.saved[0] == m.saved[0]
            && r.cpuStack == Region(s1.tasks[0].stackPhys, s1.tasks[0].stackPhys + STACK_SIZE)
  {
  }

  /** The context that a process starts with leaves room on its stack. */
  lemma StartsWithRoom(m: Machine, r: Machine)
    requires m.sched.current == IDLE && Good(r) && Resumed(m, r)
    requires r.onCpu == 0 && 0 in r.saved && r.saved[0].esp == r.cpuStack.hi
             && r.cpuStack.hi == r.cpuStack.lo + STACK_SIZE
    ensures Room(r)
  {
  }

  /** A tick that starts process 0 at the top of its stack. */
  lemma FirstTick(m: Machine, slot: int) returns (r: Machine)
    requires Good(m) && Room(m) && m.sched.current == IDLE && Irq(m.sched).current == 0
    requires 0 in m.saved && m.saved[0].esp == m.sched.tasks[0].stackPhys + STACK_SIZE
    ensures KGoes(m, KIrq(slot), r) && Good(r) && Room(r)
    ensures r.sched.current == 0 && r.sched.tasks[0] == Irq(m.sched).tasks[0]
  {
    IrqExact(m, slot);
    IrqKeepsStacks(m.sched);
    r := IrqOn(m, slot);
    IrqResult(m);
    TickCanSwitch(m, Irq(m.sched));
    SwitchStarts(m, Irq(m.sched), slot);
    StartsWithRoom(m, r);
  }

  lemma IrqRuns(s: Sched)
    requires Inv(s)
    ensures Inv(Irq(s)) && IsSlot(Irq(s).current) && Irq(s).tasks[Irq(s).current].state == Running
  {
    DispatchInv(AtPick(s));
  }

  /** The process yields in its first slice. */
  lemma YieldsFirst(m: Machine, slot: int) returns (r: Machine)
    requires Good(m) && Room(m) && FirstSlice(m.sched)
    ensures KGoes(m, KYield, r) && LosesNext(r, slot)
  {
    FirstSliceLoses(m, slot);
    r := m.(sched := Yield(m.sched));
  }

  lemma ThreeSteps(m0: Machine, s0: KStep, m1: Machine, s1: KStep, m2: Machine, s2: KStep, m3: Machine)
    requires KGoes(m0, s0, m1) && KGoes(m1, s1, m2) && KGoes(m2, s2, m3)
    ensures KRun([m0, m1, m2, m3], [s0, s1, s2])
  {
  }

  /** Create, tick and yield from every boot, on every free page and with every priority: a run in which
      every tick saves the context it takes away, up to a state in which the next tick does not. */
  lemma FirstYieldLoses(m: Machine, tasks: seq<Task>, priority: nat, stack: int, slot: int, slot2: int)
    returns (tr: seq<Machine>)
    requires Boots(m, tasks) && priority < PRIORITY_COUNT && stack in m.freePages
    ensures KRun(tr, [KCreate(0, 0, priority, 0, stack, m.mem), KIrq(slot), KYield]) && tr[0] == m
    ensures LosesNext(tr[3], slot2)
  {
    var m1 := BootCreates(m, tasks, priority, stack);
    FirstPick(tasks, priority, stack);
    var m2 := FirstTick(m1, slot);
    var m3 := YieldsFirst(m2, slot2);
    tr := [m, m1, m2, m3];
    ThreeSteps(m, KCreate(0, 0, priority, 0, stack, m.mem), m1, KIrq(slot), m2, KYield, m3);
  }

  lemma BootRegions()
    ensures Usable(Region(0x1000, 0x2000)) && 0x200000 % STACK_SIZE == 0
    ensures var page := Region(0x200000, 0x200000 + STACK_SIZE);
            Usable(page) && Disjoint(page, Region(0x1000, 0x2000))
  {
  }

  /** A boot with one free page. */
  lemma SomeBoot() returns (m: Machine, tasks: seq<Task>)
    ensures Boots(m, tasks) && 0x200000 in m.freePages
  {
    tasks := seq(SLOTS, i => Task(0, Ready, 0, 0, 0, 0, 0, 0, 0, 0));
    var boot := Region(0x1000, 0x2000);
    var mem := seq(RAM / 4, i => 0);
    m := Machine(Init(tasks), mem, Regs(0, 0, 0, 0, 0x2000, 0), IDLE, boot, map[], {0x200000}, boot, 0);
    BootRegions();
  }

  /** There is a boot from which this happens. */
  lemma SomeRunLoses() returns (m: Machine, tasks: seq<Task>, tr: seq<Machine>)
    ensures Boots(m, tasks) && KRun(tr, [KCreate(0, 0, 0, 0, 0x200000, m.mem), KIrq(0), KYield]) && tr[0] == m
    ensures LosesNext(tr[3], 0)
  {
    m, tasks := SomeBoot();
    tr := FirstYieldLoses(m, tasks, 0, 0x200000, 0, 0);
  }
}
