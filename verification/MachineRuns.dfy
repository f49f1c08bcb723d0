/** The scheduler together with memory and the processor: what happens to suspended processes
    over whole runs. */
module MachineRuns {
  import opened KernelBase
  import opened SchedulerSpec
  import opened SchedulerInv
  import opened SchedulerRuns
  import opened ContextSwitch

  const RAM := 0x4000000
  /** Where a store through &((process_t*)NULL)->stack_ptr ends up. */
  const NULL_SLOT := 60

  datatype Region = Region(lo: int, hi: int)

  predicate Disjoint(a: Region, b: Region) { a.hi <= b.lo || b.hi <= a.lo }

  predicate Usable(r: Region) { 64 <= r.lo <= r.hi <= RAM && r.lo % 4 == 0 && r.hi % 4 == 0 }

  /** onCpu is the process whose code the processor executes, NULL once that process has exited;
      saved holds the context with which each process was last suspended, or its first one. */
  datatype Machine = Machine(
    sched: Sched, mem: seq<int>, regs: Regs, onCpu: int, cpuStack: Region,
    saved: map<int, Regs>, freePages: set<int>, boot: Region, trampoline: int)

  function StackOf(m: Machine, p: int): Region
    requires Shape(m.sched) && IsSlot(p)
  {
    if p == IDLE then m.boot
    else Region(m.sched.tasks[p].stackPhys, m.sched.tasks[p].stackPhys + STACK_SIZE)
  }

  ghost predicate Waiting(s: Sched, p: int)
    requires Shape(s)
  {
    exists k :: 0 <= k <= SLEEP && p in s.lists[k]
  }

  ghost predicate Suspended(m: Machine, p: int)
    requires Shape(m.sched)
  {
    Waiting(m.sched, p) && p != m.onCpu && IsSlot(p)
  }

  /** The saved stack pointer of p lies in its own stack, with room for a frame above it. */
  ghost predicate Inside(m: Machine, p: int)
    requires Shape(m.sched) && IsSlot(p)
  {
    var sp, r := m.sched.tasks[p].stackPtr, StackOf(m, p);
    r.lo <= sp && sp + FRAME_BYTES <= r.hi && sp % 4 == 0
  }

  /** The saved stack pointer of p addresses an intact frame with the context of p. */
  ghost predicate Intact(m: Machine, p: int)
    requires Shape(m.sched) && IsSlot(p)
  {
    Inside(m, p) && p in m.saved && FrameAt(m.mem, m.sched.tasks[p].stackPtr, m.saved[p])
  }

  /** The stacks of suspended processes are usable, apart from each other, from the stack in use
      and from the free pages. */
  ghost predicate StacksApart(m: Machine)
    requires Shape(m.sched)
  {
    && Usable(m.cpuStack)
    && (forall p :: Suspended(m, p) ==> Usable(StackOf(m, p)) && Disjoint(StackOf(m, p), m.cpuStack))
    && (forall p, q :: Suspended(m, p) && Suspended(m, q) && p != q ==> Disjoint(StackOf(m, p), StackOf(m, q)))
    && (forall f :: f in m.freePages ==>
          && f % STACK_SIZE == 0 && Usable(Region(f, f + STACK_SIZE)) && Disjoint(Region(f, f + STACK_SIZE), m.cpuStack)
          && forall p :: Suspended(m, p) ==> Disjoint(Region(f, f + STACK_SIZE), StackOf(m, p)))
  }

  ghost predicate OnCpuOk(m: Machine)
    requires Shape(m.sched)
  {
    && (m.sched.current != NULL ==> m.onCpu == m.sched.current)
    && (m.onCpu != NULL ==> IsSlot(m.onCpu) && m.cpuStack == StackOf(m, m.onCpu))
    && (m.onCpu != NULL && m.onCpu != IDLE ==> Inside(m, m.onCpu))
    && (m.onCpu != NULL && m.sched.current == NULL ==> Waiting(m.sched, m.onCpu) && m.onCpu != IDLE)
  }

  ghost predicate Good(m: Machine) {
    && Inv(m.sched) && 4 * |m.mem| == RAM
    && OnCpuOk(m)
    && StacksApart(m)
    && (forall p :: Suspended(m, p) ==> Intact(m, p))
  }

  // ---------------------------------------------------------------- steps

  datatype KStep =
    | KCreate(entry: int, arg: int, priority: nat, dir: int, stack: int, scratch: seq<int>)
    | KWork(regs: Regs, mem: seq<int>)
    | KYield
    | KSleep(ms: nat)
    | KExit
    | KReturn(p: int)
    | KIrq(slot: int)

  /** mem differs from the memory of m on no stack of a suspended process. */
  ghost predicate Undisturbed(m: Machine, mem: seq<int>)
    requires Shape(m.sched)
  {
    && |mem| == |m.mem|
    && forall p, a :: Suspended(m, p) && Aligned(mem, a) && StackOf(m, p).lo <= a < StackOf(m, p).hi ==>
         Load(mem, a) == Load(m.mem, a)
  }

  /** scheduler_tick finds room for its call on the stack in use. */
  predicate Room(m: Machine) {
    m.cpuStack.lo + 28 <= m.regs.esp <= m.cpuStack.hi && m.regs.esp % 4 == 0
  }

  /** The tick saves the context of the process on the processor where that process can find it:
      it is current, or it will never run again, or its old stack pointer happens to be right. */
  ghost predicate SavesContext(m: Machine)
    requires Shape(m.sched) && (m.onCpu == NULL || IsSlot(m.onCpu))
  {
    m.sched.current != NULL || m.onCpu == NULL || m.sched.tasks[m.onCpu].stackPtr == m.regs.esp - 28
  }

  ghost predicate KLegal(m: Machine, st: KStep)
    requires Good(m)
  {
    match st
    case KCreate(e, a, priority, dir, stack, scratch) =>
      && priority < PRIORITY_COUNT
      && (dir == 0 || dir in m.freePages) && (stack == 0 || stack in m.freePages - {dir})
      && Undisturbed(m, scratch)
    case KWork(_, mem) => Undisturbed(m, mem)
    case KYield => Legal(m.sched, DoYield)
    case KSleep(ms) => Legal(m.sched, DoSleep(ms))
    case KExit => Legal(m.sched, DoExit)
    case KReturn(p) => Legal(m.sched, DoReturn(p))
    case KIrq(_) => Room(m)
  }

  /** scheduler_create_process with its address space and stack; scratch is memory after the
      address space has been set up. */
  function CreateOn(m: Machine, entry: int, arg: int, priority: nat, dir: int, stack: int, scratch: seq<int>): Machine
    requires Shape(m.sched) && priority < PRIORITY_COUNT
    requires stack != 0 ==> Span(scratch, stack + STACK_SIZE - 20, stack + STACK_SIZE)
  {
    if m.sched.lists[FREE] == [] then m else
      var m1 := m.(sched := Create(m.sched, entry, arg, priority, dir, stack), mem := scratch,
                   freePages := m.freePages - {dir, stack});
      if stack == 0 then m1 else
        var end := stack + STACK_SIZE;
        m1.(mem := FirstFrame(scratch, end, m.trampoline),
            saved := m.saved[m.sched.lists[FREE][0] := Regs(0, 0, 0, 0, end, m.trampoline)])
  }

  /** What a creation does to the parts of the machine. */
  lemma CreateOnParts(m: Machine, entry: int, arg: int, priority: nat, dir: int, stack: int)
    requires Shape(m.sched) && priority < PRIORITY_COUNT
    requires stack != 0 ==> Span(m.mem, stack + STACK_SIZE - 20, stack + STACK_SIZE)
    ensures var r := CreateOn(m, entry, arg, priority, dir, stack, m.mem);
            && r.sched == Create(m.sched, entry, arg, priority, dir, stack)
            && r.regs == m.regs && r.trampoline == m.trampoline
            && r.mem == if m.sched.lists[FREE] == [] || stack == 0 then m.mem
                        else FirstFrame(m.mem, stack + STACK_SIZE, m.trampoline)
  {
  }

  // ---------------------------------------------------------------- who waits

  lemma WaitingIsListed(s: Sched, p: int)
    requires Placed(s)
    ensures Waiting(s, p) <==> Listed(s.lists, p) && p !in s.lists[FREE]
    ensures Waiting(s, p) ==> IsSlot(p) && p != s.current
  {
    if k :| 0 <= k <= SLEEP && p in s.lists[k] {
      assert Listed(s.lists, p);
    }
  }

  lemma WakeWaiting(s: Sched, p: int)
    requires Placed(s) && Placed(Wake(s))
    ensures Waiting(Wake(s), p) <==> Waiting(s, p)
  {
    WakePlaced(s, |s.lists[SLEEP]|);
    WaitingIsListed(s, p);
    WaitingIsListed(Wake(s), p);
  }

  lemma PreemptWaiting(s: Sched, p: int)
    requires Placed(s) && Placed(Preempt(s, 10))
    ensures Waiting(Preempt(s, 10), p) <==>
            Waiting(s, p) || (p == s.current != NULL && s.tasks[p].state in {Running, Sleeping})
  {
    var r := Preempt(s, 10);
    if s.current != NULL {
      if s.tasks[s.current].state == Running {
        var q := s.tasks[s.current].priority;
        assert r.lists[q][|s.lists[q]|] == s.current;
        assert forall k :: 0 <= k < LISTS ==> (p in r.lists[k] <==> p in s.lists[k] || (k == q && p == s.current));
      } else if s.tasks[s.current].state == Sleeping {
        assert r.lists[SLEEP][0] == s.current;
        assert forall k :: 0 <= k < LISTS ==> (p in r.lists[k] <==> p in s.lists[k] || (k == SLEEP && p == s.current));
      }
    }
  }

  lemma DispatchWaiting(a: Sched, p: int)
    requires Inv(a) && (a.current == NULL || (a.current != IDLE && a.tasks[a.current].state == Terminated))
    ensures Inv(Dispatch(a)) && (Waiting(a, p) <==> Waiting(Dispatch(a), p) || p == Dispatch(a).current)
  {
    DispatchInv(a);
    var r, q := Dispatch(a), a.tasks[Pick(a)].priority;
    assert a.lists[q] == [Pick(a)] + r.lists[q];
    assert forall k :: 0 <= k < LISTS ==> (p in a.lists[k] <==> p in r.lists[k] || (k == q && p == Pick(a)));
  }

  /** After a tick those wait who waited before, and the process that was running or asked to
      sleep, all without the one now running. */
  lemma IrqWaiting(s: Sched, p: int)
    requires Inv(s)
    ensures Inv(Irq(s))
    ensures Waiting(Irq(s), p) || p == Irq(s).current <==>
            Waiting(s, p) || (p == s.current != NULL && s.tasks[p].state in {Running, Sleeping})
  {
    var s0 := Counted(s);
    var w := ToPickFromWake(s);
    WakeWaiting(s0, p);
    WakeKeepsCurrent(s0);
    PreemptInv(w, 10);
    PreemptWaiting(w, p);
    DispatchWaiting(Preempt(w, 10), p);
    assert Waiting(s0, p) <==> Waiting(s, p);
  }

  predicate SameStacks(a: seq<Task>, b: seq<Task>) {
    |a| == |b| && forall p :: 0 <= p < |a| ==> a[p].stackPtr == b[p].stackPtr && a[p].stackPhys == b[p].stackPhys
  }

  lemma WakeKeepsStacks(s: Sched)
    requires Shape(s)
    ensures SameStacks(Wake(s).tasks, s.tasks)
  {
  }

  lemma PreemptKeepsStacks(s: Sched)
    requires Shape(s)
    ensures SameStacks(Preempt(s, 10).tasks, s.tasks)
  {
  }

  lemma DispatchKeepsStacks(s: Sched)
    requires Shape(s)
    ensures SameStacks(Dispatch(s).tasks, s.tasks)
  {
  }

  lemma IrqKeepsStacks(s: Sched)
    requires Inv(s)
    ensures SameStacks(Irq(s).tasks, s.tasks)
  {
    var w := ToPickFromWake(s);
    WakeKeepsStacks(Counted(s));
    PreemptKeepsStacks(w);
    DispatchKeepsStacks(AtPick(s));
  }

  /** What a tick does to the placement of processes: s1 is the scheduler state after it. */
  ghost predicate TickResult(m: Machine, s1: Sched) {
    && Shape(m.sched) && Inv(s1) && IsSlot(s1.current) && SameStacks(s1.tasks, m.sched.tasks)
    && forall p :: Waiting(s1, p) || p == s1.current <==>
                   || Waiting(m.sched, p)
                   || (p == m.sched.current != NULL && m.sched.tasks[p].state in {Running, Sleeping})
  }

  lemma IrqResult(m: Machine)
    requires Inv(m.sched)
    ensures TickResult(m, Irq(m.sched))
  {
    forall p { IrqWaiting(m.sched, p); }
    IrqKeepsStacks(m.sched);
    TickPicksTop(m.sched);
  }

  /** The process to switch to has a stack pointer that can be popped from. */
  predicate CanSwitch(m: Machine, s1: Sched) {
    && 4 * |m.mem| == RAM && Usable(m.cpuStack) && Room(m)
    && Shape(s1) && IsSlot(s1.current) && (m.sched.current == NULL || IsSlot(m.sched.current))
    && var sp := s1.tasks[s1.current].stackPtr; Span(m.mem, sp, sp + FRAME_BYTES)
  }

  lemma TickCanSwitch(m: Machine, s1: Sched)
    requires Good(m) && Room(m) && TickResult(m, s1) && s1.current != m.sched.current
    ensures Suspended(m, s1.current) || (s1.current == m.onCpu && m.sched.current == NULL)
    ensures Inside(m, s1.current) && CanSwitch(m, s1)
  {
    var next := s1.current;
    assert Waiting(m.sched, next);
    WaitingIsListed(m.sched, next);
  }

  /** The stack pointer of prev, if there is one, is saved in its control block. */
  function SavedTop(s: Sched, prev: int, top: int): Sched
    requires |s.tasks| == SLOTS && (prev == NULL || IsSlot(prev))
  {
    if prev == NULL then s else SetTask(s, prev, s.tasks[prev].(stackPtr := top))
  }

  /** The context switch at the end of scheduler_tick, from the previous process to s1.current. */
  function SwitchOn(m: Machine, s1: Sched, slot: int): Machine
    requires CanSwitch(m, s1)
  {
    var prev, next := m.sched.current, s1.current;
    var sp, top := s1.tasks[next].stackPtr, m.regs.esp - 28;
    var mem1 := Pushed(m.mem, m.regs, slot, sp);
    var s2 := SavedTop(s1, prev, top);
    var mem2 := if prev == NULL then Store(mem1, NULL_SLOT, top) else mem1;
    var m2 := m.(sched := s2);
    m2.(mem := mem2, regs := Popped(mem2, sp), onCpu := next, cpuStack := StackOf(m2, next),
        saved := if m.onCpu == NULL then m.saved else m.saved[m.onCpu := AfterReturn(m.regs)])
  }

  /** irq0_handler: scheduler_tick with its context switch. */
  ghost function IrqOn(m: Machine, slot: int): Machine
    requires Good(m) && Room(m)
  {
    var s1 := Irq(m.sched);
    if m.sched.current == s1.current then m.(sched := s1) else
      IrqResult(m);
      TickCanSwitch(m, s1);
      SwitchOn(m, s1, slot)
  }

  // ---------------------------------------------------------------- a switch keeps frames intact

  /** Memory after the switch: only the 28 bytes below the stack pointer and the word at NULL_SLOT. */
  lemma SwitchMemory(m: Machine, s1: Sched, slot: int)
    requires CanSwitch(m, s1)
    ensures var r := SwitchOn(m, s1, slot);
            && |r.mem| == |m.mem|
            && FrameAt(r.mem, m.regs.esp - 28, AfterReturn(m.regs))
            && forall a :: Aligned(m.mem, a) && a != NULL_SLOT && (a < m.regs.esp - 28 || a >= m.regs.esp) ==>
                 Load(r.mem, a) == Load(m.mem, a)
  {
    PushedFrame(m.mem, m.regs, slot, s1.tasks[s1.current].stackPtr);
  }

  lemma FrameMoves(a: seq<int>, b: seq<int>, sp: int, r: Regs)
    requires FrameAt(a, sp, r) && |a| == |b|
    requires forall x :: sp <= x < sp + FRAME_BYTES && Aligned(a, x) ==> Load(b, x) == Load(a, x)
    ensures FrameAt(b, sp, r)
  {
  }

  /** A frame on a stack other than the one in use stays as it is. */
  lemma FrameStays(m: Machine, s1: Sched, slot: int, p: int)
    requires CanSwitch(m, s1) && Shape(m.sched) && SameStacks(s1.tasks, m.sched.tasks)
    requires IsSlot(p) && p != m.onCpu && p != m.sched.current
    requires Intact(m, p) && Usable(StackOf(m, p)) && Disjoint(StackOf(m, p), m.cpuStack)
    ensures var r := SwitchOn(m, s1, slot);
            Shape(r.sched) && StackOf(r, p) == StackOf(m, p) && Intact(r, p)
  {
    var r := SwitchOn(m, s1, slot);
    SwitchMemory(m, s1, slot);
    FrameMoves(m.mem, r.mem, m.sched.tasks[p].stackPtr, m.saved[p]);
  }

  lemma SwitchKeepsOthers(m: Machine, s1: Sched, slot: int, p: int)
    requires Good(m) && CanSwitch(m, s1) && SameStacks(s1.tasks, m.sched.tasks)
    requires Suspended(m, p)
    ensures var r := SwitchOn(m, s1, slot);
            Shape(r.sched) && StackOf(r, p) == StackOf(m, p) && Intact(r, p)
  {
    WaitingIsListed(m.sched, p);
    FrameStays(m, s1, slot, p);
  }

  lemma SwitchSavesOwn(m: Machine, s1: Sched, slot: int)
    requires Shape(m.sched) && OnCpuOk(m) && CanSwitch(m, s1) && SameStacks(s1.tasks, m.sched.tasks) && m.onCpu != NULL
    ensures var r := SwitchOn(m, s1, slot);
            && Shape(r.sched) && StackOf(r, m.onCpu) == m.cpuStack
            && (Intact(r, m.onCpu) <==> SavesContext(m))
  {
    var r, top := SwitchOn(m, s1, slot), m.regs.esp - 28;
    assert Shape(r.sched);
    assert r.saved[m.onCpu] == AfterReturn(m.regs);
    assert SavesContext(m) <==> r.sched.tasks[m.onCpu].stackPtr == top;
    SwitchMemory(m, s1, slot);
  }

  lemma SwitchSuspended(m: Machine, s1: Sched, slot: int, p: int)
    requires Good(m) && CanSwitch(m, s1) && TickResult(m, s1) && s1.current != m.sched.current
    ensures var r := SwitchOn(m, s1, slot);
            Shape(r.sched) && (Suspended(r, p) <==> Waiting(s1, p) && p != s1.current)
            && (Suspended(r, p) ==> Suspended(m, p) || p == m.onCpu)
  {
    var r := SwitchOn(m, s1, slot);
    assert r.sched.lists == s1.lists;
    assert Waiting(r.sched, p) <==> Waiting(s1, p);
    WaitingIsListed(s1, p);
  }

  lemma SetStackInv(s: Sched, p: int, sp: int)
    requires Inv(s) && IsSlot(p)
    ensures Inv(SetTask(s, p, s.tasks[p].(stackPtr := sp)))
  {
  }

  /** p has a stack that is kept apart: it is suspended or on the processor. */
  ghost predicate HasStack(m: Machine, p: int)
    requires Shape(m.sched)
  {
    IsSlot(p) && (Suspended(m, p) || p == m.onCpu)
  }

  lemma StacksPairwise(m: Machine, p: int, q: int, f: int)
    requires Good(m) && HasStack(m, p)
    ensures Usable(StackOf(m, p))
    ensures HasStack(m, q) && p != q ==> Disjoint(StackOf(m, p), StackOf(m, q))
    ensures f in m.freePages ==> Disjoint(Region(f, f + STACK_SIZE), StackOf(m, p))
  {
  }

  /** Whoever has a stack in r but the one on the processor has the same stack as in m. */
  lemma StacksStayApart(m: Machine, r: Machine, next: int)
    requires Good(m) && HasStack(m, next) && Shape(r.sched)
    requires r.cpuStack == StackOf(m, next) && r.freePages <= m.freePages
    requires forall p :: Suspended(r, p) ==> HasStack(m, p) && p != next && StackOf(r, p) == StackOf(m, p)
    ensures StacksApart(r)
  {
    StacksPairwise(m, next, next, 0);
    forall p | Suspended(r, p)
      ensures Usable(StackOf(r, p)) && Disjoint(StackOf(r, p), r.cpuStack)
    {
      StacksPairwise(m, p, next, 0);
    }
    forall p, q | Suspended(r, p) && Suspended(r, q) && p != q
      ensures Disjoint(StackOf(r, p), StackOf(r, q))
    {
      StacksPairwise(m, p, q, 0);
    }
    forall f | f in r.freePages
      ensures Disjoint(Region(f, f + STACK_SIZE), r.cpuStack)
      ensures forall p :: Suspended(r, p) ==> Disjoint(Region(f, f + STACK_SIZE), StackOf(r, p))
    {
      StacksPairwise(m, next, next, f);
      forall p | Suspended(r, p) ensures Disjoint(Region(f, f + STACK_SIZE), StackOf(r, p)) {
        StacksPairwise(m, p, p, f);
      }
    }
  }

  lemma SwitchStacks(m: Machine, s1: Sched, slot: int)
    requires Good(m) && CanSwitch(m, s1) && TickResult(m, s1) && s1.current != m.sched.current
    requires HasStack(m, s1.current)
    ensures Shape(SwitchOn(m, s1, slot).sched) && StacksApart(SwitchOn(m, s1, slot))
  {
    var r := SwitchOn(m, s1, slot);
    assert Shape(r.sched);
    forall p ensures Suspended(r, p) ==> HasStack(m, p) && p != s1.current { SwitchSuspended(m, s1, slot, p); }
    StacksStayApart(m, r, s1.current);
  }

  lemma SwitchOnCpu(m: Machine, s1: Sched, slot: int)
    requires Good(m) && Room(m) && TickResult(m, s1) && s1.current != m.sched.current
    ensures CanSwitch(m, s1)
    ensures var r := SwitchOn(m, s1, slot); Inv(r.sched) && OnCpuOk(r) && StacksApart(r)
  {
    TickCanSwitch(m, s1);
    SwitchStacks(m, s1, slot);
    SwitchCpu(m, s1, slot);
  }

  /** After the switch the processor is on the stack of the process that it switched to. */
  lemma SwitchCpu(m: Machine, s1: Sched, slot: int)
    requires Shape(m.sched) && CanSwitch(m, s1) && Inv(s1) && SameStacks(s1.tasks, m.sched.tasks)
    requires s1.current != m.sched.current && Inside(m, s1.current)
    ensures var r := SwitchOn(m, s1, slot); Inv(r.sched) && OnCpuOk(r)
  {
    var r := SwitchOn(m, s1, slot);
    if m.sched.current != NULL { SetStackInv(s1, m.sched.current, m.regs.esp - 28); }
    assert r.sched.tasks[s1.current].stackPtr == m.sched.tasks[s1.current].stackPtr;
  }

  lemma SwitchIntact(m: Machine, s1: Sched, slot: int, p: int)
    requires Good(m) && CanSwitch(m, s1) && TickResult(m, s1) && s1.current != m.sched.current && SavesContext(m)
    requires HasStack(m, p)
    ensures Shape(SwitchOn(m, s1, slot).sched) && Intact(SwitchOn(m, s1, slot), p)
  {
    if p == m.onCpu { SwitchSavesOwn(m, s1, slot); }
    else { SwitchKeepsOthers(m, s1, slot, p); }
  }

  lemma SwitchAllIntact(m: Machine, s1: Sched, slot: int, r: Machine)
    requires Good(m) && CanSwitch(m, s1) && TickResult(m, s1) && s1.current != m.sched.current && SavesContext(m)
    requires r == SwitchOn(m, s1, slot) && Shape(r.sched)
    ensures forall p :: Suspended(r, p) ==> Intact(r, p)
  {
    forall p | Suspended(r, p) ensures Intact(r, p) {
      SwitchSuspended(m, s1, slot, p);
      SwitchIntact(m, s1, slot, p);
    }
  }

  lemma SwitchResumes(m: Machine, s1: Sched, slot: int, r: Machine)
    requires Good(m) && CanSwitch(m, s1) && TickResult(m, s1) && s1.current != m.sched.current && SavesContext(m)
    requires r == SwitchOn(m, s1, slot) && HasStack(m, s1.current)
    ensures r.onCpu in r.saved && r.regs == r.saved[r.onCpu]
  {
    SwitchIntact(m, s1, slot, s1.current);
    SwitchPops(m, s1, slot, r, r.saved[s1.current]);
  }

  /** The processor goes on with the context that the frame of the next process holds. */
  lemma SwitchPops(m: Machine, s1: Sched, slot: int, r: Machine, c: Regs)
    requires CanSwitch(m, s1) && s1.current != m.sched.current && r == SwitchOn(m, s1, slot)
    requires Shape(r.sched) && FrameAt(r.mem, r.sched.tasks[s1.current].stackPtr, c)
    ensures r.regs == c && r.onCpu == s1.current
  {
    assert r.sched.tasks[s1.current].stackPtr == s1.tasks[s1.current].stackPtr;
    PopRestores(r.mem, s1.tasks[s1.current].stackPtr, c);
  }

  /** If the context of the process on the processor is saved, every suspended process keeps an
      intact frame and the chosen process goes on exactly where it was suspended. */
  lemma SwitchGood(m: Machine, s1: Sched, slot: int)
    requires Good(m) && Room(m) && TickResult(m, s1) && s1.current != m.sched.current && SavesContext(m)
    ensures CanSwitch(m, s1)
    ensures var r := SwitchOn(m, s1, slot);
            Good(r) && r.onCpu in r.saved && r.regs == r.saved[r.onCpu]
  {
    TickCanSwitch(m, s1);
    SwitchOnCpu(m, s1, slot);
    SwitchAllIntact(m, s1, slot, SwitchOn(m, s1, slot));
    SwitchResumes(m, s1, slot, SwitchOn(m, s1, slot));
  }

  /** If it is not saved, the yielding process is lost: it resumes, now or later, with a context
      that is not the one it was suspended with. */
  lemma SwitchBad(m: Machine, s1: Sched, slot: int)
    requires Good(m) && Room(m) && TickResult(m, s1) && s1.current != m.sched.current && !SavesContext(m)
    ensures CanSwitch(m, s1)
    ensures var r := SwitchOn(m, s1, slot);
            !(Good(r) && r.onCpu in r.saved && r.regs == r.saved[r.onCpu])
  {
    TickCanSwitch(m, s1);
    var r := SwitchOn(m, s1, slot);
    SwitchSavesOwn(m, s1, slot);
    SwitchSuspended(m, s1, slot, m.onCpu);
    assert Waiting(s1, m.onCpu) || m.onCpu == s1.current;
  }

  // ---------------------------------------------------------------- the other steps

  /** A step that adds no suspended process and disturbs no suspended stack keeps all frames. */
  lemma StillGood(m: Machine, r: Machine)
    requires Good(m) && Inv(r.sched) && SameStacks(r.sched.tasks, m.sched.tasks) && OnCpuOk(r)
    requires Undisturbed(m, r.mem) && r.cpuStack == m.cpuStack && r.boot == m.boot
    requires r.freePages <= m.freePages && r.saved == m.saved
    requires forall p :: Suspended(r, p) ==> Suspended(m, p)
    ensures Good(r)
  {
    forall p | Suspended(r, p)
      ensures StackOf(r, p) == StackOf(m, p) && Intact(r, p)
    {
      FrameMoves(m.mem, r.mem, m.sched.tasks[p].stackPtr, m.saved[p]);
    }
  }

  /** A tick that picks the current process again switches nothing. */
  lemma NoSwitchGood(m: Machine)
    requires Good(m) && Irq(m.sched).current == m.sched.current
    ensures Good(m.(sched := Irq(m.sched)))
  {
    var r := m.(sched := Irq(m.sched));
    IrqResult(m);
    forall p ensures Suspended(r, p) ==> Suspended(m, p) {
      assert Waiting(r.sched, p) ==> Waiting(m.sched, p) || p == m.sched.current;
    }
    StillGood(m, r);
  }

  /** Every tick keeps all frames and restores the chosen process exactly when the context of the
      process on the processor is saved. */
  lemma IrqExact(m: Machine, slot: int)
    requires Good(m) && Room(m)
    ensures var r := IrqOn(m, slot);
            Good(r) && Resumed(m, r) <==> SavesContext(m)
  {
    var s1 := Irq(m.sched);
    IrqResult(m);
    if s1.current == m.sched.current {
      NoSwitchGood(m);
    } else if SavesContext(m) {
      SwitchGood(m, s1, slot);
    } else {
      SwitchBad(m, s1, slot);
    }
  }

  lemma YieldGood(m: Machine)
    requires Good(m) && Legal(m.sched, DoYield)
    ensures Good(m.(sched := Yield(m.sched)))
  {
    var s, r := m.sched, m.(sched := Yield(m.sched));
    YieldInv(s);
    if s.current != NULL && s.current != IDLE {
      var q := s.tasks[s.current].priority;
      assert r.sched.lists[q][|s.lists[q]|] == s.current;
      assert forall p, k :: 0 <= k <= SLEEP && p in r.sched.lists[k] ==> p in s.lists[k] || p == s.current;
    }
    StillGood(m, r);
  }

  lemma SleepGood(m: Machine, ms: nat)
    requires Good(m)
    ensures Good(m.(sched := Sleep(m.sched, ms)))
  {
    SleepInv(m.sched, ms);
    StillGood(m, m.(sched := Sleep(m.sched, ms)));
  }

  lemma ReturnGood(m: Machine, p: int)
    requires Good(m) && Legal(m.sched, DoReturn(p))
    ensures Good(m.(sched := Return(m.sched, p)))
  {
    ReturnSafe(m.sched, p);
    StillGood(m, m.(sched := Return(m.sched, p)));
  }

  ghost function ExitOn(m: Machine): Machine
    requires Shape(m.sched)
  {
    m.(sched := Exit(m.sched), onCpu := if m.sched.current == NULL then m.onCpu else NULL)
  }

  lemma ExitGood(m: Machine)
    requires Good(m) && Legal(m.sched, DoExit)
    ensures Good(ExitOn(m))
  {
    ExitInv(m.sched);
    var r := ExitOn(m);
    forall p ensures Suspended(r, p) ==> Suspended(m, p) {
      assert forall k :: 0 <= k <= SLEEP ==> r.sched.lists[k] == m.sched.lists[k];
      if Waiting(m.sched, p) { WaitingIsListed(m.sched, p); }
    }
    StillGood(m, r);
  }

  lemma CreateWaiting(s: Sched, entry: int, arg: int, priority: nat, dir: int, stack: int, x: int)
    requires Inv(s) && priority < PRIORITY_COUNT && s.lists[FREE] != []
    ensures var r, p := Create(s, entry, arg, priority, dir, stack), s.lists[FREE][0];
            Inv(r) && (Waiting(r, x) <==> Waiting(s, x) || (x == p && stack != 0))
  {
    CreateInv(s, entry, arg, priority, dir, stack);
    var r, p := Create(s, entry, arg, priority, dir, stack), s.lists[FREE][0];
    if stack != 0 {
      assert r.lists[priority][|s.lists[priority]|] == p;
      assert forall k :: 0 <= k <= SLEEP ==> (x in r.lists[k] <==> x in s.lists[k] || (k == priority && x == p));
    }
  }

  lemma CreateKeepsStacks(s: Sched, entry: int, arg: int, priority: nat, dir: int, stack: int, x: int)
    requires Inv(s) && priority < PRIORITY_COUNT && s.lists[FREE] != [] && IsSlot(x)
    ensures var t, p := Create(s, entry, arg, priority, dir, stack).tasks, s.lists[FREE][0];
            && |t| == SLOTS
            && (x != p || stack == 0 ==> t[x].stackPtr == s.tasks[x].stackPtr && t[x].stackPhys == s.tasks[x].stackPhys)
            && (x == p && stack != 0 ==> t[x].stackPhys == stack && t[x].stackPtr == stack + STACK_SIZE - 20)
  {
  }

  /** r is m with one more suspended process p, whose stack is a page that was free in m. */
  ghost predicate Adds(m: Machine, r: Machine, p: int, stack: int) {
    && Shape(m.sched) && Shape(r.sched) && 0 <= p < MAX_PROCESSES && !HasStack(m, p)
    && stack in m.freePages && r.freePages <= m.freePages - {stack}
    && r.cpuStack == m.cpuStack && r.onCpu == m.onCpu && r.boot == m.boot
    && StackOf(r, p) == Region(stack, stack + STACK_SIZE)
    && (forall x :: Suspended(r, x) && x != p ==> Suspended(m, x) && StackOf(r, x) == StackOf(m, x))
  }

  lemma AddStacks(m: Machine, r: Machine, p: int, stack: int)
    requires Good(m) && Adds(m, r, p, stack)
    ensures StacksApart(r)
  {
    var page := Region(stack, stack + STACK_SIZE);
    forall x, y | Suspended(r, x) && Suspended(r, y) && x != y
      ensures Disjoint(StackOf(r, x), StackOf(r, y))
    {
      if x != p { assert Suspended(m, x); }
      if y != p { assert Suspended(m, y); }
    }
    forall f | f in r.freePages
      ensures forall x :: Suspended(r, x) ==> Disjoint(Region(f, f + STACK_SIZE), StackOf(r, x))
    {
      assert Disjoint(Region(f, f + STACK_SIZE), page);
    }
  }

  lemma AddIntact(m: Machine, r: Machine, p: int, stack: int)
    requires Good(m) && Adds(m, r, p, stack) && Undisturbed(m, r.mem)
    requires r.sched.tasks[p].stackPtr == stack + STACK_SIZE - 20 && p in r.saved
    requires FrameAt(r.mem, stack + STACK_SIZE - 20, r.saved[p])
    requires forall x :: x in m.saved && x != p ==> x in r.saved && r.saved[x] == m.saved[x]
    requires forall x :: 0 <= x < SLOTS && x != p ==> r.sched.tasks[x].stackPtr == m.sched.tasks[x].stackPtr
    ensures forall x :: Suspended(r, x) ==> Intact(r, x)
  {
    forall x | Suspended(r, x) ensures Intact(r, x) {
      if x != p { FrameMoves(m.mem, r.mem, m.sched.tasks[x].stackPtr, m.saved[x]); }
    }
  }

  lemma CreateAdds(m: Machine, r: Machine, entry: int, arg: int, priority: nat, dir: int, stack: int, scratch: seq<int>)
    requires Good(m) && KLegal(m, KCreate(entry, arg, priority, dir, stack, scratch))
    requires m.sched.lists[FREE] != [] && stack != 0 && r == CreateOn(m, entry, arg, priority, dir, stack, scratch)
    ensures Inv(r.sched) && OnCpuOk(r) && Adds(m, r, m.sched.lists[FREE][0], stack)
  {
    var s, p := m.sched, m.sched.lists[FREE][0];
    assert p in s.lists[FREE] && Listed(s.lists, p);
    WaitingIsListed(s, p);
    IdleNotFree(s);
    forall x { CreateWaiting(s, entry, arg, priority, dir, stack, x); }
    forall x | IsSlot(x) { CreateKeepsStacks(s, entry, arg, priority, dir, stack, x); }
  }

  /** The stores of the first frame stay inside the new stack page. */
  lemma FirstFrameUndisturbed(m: Machine, stack: int, scratch: seq<int>)
    requires Good(m) && stack in m.freePages && Undisturbed(m, scratch)
    ensures Span(scratch, stack + STACK_SIZE - 20, stack + STACK_SIZE)
    ensures Undisturbed(m, FirstFrame(scratch, stack + STACK_SIZE, m.trampoline))
  {
    var end := stack + STACK_SIZE;
    var mem := FirstFrame(scratch, end, m.trampoline);
    forall p, a | Suspended(m, p) && Aligned(mem, a) && StackOf(m, p).lo <= a < StackOf(m, p).hi
      ensures Load(mem, a) == Load(m.mem, a)
    {
      assert Disjoint(Region(stack, end), StackOf(m, p));
      FirstFrameElsewhere(scratch, end, m.trampoline, StackOf(m, p), a);
    }
  }

  lemma FirstFrameElsewhere(mem: seq<int>, end: int, trampoline: int, other: Region, a: int)
    requires Span(mem, end - 20, end) && Aligned(mem, a) && other.lo <= a < other.hi
    requires Disjoint(Region(end - STACK_SIZE, end), other)
    ensures Load(FirstFrame(mem, end, trampoline), a) == Load(mem, a)
  {
    FirstFrameWords(mem, end, trampoline);
  }

  /** The new process has an intact first frame on a page of its own; a failed creation, which may
      cost a page, harms no one. */
  lemma CreateGood(m: Machine, entry: int, arg: int, priority: nat, dir: int, stack: int, scratch: seq<int>)
    requires Good(m) && KLegal(m, KCreate(entry, arg, priority, dir, stack, scratch))
    ensures Good(CreateOn(m, entry, arg, priority, dir, stack, scratch))
  {
    var r := CreateOn(m, entry, arg, priority, dir, stack, scratch);
    if m.sched.lists[FREE] != [] && stack != 0 {
      var p := m.sched.lists[FREE][0];
      CreateAdds(m, r, entry, arg, priority, dir, stack, scratch);
      AddStacks(m, r, p, stack);
      FirstFrameUndisturbed(m, stack, scratch);
      FirstFrameWords(scratch, stack + STACK_SIZE, m.trampoline);
      forall x | IsSlot(x) { CreateKeepsStacks(m.sched, entry, arg, priority, dir, stack, x); }
      AddIntact(m, r, p, stack);
    } else if m.sched.lists[FREE] != [] {
      FailedCreateGood(m, r, entry, arg, priority, dir, scratch);
    }
  }

  lemma FailedCreateGood(m: Machine, r: Machine, entry: int, arg: int, priority: nat, dir: int, scratch: seq<int>)
    requires Good(m) && KLegal(m, KCreate(entry, arg, priority, dir, 0, scratch))
    requires m.sched.lists[FREE] != [] && r == CreateOn(m, entry, arg, priority, dir, 0, scratch)
    ensures Good(r)
  {
    CreateInv(m.sched, entry, arg, priority, dir, 0);
    forall x | IsSlot(x) { CreateKeepsStacks(m.sched, entry, arg, priority, dir, 0, x); }
    assert r.sched.lists == m.sched.lists;
    StillGood(m, r);
  }

  // ---------------------------------------------------------------- whole runs

  ghost function KNext(m: Machine, st: KStep): Machine
    requires Good(m) && KLegal(m, st)
  {
    match st
    case KCreate(e, a, priority, dir, stack, scratch) => CreateOn(m, e, a, priority, dir, stack, scratch)
    case KWork(regs, mem) => m.(regs := regs, mem := mem)
    case KYield => m.(sched := Yield(m.sched))
    case KSleep(ms) => m.(sched := Sleep(m.sched, ms))
    case KExit => ExitOn(m)
    case KReturn(p) => m.(sched := Return(m.sched, p))
    case KIrq(slot) => IrqOn(m, slot)
  }

  /** The processor runs on in r, after a switch, with the context that its process was last
      suspended with. */
  predicate Resumed(m: Machine, r: Machine) {
    r.onCpu != m.sched.current ==> r.onCpu in r.saved && r.regs == r.saved[r.onCpu]
  }

  lemma StepGood(m: Machine, st: KStep)
    requires Good(m) && KLegal(m, st) && (st.KIrq? ==> SavesContext(m))
    ensures Good(KNext(m, st))
    ensures st.KIrq? ==> Resumed(m, KNext(m, st))
  {
    match st
    case KCreate(e, a, priority, dir, stack, scratch) => CreateGood(m, e, a, priority, dir, stack, scratch);
    case KWork(regs, mem) => StillGood(m, m.(regs := regs, mem := mem));
    case KYield => YieldGood(m);
    case KSleep(ms) => SleepGood(m, ms);
    case KExit => ExitGood(m);
    case KReturn(p) => ReturnGood(m, p);
    case KIrq(slot) => IrqExact(m, slot);
  }

  /** The machine as scheduler_init leaves it: idle on the boot stack, nobody suspended. */
  lemma BootGood(m: Machine, tasks: seq<Task>)
    requires |tasks| == SLOTS && (forall i :: 0 <= i < SLOTS ==> tasks[i].priority < PRIORITY_COUNT)
    requires m.sched == Init(tasks) && m.onCpu == IDLE && m.cpuStack == m.boot && 4 * |m.mem| == RAM && Usable(m.boot)
    requires forall f :: f in m.freePages ==>
               f % STACK_SIZE == 0 && Usable(Region(f, f + STACK_SIZE)) && Disjoint(Region(f, f + STACK_SIZE), m.boot)
    ensures Good(m)
  {
    InitInv(tasks);
    assert forall p :: !Waiting(m.sched, p);
  }

  /** A process that yields while its saved stack pointer is out of date does not get its context
      back: the next tick has no current process to save it for. */
  lemma YieldLosesContext(m: Machine, slot: int)
    requires Good(m) && Room(m) && Legal(m.sched, DoYield) && m.sched.current != NULL && m.sched.current != IDLE
    requires m.sched.tasks[m.sched.current].stackPtr != m.regs.esp - 28
    ensures var y := m.(sched := Yield(m.sched));
            Good(y) && !(Good(IrqOn(y, slot)) && Resumed(y, IrqOn(y, slot)))
  {
    YieldGood(m);
    IrqExact(m.(sched := Yield(m.sched)), slot);
  }

  /** r is the machine after the step st, which can happen and, if it is a tick, saves the context
      it takes away. */
  ghost predicate KGoes(m: Machine, st: KStep, r: Machine) {
    Good(m) ==> KLegal(m, st) && (st.KIrq? ==> SavesContext(m)) && r == KNext(m, st)
  }

  /** A run in which every step can happen and every tick saves the context it takes away. */
  ghost predicate KRun(tr: seq<Machine>, steps: seq<KStep>) {
    |tr| == |steps| + 1 && forall i :: 0 <= i < |steps| ==> KGoes(tr[i], steps[i], tr[i + 1])
  }

  lemma OneStep(tr: seq<Machine>, steps: seq<KStep>, i: nat, j: nat)
    requires KRun(tr, steps) && i < |steps| && j == i + 1 && Good(tr[i])
    ensures Good(tr[j]) && (steps[i].KIrq? ==> Resumed(tr[i], tr[j]))
  {
    assert KGoes(tr[i], steps[i], tr[j]);
    StepGood(tr[i], steps[i]);
  }

  /** In every run, every suspended process has an intact frame on its own stack, and every tick
      that switches restores exactly the context its process was suspended with. */
  lemma {:induction false} EveryRunRestores(tr: seq<Machine>, steps: seq<KStep>, n: nat)
    requires KRun(tr, steps) && Good(tr[0]) && n <= |steps|
    ensures Good(tr[n])
    ensures n < |steps| && steps[n].KIrq? ==> Resumed(tr[n], tr[n + 1])
  {
    if n > 0 {
      EveryRunRestores(tr, steps, n - 1);
      OneStep(tr, steps, n - 1, n);
    }
    if n < |steps| { OneStep(tr, steps, n, n + 1); }
  }
}
