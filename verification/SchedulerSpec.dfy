/** The process scheduler as a state machine on values (kernel/process/scheduler.c).

    Process control blocks are named by their slot: 0..63 are the pool and 64 is the idle
    process. The six intrusive lists of the scheduler are kept as sequences of slots: one
    ready queue per priority, the sleep list and the free list. */
module SchedulerSpec {
  import opened KernelBase
  import ContextSwitch

  const MAX_PROCESSES := 64
  const IDLE := 64
  const SLOTS := 65
  const PRIORITY_COUNT := 4
  const PRIORITY_LOW := 3
  const SLEEP := 4
  const FREE := 5
  const LISTS := 6
  const STACK_SIZE := 4096

  /** The value of a 32-bit unsigned field after storing x in it. */
  function Store32(x: nat): nat { x % TWO32 }

  datatype ProcState = Running | Ready | Sleeping | Blocked | Zombie | Terminated

  /** A process control block without its link field. Pointers are addresses, 0 being NULL. */
  datatype Task = Task(
    pid: nat, state: ProcState, priority: nat, cpuTime: nat, wakeTick: nat,
    entry: int, arg: int, dir: int, stackPhys: int, stackPtr: int)

  datatype Sched = Sched(
    tasks: seq<Task>, lists: seq<seq<int>>, current: int, tick: nat, nextPid: nat)

  // ---------------------------------------------------------------- well-formed states

  predicate IsSlot(p: int) { 0 <= p < SLOTS }

  /** Sizes and ranges: what the C types guarantee. */
  predicate Shape(s: Sched) {
    && |s.tasks| == SLOTS
    && |s.lists| == LISTS
    && (forall k, i :: 0 <= k < LISTS && 0 <= i < |s.lists[k]| ==> IsSlot(s.lists[k][i]))
    && (s.current == NULL || IsSlot(s.current))
    && (forall p :: 0 <= p < SLOTS ==> s.tasks[p].priority < PRIORITY_COUNT)
  }

  /** No slot occurs twice, neither in one list nor in two. */
  predicate Apart(lists: seq<seq<int>>) {
    forall k, i, l, j | 0 <= k < |lists| && 0 <= i < |lists[k]| && 0 <= l < |lists| && 0 <= j < |lists[l]| ::
      lists[k][i] == lists[l][j] ==> k == l && i == j
  }

  predicate Listed(lists: seq<seq<int>>, p: int) {
    exists k :: 0 <= k < |lists| && p in lists[k]
  }

  /** Each control block is in at most one place, and a queue holds only its own priority. */
  predicate Placed(s: Sched) {
    && Shape(s)
    && Apart(s.lists)
    && !Listed(s.lists, s.current)
    && (forall q, i :: 0 <= q < PRIORITY_COUNT && 0 <= i < |s.lists[q]| ==>
          s.tasks[s.lists[q][i]].priority == q)
    && (forall i :: 0 <= i < |s.lists[SLEEP]| ==> s.tasks[s.lists[SLEEP][i]].state == Sleeping)
  }

  /** The only control blocks that are nowhere are those of processes that returned. */
  predicate NoneLost(s: Sched)
    requires Shape(s)
  {
    && (s.current != NULL ==> s.tasks[s.current].state in {Running, Sleeping, Terminated})
    && forall p :: 0 <= p < SLOTS && !Listed(s.lists, p) && s.current != p ==> s.tasks[p].state == Terminated
  }

  /** The idle process is running or waits in the queue of the lowest priority. */
  predicate IdleReady(s: Sched)
    requires Shape(s)
  {
    && s.tasks[IDLE].priority == PRIORITY_LOW
    && ((s.current == IDLE && s.tasks[IDLE].state == Running) || IDLE in s.lists[PRIORITY_LOW])
  }

  predicate Inv(s: Sched) {
    Placed(s) && NoneLost(s) && IdleReady(s)
  }

  // ---------------------------------------------------------------- operations

  /** scheduler_init, on the zeroed static data. */
  function Init(tasks: seq<Task>): (s: Sched)
    requires |tasks| == SLOTS
  {
    var idle := tasks[IDLE].(pid := 0, state := Running, priority := PRIORITY_LOW, cpuTime := 0,
                             stackPtr := 0, entry := 0, arg := 0);
    Sched(tasks[IDLE := idle], [[], [], [], [], [], seq(MAX_PROCESSES, i => i)], IDLE, 0, 1)
  }

  function SetTask(s: Sched, p: int, t: Task): Sched
    requires |s.tasks| == SLOTS && IsSlot(p)
  {
    s.(tasks := s.tasks[p := t])
  }

  /** enqueue_process: to the tail of the queue of its own priority. */
  function Enqueue(s: Sched, p: int): Sched
    requires Shape(s) && IsSlot(p)
  {
    var q := s.tasks[p].priority;
    s.(lists := s.lists[q := s.lists[q] + [p]])
  }

  predicate Due(t: Task, tick: nat) { tick >= t.wakeTick }

  predicate Slots(ps: seq<int>) { forall i :: 0 <= i < |ps| ==> IsSlot(ps[i]) }

  /** The due tasks of priority q among ps, in order. */
  function DueOf(ps: seq<int>, tasks: seq<Task>, tick: nat, q: nat): seq<int>
    requires |tasks| == SLOTS && Slots(ps)
  {
    if ps == [] then [] else
      var p := ps[|ps| - 1];
      DueOf(ps[..|ps| - 1], tasks, tick, q) + (if Due(tasks[p], tick) && tasks[p].priority == q then [p] else [])
  }

  /** The tasks of ps that are not yet due, in order. */
  function NotDue(ps: seq<int>, tasks: seq<Task>, tick: nat): seq<int>
    requires |tasks| == SLOTS && Slots(ps)
  {
    if ps == [] then [] else
      var p := ps[|ps| - 1];
      NotDue(ps[..|ps| - 1], tasks, tick) + (if Due(tasks[p], tick) then [] else [p])
  }

  function Woken(ps: seq<int>, tasks: seq<Task>, tick: nat): (r: seq<Task>)
    requires |tasks| == SLOTS
    ensures |r| == SLOTS
  {
    seq(SLOTS, p requires 0 <= p < SLOTS =>
      if p in ps && Due(tasks[p], tick) then tasks[p].(state := Ready) else tasks[p])
  }

  /** List k after the wake pass has looked at the first n sleepers. */
  function WakeList(s: Sched, n: nat, k: nat): seq<int>
    requires Shape(s) && n <= |s.lists[SLEEP]| && k < LISTS
  {
    var all := s.lists[SLEEP];
    assert Slots(all[..n]);
    if k < PRIORITY_COUNT then s.lists[k] + DueOf(all[..n], s.tasks, s.tick, k)
    else if k == SLEEP then NotDue(all[..n], s.tasks, s.tick) + all[n..]
    else s.lists[k]
  }

  /** The wake pass after it has looked at the first n sleepers. */
  function WakeUpto(s: Sched, n: nat): Sched
    requires Shape(s) && n <= |s.lists[SLEEP]|
  {
    s.(tasks := Woken(s.lists[SLEEP][..n], s.tasks, s.tick),
       lists := seq(LISTS, k requires 0 <= k < LISTS => WakeList(s, n, k)))
  }

  /** check_sleepers: a stable partition of the sleep list by whether the task is due. */
  function Wake(s: Sched): Sched
    requires Shape(s)
  {
    WakeUpto(s, |s.lists[SLEEP]|)
  }

  /** pick_next_process: the head of the first non-empty ready queue. */
  function Pick(s: Sched): (p: int)
    requires Shape(s)
  {
    if s.lists[0] != [] then s.lists[0][0]
    else if s.lists[1] != [] then s.lists[1][0]
    else if s.lists[2] != [] then s.lists[2][0]
    else if s.lists[3] != [] then s.lists[3][0]
    else NULL
  }

  /** A control block after it has been charged for delta milliseconds. */
  function Charged(t: Task, delta: nat): Task { t.(cpuTime := Store32(t.cpuTime + delta)) }

  function Requeue(s: Sched, p: int, delta: nat): Sched
    requires Shape(s) && IsSlot(p)
  {
    Enqueue(SetTask(s, p, Charged(s.tasks[p], delta).(state := Ready)), p)
  }

  function Suspend(s: Sched, p: int, delta: nat): Sched
    requires Shape(s) && IsSlot(p)
  {
    SetTask(s, p, Charged(s.tasks[p], delta)).(lists := s.lists[SLEEP := [p] + s.lists[SLEEP]])
  }

  /** The part of scheduler_tick that takes the current process off the processor. */
  function Preempt(s: Sched, delta: nat): Sched
    requires Shape(s)
  {
    if s.current == NULL then s
    else if s.tasks[s.current].state == Running then Requeue(s, s.current, delta).(current := NULL)
    else if s.tasks[s.current].state == Sleeping then Suspend(s, s.current, delta).(current := NULL)
    else s
  }

  /** The part of scheduler_tick that chooses the next process and takes it off its queue. */
  function Dispatch(s: Sched): Sched
    requires Shape(s)
  {
    var p := Pick(s);
    if p == NULL then s.(current := IDLE) else
      var q := s.tasks[p].priority;
      s.(lists := s.lists[q := if s.lists[q] == [] then [] else s.lists[q][1..]],
         tasks := s.tasks[p := s.tasks[p].(state := Running)],
         current := p)
  }

  /** scheduler_tick without the context switch. */
  function Tick(s: Sched, delta: nat): Sched
    requires Shape(s)
  {
    WakeShape(s, |s.lists[SLEEP]|);
    PreemptShape(Wake(s), delta);
    Dispatch(Preempt(Wake(s), delta))
  }

  /** tick_count++ */
  function Counted(s: Sched): Sched { s.(tick := s.tick + 1) }

  /** The timer interrupt: count the tick and run scheduler_tick(10). */
  function Irq(s: Sched): Sched
    requires Shape(s)
  {
    Tick(Counted(s), 10)
  }

  /** Slot p becomes a new process. */
  function Filled(s: Sched, p: int, entry: int, arg: int, priority: nat, dir: int): Sched
    requires |s.tasks| == SLOTS && IsSlot(p)
  {
    s.(tasks := s.tasks[p := s.tasks[p].(pid := s.nextPid, state := Ready, priority := priority, cpuTime := 0,
                                         dir := dir, entry := entry, arg := arg)],
       nextPid := Store32(s.nextPid + 1))
  }

  /** scheduler_create_process, first part: take a control block off the free list and fill it. */
  function Claim(s: Sched, entry: int, arg: int, priority: nat, dir: int): Sched
    requires Shape(s) && priority < PRIORITY_COUNT && s.lists[FREE] != []
  {
    Filled(s.(lists := s.lists[FREE := s.lists[FREE][1..]]), s.lists[FREE][0], entry, arg, priority, dir)
  }

  /** scheduler_create_process, last part: give p its stack and make it ready. */
  function Admit(s: Sched, p: int, stack: int): Sched
    requires Shape(s) && IsSlot(p)
  {
    var top := stack + STACK_SIZE - ContextSwitch.FRAME_BYTES;
    Enqueue(SetTask(s, p, s.tasks[p].(stackPhys := stack, stackPtr := top)), p)
  }

  /** scheduler_create_process; dir and stack are what the two page allocations returned. A missing
      stack page puts the control block back. */
  function Create(s: Sched, entry: int, arg: int, priority: nat, dir: int, stack: int): Sched
    requires Shape(s) && priority < PRIORITY_COUNT
  {
    if s.lists[FREE] == [] then s
    else
      var s1 := Claim(s, entry, arg, priority, dir);
      if stack == 0 then s1.(lists := s.lists) else Admit(s1, s.lists[FREE][0], stack)
  }

  /** scheduler_yield. */
  function Yield(s: Sched): Sched
    requires Shape(s)
  {
    if s.current == NULL || s.current == IDLE then s
    else (if s.tasks[s.current].state == Running then Enqueue(s, s.current) else s).(current := NULL)
  }

  function SleepTicks(ms: nat): nat { if ms / 10 == 0 then 1 else ms / 10 }

  /** scheduler_sleep_current up to its waiting loop. The sum is stored in 32 bits. */
  function Sleep(s: Sched, ms: nat): Sched
    requires Shape(s)
  {
    if s.current == NULL || s.current == IDLE then s
    else SetTask(s, s.current, s.tasks[s.current].(
                   wakeTick := Store32(s.tick + SleepTicks(ms)), state := Sleeping))
  }

  /** sys_exit: terminate, release the control block, yield. */
  function Exit(s: Sched): Sched
    requires Shape(s)
  {
    if s.current == NULL then s else
      var p := s.current;
      var s1 := SetTask(s, p, s.tasks[p].(state := Terminated));
      var s2 := s1.(lists := s.lists[FREE := [p] + s.lists[FREE]]);
      if p == IDLE then s2 else s2.(current := NULL)
  }

  /** The entry function of p returned: process_entry_trampoline marks it and halts. */
  function Return(s: Sched, p: int): Sched
    requires Shape(s) && IsSlot(p)
  {
    SetTask(s, p, s.tasks[p].(state := Terminated))
  }

  // ---------------------------------------------------------------- shape is kept

  lemma {:induction false} DueOfMember(ps: seq<int>, tasks: seq<Task>, tick: nat, q: nat)
    requires |tasks| == SLOTS && Slots(ps)
    ensures forall p :: p in DueOf(ps, tasks, tick, q) <==> p in ps && Due(tasks[p], tick) && tasks[p].priority == q
  {
    if ps != [] {
      var front := ps[..|ps| - 1];
      assert ps == front + [ps[|ps| - 1]];
      DueOfMember(front, tasks, tick, q);
    }
  }

  lemma {:induction false} NotDueMember(ps: seq<int>, tasks: seq<Task>, tick: nat)
    requires |tasks| == SLOTS && Slots(ps)
    ensures forall p :: p in NotDue(ps, tasks, tick) <==> p in ps && !Due(tasks[p], tick)
  {
    if ps != [] {
      var front := ps[..|ps| - 1];
      assert ps == front + [ps[|ps| - 1]];
      NotDueMember(front, tasks, tick);
    }
  }

  lemma WakeShape(s: Sched, n: nat)
    requires Shape(s) && n <= |s.lists[SLEEP]|
    ensures Shape(WakeUpto(s, n))
  {
    var ps := s.lists[SLEEP][..n];
    var w := WakeUpto(s, n);
    NotDueMember(ps, s.tasks, s.tick);
    forall k, i | 0 <= k < LISTS && 0 <= i < |w.lists[k]|
      ensures IsSlot(w.lists[k][i])
    {
      if k < PRIORITY_COUNT {
        var due := DueOf(ps, s.tasks, s.tick, k);
        DueOfMember(ps, s.tasks, s.tick, k);
        assert w.lists[k] == s.lists[k] + due;
        if i >= |s.lists[k]| { assert w.lists[k][i] == due[i - |s.lists[k]|]; assert w.lists[k][i] in due; }
      } else if k == SLEEP {
        var kept := NotDue(ps, s.tasks, s.tick);
        if i < |kept| { assert w.lists[k][i] == kept[i]; assert w.lists[k][i] in kept; }
        else { assert w.lists[k][i] == s.lists[SLEEP][n + i - |kept|]; }
      }
    }
  }

  lemma PickIsSlot(s: Sched)
    requires Shape(s)
    ensures Pick(s) == NULL || IsSlot(Pick(s))
  {
  }

  lemma PreemptShape(s: Sched, delta: nat)
    requires Shape(s)
    ensures Shape(Preempt(s, delta))
  {
  }
}
