/** Properties of whole runs of the scheduler: placement, bounded waiting and sleep timing. */
module SchedulerRuns {
  import opened KernelBase
  import opened SchedulerSpec
  import opened SchedulerInv

  datatype Step =
    | DoCreate(entry: int, arg: int, priority: nat, dir: int, stack: int)
    | DoYield
    | DoSleep(ms: nat)
    | DoExit
    | DoReturn(p: int)
    | DoIrq

  /** What can happen next. Only the idle process never exits; everything else follows from a
      process executing no call while it sits in a waiting loop. */
  predicate Legal(s: Sched, st: Step)
    requires Shape(s)
  {
    match st
    case DoCreate(_, _, priority, _, _) => priority < PRIORITY_COUNT
    case DoYield => MayCall(s)
    case DoSleep(_) => MayCall(s)
    case DoExit => MayCall(s) && s.current != IDLE
    case DoReturn(p) =>
      && 0 <= p < MAX_PROCESSES && s.tasks[p].state == Running
      && (p == s.current || exists q :: 0 <= q < PRIORITY_COUNT && p in s.lists[q])
    case DoIrq => true
  }

  function Next(s: Sched, st: Step): (r: Sched)
    requires Inv(s) && Legal(s, st)
    ensures Inv(r)
  {
    match st
    case DoCreate(e, a, priority, dir, stack) =>
      CreateInv(s, e, a, priority, dir, stack);
      Create(s, e, a, priority, dir, stack)
    case DoYield => YieldInv(s); Yield(s)
    case DoSleep(ms) => SleepInv(s, ms); Sleep(s, ms)
    case DoExit => ExitInv(s); Exit(s)
    case DoReturn(p) => ReturnSafe(s, p); Return(s, p)
    case DoIrq => IrqInv(s); Irq(s)
  }

  lemma ReturnSafe(s: Sched, p: int)
    requires Inv(s) && Legal(s, DoReturn(p))
    ensures Inv(Return(s, p))
  {
    assert p !in s.lists[SLEEP];
    ReturnInv(s, p);
  }

  /** r is the state after the step st in s. */
  predicate Goes(s: Sched, st: Step, r: Sched) {
    Inv(s) ==> Legal(s, st) && r == Next(s, st)
  }

  /** The states that a run of steps goes through. Only the first one is known to be sound. */
  predicate IsRun(tr: seq<Sched>, steps: seq<Step>) {
    && |tr| == |steps| + 1 && Inv(tr[0])
    && forall i :: 0 <= i < |steps| ==> Goes(tr[i], steps[i], tr[i + 1])
  }

  lemma {:induction false} EveryRunInv(tr: seq<Sched>, steps: seq<Step>, n: nat)
    requires IsRun(tr, steps) && n < |tr|
    ensures Inv(tr[n])
  {
    if n > 0 {
      EveryRunInv(tr, steps, n - 1);
      assert Goes(tr[n - 1], steps[n - 1], tr[n]);
    }
  }

  function Irqs(steps: seq<Step>): nat {
    if steps == [] then 0 else (if steps[0].DoIrq? then 1 else 0) + Irqs(steps[1..])
  }

  // ---------------------------------------------------------------- placement

  datatype Place = InFreeList | InOwnQueue | InSleepList | OnProcessor | Returned

  predicate At(s: Sched, p: int, place: Place)
    requires Shape(s) && IsSlot(p)
  {
    match place
    case InFreeList => p in s.lists[FREE]
    case InOwnQueue => p in s.lists[s.tasks[p].priority]
    case InSleepList => p in s.lists[SLEEP]
    case OnProcessor => p == s.current
    case Returned => s.tasks[p].state == Terminated && p != s.current && forall k :: 0 <= k < LISTS ==> p !in s.lists[k]
  }

  predicate HasOnePlace(s: Sched, p: int)
    requires Shape(s) && IsSlot(p)
  {
    exists place :: At(s, p, place) && forall other :: At(s, p, other) ==> other == place
  }

  /** In every reachable state each of the 65 control blocks is in exactly one place, once. */
  lemma EveryRunPlaces(tasks: seq<Task>, tr: seq<Sched>, steps: seq<Step>, n: nat, p: int)
    requires |tasks| == SLOTS && IsRun(tr, steps) && tr[0] == Init(tasks) && n < |tr| && IsSlot(p)
    ensures Shape(tr[n]) && HasOnePlace(tr[n], p) && Apart(tr[n].lists)
  {
    EveryRunInv(tr, steps, n);
    OnePlace(tr[n], p);
  }

  lemma OneList(lists: seq<seq<int>>, p: int, k: nat, l: nat)
    requires Apart(lists) && k < |lists| && l < |lists| && p in lists[k] && p in lists[l]
    ensures k == l
  {
    var i :| 0 <= i < |lists[k]| && lists[k][i] == p;
    var j :| 0 <= j < |lists[l]| && lists[l][j] == p;
  }

  /** The list that a place stands for, or -1. */
  function ListOf(s: Sched, p: int, place: Place): int
    requires Shape(s) && IsSlot(p)
  {
    match place
    case InFreeList => FREE
    case InOwnQueue => s.tasks[p].priority
    case InSleepList => SLEEP
    case _ => -1
  }

  lemma AtMostOnePlace(s: Sched, p: int, place: Place, other: Place)
    requires Placed(s) && IsSlot(p) && At(s, p, place) && At(s, p, other)
    ensures place == other
  {
    var k, l := ListOf(s, p, place), ListOf(s, p, other);
    if k >= 0 { assert Listed(s.lists, p); }
    if l >= 0 { assert Listed(s.lists, p); }
    if k >= 0 && l >= 0 { OneList(s.lists, p, k, l); }
  }

  lemma SomePlace(s: Sched, p: int) returns (place: Place)
    requires Inv(s) && IsSlot(p)
    ensures At(s, p, place)
  {
    if k :| 0 <= k < LISTS && p in s.lists[k] {
      var i :| 0 <= i < |s.lists[k]| && s.lists[k][i] == p;
      place := if k == FREE then InFreeList else if k == SLEEP then InSleepList else InOwnQueue;
    } else {
      assert !Listed(s.lists, p);
      place := if p == s.current then OnProcessor else Returned;
    }
  }

  lemma OnePlace(s: Sched, p: int)
    requires Inv(s) && IsSlot(p)
    ensures HasOnePlace(s, p)
  {
    var place := SomePlace(s, p);
    forall other | At(s, p, other) ensures other == place { AtMostOnePlace(s, p, place, other); }
  }

  /** The state in which a tick picks: sleepers woken, the previous process put away. */
  function AtPick(s: Sched): (r: Sched)
    requires Inv(s)
    ensures Inv(r) && Irq(s) == Dispatch(r)
    ensures r.current == NULL || (r.current != IDLE && r.tasks[r.current].state == Terminated)
  {
    var s0 := Counted(s);
    assert Inv(s0);
    WakeInv(s0);
    PreemptInv(Wake(s0), 10);
    Preempt(Wake(s0), 10)
  }

  lemma ToPickFromWake(s: Sched) returns (w: Sched)
    requires Inv(s)
    ensures w == Wake(Counted(s)) && Inv(w) && AtPick(s) == Preempt(w, 10)
  {
    var s0 := Counted(s);
    assert Inv(s0);
    WakeInv(s0);
    w := Wake(s0);
  }

  /** From a to r, the head of queue q, the highest non-empty one, went on the processor. */
  predicate PicksFrom(a: Sched, r: Sched, q: nat) {
    && Shape(a) && IsTop(a, q)
    && r.current == a.lists[q][0] && |r.tasks| == SLOTS && r.tasks[r.current].state == Running
    && r.lists == a.lists[q := a.lists[q][1..]]
  }

  lemma DispatchPicks(a: Sched)
    requires Inv(a)
    requires a.current == NULL || (a.current != IDLE && a.tasks[a.current].state == Terminated)
    ensures exists q :: PicksFrom(a, Dispatch(a), q)
  {
    DispatchInv(a);
    assert PicksFrom(a, Dispatch(a), a.tasks[Pick(a)].priority);
  }

  /** Every tick of every run finds a process: it runs the head of the highest non-empty queue,
      dequeues that very process, and never falls back to a missing one. */
  lemma TickPicksTop(s: Sched)
    requires Inv(s)
    ensures exists q :: PicksFrom(AtPick(s), Irq(s), q)
  {
    DispatchPicks(AtPick(s));
  }

  // ---------------------------------------------------------------- bounded waiting

  /** At every tick of the run, the queues above priority q are empty when the scheduler picks. */
  predicate NoneAbove(tr: seq<Sched>, steps: seq<Step>, q: nat)
    requires |tr| == |steps| + 1 && q < PRIORITY_COUNT
  {
    forall i :: 0 <= i < |steps| && steps[i].DoIrq? && Inv(tr[i]) ==> QuietAbove(tr[i], q)
  }

  predicate QuietAbove(s: Sched, q: nat)
    requires Inv(s) && q < PRIORITY_COUNT
  {
    forall r :: 0 <= r < q ==> AtPick(s).lists[r] == []
  }

  lemma PreemptGrowsQueue(s: Sched, q: nat)
    requires Shape(s) && q < PRIORITY_COUNT
    ensures |Preempt(s, 10).lists| == LISTS && s.lists[q] <= Preempt(s, 10).lists[q]
  {
  }

  lemma WakeGrowsQueue(s: Sched, q: nat)
    requires Shape(s) && q < PRIORITY_COUNT
    ensures |Wake(s).lists| == LISTS && s.lists[q] <= Wake(s).lists[q]
  {
  }

  lemma QueueGrowsToPick(s: Sched, q: nat)
    requires Inv(s) && q < PRIORITY_COUNT
    ensures s.lists[q] <= AtPick(s).lists[q]
  {
    var w := ToPickFromWake(s);
    WakeGrowsQueue(Counted(s), q);
    PreemptGrowsQueue(w, q);
  }

  lemma OtherStepGrowsQueue(s: Sched, st: Step, q: nat)
    requires Inv(s) && Legal(s, st) && !st.DoIrq? && q < PRIORITY_COUNT
    ensures s.lists[q] <= Next(s, st).lists[q]
  {
  }

  lemma PickAdvances(a: Sched, r: Sched, q: nat, k: nat)
    requires Inv(a) && q < PRIORITY_COUNT && k < |a.lists[q]|
    requires forall l :: 0 <= l < q ==> a.lists[l] == []
    requires exists top :: PicksFrom(a, r, top)
    ensures |r.lists| == LISTS
    ensures k == 0 ==> r.current == a.lists[q][0]
    ensures k > 0 ==> k - 1 < |r.lists[q]| && r.lists[q][k - 1] == a.lists[q][k]
  {
  }

  /** One tick moves a waiting process exactly one place forward, and the head onto the processor. */
  lemma TickAdvances(s: Sched, q: nat, k: nat)
    requires Inv(s) && q < PRIORITY_COUNT && k < |s.lists[q]|
    requires forall r :: 0 <= r < q ==> AtPick(s).lists[r] == []
    ensures |Irq(s).lists| == LISTS
    ensures k == 0 ==> Irq(s).current == s.lists[q][0]
    ensures k > 0 ==> k - 1 < |Irq(s).lists[q]| && Irq(s).lists[q][k - 1] == s.lists[q][k]
  {
    QueueGrowsToPick(s, q);
    TickPicksTop(s);
    PickAdvances(AtPick(s), Irq(s), q, k);
  }

  /** What one step does to queue q, seen from outside. */
  predicate QueueMoves(s: Sched, st: Step, r: Sched, q: nat)
    requires Shape(s) && Shape(r) && q < PRIORITY_COUNT
  {
    if st.DoIrq? then
      forall k :: 0 <= k < |s.lists[q]| ==> MovesUp(s.lists[q], r.lists[q], r.current, k)
    else s.lists[q] <= r.lists[q]
  }

  /** The k-th of the queue before has moved one place up, the first one onto the processor. */
  predicate MovesUp(before: seq<int>, after: seq<int>, current: int, k: nat)
    requires k < |before|
  {
    if k == 0 then current == before[0] else k - 1 < |after| && after[k - 1] == before[k]
  }

  lemma StepMovesQueue(s: Sched, st: Step, q: nat)
    requires Inv(s) && Legal(s, st) && q < PRIORITY_COUNT
    requires st.DoIrq? ==> QuietAbove(s, q)
    ensures QueueMoves(s, st, Next(s, st), q)
  {
    if st.DoIrq? {
      IrqMovesQueue(s, q);
    } else {
      OtherStepGrowsQueue(s, st, q);
    }
  }

  lemma IrqMovesQueue(s: Sched, q: nat)
    requires Inv(s) && q < PRIORITY_COUNT && QuietAbove(s, q)
    ensures Shape(Irq(s)) && QueueMoves(s, DoIrq, Irq(s), q)
  {
    IrqInv(s);
    forall k: nat | k < |s.lists[q]| ensures MovesUp(s.lists[q], Irq(s).lists[q], Irq(s).current, k) {
      TickAdvances(s, q, k);
    }
  }

  predicate Walk(tr: seq<Sched>, steps: seq<Step>, q: nat)
    requires q < PRIORITY_COUNT
  {
    && |tr| == |steps| + 1
    && (forall i :: 0 <= i < |tr| ==> Shape(tr[i]))
    && (forall i :: 0 <= i < |steps| ==> QueueMoves(tr[i], steps[i], tr[i + 1], q))
  }

  lemma RunWalks(tr: seq<Sched>, steps: seq<Step>, q: nat)
    requires IsRun(tr, steps) && q < PRIORITY_COUNT && NoneAbove(tr, steps, q)
    ensures Walk(tr, steps, q)
  {
    forall i | 0 <= i < |tr| ensures Shape(tr[i]) { EveryRunInv(tr, steps, i); }
    forall i | 0 <= i < |steps| ensures QueueMoves(tr[i], steps[i], tr[i + 1], q) {
      EveryRunInv(tr, steps, i);
      assert Goes(tr[i], steps[i], tr[i + 1]);
      StepMovesQueue(tr[i], steps[i], q);
    }
  }

  lemma {:induction false} WalkAdvances(tr: seq<Sched>, steps: seq<Step>, q: nat, k: nat)
    requires q < PRIORITY_COUNT && Walk(tr, steps, q) && k < |tr[0].lists[q]|
    ensures Irqs(steps) <= k ==> var r := tr[|steps|];
              k - Irqs(steps) < |r.lists[q]| && r.lists[q][k - Irqs(steps)] == tr[0].lists[q][k]
    ensures Irqs(steps) == k + 1 && steps[|steps| - 1].DoIrq? ==> tr[|steps|].current == tr[0].lists[q][k]
    decreases |steps|
  {
    if steps != [] {
      assert QueueMoves(tr[0], steps[0], tr[1], q);
      if steps[0].DoIrq? { assert MovesUp(tr[0].lists[q], tr[1].lists[q], tr[1].current, k); }
      var k1 := if steps[0].DoIrq? then k - 1 else k;
      var p := tr[0].lists[q][k];
      if k1 >= 0 {
        assert k1 < |tr[1].lists[q]| && tr[1].lists[q][k1] == p;
        WalkAdvances(tr[1..], steps[1..], q, k1);
      } else if Irqs(steps) == 1 && steps[|steps| - 1].DoIrq? {
        OnlyIrqIsLast(steps);
      }
    }
  }

  /** A process at position k of its queue is at position k - n after n <= k ticks, and runs
      after tick k + 1, whatever else happens, while no higher priority is ready at the ticks. */
  lemma BoundedWaiting(tr: seq<Sched>, steps: seq<Step>, q: nat, k: nat)
    requires IsRun(tr, steps) && q < PRIORITY_COUNT && NoneAbove(tr, steps, q) && k < |tr[0].lists[q]|
    ensures Irqs(steps) <= k ==> var r := tr[|steps|];
              |r.lists| == LISTS && k - Irqs(steps) < |r.lists[q]| && r.lists[q][k - Irqs(steps)] == tr[0].lists[q][k]
    ensures Irqs(steps) == k + 1 && steps[|steps| - 1].DoIrq? ==> tr[|steps|].current == tr[0].lists[q][k]
  {
    RunWalks(tr, steps, q);
    WalkAdvances(tr, steps, q, k);
  }

  lemma {:induction false} OnlyIrqIsLast(steps: seq<Step>)
    requires steps != [] && steps[|steps| - 1].DoIrq?
    ensures Irqs(steps) >= 1
    ensures steps[0].DoIrq? && Irqs(steps) == 1 ==> |steps| == 1
  {
    if |steps| > 1 { OnlyIrqIsLast(steps[1..]); }
  }

  // ---------------------------------------------------------------- sleep timing

  /** idx picks the elements of sub out of ps, in order. */
  predicate Picks(ps: seq<int>, idx: seq<nat>, sub: seq<int>) {
    && |idx| == |sub|
    && (forall m :: 0 <= m < |idx| ==> idx[m] < |ps| && ps[idx[m]] == sub[m])
    && (forall m, n :: 0 <= m < n < |idx| ==> idx[m] < idx[n])
  }

  /** The wake pass appends to each queue exactly the due sleepers of its priority and keeps
      exactly the others, both in the order of the sleep list. */
  lemma WakeIsStable(s: Sched, q: nat) returns (due: seq<nat>, kept: seq<nat>)
    requires Shape(s) && q < PRIORITY_COUNT
    ensures var all, w := s.lists[SLEEP], Wake(s);
            && |w.lists| == LISTS && s.lists[q] <= w.lists[q]
            && Picks(all, due, w.lists[q][|s.lists[q]|..])
            && Picks(all, kept, w.lists[SLEEP])
            && forall i :: 0 <= i < |all| ==>
                 && (i in due <==> Due(s.tasks[all[i]], s.tick) && s.tasks[all[i]].priority == q)
                 && (i in kept <==> !Due(s.tasks[all[i]], s.tick))
  {
    var all, w := s.lists[SLEEP], Wake(s);
    assert all[..|all|] == all && all[|all|..] == [];
    due := DueIndices(all, s.tasks, s.tick, q);
    kept := NotDueIndices(all, s.tasks, s.tick);
    assert w.lists[q][|s.lists[q]|..] == DueOf(all, s.tasks, s.tick, q);
  }

  /** idx picks out of ps exactly the members of good. */
  predicate PicksAll(ps: seq<int>, idx: seq<nat>, sub: seq<int>, good: set<int>) {
    Picks(ps, idx, sub) && forall i :: 0 <= i < |ps| ==> (i in idx <==> ps[i] in good)
  }

  lemma PicksExtend(front: seq<int>, x: int, idx: seq<nat>, sub: seq<int>)
    requires Picks(front, idx, sub)
    ensures Picks(front + [x], idx, sub) && Picks(front + [x], idx + [|front|], sub + [x])
  {
  }

  /** Taking index n or not decides about n and leaves the smaller indices alone. */
  lemma LastIndex(idx: seq<nat>, n: nat, take: bool)
    requires forall m :: 0 <= m < |idx| ==> idx[m] < n
    ensures var r := if take then idx + [n] else idx;
            (n in r <==> take) && forall i :: 0 <= i < n ==> (i in r <==> i in idx)
  {
    var r := idx + [n];
    assert r[|idx|] == n;
    forall i | 0 <= i < n ensures i in r <==> i in idx {
      if i in idx {
        var m :| 0 <= m < |idx| && idx[m] == i;
        assert r[m] == i;
      }
    }
  }

  lemma PicksOneMore(front: seq<int>, x: int, idx: seq<nat>, sub: seq<int>, good: set<int>)
    requires PicksAll(front, idx, sub, good)
    ensures var n := |front|;
            if x in good then PicksAll(front + [x], idx + [n], sub + [x], good)
            else PicksAll(front + [x], idx, sub, good)
  {
    var n, take := |front|, x in good;
    PicksExtend(front, x, idx, sub);
    LastIndex(idx, n, take);
    var r := if take then idx + [n] else idx;
    forall i | 0 <= i < n + 1 ensures i in r <==> (front + [x])[i] in good {
      if i < n { assert (front + [x])[i] == front[i]; }
    }
  }

  function DueWith(tasks: seq<Task>, tick: nat, q: nat): set<int>
    requires |tasks| == SLOTS
  {
    set p | 0 <= p < SLOTS && Due(tasks[p], tick) && tasks[p].priority == q
  }

  function DueLater(tasks: seq<Task>, tick: nat): set<int>
    requires |tasks| == SLOTS
  {
    set p | 0 <= p < SLOTS && !Due(tasks[p], tick)
  }

  lemma {:induction false} DueIndices(ps: seq<int>, tasks: seq<Task>, tick: nat, q: nat) returns (idx: seq<nat>)
    requires |tasks| == SLOTS && Slots(ps)
    ensures PicksAll(ps, idx, DueOf(ps, tasks, tick, q), DueWith(tasks, tick, q))
  {
    if ps == [] {
      idx := [];
    } else {
      var n, good := |ps| - 1, DueWith(tasks, tick, q);
      var front, x := ps[..n], ps[n];
      var idx0 := DueIndices(front, tasks, tick, q);
      PicksOneMore(front, x, idx0, DueOf(front, tasks, tick, q), good);
      assert ps == front + [x];
      idx := if x in good then idx0 + [n] else idx0;
    }
  }

  lemma {:induction false} NotDueIndices(ps: seq<int>, tasks: seq<Task>, tick: nat) returns (idx: seq<nat>)
    requires |tasks| == SLOTS && Slots(ps)
    ensures PicksAll(ps, idx, NotDue(ps, tasks, tick), DueLater(tasks, tick))
  {
    if ps == [] {
      idx := [];
    } else {
      var n, good := |ps| - 1, DueLater(tasks, tick);
      var front, x := ps[..n], ps[n];
      var idx0 := NotDueIndices(front, tasks, tick);
      PicksOneMore(front, x, idx0, NotDue(front, tasks, tick), good);
      assert ps == front + [x];
      idx := if x in good then idx0 + [n] else idx0;
    }
  }

  lemma AsleepWake(s: Sched, p: int)
    requires Placed(s) && p in s.lists[SLEEP]
    ensures var w := Wake(s);
            |w.lists| == LISTS && |w.tasks| == SLOTS && w.tick == s.tick
            && w.tasks[p] == s.tasks[p].(state := if Due(s.tasks[p], s.tick) then Ready else Sleeping)
            && (p in w.lists[SLEEP] <==> !Due(s.tasks[p], s.tick))
            && (p in w.lists[s.tasks[p].priority] <==> Due(s.tasks[p], s.tick))
  {
    var all := s.lists[SLEEP];
    assert all[..|all|] == all;
    NotDueMember(all, s.tasks, s.tick);
    DueOfMember(all, s.tasks, s.tick, s.tasks[p].priority);
    var i :| 0 <= i < |all| && all[i] == p;
    assert p !in s.lists[s.tasks[p].priority];
  }

  /** After the wake pass no due task is left in the sleep list. */
  lemma WakeLeavesNoneDue(s: Sched, p: int)
    requires Placed(s) && p in Wake(s).lists[SLEEP]
    ensures p in s.lists[SLEEP] && !Due(s.tasks[p], s.tick) && Wake(s).tasks[p] == s.tasks[p]
  {
    var all := s.lists[SLEEP];
    assert all[..|all|] == all && all[|all|..] == [];
    NotDueMember(all, s.tasks, s.tick);
  }

  /** p is in the sleep list until tick wake. */
  predicate Asleep(s: Sched, p: int, wake: nat) {
    && Shape(s) && IsSlot(p)
    && p in s.lists[SLEEP] && s.tasks[p].state == Sleeping && s.tasks[p].wakeTick == wake
  }

  /** p has asked to sleep until tick wake and the next tick will put it in the sleep list. */
  predicate Dozing(s: Sched, p: int, wake: nat) {
    && Shape(s) && IsSlot(p)
    && p == s.current && s.tasks[p].state == Sleeping && s.tasks[p].wakeTick == wake
  }

  predicate Awake(s: Sched, p: int) {
    && Shape(s) && IsSlot(p)
    && p !in s.lists[SLEEP]
    && (|| (p == s.current && s.tasks[p].state == Running)
        || (p in s.lists[s.tasks[p].priority] && s.tasks[p].state == Ready))
  }

  lemma PreemptKeepsListed(s: Sched, delta: nat, p: int)
    requires Placed(s) && Listed(s.lists, p)
    ensures var r := Preempt(s, delta);
            && |r.lists| == LISTS && |r.tasks| == SLOTS && IsSlot(p) && r.tasks[p] == s.tasks[p] && r.tick == s.tick
            && forall k :: 0 <= k < LISTS ==> (p in r.lists[k] <==> p in s.lists[k])
  {
  }

  lemma DispatchKeepsSleeper(a: Sched, p: int)
    requires Inv(a) && (a.current == NULL || (a.current != IDLE && a.tasks[a.current].state == Terminated))
    requires p in a.lists[SLEEP]
    ensures var r := Dispatch(a);
            Inv(r) && p in r.lists[SLEEP] && r.tasks[p] == a.tasks[p] && r.tick == a.tick
  {
    DispatchInv(a);
    assert Pick(a) in a.lists[a.tasks[Pick(a)].priority];
  }

  lemma DispatchKeepsReady(a: Sched, p: int)
    requires Inv(a) && (a.current == NULL || (a.current != IDLE && a.tasks[a.current].state == Terminated))
    requires IsSlot(p) && p in a.lists[a.tasks[p].priority] && a.tasks[p].state == Ready
    ensures Awake(Dispatch(a), p)
  {
    DispatchInv(a);
    var r, q := Dispatch(a), a.tasks[p].priority;
    assert p !in r.lists[SLEEP];
    if p != Pick(a) && a.tasks[Pick(a)].priority == q {
      assert a.lists[q] == [Pick(a)] + r.lists[q];
    }
  }

  /** From the end of the wake pass to the end of the tick. */
  lemma TickAfterWake(w: Sched, p: int, wake: nat)
    requires Inv(w) && IsSlot(p)
    requires p in w.lists[SLEEP] || (p in w.lists[w.tasks[p].priority] && w.tasks[p].state == Ready)
    ensures var r := Dispatch(Preempt(w, 10));
            && r.tick == w.tick
            && (Asleep(w, p, wake) ==> Asleep(r, p, wake))
            && (p !in w.lists[SLEEP] ==> Awake(r, p))
  {
    assert Listed(w.lists, p);
    PreemptKeepsListed(w, 10, p);
    PreemptInv(w, 10);
    if p in w.lists[SLEEP] { DispatchKeepsSleeper(Preempt(w, 10), p); }
    else { DispatchKeepsReady(Preempt(w, 10), p); }
  }

  lemma IrqAsleep(s: Sched, p: int, wake: nat)
    requires Inv(s) && Asleep(s, p, wake)
    ensures Irq(s).tick == s.tick + 1
    ensures if s.tick + 1 < wake then Asleep(Irq(s), p, wake) else Awake(Irq(s), p)
  {
    AsleepWake(Counted(s), p);
    var w := ToPickFromWake(s);
    TickAfterWake(w, p, wake);
  }

  lemma WakeKeepsUnlisted(s: Sched, p: int)
    requires Placed(s) && IsSlot(p) && !Listed(s.lists, p)
    ensures Wake(s).tasks[p] == s.tasks[p] && Wake(s).current == s.current && Wake(s).tick == s.tick
  {
    var all := s.lists[SLEEP];
    assert all[..|all|] == all;
    assert p !in all;
  }

  lemma TickDozing(w: Sched, p: int, wake: nat)
    requires Inv(w) && Dozing(w, p, wake)
    ensures var r := Dispatch(Preempt(w, 10)); r.tick == w.tick && Asleep(r, p, wake)
  {
    PreemptInv(w, 10);
    var a := Preempt(w, 10);
    assert a.lists[SLEEP][0] == p;
    DispatchKeepsSleeper(a, p);
  }

  lemma IrqDozing(s: Sched, p: int, wake: nat)
    requires Inv(s) && Dozing(s, p, wake)
    ensures Irq(s).tick == s.tick + 1 && Asleep(Irq(s), p, wake)
  {
    WakeKeepsUnlisted(Counted(s), p);
    var w := ToPickFromWake(s);
    TickDozing(w, p, wake);
  }

  lemma OtherStepKeepsSleep(s: Sched, st: Step, p: int, wake: nat)
    requires Inv(s) && Legal(s, st) && !st.DoIrq?
    ensures Next(s, st).tick == s.tick
    ensures Asleep(s, p, wake) ==> Asleep(Next(s, st), p, wake)
    ensures Dozing(s, p, wake) ==> Dozing(Next(s, st), p, wake)
  {
    if st.DoCreate? && s.lists[FREE] != [] && p == s.lists[FREE][0] {
      assert p in s.lists[FREE];
    }
  }

  predicate SleepMoves(s: Sched, st: Step, r: Sched, p: int, wake: nat) {
    if st.DoIrq? then
      && r.tick == s.tick + 1
      && (Asleep(s, p, wake) ==> if r.tick < wake then Asleep(r, p, wake) else Awake(r, p))
      && (Dozing(s, p, wake) ==> Asleep(r, p, wake))
    else
      && r.tick == s.tick
      && (Asleep(s, p, wake) ==> Asleep(r, p, wake))
      && (Dozing(s, p, wake) ==> Dozing(r, p, wake))
  }

  lemma StepMovesSleep(s: Sched, st: Step, p: int, wake: nat)
    requires Inv(s) && Legal(s, st)
    ensures SleepMoves(s, st, Next(s, st), p, wake)
  {
    if st.DoIrq? {
      if Asleep(s, p, wake) { IrqAsleep(s, p, wake); }
      if Dozing(s, p, wake) { IrqDozing(s, p, wake); }
    } else {
      OtherStepKeepsSleep(s, st, p, wake);
    }
  }

  predicate SleepWalk(tr: seq<Sched>, steps: seq<Step>, p: int, wake: nat) {
    && |tr| == |steps| + 1
    && forall i :: 0 <= i < |steps| ==> SleepMoves(tr[i], steps[i], tr[i + 1], p, wake)
  }

  lemma RunSleepWalks(tr: seq<Sched>, steps: seq<Step>, p: int, wake: nat)
    requires IsRun(tr, steps)
    ensures SleepWalk(tr, steps, p, wake)
  {
    forall i | 0 <= i < |steps| ensures SleepMoves(tr[i], steps[i], tr[i + 1], p, wake) {
      EveryRunInv(tr, steps, i);
      assert Goes(tr[i], steps[i], tr[i + 1]);
      StepMovesSleep(tr[i], steps[i], p, wake);
    }
  }

  function Max(a: int, b: int): int { if a < b then b else a }

  /** least is 1 for a listed sleeper and 2 for one that the next tick will list. */
  lemma {:induction false} WalkWakes(tr: seq<Sched>, steps: seq<Step>, p: int, wake: nat, least: nat)
    requires SleepWalk(tr, steps, p, wake)
    requires (least == 1 && Asleep(tr[0], p, wake)) || (least == 2 && Dozing(tr[0], p, wake))
    ensures var n := Max(least, wake - tr[0].tick);
            && (Irqs(steps) < n ==> Asleep(tr[|steps|], p, wake) || Dozing(tr[|steps|], p, wake))
            && (Irqs(steps) == n && steps[|steps| - 1].DoIrq? ==> Awake(tr[|steps|], p))
    decreases |steps|
  {
    if steps != [] {
      assert SleepMoves(tr[0], steps[0], tr[1], p, wake);
      var rest := steps[1..];
      if !steps[0].DoIrq? {
        WalkWakes(tr[1..], rest, p, wake, least);
      } else if least == 2 {
        WalkWakes(tr[1..], rest, p, wake, 1);
        if rest == [] { assert Irqs(steps) == 1; }
      } else if tr[1].tick < wake {
        WalkWakes(tr[1..], rest, p, wake, 1);
        if rest == [] { assert Irqs(steps) == 1; }
      } else if Irqs(steps) == 1 && steps[|steps| - 1].DoIrq? {
        OnlyIrqIsLast(steps);
      }
    }
  }

  lemma DozingWakes(tr: seq<Sched>, steps: seq<Step>, p: int, wake: nat)
    requires IsRun(tr, steps) && Dozing(tr[0], p, wake)
    ensures var r, n := tr[|steps|], Max(2, wake - tr[0].tick);
            && Inv(r) && IsSlot(p) && (Irqs(steps) < n ==> r.tasks[p].state == Sleeping)
            && (Irqs(steps) == n && steps[|steps| - 1].DoIrq? ==> Awake(r, p))
  {
    RunSleepWalks(tr, steps, p, wake);
    EveryRunInv(tr, steps, |steps|);
    WalkWakes(tr, steps, p, wake, 2);
  }

  lemma SleepDozes(s: Sched, ms: nat)
    requires Inv(s) && s.current != NULL && s.current != IDLE
    ensures Dozing(Sleep(s, ms), s.current, Store32(s.tick + SleepTicks(ms))) && Sleep(s, ms).tick == s.tick
  {
  }

  /** A process that sleeps for ms milliseconds stays asleep through every run until the tick with
      the number given here, and is ready or running after exactly that tick. */
  lemma SleepTiming(s: Sched, ms: nat, tr: seq<Sched>, steps: seq<Step>)
    requires Inv(s) && s.current != NULL && s.current != IDLE && IsRun(tr, steps) && tr[0] == Sleep(s, ms)
    ensures var p, r := s.current, tr[|steps|];
            var n := Max(2, Store32(s.tick + SleepTicks(ms)) - s.tick);
            && Inv(r) && (Irqs(steps) < n ==> r.tasks[p].state == Sleeping)
            && (Irqs(steps) == n && steps[|steps| - 1].DoIrq? ==> Awake(r, p))
  {
    SleepDozes(s, ms);
    DozingWakes(tr, steps, s.current, Store32(s.tick + SleepTicks(ms)));
  }

  /** That number is the requested one, but at least 2, exactly while the 32-bit sum does not wrap or
      no more than the minimum was asked for. */
  lemma SleepLastsAsAsked(tick: nat, ms: nat)
    ensures Max(2, Store32(tick + SleepTicks(ms)) - tick) == Max(2, SleepTicks(ms))
            <==> tick + SleepTicks(ms) < TWO32 || SleepTicks(ms) <= 2
  {
  }

  /** After a tick, a task still asleep although due is the one that went to sleep in that tick. */
  lemma OnlyNewSleepersDue(s: Sched, p: int)
    requires Inv(s) && Inv(Irq(s)) && p in Irq(s).lists[SLEEP] && Due(Irq(s).tasks[p], Irq(s).tick)
    ensures p == s.current && s.tasks[p].state == Sleeping
  {
    var s0 := Counted(s);
    var w := ToPickFromWake(s);
    TickPicksTop(s);
    var a := AtPick(s);
    assert p in a.lists[SLEEP];
    DispatchKeepsSleeper(a, p);
    if p in w.lists[SLEEP] {
      WakeLeavesNoneDue(s0, p);
      assert Listed(w.lists, p);
      PreemptKeepsListed(w, 10, p);
      assert false;
    }
    WakeKeepsCurrent(s0);
  }

  lemma WakeKeepsCurrent(s: Sched)
    requires Placed(s)
    ensures Wake(s).current == s.current
    ensures s.current != NULL ==> Wake(s).tasks[s.current] == s.tasks[s.current]
  {
    if s.current != NULL { WakeKeepsUnlisted(s, s.current); }
  }
}
