/** What every scheduler operation keeps: each control block in exactly one place. */
module SchedulerInv {
  import opened KernelBase
  import ContextSwitch
  import opened SchedulerSpec

  // ---------------------------------------------------------------- list surgery

  lemma AppendApart(lists: seq<seq<int>>, k: nat, p: int)
    requires Apart(lists) && k < |lists| && !Listed(lists, p)
    ensures Apart(lists[k := lists[k] + [p]])
    ensures forall x :: Listed(lists[k := lists[k] + [p]], x) <==> Listed(lists, x) || x == p
  {
    var after := lists[k := lists[k] + [p]];
    ListedStep(lists, after, k, p);
    assert p in after[k];
    forall k1, i, l, j | 0 <= k1 < |after| && 0 <= i < |after[k1]| && 0 <= l < |after| && 0 <= j < |after[l]|
      ensures after[k1][i] == after[l][j] ==> k1 == l && i == j
    {
      if k1 == k && i == |lists[k]| {
        if l != k || j != i { assert after[l][j] == lists[l][j]; assert lists[l][j] in lists[l]; }
      } else if l == k && j == |lists[k]| {
        assert after[k1][i] == lists[k1][i]; assert lists[k1][i] in lists[k1];
      } else {
        assert after[k1][i] == lists[k1][i] && after[l][j] == lists[l][j];
      }
    }
  }

  lemma PushApart(lists: seq<seq<int>>, k: nat, p: int)
    requires Apart(lists) && k < |lists| && !Listed(lists, p)
    ensures Apart(lists[k := [p] + lists[k]])
    ensures forall x :: Listed(lists[k := [p] + lists[k]], x) <==> Listed(lists, x) || x == p
  {
    var after := lists[k := [p] + lists[k]];
    ListedStep(lists, after, k, p);
    assert p in after[k];
    forall k1, i, l, j | 0 <= k1 < |after| && 0 <= i < |after[k1]| && 0 <= l < |after| && 0 <= j < |after[l]|
      ensures after[k1][i] == after[l][j] ==> k1 == l && i == j
    {
      var i0 := if k1 == k then i - 1 else i;
      var j0 := if l == k then j - 1 else j;
      if i0 >= 0 { assert after[k1][i] == lists[k1][i0]; assert lists[k1][i0] in lists[k1]; }
      if j0 >= 0 { assert after[l][j] == lists[l][j0]; assert lists[l][j0] in lists[l]; }
    }
  }

  /** Adding p to list k adds p, and only p, to the listed slots. */
  lemma ListedStep(lists: seq<seq<int>>, after: seq<seq<int>>, k: nat, p: int)
    requires k < |lists| == |after|
    requires forall l :: 0 <= l < |lists| && l != k ==> after[l] == lists[l]
    requires forall x :: x in after[k] <==> x in lists[k] || x == p
    ensures forall x :: Listed(after, x) <==> Listed(lists, x) || x == p
  {
    assert p in after[k];
    forall x
      ensures Listed(after, x) <==> Listed(lists, x) || x == p
    {
      if Listed(lists, x) {
        var l :| 0 <= l < |lists| && x in lists[l];
        assert x in after[l];
      }
      if Listed(after, x) {
        var l :| 0 <= l < |lists| && x in after[l];
        assert x == p || x in lists[l];
      }
    }
  }

  lemma RemoveApart(lists: seq<seq<int>>, k: nat, a: seq<int>, p: int, b: seq<int>)
    requires Apart(lists) && k < |lists| && lists[k] == a + [p] + b
    ensures Apart(lists[k := a + b])
    ensures !Listed(lists[k := a + b], p)
    ensures forall x :: Listed(lists, x) <==> Listed(lists[k := a + b], x) || x == p
  {
    var after := lists[k := a + b];
    assert lists[k][|a|] == p;
    forall k1, i, l, j | 0 <= k1 < |after| && 0 <= i < |after[k1]| && 0 <= l < |after| && 0 <= j < |after[l]|
      ensures after[k1][i] == after[l][j] ==> k1 == l && i == j
      ensures after[k1][i] != p
    {
      var i0 := if k1 == k && i >= |a| then i + 1 else i;
      var j0 := if l == k && j >= |a| then j + 1 else j;
      assert after[k1][i] == lists[k1][i0];
      assert after[l][j] == lists[l][j0];
    }
    assert forall l :: 0 <= l < |after| ==> p !in after[l];
    assert forall x :: x in lists[k] <==> x in after[k] || x == p;
    ListedStep(after, lists, k, p);
  }

  // ---------------------------------------------------------------- the wake pass

  /** Take p out of the sleep list a + [p] + b and append it to its ready queue. */
  function Rouse(w: Sched, a: seq<int>, p: int, b: seq<int>): Sched
    requires Shape(w) && IsSlot(p)
  {
    var q := w.tasks[p].priority;
    w.(lists := w.lists[SLEEP := a + b][q := w.lists[q] + [p]],
       tasks := w.tasks[p := w.tasks[p].(state := Ready)])
  }

  /** One iteration of check_sleepers either leaves its task or moves it to the tail of its queue. */
  lemma WakeStep(s: Sched, n: nat)
    requires Shape(s) && n < |s.lists[SLEEP]|
    ensures var all := s.lists[SLEEP];
            var p := all[n];
            var w := WakeUpto(s, n);
            var kept := NotDue(all[..n], s.tasks, s.tick);
            && Shape(w) && w.tasks[p].priority == s.tasks[p].priority
            && w.lists[SLEEP] == kept + [p] + all[n + 1..]
            && WakeUpto(s, n + 1) == if Due(s.tasks[p], s.tick) then Rouse(w, kept, p, all[n + 1..]) else w
  {
    var all := s.lists[SLEEP];
    var p := all[n];
    var w := WakeUpto(s, n);
    WakeShape(s, n);
    assert all[n..] == [p] + all[n + 1..];
    assert w.lists[SLEEP] == NotDue(all[..n], s.tasks, s.tick) + [p] + all[n + 1..];
    WakeStepLists(s, n);
    WakeStepTasks(s, n);
  }

  lemma WakeStepTasks(s: Sched, n: nat)
    requires Shape(s) && n < |s.lists[SLEEP]|
    ensures var p := s.lists[SLEEP][n];
            var w := WakeUpto(s, n);
            WakeUpto(s, n + 1).tasks ==
              if Due(s.tasks[p], s.tick) then w.tasks[p := w.tasks[p].(state := Ready)] else w.tasks
  {
    var all := s.lists[SLEEP];
    assert all[..n + 1] == all[..n] + [all[n]];
  }

  lemma WakeStepLists(s: Sched, n: nat)
    requires Shape(s) && n < |s.lists[SLEEP]|
    ensures var all := s.lists[SLEEP];
            var p := all[n];
            var w := WakeUpto(s, n);
            var q := s.tasks[p].priority;
            var kept := NotDue(all[..n], s.tasks, s.tick);
            WakeUpto(s, n + 1).lists ==
              if Due(s.tasks[p], s.tick) then w.lists[SLEEP := kept + all[n + 1..]][q := w.lists[q] + [p]]
              else w.lists
  {
    var a, w := WakeUpto(s, n + 1).lists, WakeUpto(s, n).lists;
    var p := s.lists[SLEEP][n];
    var kept, q := NotDue(s.lists[SLEEP][..n], s.tasks, s.tick) + s.lists[SLEEP][n + 1..], s.tasks[p].priority;
    forall k: nat | k < LISTS
      ensures a[k] == if !Due(s.tasks[p], s.tick) then w[k]
                      else if k == SLEEP then kept else if k == q then w[k] + [p] else w[k]
    {
      WakeListStep(s, n, k);
    }
    TwoLists(a, w, Due(s.tasks[p], s.tick), kept, q, p);
  }

  lemma TwoLists(a: seq<seq<int>>, w: seq<seq<int>>, moved: bool, kept: seq<int>, q: nat, p: int)
    requires |a| == |w| == LISTS && q < SLEEP
    requires forall k: nat :: k < LISTS ==>
               a[k] == if !moved then w[k] else if k == SLEEP then kept else if k == q then w[k] + [p] else w[k]
    ensures a == if moved then w[SLEEP := kept][q := w[q] + [p]] else w
  {
  }

  lemma WakeListStep(s: Sched, n: nat, k: nat)
    requires Shape(s) && n < |s.lists[SLEEP]| && k < LISTS
    ensures var all := s.lists[SLEEP];
            var p := all[n];
            WakeList(s, n + 1, k) ==
              if !Due(s.tasks[p], s.tick) then WakeList(s, n, k)
              else if k == SLEEP then NotDue(all[..n], s.tasks, s.tick) + all[n + 1..]
              else if k == s.tasks[p].priority then WakeList(s, n, k) + [p]
              else WakeList(s, n, k)
  {
    var all := s.lists[SLEEP];
    var ps := all[..n + 1];
    assert ps[..|ps| - 1] == all[..n];
    assert all[n..] == [all[n]] + all[n + 1..];
  }

  lemma WakeNone(s: Sched)
    requires Shape(s)
    ensures WakeUpto(s, 0) == s
  {
    forall k: nat | k < LISTS ensures WakeList(s, 0, k) == s.lists[k] { }
    assert WakeUpto(s, 0).lists == s.lists;
    assert WakeUpto(s, 0).tasks == s.tasks;
  }

  lemma {:induction false} WakePlaced(s: Sched, n: nat)
    requires Placed(s) && n <= |s.lists[SLEEP]|
    ensures Placed(WakeUpto(s, n))
    ensures forall x :: Listed(WakeUpto(s, n).lists, x) <==> Listed(s.lists, x)
  {
    if n == 0 {
      WakeNone(s);
    } else {
      var all := s.lists[SLEEP];
      var p := all[n - 1];
      var w := WakeUpto(s, n - 1);
      var kept := NotDue(all[..n - 1], s.tasks, s.tick);
      WakePlaced(s, n - 1);
      WakeStep(s, n - 1);
      if Due(s.tasks[p], s.tick) {
        MovePlaced(w, kept, p, all[n..]);
      }
    }
  }

  /** Moving a sleeper to the tail of its ready queue keeps every placement fact. */
  lemma MovePlaced(w: Sched, a: seq<int>, p: int, b: seq<int>)
    requires Placed(w) && w.lists[SLEEP] == a + [p] + b && IsSlot(p)
    ensures Placed(Rouse(w, a, p, b))
    ensures forall x :: Listed(Rouse(w, a, p, b).lists, x) <==> Listed(w.lists, x)
  {
    var all, q := w.lists[SLEEP], w.tasks[p].priority;
    var less := w.lists[SLEEP := a + b];
    RemoveApart(w.lists, SLEEP, a, p, b);
    AppendApart(less, q, p);
    var e := Rouse(w, a, p, b);
    assert all[|a|] == p && p in all;
    forall i | 0 <= i < |e.lists[SLEEP]|
      ensures IsSlot(e.lists[SLEEP][i]) && e.tasks[e.lists[SLEEP][i]].state == Sleeping
    {
      assert e.lists[SLEEP][i] == all[if i < |a| then i else i + 1];
      assert e.lists[SLEEP][i] in less[SLEEP];
    }
  }

  /** From a to b the wake pass deals with p, which has kept before it and rest behind it. */
  predicate Visit(a: Sched, p: int, kept: seq<int>, rest: seq<int>, b: Sched, kept1: seq<int>) {
    && Shape(a) && Apart(a.lists) && IsSlot(p) && a.lists[SLEEP] == kept + [p] + rest
    && b == (if Due(a.tasks[p], a.tick) then Rouse(a, kept, p, rest) else a)
    && kept1 == if Due(a.tasks[p], a.tick) then kept else kept + [p]
  }

  predicate IsPath(all: seq<int>, path: seq<Sched>, kepts: seq<seq<int>>) {
    && 0 < |path| == |kepts| <= |all| + 1
    && forall i :: 0 <= i < |path| - 1 ==> Visit(path[i], all[i], kepts[i], all[i + 1..], path[i + 1], kepts[i + 1])
  }

  lemma ExtendPath(all: seq<int>, path: seq<Sched>, kepts: seq<seq<int>>, w: Sched, kept: seq<int>)
    requires IsPath(all, path, kepts) && |path| <= |all|
    requires var n := |path| - 1; Visit(path[n], all[n], kepts[n], all[n + 1..], w, kept)
    ensures IsPath(all, path + [w], kepts + [kept])
  {
    var path1, kepts1 := path + [w], kepts + [kept];
    forall i | 0 <= i < |path1| - 1
      ensures Visit(path1[i], all[i], kepts1[i], all[i + 1..], path1[i + 1], kepts1[i + 1])
    {
      assert path1[i] == path[i] && kepts1[i] == kepts[i];
      if i < |path| - 1 { assert path1[i + 1] == path[i + 1] && kepts1[i + 1] == kepts[i + 1]; }
    }
  }

  /** A path of the wake pass over the first n sleepers. */
  predicate Reaches(s: Sched, n: nat, path: seq<Sched>, kepts: seq<seq<int>>) {
    && Shape(s) && n <= |s.lists[SLEEP]|
    && IsPath(s.lists[SLEEP], path, kepts) && |path| == n + 1
    && path[0] == s && path[n] == WakeUpto(s, n)
    && kepts[0] == [] && kepts[n] == NotDue(s.lists[SLEEP][..n], s.tasks, s.tick)
  }

  lemma PathGrows(s: Sched, n: nat, path: seq<Sched>, kepts: seq<seq<int>>, kept: seq<int>)
    requires Placed(s) && Reaches(s, n, path, kepts) && n < |s.lists[SLEEP]|
    requires kept == NotDue(s.lists[SLEEP][..n + 1], s.tasks, s.tick)
    ensures Reaches(s, n + 1, path + [WakeUpto(s, n + 1)], kepts + [kept])
  {
    WakeVisit(s, n, path[n], kepts[n], kept);
    ExtendPath(s.lists[SLEEP], path, kepts, WakeUpto(s, n + 1), kept);
  }

  /** The wake pass as a sequence of visits. */
  lemma {:induction false} WakePath(s: Sched, n: nat) returns (path: seq<Sched>, kepts: seq<seq<int>>)
    requires Placed(s) && n <= |s.lists[SLEEP]|
    ensures Reaches(s, n, path, kepts)
  {
    if n == 0 {
      WakeNone(s);
      path, kepts := [s], [[]];
    } else {
      path, kepts := WakePath(s, n - 1);
      var kept := NotDue(s.lists[SLEEP][..n], s.tasks, s.tick);
      PathGrows(s, n - 1, path, kepts, kept);
      path, kepts := path + [WakeUpto(s, n)], kepts + [kept];
    }
  }

  lemma WakeAsVisits(s: Sched) returns (path: seq<Sched>, kepts: seq<seq<int>>)
    requires Placed(s)
    ensures IsPath(s.lists[SLEEP], path, kepts) && |path| == |s.lists[SLEEP]| + 1
    ensures path[0] == s && kepts[0] == [] && path[|s.lists[SLEEP]|] == Wake(s)
  {
    path, kepts := WakePath(s, |s.lists[SLEEP]|);
  }

  lemma WakeVisit(s: Sched, n: nat, w: Sched, kept: seq<int>, kept1: seq<int>)
    requires Placed(s) && n < |s.lists[SLEEP]| && w == WakeUpto(s, n)
    requires kept == NotDue(s.lists[SLEEP][..n], s.tasks, s.tick)
    requires kept1 == NotDue(s.lists[SLEEP][..n + 1], s.tasks, s.tick)
    ensures Visit(w, s.lists[SLEEP][n], kept, s.lists[SLEEP][n + 1..], WakeUpto(s, n + 1), kept1)
  {
    var all := s.lists[SLEEP];
    assert all[..n + 1][..n] == all[..n];
    WakeStep(s, n);
    WakePlaced(s, n);
    WakePlaced(s, n + 1);
    WakeKeepsTimes(s, n, all[n]);
  }

  lemma WakeKeepsTimes(s: Sched, n: nat, p: int)
    requires Shape(s) && n <= |s.lists[SLEEP]| && IsSlot(p)
    ensures Due(WakeUpto(s, n).tasks[p], WakeUpto(s, n).tick) == Due(s.tasks[p], s.tick)
  {
  }

  lemma WakeInv(s: Sched)
    requires Inv(s)
    ensures Inv(Wake(s))
  {
    var w := Wake(s);
    var all := s.lists[SLEEP];
    WakePlaced(s, |all|);
    assert all[..|all|] == all;
    assert forall p :: p in all ==> Listed(s.lists, p);
    if IDLE in s.lists[PRIORITY_LOW] { assert IDLE in w.lists[PRIORITY_LOW]; }
  }

  // ---------------------------------------------------------------- the other operations

  lemma EnqueueInv(s: Sched, p: int)
    requires Placed(s) && IsSlot(p) && !Listed(s.lists, p)
    ensures Placed(Enqueue(s, p).(current := NULL))
    ensures forall x :: Listed(Enqueue(s, p).lists, x) <==> Listed(s.lists, x) || x == p
  {
    AppendApart(s.lists, s.tasks[p].priority, p);
    NullNotListed(s);
  }

  lemma NullNotListed(s: Sched)
    requires Shape(s)
    ensures !Listed(s.lists, NULL)
  {
  }

  /** Changing the control block of a slot that is in no queue keeps the placement facts. */
  lemma SetTaskPlaced(s: Sched, p: int, t: Task)
    requires Placed(s) && IsSlot(p) && t.priority < PRIORITY_COUNT
    requires !Listed(s.lists, p) || p in s.lists[FREE] ||
             (t == s.tasks[p].(state := t.state) && p !in s.lists[SLEEP])
    ensures Placed(SetTask(s, p, t))
  {
    forall k, i | 0 <= k < LISTS && 0 <= i < |s.lists[k]| && s.lists[k][i] == p
      ensures !(p in s.lists[FREE] && k != FREE)
    {
      if p in s.lists[FREE] {
        var j :| 0 <= j < |s.lists[FREE]| && s.lists[FREE][j] == p;
      }
    }
    assert forall k, i :: 0 <= k < LISTS && 0 <= i < |s.lists[k]| ==> s.lists[k][i] in s.lists[k];
  }

  lemma PreemptInv(s: Sched, delta: nat)
    requires Inv(s)
    ensures Inv(Preempt(s, delta))
    ensures Preempt(s, delta).current == NULL ||
            (Preempt(s, delta).current != IDLE && s.tasks[s.current].state == Terminated)
  {
    if s.current != NULL {
      var p := s.current;
      var t := Charged(s.tasks[p], delta);
      NullNotListed(s);
      if t.state == Running {
        var s1 := SetTask(s, p, t.(state := Ready));
        SetTaskPlaced(s, p, t.(state := Ready));
        EnqueueInv(s1, p);
        var e := Preempt(s, delta);
        if p == IDLE { assert e.lists[PRIORITY_LOW][|s.lists[PRIORITY_LOW]|] == IDLE; }
        else if IDLE in s.lists[PRIORITY_LOW] { assert IDLE in e.lists[PRIORITY_LOW]; }
      } else if t.state == Sleeping {
        SetTaskPlaced(s, p, t);
        PushApart(s.lists, SLEEP, p);
        NullNotListed(s.(lists := s.lists[SLEEP := [p] + s.lists[SLEEP]]));
      }
    }
  }

  /** The queue that pick_next_process stops at: non-empty, and none above it is. */
  predicate IsTop(s: Sched, q: nat)
    requires Shape(s)
  {
    q < PRIORITY_COUNT && s.lists[q] != [] && forall r :: 0 <= r < q ==> s.lists[r] == []
  }

  lemma PickTop(s: Sched)
    requires Placed(s)
    ensures Pick(s) != NULL ==> IsSlot(Pick(s)) && IsTop(s, s.tasks[Pick(s)].priority)
                                && s.lists[s.tasks[Pick(s)].priority][0] == Pick(s)
    ensures Pick(s) == NULL <==> forall q :: 0 <= q < PRIORITY_COUNT ==> s.lists[q] == []
  {
    if s.lists[0] != [] { assert s.tasks[s.lists[0][0]].priority == 0; }
    else if s.lists[1] != [] { assert s.tasks[s.lists[1][0]].priority == 1; }
    else if s.lists[2] != [] { assert s.tasks[s.lists[2][0]].priority == 2; }
    else if s.lists[3] != [] { assert s.tasks[s.lists[3][0]].priority == 3; }
  }

  /** Taking the head off a list. */
  lemma PopPlaced(s: Sched, k: nat)
    requires Placed(s) && k < LISTS && s.lists[k] != []
    ensures var less := s.(lists := s.lists[k := s.lists[k][1..]]);
            && Placed(less)
            && !Listed(less.lists, s.lists[k][0])
            && (forall x :: Listed(s.lists, x) <==> Listed(less.lists, x) || x == s.lists[k][0])
  {
    var p, rest := s.lists[k][0], s.lists[k][1..];
    assert s.lists[k] == [] + [p] + rest && [] + rest == rest;
    RemoveApart(s.lists, k, [], p, rest);
  }

  /** The dequeue in scheduler_tick removes the very process that was picked. */
  lemma DispatchInv(s: Sched)
    requires Inv(s)
    requires s.current == NULL || (s.current != IDLE && s.tasks[s.current].state == Terminated)
    ensures Inv(Dispatch(s))
    ensures var p := Pick(s);
            p != NULL && IsSlot(p) && Dispatch(s).current == p && Dispatch(s).tasks[p].state == Running
    ensures var q := s.tasks[Pick(s)].priority;
            && IsTop(s, q) && Dispatch(s).lists == s.lists[q := s.lists[q][1..]]
            && s.lists[q] == [Pick(s)] + s.lists[q][1..]
  {
    PickTop(s);
    var p := Pick(s);
    assert s.lists[PRIORITY_LOW] != [];
    var q := s.tasks[p].priority;
    PopPlaced(s, q);
    var less := s.(lists := s.lists[q := s.lists[q][1..]], current := NULL);
    NullNotListed(less);
    SetTaskPlaced(less, p, s.tasks[p].(state := Running));
    if p != IDLE && q == PRIORITY_LOW { assert IDLE in s.lists[q][1..]; }
  }

  lemma IrqInv(s: Sched)
    requires Inv(s)
    ensures Inv(Irq(s))
  {
    var s0 := Counted(s);
    assert Inv(s0);
    WakeInv(s0);
    PreemptInv(Wake(s0), 10);
    DispatchInv(Preempt(Wake(s0), 10));
  }

  lemma IdleNotFree(s: Sched)
    requires Inv(s)
    ensures IDLE !in s.lists[FREE]
  {
  }

  lemma ClaimPlaced(s: Sched, entry: int, arg: int, priority: nat, dir: int)
    requires Placed(s) && priority < PRIORITY_COUNT && s.lists[FREE] != []
    ensures var p, r := s.lists[FREE][0], Claim(s, entry, arg, priority, dir);
            && IsSlot(p) && Placed(r) && !Listed(r.lists, p)
            && (forall x :: Listed(s.lists, x) <==> Listed(r.lists, x) || x == p)
            && Placed(r.(lists := s.lists))
  {
    var p, r := s.lists[FREE][0], Claim(s, entry, arg, priority, dir);
    assert p in s.lists[FREE];
    var s1 := s.(nextPid := r.nextPid);
    SetTaskPlaced(s1, p, r.tasks[p]);
    PopPlaced(SetTask(s1, p, r.tasks[p]), FREE);
  }

  lemma AdmitPlaced(s: Sched, p: int, stack: int)
    requires Placed(s) && IsSlot(p) && !Listed(s.lists, p) && p != s.current
    ensures var r := Admit(s, p, stack);
            && Placed(r) && (forall x :: Listed(r.lists, x) <==> Listed(s.lists, x) || x == p)
            && (IDLE in s.lists[PRIORITY_LOW] ==> IDLE in r.lists[PRIORITY_LOW])
  {
    SetTaskPlaced(s, p, s.tasks[p].(stackPhys := stack, stackPtr := stack + STACK_SIZE - ContextSwitch.FRAME_BYTES));
    AppendApart(s.lists, s.tasks[p].priority, p);
    if IDLE in s.lists[PRIORITY_LOW] { assert IDLE in Admit(s, p, stack).lists[PRIORITY_LOW]; }
  }

  lemma CreateInv(s: Sched, entry: int, arg: int, priority: nat, dir: int, stack: int)
    requires Inv(s) && priority < PRIORITY_COUNT
    ensures Inv(Create(s, entry, arg, priority, dir, stack))
  {
    if s.lists[FREE] != [] {
      var p, r := s.lists[FREE][0], Claim(s, entry, arg, priority, dir);
      IdleNotFree(s);
      ClaimPlaced(s, entry, arg, priority, dir);
      if stack != 0 { AdmitPlaced(r, p, stack); }
    }
  }

  /** A process can make a call unless it sits in the waiting loop of a sleep or a return. */
  predicate MayCall(s: Sched)
    requires Shape(s)
  {
    s.current == NULL || s.tasks[s.current].state == Running
  }

  lemma YieldInv(s: Sched)
    requires Inv(s) && MayCall(s)
    ensures Inv(Yield(s))
  {
    if s.current != NULL && s.current != IDLE {
      NullNotListed(s);
      if s.tasks[s.current].state == Running { EnqueueInv(s, s.current); }
    }
  }

  lemma SleepInv(s: Sched, ms: nat)
    requires Inv(s)
    ensures Inv(Sleep(s, ms))
  {
    if s.current != NULL && s.current != IDLE {
      SetTaskPlaced(s, s.current, Sleep(s, ms).tasks[s.current]);
    }
  }

  lemma ReturnInv(s: Sched, p: int)
    requires Inv(s) && IsSlot(p) && p != IDLE && p !in s.lists[SLEEP]
    ensures Inv(Return(s, p))
  {
    SetTaskPlaced(s, p, s.tasks[p].(state := Terminated));
  }

  /** Exit keeps the invariant exactly when it is not the idle process that exits. */
  lemma ExitInv(s: Sched)
    requires Inv(s)
    ensures Inv(Exit(s)) <==> s.current != IDLE
  {
    if s.current == IDLE {
      var e := Exit(s);
      assert e.lists[FREE][0] == IDLE;
      assert IDLE in e.lists[FREE];
      assert Listed(e.lists, e.current);
    } else if s.current != NULL {
      var p := s.current;
      SetTaskPlaced(s, p, s.tasks[p].(state := Terminated));
      PushApart(s.lists, FREE, p);
      NullNotListed(Exit(s));
    }
  }

  lemma InitInv(tasks: seq<Task>)
    requires |tasks| == SLOTS && (forall i :: 0 <= i < SLOTS ==> tasks[i].priority < PRIORITY_COUNT)
    ensures Inv(Init(tasks))
  {
    var s := Init(tasks);
    forall p | 0 <= p < SLOTS && p != IDLE
      ensures Listed(s.lists, p)
    {
      assert s.lists[FREE][p] == p;
      assert p in s.lists[FREE];
    }
  }
}
