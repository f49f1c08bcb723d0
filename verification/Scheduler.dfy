/** The scheduler with its control blocks and links in place (kernel/process/scheduler.c).

    Field f of control block i is element i of the array for f, the link field being kept apart
    from the rest. A pointer to a control block is its slot, NULL is -1. */
module Scheduler {
  import opened KernelBase
  import ContextSwitch
  import opened SchedulerSpec
  import opened SchedulerInv
  import Spec = SchedulerSpec

  function First(ps: seq<int>): int { if ps == [] then NULL else ps[0] }

  function After(ps: seq<int>, i: nat): int { if i + 1 < |ps| then ps[i + 1] else NULL }

  /** Following the links from head visits exactly ps and then ends. */
  predicate Chain(links: seq<int>, head: int, ps: seq<int>) {
    && |links| == SLOTS
    && (forall i :: 0 <= i < |ps| ==> IsSlot(ps[i]) && links[ps[i]] == After(ps, i))
    && head == First(ps)
  }

  function Last(ps: seq<int>): int { if ps == [] then NULL else ps[|ps| - 1] }

  predicate AllSlots(lists: seq<seq<int>>) {
    |lists| == LISTS && forall k, i :: 0 <= k < LISTS && 0 <= i < |lists[k]| ==> IsSlot(lists[k][i])
  }

  lemma ChainFrame(was: seq<int>, x: int, v: int, head: int, ps: seq<int>)
    requires Chain(was, head, ps) && IsSlot(x) && x !in ps
    ensures Chain(was[x := v], head, ps)
  {
  }

  lemma ChainAppend(was: seq<int>, head: int, ps: seq<int>, p: int)
    requires Chain(was, head, ps) && IsSlot(p) && p !in ps
    requires ps != [] ==> Last(ps) !in ps[..|ps| - 1]
    ensures ps == [] ==> Chain(was[p := NULL], p, [p])
    ensures ps != [] ==> IsSlot(Last(ps)) && Chain(was[Last(ps) := p][p := NULL], head, ps + [p])
  {
    if ps != [] {
      assert ps[|ps| - 1] == Last(ps);
      assert forall i :: 0 <= i < |ps| - 1 ==> ps[..|ps| - 1][i] == ps[i];
    }
  }

  /** After p is linked behind the last element of list q, list q has grown by p and no other
      list notices. */
  lemma AppendChains(was: seq<int>, now: seq<int>, lists: seq<seq<int>>, q: nat, p: int, head: int)
    requires |was| == SLOTS && |lists| == LISTS && q < LISTS && Apart(lists) && IsSlot(p) && !Listed(lists, p)
    requires Chain(was, head, lists[q]) && (lists[q] == [] || IsSlot(Last(lists[q])))
    requires now == (if lists[q] == [] then was else was[Last(lists[q]) := p])[p := NULL]
    ensures forall k, h :: 0 <= k < LISTS && k != q && Chain(was, h, lists[k]) ==> Chain(now, h, lists[k])
    ensures Chain(now, if lists[q] == [] then p else head, lists[q] + [p])
  {
    var ps, x := lists[q], Last(lists[q]);
    if ps != [] {
      assert lists[q][|ps| - 1] == x;
      assert x !in ps[..|ps| - 1];
    }
    ChainAppend(was, head, ps, p);
    forall k, h | 0 <= k < LISTS && k != q && Chain(was, h, lists[k]) ensures Chain(now, h, lists[k]) {
      if ps != [] {
        assert x !in lists[k];
        ChainFrame(was, x, p, h, lists[k]);
      }
      ChainFrame(if ps == [] then was else was[x := p], p, NULL, h, lists[k]);
    }
  }

  lemma PushChains(was: seq<int>, now: seq<int>, lists: seq<seq<int>>, q: nat, p: int, head: int)
    requires |was| == SLOTS && AllSlots(lists) && q < LISTS && Apart(lists) && IsSlot(p) && !Listed(lists, p)
    requires Chain(was, head, lists[q]) && now == was[p := head]
    ensures forall k, h :: 0 <= k < LISTS && k != q && Chain(was, h, lists[k]) ==> Chain(now, h, lists[k])
    ensures Chain(now, p, [p] + lists[q])
  {
    assert forall k, i :: 0 <= k < LISTS && 0 <= i < |lists[k]| ==> lists[k][i] in lists[k];
    assert forall k, i :: 0 <= k < LISTS && 0 <= i < |lists[k]| ==> lists[k][i] != p;
  }

  lemma ChainPop(was: seq<int>, head: int, ps: seq<int>)
    requires Chain(was, head, ps) && ps != [] && ps[0] !in ps[1..]
    ensures IsSlot(head) && ps == [head] + ps[1..] && Chain(was[head := NULL], was[head], ps[1..])
  {
    var rest := ps[1..];
    assert forall i :: 0 <= i < |rest| ==> rest[i] == ps[i + 1] && rest[i] != head;
    assert was[ps[0]] == if |ps| > 1 then ps[1] else NULL;
  }

  lemma PopChains(was: seq<int>, now: seq<int>, lists: seq<seq<int>>, q: nat, head: int)
    requires |was| == SLOTS && AllSlots(lists) && q < LISTS && Apart(lists) && lists[q] != []
    requires Chain(was, head, lists[q]) && IsSlot(head) && now == was[head := NULL]
    ensures forall k, h :: 0 <= k < LISTS && k != q && Chain(was, h, lists[k]) ==> Chain(now, h, lists[k])
    ensures Chain(now, was[head], lists[q][1..])
    ensures Last(lists[q][1..]) == if was[head] == NULL then NULL else Last(lists[q])
    ensures Apart(lists[q := lists[q][1..]]) && !Listed(lists[q := lists[q][1..]], head)
  {
    var rest := lists[q][1..];
    assert lists[q] == [] + [head] + rest && [] + rest == rest;
    RemoveApart(lists, q, [], head, rest);
    var less := lists[q := rest];
    assert forall k :: 0 <= k < LISTS ==> head !in less[k];
    ChainPop(was, head, lists[q]);
    forall k, h | 0 <= k < LISTS && k != q && Chain(was, h, lists[k]) ensures Chain(now, h, lists[k]) {
      assert less[k] == lists[k];
      ChainFrame(was, head, NULL, h, lists[k]);
    }
  }

  lemma UnlinkChain(was: seq<int>, head: int, kept: seq<int>, p: int, rest: seq<int>)
    requires Chain(was, head, kept + [p] + rest) && IsSlot(p)
    requires kept != [] ==> Last(kept) !in kept[..|kept| - 1] && Last(kept) !in rest
    ensures kept != [] ==> IsSlot(Last(kept)) && Chain(was[Last(kept) := was[p]], head, kept + rest)
    ensures kept == [] ==> Chain(was, was[p], rest)
  {
    var ps, left := kept + [p] + rest, kept + rest;
    assert ps[|kept|] == p && was[p] == After(ps, |kept|);
    if kept != [] {
      assert ps[|kept| - 1] == Last(kept);
      var now := was[Last(kept) := was[p]];
      forall i | 0 <= i < |left| ensures IsSlot(left[i]) && now[left[i]] == After(left, i) {
        if i < |kept| - 1 { assert left[i] == kept[..|kept| - 1][i] == ps[i]; }
        else if i >= |kept| { assert left[i] == rest[i - |kept|] == ps[i + 1]; }
      }
    } else {
      forall i | 0 <= i < |rest| ensures IsSlot(rest[i]) && was[rest[i]] == After(rest, i) {
        assert rest[i] == ps[i + 1];
      }
    }
  }

  lemma UnlinkChains(was: seq<int>, now: seq<int>, lists: seq<seq<int>>, kept: seq<int>, p: int, rest: seq<int>,
                     head: int)
    requires |was| == SLOTS && AllSlots(lists) && Apart(lists) && lists[SLEEP] == kept + [p] + rest
    requires Chain(was, head, lists[SLEEP]) && IsSlot(p) && (kept == [] || IsSlot(Last(kept)))
    requires now == if kept == [] then was else was[Last(kept) := was[p]]
    ensures forall k, h :: 0 <= k < LISTS && k != SLEEP && Chain(was, h, lists[k]) ==> Chain(now, h, lists[k])
    ensures Chain(now, if kept == [] then was[p] else head, kept + rest)
    ensures Apart(lists[SLEEP := kept + rest]) && !Listed(lists[SLEEP := kept + rest], p)
    ensures AllSlots(lists[SLEEP := kept + rest])
  {
    RemoveApart(lists, SLEEP, kept, p, rest);
    var ps := lists[SLEEP];
    if kept != [] {
      var x := Last(kept);
      assert ps[|kept| - 1] == x;
      assert forall i :: 0 <= i < |kept| - 1 ==> kept[i] == ps[i];
      assert forall i :: 0 <= i < |rest| ==> rest[i] == ps[|kept| + 1 + i];
      UnlinkChain(was, head, kept, p, rest);
      forall k, h | 0 <= k < LISTS && k != SLEEP && Chain(was, h, lists[k]) ensures Chain(now, h, lists[k]) {
        ChainFrame(was, x, was[p], h, lists[k]);
      }
    } else {
      UnlinkChain(was, head, kept, p, rest);
      assert kept + rest == rest;
    }
  }

  lemma FreeChain(links: seq<int>, tasks: seq<Task>)
    requires |links| == SLOTS && |tasks| == SLOTS && links[MAX_PROCESSES - 1] == NULL
    requires forall j :: 0 <= j < MAX_PROCESSES - 1 ==> links[j] == j + 1
    ensures Chain(links, 0, Init(tasks).lists[FREE])
  {
    var ps := Init(tasks).lists[FREE];
    forall i | 0 <= i < |ps| ensures IsSlot(ps[i]) && links[ps[i]] == After(ps, i) {
      assert ps[i] == i;
    }
  }

  class Scheduler {
    const pcb: array<Task>
    const next: array<int>
    const heads: array<int>
    const tails: array<int>
    var freeList: int
    var sleepList: int
    var current: int
    var tickCount: nat
    var nextPid: nat
    ghost var lists: seq<seq<int>>

    /** The static storage: 65 control blocks and four queue records. */
    ghost predicate Storage()
    {
      && pcb.Length == SLOTS && next.Length == SLOTS
      && heads.Length == PRIORITY_COUNT && tails.Length == PRIORITY_COUNT
      && next != heads && next != tails && heads != tails
    }

    /** The links spell out the six lists, and each queue's tail is its last element. */
    ghost predicate Links()
      reads this, pcb, next, heads, tails
    {
      && Storage()
      && |lists| == LISTS && Shape(Abs())
      && (forall q :: 0 <= q < PRIORITY_COUNT ==> Chain(next[..], heads[q], lists[q]) && tails[q] == Last(lists[q]))
      && Chain(next[..], sleepList, lists[SLEEP])
      && Chain(next[..], freeList, lists[FREE])
    }

    ghost function Abs(): Sched
      reads this, pcb
    {
      Sched(pcb[..], lists, current, tickCount, nextPid)
    }

    /** Zeroed static data, before scheduler_init. */
    constructor (zero: Task)
      ensures Storage() && sleepList == NULL && tickCount == 0 && nextPid == 1
      ensures pcb[..] == seq(SLOTS, i => zero)
    {
      next := new int[SLOTS](_ => NULL);
      heads := new int[PRIORITY_COUNT](_ => NULL);
      tails := new int[PRIORITY_COUNT](_ => NULL);
      pcb := new Task[SLOTS](_ => zero);
      freeList := NULL;
      sleepList := NULL;
      current := NULL;
      tickCount := 0;
      nextPid := 1;
      lists := [];
    }

    /** scheduler_init */
    method Initialize()
      requires Storage() && sleepList == NULL && tickCount == 0 && nextPid == 1
      requires forall p :: 0 <= p < SLOTS ==> pcb[p].priority < PRIORITY_COUNT
      modifies this, pcb, next, heads, tails
      ensures Links() && Abs() == Init(old(pcb[..]))
    {
      LinkPool();
      freeList := 0;
      for i := 0 to PRIORITY_COUNT
        modifies heads, tails
        invariant forall q :: 0 <= q < i ==> heads[q] == NULL && tails[q] == NULL
      {
        heads[i], tails[i] := NULL, NULL;
      }
      pcb[IDLE] := pcb[IDLE].(pid := 0, state := Running, priority := PRIORITY_LOW, cpuTime := 0,
                              stackPtr := 0, entry := 0, arg := 0);
      current := IDLE;
      lists := Init(old(pcb[..])).lists;
      FreeChain(next[..], old(pcb[..]));
    }

    /** The loop in scheduler_init that links all control blocks of the pool. */
    method LinkPool()
      requires next.Length == SLOTS
      modifies next
      ensures next[MAX_PROCESSES - 1] == NULL
      ensures forall j :: 0 <= j < MAX_PROCESSES - 1 ==> next[j] == j + 1
    {
      for i := 0 to MAX_PROCESSES - 1
        invariant forall j :: 0 <= j < i ==> next[j] == j + 1
      {
        next[i] := i + 1;
      }
      next[MAX_PROCESSES - 1] := NULL;
    }

    /** Store to fields of one control block. */
    method SetBlock(p: int, t: Task)
      requires Links() && IsSlot(p) && t.priority < PRIORITY_COUNT
      modifies pcb
      ensures Links() && Abs() == SetTask(old(Abs()), p, t)
    {
      pcb[p] := t;
    }

    method BumpPid()
      requires Links()
      modifies this`nextPid
      ensures Links() && lists == old(lists) && Abs() == old(Abs()).(nextPid := Store32(old(Abs()).nextPid + 1))
    {
      nextPid := Store32(nextPid + 1);
    }

    /** irq0_handler: tick_count++ */
    method CountTick()
      requires Links()
      modifies this`tickCount
      ensures Links() && Abs() == Counted(old(Abs()))
    {
      tickCount := tickCount + 1;
    }

    method SetCurrent(p: int)
      requires Links() && (p == NULL || IsSlot(p))
      modifies this`current
      ensures Links() && Abs() == old(Abs()).(current := p)
    {
      current := p;
    }

    /** allocate_process */
    method AllocateProcess() returns (p: int)
      requires Links() && Apart(lists)
      modifies this`freeList, this`lists, next
      ensures Links() && Apart(lists)
      ensures old(lists[FREE]) == [] ==> p == NULL && Abs() == old(Abs())
      ensures old(lists[FREE]) != [] ==>
                && p == old(lists[FREE][0]) && IsSlot(p) && !Listed(lists, p)
                && Abs() == old(Abs()).(lists := old(lists)[FREE := old(lists[FREE])[1..]])
    {
      if freeList == NULL {
        return NULL;
      }
      p := freeList;
      freeList := next[freeList];
      next[p] := NULL;
      PopChains(old(next[..]), next[..], lists, FREE, p);
      lists := lists[FREE := lists[FREE][1..]];
    }

    /** release_process, called by scheduler_destroy_process */
    method ReleaseProcess(p: int)
      requires Links() && Apart(lists) && IsSlot(p) && !Listed(lists, p)
      modifies this`freeList, this`lists, next
      ensures Links() && Apart(lists)
      ensures Abs() == old(Abs()).(lists := old(lists)[FREE := [p] + old(lists[FREE])])
    {
      next[p] := freeList;
      PushChains(old(next[..]), next[..], lists, FREE, p, freeList);
      PushApart(lists, FREE, p);
      freeList := p;
      lists := lists[FREE := [p] + lists[FREE]];
    }

    /** enqueue_process */
    method Enqueue(p: int)
      requires Links() && Apart(lists) && IsSlot(p) && !Listed(lists, p)
      modifies this`lists, next, heads, tails
      ensures Links() && Apart(lists)
      ensures Abs() == Spec.Enqueue(old(Abs()), p)
    {
      var q := pcb[p].priority;
      if tails[q] == NULL {
        heads[q] := p;
        tails[q] := p;
        next[p] := NULL;
      } else {
        next[tails[q]] := p;
        tails[q] := p;
        next[p] := NULL;
      }
      ghost var before := lists;
      lists := lists[q := lists[q] + [p]];
      AppendApart(before, q, p);
      AppendChains(old(next[..]), next[..], before, q, p, old(heads[q]));
      assert forall r :: 0 <= r < PRIORITY_COUNT && r != q ==> heads[r] == old(heads[r]) && tails[r] == old(tails[r]);
    }

    /** dequeue_process */
    method Dequeue(q: nat) returns (p: int)
      requires Links() && Apart(lists) && q < PRIORITY_COUNT
      modifies this`lists, next, heads, tails
      ensures Links() && Apart(lists)
      ensures old(lists[q]) == [] ==> p == NULL && Abs() == old(Abs())
      ensures old(lists[q]) != [] ==>
                p == old(lists[q][0]) && Abs() == old(Abs()).(lists := old(lists)[q := old(lists[q])[1..]])
    {
      if heads[q] == NULL {
        return NULL;
      }
      p := heads[q];
      heads[q] := next[heads[q]];
      if heads[q] == NULL {
        tails[q] := NULL;
      }
      next[p] := NULL;
      PopChains(old(next[..]), next[..], lists, q, p);
      lists := lists[q := lists[q][1..]];
      assert forall r :: 0 <= r < PRIORITY_COUNT && r != q ==> heads[r] == old(heads[r]) && tails[r] == old(tails[r]);
    }

    /** enqueue_sleep */
    method EnqueueSleep(p: int)
      requires Links() && Apart(lists) && IsSlot(p) && !Listed(lists, p)
      modifies this`sleepList, this`lists, next
      ensures Links() && Apart(lists)
      ensures Abs() == old(Abs()).(lists := old(lists)[SLEEP := [p] + old(lists[SLEEP])])
    {
      next[p] := sleepList;
      PushChains(old(next[..]), next[..], lists, SLEEP, p, sleepList);
      PushApart(lists, SLEEP, p);
      sleepList := p;
      lists := lists[SLEEP := [p] + lists[SLEEP]];
    }

    /** pick_next_process */
    method PickNext() returns (p: int)
      requires Links()
      ensures p == Pick(Abs())
    {
      for q := 0 to PRIORITY_COUNT
        invariant forall r :: 0 <= r < q ==> lists[r] == []
      {
        assert Chain(next[..], heads[q], lists[q]);
        if heads[q] != NULL {
          return heads[q];
        }
      }
      return NULL;
    }

    /** check_sleepers */
    method CheckSleepers()
      requires Links() && Placed(Abs())
      modifies this`sleepList, this`lists, pcb, next, heads, tails
      ensures Links() && Abs() == Wake(old(Abs()))
    {
      ghost var path, kepts := WakeAsVisits(Abs());
      VisitAll(path, kepts);
    }

    /** The body of check_sleepers, along a path that says what each visit should do. */
    method VisitAll(ghost path: seq<Sched>, ghost kepts: seq<seq<int>>)
      requires Links() && IsPath(lists[SLEEP], path, kepts) && |path| == |lists[SLEEP]| + 1
      requires Abs() == path[0] && kepts[0] == []
      modifies this`sleepList, this`lists, pcb, next, heads, tails
      ensures Links() && Abs() == path[|path| - 1]
    {
      var prev, curr := NULL, sleepList;
      ghost var all, n := lists[SLEEP], 0;
      while curr != NULL
        invariant n <= |all| && Links() && Abs() == path[n]
        invariant curr == First(all[n..]) && prev == Last(kepts[n])
        decreases |all| - n
      {
        assert Visit(path[n], all[n], kepts[n], all[n + 1..], path[n + 1], kepts[n + 1]);
        prev, curr := VisitSleeper(prev, curr, kepts[n], all[n + 1..]);
        n := n + 1;
      }
    }

    /** The loop body of check_sleepers, for a sleeper with kept before it and rest behind it. */
    method VisitSleeper(prev: int, curr: int, ghost kept: seq<int>, ghost rest: seq<int>)
      returns (prev1: int, next1: int)
      requires Links() && Apart(lists) && lists[SLEEP] == kept + [curr] + rest && IsSlot(curr) && prev == Last(kept)
      modifies this`sleepList, this`lists, pcb, next, heads, tails
      ensures Links() && next1 == First(rest)
      ensures prev1 == if Due(old(pcb[curr]), tickCount) then prev else curr
      ensures Abs() == if Due(old(pcb[curr]), tickCount) then Rouse(old(Abs()), kept, curr, rest) else old(Abs())
    {
      ghost var all := lists[SLEEP];
      assert all[|kept|] == curr && After(all, |kept|) == First(rest);
      next1 := next[curr];
      if tickCount >= pcb[curr].wakeTick {
        if kept != [] { assert all[|kept| - 1] == prev; }
        Unlink(prev, curr, next1, kept, rest);
        SetBlock(curr, pcb[curr].(state := Ready));
        Enqueue(curr);
        prev1 := prev;
      } else {
        prev1 := curr;
      }
    }

    /** The unlinking in check_sleepers: prev, if any, is the last sleeper that stays. */
    method Unlink(prev: int, curr: int, next1: int, ghost kept: seq<int>, ghost rest: seq<int>)
      requires Links() && Apart(lists) && lists[SLEEP] == kept + [curr] + rest
      requires IsSlot(curr) && (kept == [] || IsSlot(prev)) && prev == Last(kept) && next1 == next[curr]
      modifies this`sleepList, this`lists, next
      ensures Links() && Apart(lists) && !Listed(lists, curr)
      ensures Abs() == old(Abs()).(lists := old(lists)[SLEEP := kept + rest])
    {
      if prev == NULL {
        sleepList := next1;
      } else {
        next[prev] := next1;
      }
      UnlinkChains(old(next[..]), next[..], lists, kept, curr, rest, old(sleepList));
      lists := lists[SLEEP := kept + rest];
    }

    /** scheduler_create_process, given what the allocations of an address space and of a stack
        page returned. */
    method CreateProcess(entry: int, arg: int, priority: nat, dir: int, stack: int) returns (p: int)
      requires Links() && Apart(lists) && priority < PRIORITY_COUNT
      modifies this, pcb, next, heads, tails
      ensures Links() && Abs() == Create(old(Abs()), entry, arg, priority, dir, stack)
      ensures p == if stack == 0 then NULL else First(old(lists[FREE]))
    {
      p := Claim(entry, arg, priority, dir);
      if p == NULL {
        return;
      }
      if stack == 0 {
        ReleaseProcess(p);
        assert old(lists[FREE]) == [p] + old(lists[FREE])[1..];
        return NULL;
      }
      Admit(p, stack);
    }

    method Claim(entry: int, arg: int, priority: nat, dir: int) returns (p: int)
      requires Links() && Apart(lists) && priority < PRIORITY_COUNT
      modifies this`freeList, this`lists, this`nextPid, pcb, next
      ensures Links() && Apart(lists) && p == First(old(lists[FREE]))
      ensures p != NULL ==> IsSlot(p) && !Listed(lists, p)
      ensures old(lists[FREE]) == [] ==> Abs() == old(Abs())
      ensures old(lists[FREE]) != [] ==> Abs() == Spec.Claim(old(Abs()), entry, arg, priority, dir)
    {
      p := AllocateProcess();
      if p == NULL {
        return;
      }
      Fill(p, entry, arg, priority, dir);
    }

    method Fill(p: int, entry: int, arg: int, priority: nat, dir: int)
      requires Links() && IsSlot(p) && priority < PRIORITY_COUNT
      modifies this`nextPid, pcb
      ensures Links() && lists == old(lists) && Abs() == Filled(old(Abs()), p, entry, arg, priority, dir)
    {
      SetBlock(p, pcb[p].(pid := nextPid, state := Ready, priority := priority, cpuTime := 0,
                          dir := dir, entry := entry, arg := arg));
      BumpPid();
    }

    method Admit(p: int, stack: int)
      requires Links() && Apart(lists) && IsSlot(p) && !Listed(lists, p)
      modifies this`lists, pcb, next, heads, tails
      ensures Links() && Abs() == Spec.Admit(old(Abs()), p, stack)
    {
      GiveStack(p, stack);
      Enqueue(p);
    }

    method GiveStack(p: int, stack: int)
      requires Links() && IsSlot(p)
      modifies pcb
      ensures Links()
      ensures Abs() == SetTask(old(Abs()), p, old(pcb[p]).(
                         stackPhys := stack, stackPtr := stack + STACK_SIZE - ContextSwitch.FRAME_BYTES))
    {
      SetBlock(p, pcb[p].(stackPhys := stack, stackPtr := stack + STACK_SIZE - ContextSwitch.FRAME_BYTES));
    }

    /** scheduler_yield */
    method YieldCurrent()
      requires Links() && Apart(lists) && !Listed(lists, current)
      modifies this`current, this`lists, next, heads, tails
      ensures Links() && Abs() == Yield(old(Abs()))
    {
      if current != NULL && current != IDLE {
        if pcb[current].state == Running {
          Enqueue(current);
        }
        SetCurrent(NULL);
      }
    }

    /** scheduler_sleep_current up to its waiting loop */
    method SleepCurrent(ms: nat)
      requires Links()
      modifies pcb
      ensures Links() && Abs() == Sleep(old(Abs()), ms)
    {
      if current == NULL || current == IDLE {
        return;
      }
      var ticks := ms / 10;
      if ticks == 0 { ticks := 1; }
      SetBlock(current, pcb[current].(wakeTick := Store32(tickCount + ticks)));
      SetBlock(current, pcb[current].(state := Sleeping));
    }

    /** sys_exit */
    method ExitCurrent()
      requires Links() && Apart(lists) && !Listed(lists, current)
      modifies this, pcb, next, heads, tails
      ensures Links() && Abs() == Exit(old(Abs()))
    {
      var p := current;
      if p != NULL {
        SetBlock(p, pcb[p].(state := Terminated));
        ReleaseProcess(p);
      }
      if current != NULL && current != IDLE {
        SetCurrent(NULL);
      }
    }

    /** The end of process_entry_trampoline for process p. */
    method TaskReturned(p: int)
      requires Links() && IsSlot(p)
      modifies pcb
      ensures Links() && Abs() == Return(old(Abs()), p)
    {
      SetBlock(p, pcb[p].(state := Terminated));
    }

    /** scheduler_tick up to the context switch. */
    method Reschedule(delta: nat)
      requires Links() && Placed(Abs())
      modifies this, pcb, next, heads, tails
      ensures Links() && Abs() == Tick(old(Abs()), delta)
    {
      WakePlaced(Abs(), |lists[SLEEP]|);
      CheckSleepers();
      ghost var s1 := Abs();
      PutAway(delta);
      ghost var s2 := Abs();
      assert s2 == Preempt(s1, delta);
      RunNext();
      assert Abs() == Dispatch(s2);
    }

    /** irq0_handler up to the context switch. */
    method Interrupt()
      requires Links() && Placed(Abs())
      modifies this, pcb, next, heads, tails
      ensures Links() && Abs() == Irq(old(Abs()))
    {
      CountTick();
      assert Placed(Abs());
      Reschedule(10);
    }

    /** scheduler_tick: the part that takes the current process off the processor. */
    method PutAway(delta: nat)
      requires Links() && Apart(lists) && !Listed(lists, current)
      modifies this, pcb, next, heads, tails
      ensures Links() && Apart(lists) && Abs() == Preempt(old(Abs()), delta)
    {
      if current != NULL && pcb[current].state == Running {
        Requeue(current, delta);
        SetCurrent(NULL);
      } else if current != NULL && pcb[current].state == Sleeping {
        Suspend(current, delta);
        SetCurrent(NULL);
      }
    }

    method Requeue(p: int, delta: nat)
      requires Links() && Apart(lists) && IsSlot(p) && !Listed(lists, p)
      modifies this`lists, pcb, next, heads, tails
      ensures Links() && Apart(lists) && Abs() == Spec.Requeue(old(Abs()), p, delta)
    {
      SetBlock(p, Charged(pcb[p], delta));
      SetBlock(p, pcb[p].(state := Ready));
      Enqueue(p);
    }

    method Suspend(p: int, delta: nat)
      requires Links() && Apart(lists) && IsSlot(p) && !Listed(lists, p)
      modifies this`lists, this`sleepList, pcb, next
      ensures Links() && Apart(lists) && Abs() == Spec.Suspend(old(Abs()), p, delta)
    {
      SetBlock(p, Charged(pcb[p], delta));
      EnqueueSleep(p);
    }

    /** scheduler_tick: the part that chooses the next process. */
    method RunNext()
      requires Links() && Apart(lists)
      modifies this, pcb, next, heads, tails
      ensures Links() && Abs() == Dispatch(old(Abs()))
    {
      var p := PickNext();
      PickIsSlot(Abs());
      if p == NULL {
        SetCurrent(IDLE);
        return;
      }
      var taken := Dequeue(pcb[p].priority);
      SetBlock(p, pcb[p].(state := Running));
      SetCurrent(p);
    }
  }
}
