/** System V style message queues on fixed rings (kernel/ipc/msg.c). */
module MessageQueue {
  import opened KernelBase

  const MSGQUEUE_MAX := 16
  const MSG_SIZE_MAX := 4096
  const IPC_RMID := 0
  const IPC_STAT := 2

  datatype Msg = Msg(mtype: int, text: seq<int>)

  /** One queue: a ring of 16 slots. An id of 0 marks a free queue. */
  datatype Mq = Mq(key: nat, id: int, slots: seq<Msg>, head: nat, tail: nat, count: nat)

  // ---------------------------------------------------------------- the ring as a sequence

  predicate Shape(q: Mq) {
    && |q.slots| == MSGQUEUE_MAX && q.head < MSGQUEUE_MAX && q.tail < MSGQUEUE_MAX && q.count <= MSGQUEUE_MAX
    && forall i :: 0 <= i < MSGQUEUE_MAX ==> |q.slots[i].text| == MSG_SIZE_MAX
  }

  /** The tail is where the next message belongs. */
  predicate Consistent(q: Mq) { Shape(q) && q.tail == (q.head + q.count) % MSGQUEUE_MAX }

  lemma Wrap(x: nat)
    requires x < 32
    ensures x % MSGQUEUE_MAX == if x < MSGQUEUE_MAX then x else x - MSGQUEUE_MAX
  {
  }

  /** The messages in the order in which a receiver visits them. */
  function Contents(q: Mq): (s: seq<Msg>)
    requires Shape(q)
    ensures |s| == q.count
  {
    seq(q.count, k requires 0 <= k < q.count => q.slots[(q.head + k) % MSGQUEUE_MAX])
  }

  predicate Matches(m: Msg, typ: int) { typ == 0 || m.mtype == typ }

  /** The position of the first message of the wanted type, or |s|. */
  function FirstMatch(s: seq<Msg>, typ: int): (k: nat)
    ensures k <= |s|
    ensures k < |s| ==> Matches(s[k], typ)
    ensures forall j :: 0 <= j < k ==> !Matches(s[j], typ)
  {
    if s == [] then 0
    else if Matches(s[0], typ) then 0
    else
      var k := FirstMatch(s[1..], typ);
      assert forall j :: 0 < j < k + 1 ==> s[j] == s[1..][j - 1];
      k + 1
  }

  lemma FirstMatchIs(s: seq<Msg>, typ: int, k: nat)
    requires k <= |s| && (k < |s| ==> Matches(s[k], typ)) && forall j :: 0 <= j < k ==> !Matches(s[j], typ)
    ensures FirstMatch(s, typ) == k
  {
  }

  /** memcpy of the first size bytes over old text, and a zero byte behind them if there is room. */
  function StoredText(was: seq<int>, text: seq<int>, size: nat): (r: seq<int>)
    requires |was| == MSG_SIZE_MAX && size <= |text| && size <= MSG_SIZE_MAX
    ensures |r| == MSG_SIZE_MAX && r[..size] == text[..size] && (size < MSG_SIZE_MAX ==> r[size] == 0)
  {
    if size < MSG_SIZE_MAX then text[..size] + [0] + was[size + 1..] else text[..size]
  }

  /** The stores of sys_msgsnd to a queue that is not full. */
  function Pushed(q: Mq, m: Msg): Mq
    requires Shape(q) && q.count < MSGQUEUE_MAX
  {
    q.(slots := q.slots[q.tail := m], tail := (q.tail + 1) % MSGQUEUE_MAX, count := q.count + 1)
  }

  /** Sending appends: it overwrites no waiting message. */
  lemma SendAppends(q: Mq, m: Msg)
    requires Consistent(q) && q.count < MSGQUEUE_MAX && |m.text| == MSG_SIZE_MAX
    ensures Consistent(Pushed(q, m)) && Contents(Pushed(q, m)) == Contents(q) + [m]
  {
    var r := Pushed(q, m);
    Wrap(q.head + q.count);
    Wrap(q.tail + 1);
    if q.head + q.count + 1 < 32 { Wrap(q.head + q.count + 1); }
    forall k | 0 <= k < q.count ensures Contents(r)[k] == Contents(q)[k] {
      Wrap(q.head + k);
    }
  }

  /** The stores of sys_msgrcv when it takes the message at position k. */
  function Removed(q: Mq, k: nat): Mq
    requires Shape(q) && k < q.count
  {
    if q.count == 1 then q.(count := 0, head := 0, tail := 0)
    else q.(count := q.count - 1, head := (q.head + k + 1) % MSGQUEUE_MAX)
  }

  function RemoveAt(s: seq<Msg>, k: nat): seq<Msg>
    requires k < |s|
  {
    s[..k] + s[k + 1..]
  }

  /** Receiving takes the message out of the sequence, and leaves a consistent ring, exactly when
      it takes the first message. */
  lemma ReceiveExact(q: Mq, k: nat)
    requires Consistent(q) && k < q.count
    ensures Shape(Removed(q, k))
    ensures Consistent(Removed(q, k)) <==> k == 0
    ensures Consistent(Removed(q, k)) && Contents(Removed(q, k)) == RemoveAt(Contents(q), k) <==> k == 0
  {
    var r := Removed(q, k);
    Wrap(q.head + q.count);
    Wrap(q.head + k + 1);
    Wrap(r.head + r.count);
    if k == 0 && q.count > 1 {
      forall j | 0 <= j < r.count ensures Contents(r)[j] == Contents(q)[j + 1] {
        Wrap(r.head + j);
        Wrap(q.head + j + 1);
      }
    }
  }

  /** What a receive at a later position leaves: the messages behind it, then as many old slots as
      there were messages before it, which are lost. */
  lemma ReceiveLoses(q: Mq, k: nat)
    requires Consistent(q) && 0 < k < q.count
    ensures Contents(Removed(q, k)) ==
            Contents(q)[k + 1..] + seq(k, j requires 0 <= j < k => q.slots[(q.tail + j) % MSGQUEUE_MAX])
  {
    var r := Removed(q, k);
    var stale := seq(k, j requires 0 <= j < k => q.slots[(q.tail + j) % MSGQUEUE_MAX]);
    var n := q.count - k - 1;
    Wrap(q.head + q.count);
    Wrap(q.head + k + 1);
    forall j | 0 <= j < r.count ensures Contents(r)[j] == (Contents(q)[k + 1..] + stale)[j] {
      Wrap(r.head + j);
      if j < n { Wrap(q.head + k + 1 + j); } else { Wrap(q.tail + (j - n)); }
    }
  }

  // ---------------------------------------------------------------- runs

  datatype RingOp = Send(m: Msg) | Receive(typ: int)

  /** One successful or failing operation on a ring. */
  function RingStep(q: Mq, op: RingOp): Mq
    requires Shape(q)
  {
    match op
    case Send(m) => if q.count >= MSGQUEUE_MAX then q else Pushed(q, m)
    case Receive(typ) =>
      var k := FirstMatch(Contents(q), typ);
      if k == q.count then q else Removed(q, k)
  }

  /** The same operation on a queue that loses nothing. */
  function FifoStep(s: seq<Msg>, op: RingOp): seq<Msg> {
    match op
    case Send(m) => if |s| >= MSGQUEUE_MAX then s else s + [m]
    case Receive(typ) =>
      var k := FirstMatch(s, typ);
      if k == |s| then s else RemoveAt(s, k)
  }

  /** A receive that finds a message finds it at the head. */
  predicate InOrder(s: seq<Msg>, op: RingOp) {
    op.Receive? ==> FirstMatch(s, op.typ) in {0, |s|}
  }

  predicate InOrderRun(s: seq<Msg>, ops: seq<RingOp>)
    decreases |ops|
  {
    ops == [] || (InOrder(s, ops[0]) && InOrderRun(FifoStep(s, ops[0]), ops[1..]))
  }

  function FifoRun(s: seq<Msg>, ops: seq<RingOp>): seq<Msg>
    decreases |ops|
  {
    if ops == [] then s else FifoRun(FifoStep(s, ops[0]), ops[1..])
  }

  lemma StepRefines(q: Mq, op: RingOp)
    requires Consistent(q) && InOrder(Contents(q), op) && (op.Send? ==> |op.m.text| == MSG_SIZE_MAX)
    ensures Consistent(RingStep(q, op)) && Contents(RingStep(q, op)) == FifoStep(Contents(q), op)
  {
    match op
    case Send(m) => if q.count < MSGQUEUE_MAX { SendAppends(q, m); }
    case Receive(typ) => if FirstMatch(Contents(q), typ) < q.count { ReceiveExact(q, 0); }
  }

  lemma StepShape(q: Mq, op: RingOp)
    requires Shape(q) && (op.Send? ==> |op.m.text| == MSG_SIZE_MAX)
    ensures Shape(RingStep(q, op))
  {
  }

  predicate Sized(ops: seq<RingOp>) {
    forall i :: 0 <= i < |ops| && ops[i].Send? ==> |ops[i].m.text| == MSG_SIZE_MAX
  }

  /** The ring after a run of operations, whatever they take. */
  function RingRun(q: Mq, ops: seq<RingOp>): (r: Mq)
    requires Shape(q) && Sized(ops)
    ensures Shape(r)
    decreases |ops|
  {
    if ops == [] then q else
      StepShape(q, ops[0]);
      RingRun(RingStep(q, ops[0]), ops[1..])
  }

  /** In every run of sends and of receives that take the head, the ring is a queue. */
  lemma {:induction false} RingIsQueue(q: Mq, ops: seq<RingOp>)
    requires Consistent(q) && Sized(ops) && InOrderRun(Contents(q), ops)
    ensures Consistent(RingRun(q, ops)) && Contents(RingRun(q, ops)) == FifoRun(Contents(q), ops)
    decreases |ops|
  {
    if ops != [] {
      StepRefines(q, ops[0]);
      RingIsQueue(RingStep(q, ops[0]), ops[1..]);
    }
  }

  /** After every operation of the run the ring is consistent and holds what a queue would hold. */
  predicate Tracks(q: Mq, s: seq<Msg>, ops: seq<RingOp>)
    decreases |ops|
  {
    && Consistent(q) && Contents(q) == s
    && (ops == [] || Tracks(RingStep(q, ops[0]), FifoStep(s, ops[0]), ops[1..]))
  }

  /** The ring keeps up with a queue exactly over the runs whose receives take the head. */
  lemma {:induction false} TracksExact(q: Mq, ops: seq<RingOp>)
    requires Consistent(q) && Sized(ops)
    ensures Tracks(q, Contents(q), ops) <==> InOrderRun(Contents(q), ops)
    decreases |ops|
  {
    if ops != [] {
      if InOrder(Contents(q), ops[0]) {
        StepRefines(q, ops[0]);
        TracksExact(RingStep(q, ops[0]), ops[1..]);
      } else {
        ReceiveExact(q, FirstMatch(Contents(q), ops[0].typ));
      }
    }
  }

  // ---------------------------------------------------------------- the system calls

  /** The fields of the status buffer that are not always zero. */
  datatype Status = Status(mode: nat, qnum: nat, qbytes: nat)

  /** From q to q' the first message of type typ has been taken, and data is the start of its text. */
  predicate Received(q: Mq, typ: int, size: nat, q': Mq, data: seq<int>) {
    Shape(q) &&
    var k := FirstMatch(Contents(q), typ);
    var len := if size < MSG_SIZE_MAX then size else MSG_SIZE_MAX;
    k < q.count && q' == Removed(q, k) && |Contents(q)[k].text| == MSG_SIZE_MAX && data == Contents(q)[k].text[..len]
  }

  predicate FirstWithId(qs: seq<Mq>, id: int, i: int) {
    0 <= i < |qs| && qs[i].id == id && forall k :: 0 <= k < i ==> qs[k].id != id
  }

  predicate FirstWithKey(qs: seq<Mq>, key: nat, i: int) {
    && 0 <= i < |qs| && qs[i].id != 0 && qs[i].key == key
    && forall k :: 0 <= k < i ==> !(qs[k].id != 0 && qs[k].key == key)
  }

  // ---------------------------------------------------------------- the system calls as functions

  predicate AllShapes(qs: seq<Mq>) {
    |qs| == MSGQUEUE_MAX && forall i :: 0 <= i < |qs| ==> Shape(qs[i])
  }

  /** The first queue with this id, or |qs|. */
  function WithId(qs: seq<Mq>, id: int): (i: nat)
    ensures i <= |qs| && (i < |qs| ==> FirstWithId(qs, id, i))
    ensures i == |qs| ==> forall k :: 0 <= k < |qs| ==> qs[k].id != id
  {
    if qs == [] || qs[0].id == id then 0
    else
      var i := WithId(qs[1..], id);
      assert forall k :: 0 < k < |qs| ==> qs[k] == qs[1..][k - 1];
      i + 1
  }

  /** The first queue in use under this key, or |qs|. */
  function WithKey(qs: seq<Mq>, key: nat): (i: nat)
    ensures i <= |qs| && (i < |qs| ==> FirstWithKey(qs, key, i))
    ensures i == |qs| ==> forall k :: 0 <= k < |qs| ==> !(qs[k].id != 0 && qs[k].key == key)
  {
    if qs == [] || (qs[0].id != 0 && qs[0].key == key) then 0
    else
      var i := WithKey(qs[1..], key);
      assert forall k :: 0 < k < |qs| ==> qs[k] == qs[1..][k - 1];
      i + 1
  }

  datatype SysCall =
    | Get(key: nat, create: bool)
    | Snd(msqid: int, mtype: int, text: seq<int>, size: nat)
    | Rcv(msqid: int, size: nat, typ: int)
    | Ctl(msqid: int, cmd: int, hasBuffer: bool)

  /** Sizes fit in 32 bits, and there is as much text as a send says. */
  predicate Fits(c: SysCall) {
    match c
    case Snd(_, _, text, size) => size <= MSG_SIZE_MAX ==> size <= |text|
    case Rcv(_, size, _) => size < TWO32
    case _ => true
  }

  /** The queues after a system call, and its result. */
  function CallNext(qs: seq<Mq>, c: SysCall): (seq<Mq>, int)
    requires AllShapes(qs) && Fits(c)
  {
    match c
    case Get(key, create) =>
      var i, e := WithKey(qs, key), WithId(qs, 0);
      if i < |qs| then (qs, qs[i].id)
      else if create && e < |qs| then (qs[e := qs[e].(key := key, head := 0, tail := 0, count := 0)], 0)
      else (qs, -1)
    case Snd(msqid, mtype, text, size) =>
      var i := WithId(qs, msqid);
      if msqid <= 0 || i == |qs| || size > MSG_SIZE_MAX || qs[i].count >= MSGQUEUE_MAX then (qs, -1)
      else (qs[i := Pushed(qs[i], Msg(mtype, StoredText(qs[i].slots[qs[i].tail].text, text, size)))], 0)
    case Rcv(msqid, size, typ) =>
      var i := WithId(qs, msqid);
      if msqid <= 0 || i == |qs| then (qs, -1)
      else
        var k := FirstMatch(Contents(qs[i]), typ);
        if k == qs[i].count then (qs, -1) else (qs[i := Removed(qs[i], k)], Signed(size))
    case Ctl(msqid, cmd, hasBuffer) =>
      var i := WithId(qs, msqid);
      if msqid <= 0 || i == |qs| then (qs, -1)
      else if cmd == IPC_RMID then (qs[i := qs[i].(id := 0, key := 0, head := 0, tail := 0, count := 0)], 0)
      else (qs, if cmd == IPC_STAT && hasBuffer then 0 else -1)
  }

  predicate NoIds(qs: seq<Mq>) {
    forall i :: 0 <= i < |qs| ==> qs[i].id == 0
  }

  /** No call gives a queue an id: each queue keeps the one it has or loses it. */
  lemma IdsOnlyVanish(qs: seq<Mq>, c: SysCall)
    requires AllShapes(qs) && Fits(c)
    ensures var qs' := CallNext(qs, c).0;
            AllShapes(qs') && forall i :: 0 <= i < |qs| ==> qs'[i].id == qs[i].id || qs'[i].id == 0
  {
  }

  function CallRun(qs: seq<Mq>, calls: seq<SysCall>): (r: (seq<Mq>, seq<int>))
    requires AllShapes(qs) && forall i :: 0 <= i < |calls| ==> Fits(calls[i])
    ensures |r.1| == |calls|
    decreases |calls|
  {
    if calls == [] then (qs, [])
    else
      IdsOnlyVanish(qs, calls[0]);
      var (qs', r) := CallNext(qs, calls[0]);
      var (end, results) := CallRun(qs', calls[1..]);
      (end, [r] + results)
  }

  /** Without ids every call but the creation of a queue fails, and a creation returns 0. */
  lemma NothingUsable(qs: seq<Mq>, c: SysCall)
    requires AllShapes(qs) && Fits(c) && NoIds(qs)
    ensures NoIds(CallNext(qs, c).0) && CallNext(qs, c).1 == if c.Get? && c.create then 0 else -1
  {
    IdsOnlyVanish(qs, c);
  }

  /** In every run from msg_init no queue ever has an id: a creation returns 0, every other msgget and every
      send, receive and control call returns -1. */
  lemma {:induction false} EveryRunFails(qs: seq<Mq>, calls: seq<SysCall>)
    requires AllShapes(qs) && NoIds(qs) && forall i :: 0 <= i < |calls| ==> Fits(calls[i])
    ensures NoIds(CallRun(qs, calls).0)
    ensures forall i :: 0 <= i < |calls| ==>
              CallRun(qs, calls).1[i] == if calls[i].Get? && calls[i].create then 0 else -1
    decreases |calls|
  {
    if calls != [] {
      NothingUsable(qs, calls[0]);
      IdsOnlyVanish(qs, calls[0]);
      EveryRunFails(CallNext(qs, calls[0]).0, calls[1..]);
    }
  }

  /** From any state: an id that a queue has after a run is the one it had before. */
  lemma {:induction false} UsableOnlyBefore(qs: seq<Mq>, calls: seq<SysCall>, i: nat)
    requires AllShapes(qs) && i < |qs| && forall k :: 0 <= k < |calls| ==> Fits(calls[k])
    ensures |CallRun(qs, calls).0| == |qs|
    ensures CallRun(qs, calls).0[i].id == qs[i].id || CallRun(qs, calls).0[i].id == 0
    decreases |calls|
  {
    if calls != [] {
      IdsOnlyVanish(qs, calls[0]);
      UsableOnlyBefore(CallNext(qs, calls[0]).0, calls[1..], i);
    }
  }

  class Ipc {
    const queues: array<Mq>
    /** The interrupt flag of the processor. */
    var interrupts: bool

    ghost predicate Valid()
      reads queues
    {
      queues.Length == MSGQUEUE_MAX && forall i :: 0 <= i < MSGQUEUE_MAX ==> Shape(queues[i])
    }

    constructor (empty: Mq)
      requires Shape(empty)
      ensures Valid() && interrupts
    {
      queues := new Mq[MSGQUEUE_MAX](_ => empty);
      interrupts := true;
    }

    /** msg_init */
    method Init()
      requires Valid()
      modifies queues
      ensures Valid()
      ensures AllShapes(queues[..]) && NoIds(queues[..])
      ensures forall i :: 0 <= i < MSGQUEUE_MAX ==>
                queues[i].id == 0 && Consistent(queues[i]) && Contents(queues[i]) == []
    {
      for i := 0 to MSGQUEUE_MAX
        invariant Valid()
        invariant forall k :: 0 <= k < i ==> queues[k].id == 0 && Consistent(queues[k]) && Contents(queues[k]) == []
      {
        queues[i] := queues[i].(id := 0, key := 0, head := 0, tail := 0, count := 0);
      }
    }

    /** get_msgqueue: the first queue with this id, or -1. */
    method GetQueue(msqid: int) returns (q: int)
      requires Valid()
      ensures -1 <= q < MSGQUEUE_MAX
      ensures q == -1 <==> msqid <= 0 || forall i :: 0 <= i < MSGQUEUE_MAX ==> queues[i].id != msqid
      ensures q >= 0 ==> queues[q].id == msqid && forall i :: 0 <= i < q ==> queues[i].id != msqid
    {
      if msqid <= 0 {
        return -1;
      }
      for i := 0 to MSGQUEUE_MAX
        invariant forall k :: 0 <= k < i ==> queues[k].id != msqid
      {
        if queues[i].id == msqid {
          return i;
        }
      }
      return -1;
    }

    ghost predicate HasId(msqid: int)
      requires Valid()
      reads queues
    {
      msqid > 0 && exists i :: 0 <= i < MSGQUEUE_MAX && queues[i].id == msqid
    }

    /** A queue that is in use under this key. */
    ghost predicate HasKey(key: nat)
      requires Valid()
      reads queues
    {
      exists i :: 0 <= i < MSGQUEUE_MAX && queues[i].id != 0 && queues[i].key == key
    }

    /** sys_msgget with find_msgqueue: a queue found or the first free one. A new queue gets no id, so
        the result is a usable id exactly when the key was in use. */
    method Msgget(key: nat, create: bool) returns (r: int)
      requires Valid()
      modifies queues
      ensures Valid() && (queues[..], r) == CallNext(old(queues[..]), Get(key, create))
      ensures old(HasKey(key)) ==>
                && queues[..] == old(queues[..])
                && exists i :: FirstWithKey(queues[..], key, i) && queues[i].id == r
      ensures !old(HasKey(key)) && create && (exists i :: 0 <= i < MSGQUEUE_MAX && old(queues[i].id) == 0) ==>
                r == 0 && exists i ::
                  && FirstWithId(old(queues[..]), 0, i)
                  && queues[..] == old(queues[..])[i := queues[i]]
                  && queues[i].id == 0 && queues[i].key == key && Consistent(queues[i]) && Contents(queues[i]) == []
      ensures !old(HasKey(key)) && !(create && exists i :: 0 <= i < MSGQUEUE_MAX && old(queues[i].id) == 0) ==>
                r == -1 && queues[..] == old(queues[..])
    {
      var empty := -1;
      for i := 0 to MSGQUEUE_MAX
        invariant forall k :: 0 <= k < i ==> !(queues[k].id != 0 && queues[k].key == key)
        invariant -1 <= empty < i && (empty >= 0 ==> queues[empty].id == 0)
        invariant forall k :: 0 <= k < (if empty == -1 then i else empty) ==> queues[k].id != 0
        invariant queues[..] == old(queues[..])
      {
        if queues[i].id == 0 {
          if empty == -1 {
            empty := i;
          }
        } else if queues[i].key == key {
          return queues[i].id;
        }
      }
      if create && empty != -1 {
        queues[empty] := queues[empty].(key := key, head := 0, tail := 0, count := 0);
        return queues[empty].id;
      }
      return -1;
    }

    /** sys_msgsnd. Interrupts are turned off at the start and on again only at the end, so a call
        that fails leaves them off. */
    method Msgsnd(msqid: int, mtype: int, text: seq<int>, size: nat) returns (r: int)
      requires Valid() && (size <= MSG_SIZE_MAX ==> size <= |text|)
      modifies this`interrupts, queues
      ensures Valid() && r in {0, -1} && (interrupts <==> r == 0)
      ensures (queues[..], r) == CallNext(old(queues[..]), Snd(msqid, mtype, text, size))
      ensures r == -1 ==> queues[..] == old(queues[..])
      ensures r == 0 <==> msqid > 0 && size <= MSG_SIZE_MAX && old(CanSend(msqid))
      ensures r == 0 ==> exists i ::
                && FirstWithId(old(queues[..]), msqid, i) && old(queues[..])[i].count < MSGQUEUE_MAX
                && var q := old(queues[..])[i];
                   queues[..] == old(queues[..])[
                     i := Pushed(q, Msg(mtype, StoredText(q.slots[q.tail].text, text, size)))]
    {
      interrupts := false;
      var i := GetQueue(msqid);
      if i == -1 {
        return -1;
      }
      if size > MSG_SIZE_MAX {
        return -1;
      }
      if queues[i].count >= MSGQUEUE_MAX {
        return -1;
      }
      var q := queues[i];
      var m := Msg(mtype, StoredText(q.slots[q.tail].text, text, size));
      queues[i] := q.(slots := q.slots[q.tail := m], tail := (q.tail + 1) % MSGQUEUE_MAX, count := q.count + 1);
      interrupts := true;
      return 0;
    }

    /** sys_msgrcv: the first message of the wanted type, its text in data; -1 without one. */
    method Msgrcv(msqid: int, size: nat, typ: int) returns (r: int, data: seq<int>)
      requires Valid() && size < TWO32
      modifies queues
      ensures Valid() && (queues[..], r) == CallNext(old(queues[..]), Rcv(msqid, size, typ))
      ensures !old(CanReceive(msqid, typ)) ==> r == -1 && data == [] && queues[..] == old(queues[..])
      ensures old(CanReceive(msqid, typ)) ==> r == Signed(size) && exists i ::
                && FirstWithId(old(queues[..]), msqid, i)
                && queues[..] == old(queues[..])[i := queues[i]]
                && Received(old(queues[..])[i], typ, size, queues[i], data)
    {
      data := [];
      var i := GetQueue(msqid);
      if i == -1 {
        return -1, data;
      }
      var found, q;
      found, q, data := TakeMessage(queues[i], size, typ);
      if !found {
        return -1, [];
      }
      queues[i] := q;
      return Signed(size), data;
    }

    /** The part of sys_msgrcv that works on one queue. */
    method TakeMessage(q: Mq, size: nat, typ: int) returns (found: bool, q': Mq, data: seq<int>)
      requires Shape(q)
      ensures found <==> FirstMatch(Contents(q), typ) < q.count
      ensures found ==> Shape(q') && Received(q, typ, size, q', data) && q'.id == q.id
    {
      q', data, found := q, [], false;
      if q.count == 0 {
        return;
      }
      var index;
      ghost var k;
      index, found, k := FindMessage(q, typ);
      if !found {
        return;
      }
      var len := if size < MSG_SIZE_MAX then size else MSG_SIZE_MAX;
      data := q.slots[index].text[..len];
      if q.count - 1 == 0 {
        q' := q.(count := q.count - 1, head := 0, tail := 0);
      } else {
        Wrap(q.head + k);
        Wrap(index + 1);
        Wrap(q.head + k + 1);
        q' := q.(count := q.count - 1, head := (index + 1) % MSGQUEUE_MAX);
      }
    }

    /** The first queue with this id has a message of the wanted type. */
    ghost predicate CanReceive(msqid: int, typ: int)
      requires Valid()
      reads queues
    {
      msqid > 0 && exists i ::
        && FirstWithId(queues[..], msqid, i)
        && FirstMatch(Contents(queues[i]), typ) < queues[i].count
    }

    /** The search loop of sys_msgrcv. */
    method FindMessage(q: Mq, typ: int) returns (index: nat, found: bool, ghost k: nat)
      requires Shape(q) && q.count > 0
      ensures k == FirstMatch(Contents(q), typ) && (found <==> k < q.count)
      ensures index < MSGQUEUE_MAX && index == (q.head + k) % MSGQUEUE_MAX
    {
      index := q.head;
      var steps := 0;
      while steps < q.count
        invariant 0 <= steps <= q.count && index == (q.head + steps) % MSGQUEUE_MAX
        invariant forall j :: 0 <= j < steps ==> !Matches(Contents(q)[j], typ)
      {
        if typ == 0 || q.slots[index].mtype == typ {
          FirstMatchIs(Contents(q), typ, steps);
          return index, true, steps;
        }
        Wrap(q.head + steps);
        Wrap(index + 1);
        if q.head + steps + 1 < 32 { Wrap(q.head + steps + 1); }
        index := (index + 1) % MSGQUEUE_MAX;
        steps := steps + 1;
      }
      FirstMatchIs(Contents(q), typ, steps);
      return index, false, steps;
    }

    /** sys_msgctl with IPC_RMID: the queue is free and empty again; other commands change nothing. */
    method Msgctl(msqid: int, cmd: int, hasBuffer: bool) returns (r: int, status: Status)
      requires Valid()
      modifies queues
      ensures Valid() && (queues[..], r) == CallNext(old(queues[..]), Ctl(msqid, cmd, hasBuffer))
      ensures r in {0, -1}
      ensures r == 0 <==> old(HasId(msqid)) && (cmd == IPC_RMID || (cmd == IPC_STAT && hasBuffer))
      ensures cmd != IPC_RMID || r == -1 ==> queues[..] == old(queues[..])
      ensures cmd == IPC_STAT && r == 0 ==> exists i ::
                FirstWithId(queues[..], msqid, i) && status == Status(0x1B6, |Contents(queues[i])|, 16 * MSG_SIZE_MAX)
      ensures cmd == IPC_RMID && r == 0 ==> exists i ::
                && FirstWithId(old(queues[..]), msqid, i)
                && queues[..] == old(queues[..])[i := queues[i]]
                && queues[i].id == queues[i].key == 0 && Consistent(queues[i]) && Contents(queues[i]) == []
    {
      status := Status(0, 0, 0);
      var i := GetQueue(msqid);
      if i == -1 {
        return -1, status;
      }
      if cmd == IPC_RMID {
        queues[i] := queues[i].(id := 0, key := 0, head := 0, tail := 0, count := 0);
        return 0, status;
      }
      if cmd == IPC_STAT && hasBuffer {
        return 0, Status(0x1B6, queues[i].count, MSGQUEUE_MAX * MSG_SIZE_MAX);
      }
      return -1, status;
    }

    /** The first queue with this id has room. */
    ghost predicate CanSend(msqid: int)
      requires Valid()
      reads queues
    {
      exists i :: FirstWithId(queues[..], msqid, i) && queues[i].count < MSGQUEUE_MAX
    }
  }
}
