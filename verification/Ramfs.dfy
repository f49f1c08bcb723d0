/** Growable files behind file descriptors (kernel/fs/vfs.c). */
module Ramfs {
  import opened KernelBase

  const MAX_OPEN_FILES := 64

  /** Absent is a null data pointer; the content is the whole buffer of capacity bytes. */
  datatype FileData = Absent | Present(content: seq<int>, size: nat, capacity: nat)

  datatype Node = Node(isFile: bool, data: FileData)

  /** A node is given by its number, NULL for a free descriptor. */
  datatype Fd = Fd(node: int, flags: int, offset: int)

  datatype Vfs = Vfs(nodes: seq<Node>, fds: seq<Fd>)

  /** What the heap answers: whether the two allocations of a write succeed, and what fresh memory holds. */
  datatype Memory = Memory(headerOk: bool, growOk: bool, junk: seq<int>)

  const FREE := Fd(NULL, 0, 0)

  /** A signed offset where the file system compares it with a size. */
  function Unsigned(offset: int): nat { offset % TWO32 }

  /** A sum kept in a signed 32-bit field. */
  function Sum(a: int, b: int): int { Signed((a + b) % TWO32) }

  lemma SmallSum(a: int, b: int)
    requires 0 <= a && 0 <= b && a + b < TWO31
    ensures Unsigned(a) == a && Sum(a, b) == a + b
  {
  }

  // ---------------------------------------------------------------- capacities

  /** 256 times the k-th power of two. */
  function Power(k: nat): nat {
    if k == 0 then 256 else 2 * Power(k - 1)
  }

  lemma Power23()
    ensures Power(23) == TWO31
  {
    assert Power(8) == 0x1_0000;
    assert Power(16) == 0x100_0000;
  }

  lemma {:induction false} PowerGrows(i: nat, j: nat)
    requires i <= j
    ensures 256 <= Power(i) <= Power(j) && (i < j ==> 2 * Power(i) <= Power(j))
    decreases j
  {
    if i < j { PowerGrows(i, j - 1); } else if 0 < i { PowerGrows(i - 1, i - 1); }
  }

  /** 256 times a power of two that fits in 32 bits. */
  predicate IsCapacity(c: nat) {
    exists k :: 0 <= k <= 23 && c == Power(k)
  }

  /** The capacity after k turns of the doubling loop, in 32 bits. */
  function Doubled(c: nat, k: nat): nat {
    if k == 0 then c else Doubled(c, k - 1) * 2 % TWO32
  }

  lemma {:induction false} DoubledIs(j: nat, k: nat)
    requires j <= 23
    ensures Doubled(Power(j), k) == if j + k <= 23 then Power(j + k) else 0
  {
    if 0 < k {
      DoubledIs(j, k - 1);
      if j + k <= 24 { DoublePower(j + k - 1); }
    }
  }

  lemma DoublePower(i: nat)
    requires i <= 23
    ensures Power(i) * 2 % TWO32 == if i < 23 then Power(i + 1) else 0
  {
    Power23();
    if i < 23 { PowerGrows(i + 1, 23); }
  }

  lemma DoublingReaches(c: nat, need: nat)
    requires IsCapacity(c)
    ensures (exists k: nat :: need <= Doubled(c, k)) <==> need <= TWO31
  {
    var j :| 0 <= j <= 23 && c == Power(j);
    Power23();
    DoubledIs(j, 23 - j);
    forall k: nat ensures Doubled(c, k) <= TWO31 {
      DoubledIs(j, k);
      if j + k <= 23 { PowerGrows(j + k, 23); }
    }
    assert need <= TWO31 ==> need <= Doubled(c, 23 - j);
  }

  /** Where a write ends, in 32 bits. */
  function EndOf(offset: nat, count: nat): nat { (offset + count) % TWO32 }

  lemma EndValue(offset: nat, count: nat)
    requires offset < TWO32 && count < TWO32
    ensures EndOf(offset, count) == if offset + count < TWO32 then offset + count else offset + count - TWO32
  {
    if offset + count >= TWO32 { assert (offset + count) % TWO32 == offset + count - TWO32; }
  }

  /** The doubling loop ends if and only if the write ends at 2^31 or below, or its end wraps around to there. */
  lemma DoublingEnds(c: nat, offset: nat, count: nat)
    requires IsCapacity(c) && offset < TWO32 && count < TWO32
    ensures (exists k: nat :: EndOf(offset, count) <= Doubled(c, k)) <==>
              offset + count <= TWO31 || TWO32 <= offset + count <= TWO32 + TWO31
  {
    EndValue(offset, count);
    DoublingReaches(c, EndOf(offset, count));
  }

  /** How many of the bytes that are copied to an offset lie behind a buffer. */
  function Overrun(capacity: nat, offset: nat, count: nat): nat {
    if offset + count <= capacity then 0
    else if capacity <= offset then count
    else offset + count - capacity
  }

  /** A write into a buffer that is large enough for its end in 32 bits stays inside the buffer if and only if
      the end does not wrap around. */
  lemma CopyStays(capacity: nat, offset: nat, count: nat)
    requires offset < TWO32 && count < TWO32 && EndOf(offset, count) <= capacity <= TWO31
    ensures Overrun(capacity, offset, count) == 0 <==> offset + count < TWO32
  {
    EndValue(offset, count);
  }

  lemma NextCapacity(c: nat)
    requires IsCapacity(c) && c < TWO31
    ensures 0 < c && IsCapacity(2 * c) && 2 * c <= TWO31
  {
    var k :| 0 <= k <= 23 && c == Power(k);
    Power23();
    PowerGrows(k, 23);
    assert 2 * c == Power(k + 1);
  }

  lemma FirstCapacity()
    ensures IsCapacity(256)
  {
    assert Power(0) == 256;
  }

  /** The first capacity of at least need bytes that doubling reaches from c. */
  function Capacity(c: nat, need: nat): (r: nat)
    requires IsCapacity(c) && need <= TWO31
    ensures c <= r && need <= r && IsCapacity(r) && (r == c || r < 2 * need)
    decreases need - c
  {
    if need <= c then c else
      NextCapacity(c);
      Capacity(2 * c, need)
  }

  /** What a file of the given capacity, 0 at first, grows to. */
  function GrowTo(capacity: nat, need: nat): (r: nat)
    requires (capacity == 0 || IsCapacity(capacity)) && capacity < need <= TWO31
    ensures IsCapacity(r) && need <= r && capacity < r
  {
    FirstCapacity();
    Capacity(if capacity == 0 then 256 else capacity, need)
  }

  lemma DoubleStep(c: nat, need: nat, c': nat)
    requires IsCapacity(c) && c < need <= TWO31 && c' == c * 2 % TWO32
    ensures c < c' && IsCapacity(c') && Capacity(c', need) == Capacity(c, need)
  {
    NextCapacity(c);
  }

  // ---------------------------------------------------------------- one file

  /** What readers see. */
  function Bytes(d: FileData): seq<int>
    requires Sound(d)
  {
    if d.Absent? then [] else d.content[..d.size]
  }

  predicate Sound(d: FileData) {
    d.Present? ==>
      && d.size <= d.capacity == |d.content|
      && (d.capacity == 0 || IsCapacity(d.capacity))
  }

  function Min(a: int, b: int): int {
    if a < b then a else b
  }

  /** The part of a byte sequence that a read of count bytes at an offset delivers. */
  function Slice(f: seq<int>, offset: nat, count: nat): seq<int> {
    if offset >= |f| then [] else f[offset..Min(offset + count, |f|)]
  }

  /** A byte sequence with buf written at an offset no further than its end. */
  function Overwrite(f: seq<int>, offset: nat, buf: seq<int>): seq<int>
    requires offset <= |f|
  {
    f[..offset] + buf + f[Min(offset + |buf|, |f|)..]
  }

  /** How many bytes ramfs_read copies below the end of a file, with the sum in 32 bits. */
  function ReadCount(size: nat, offset: nat, count: nat): nat
    requires offset < size
  {
    if (offset + count) % TWO32 > size then size - offset else count
  }

  /** Reads stay inside the file exactly when the sum does not wrap. */
  lemma ReadExact(size: nat, offset: nat, count: nat)
    requires offset < size <= TWO31 && count < TWO32
    ensures ReadCount(size, offset, count) <= size - offset <==> offset + count < TWO32
    ensures offset + count < TWO32 ==> ReadCount(size, offset, count) == Min(count, size - offset)
  {
    if offset + count >= TWO32 {
      assert (offset + count) % TWO32 == offset + count - TWO32;
    }
  }

  /** Whether a write fails to grow its file and so throws the contents away. */
  predicate Drops(d: FileData, need: nat, m: Memory) {
    (if d.Absent? then m.headerOk && need > 0 else need > d.capacity) && !m.growOk
  }

  predicate Fails(d: FileData, need: nat, m: Memory) {
    (d.Absent? && !m.headerOk) || Drops(d, need, m)
  }

  /** The first half of ramfs_write: a file with room for need bytes, Absent if the heap has none. */
  function Prepared(d: FileData, need: nat, m: Memory): (g: FileData)
    requires Sound(d) && need <= TWO31
    ensures Sound(g) && (g.Absent? <==> Fails(d, need, m))
    ensures g.Present? ==> need <= g.capacity && Bytes(g) == Bytes(d)
  {
    if d.Absent? && !m.headerOk then Absent else
      var p := if d.Absent? then Present([], 0, 0) else d;
      if need <= p.capacity then p
      else if m.growOk then Grown(p, need, m.junk)
      else Absent
  }

  /** krealloc keeps the old bytes; what follows them is whatever the memory held. */
  function Grown(p: FileData, need: nat, junk: seq<int>): (g: FileData)
    requires p.Present? && Sound(p) && p.capacity < need <= TWO31
    ensures g.Present? && Sound(g) && g.capacity >= need && Bytes(g) == Bytes(p)
  {
    var c := GrowTo(p.capacity, need);
    Present(p.content + Fresh(c - p.capacity, junk), p.size, c)
  }

  function Fresh(n: nat, junk: seq<int>): (r: seq<int>)
    ensures |r| == n
  {
    seq(n, i requires 0 <= i => if i < |junk| then junk[i] else 0)
  }

  /** memcpy to an offset of a buffer, as far as the buffer goes. */
  function Copied(content: seq<int>, buf: seq<int>, offset: nat): (r: seq<int>)
    ensures |r| == |content|
  {
    seq(|content|, i requires 0 <= i < |content| =>
      if offset <= i < offset + |buf| then buf[i - offset] else content[i])
  }

  /** The second half: the bytes are copied in and the size raised. */
  function Stored(g: FileData, buf: seq<int>, offset: nat): (r: FileData)
    requires g.Present? && Sound(g) && EndOf(offset, |buf|) <= g.capacity
    ensures Sound(r) && r.Present?
  {
    var need := EndOf(offset, |buf|);
    Present(Copied(g.content, buf, offset), if need > g.size then need else g.size, g.capacity)
  }

  lemma StoredOverwrites(g: FileData, buf: seq<int>, offset: nat)
    requires g.Present? && Sound(g) && offset + |buf| <= g.capacity && offset <= |Bytes(g)|
    ensures EndOf(offset, |buf|) == offset + |buf|
    ensures Bytes(Stored(g, buf, offset)) == Overwrite(Bytes(g), offset, buf)
  {
    CapacityAtMost(g);
    EndValue(offset, |buf|);
    var r, f := Bytes(Stored(g, buf, offset)), Overwrite(Bytes(g), offset, buf);
    assert |r| == |f|;
    forall i | 0 <= i < |r| ensures r[i] == f[i] {
    }
  }

  /** A write comes to an end: it has no memory for its header, or its doubling loop ends. */
  predicate Ends(d: FileData, buf: seq<int>, offset: nat, m: Memory) {
    && |buf| < TWO32 && offset < TWO32
    && ((d.Absent? && !m.headerOk) || EndOf(offset, |buf|) <= TWO31)
  }

  /** ramfs_write: the new file data and the result. */
  function Written(d: FileData, buf: seq<int>, offset: nat, m: Memory): (FileData, int)
    requires Sound(d) && Ends(d, buf, offset, m)
  {
    var g := if d.Absent? && !m.headerOk then Absent else Prepared(d, EndOf(offset, |buf|), m);
    if g.Absent? then (Absent, KERNEL_FAILURE) else (Stored(g, buf, offset), Signed(|buf|))
  }

  /** How many bytes a write copies behind the buffer of its file. */
  function Spilled(d: FileData, buf: seq<int>, offset: nat, m: Memory): nat
    requires Sound(d) && Ends(d, buf, offset, m)
  {
    var g := if d.Absent? && !m.headerOk then Absent else Prepared(d, EndOf(offset, |buf|), m);
    if g.Absent? then 0 else Overrun(g.capacity, offset, |buf|)
  }

  /** A write that comes to an end writes behind the buffer of its file if and only if it gets its memory and its
      end wraps around. */
  lemma SpillExact(d: FileData, buf: seq<int>, offset: nat, m: Memory)
    requires Sound(d) && Ends(d, buf, offset, m)
    ensures Spilled(d, buf, offset, m) > 0 <==> offset + |buf| >= TWO32 && !Fails(d, EndOf(offset, |buf|), m)
  {
    if !(d.Absent? && !m.headerOk) {
      var g := Prepared(d, EndOf(offset, |buf|), m);
      if g.Present? {
        CapacityAtMost(g);
        CopyStays(g.capacity, offset, |buf|);
      }
    }
  }

  /** One such write: 2^32 - 1 bytes at offset 1 of a small file end at 0, so the file does not grow. 2^32 - 256
      of the bytes go elsewhere, and the result is that of a failure. */
  lemma WrappedWrite(content: seq<int>, buf: seq<int>, m: Memory)
    requires |content| == 256 && |buf| == TWO32 - 1
    ensures var d := Present(content, 1, 256);
            && Sound(d) && Ends(d, buf, 1, m)
            && Written(d, buf, 1, m) == (d.(content := [content[0]] + buf[..255]), KERNEL_FAILURE)
            && Spilled(d, buf, 1, m) == TWO32 - 256
  {
    FirstCapacity();
    EndValue(1, |buf|);
    assert Copied(content, buf, 1) == [content[0]] + buf[..255];
  }

  lemma WrittenAt(d: FileData, buf: seq<int>, offset: nat, m: Memory, need: nat)
    requires Sound(d) && Ends(d, buf, offset, m) && !(d.Absent? && !m.headerOk) && need == EndOf(offset, |buf|)
    ensures need <= TWO31
    ensures var g := Prepared(d, need, m);
            Written(d, buf, offset, m)
            == if g.Absent? then (Absent, KERNEL_FAILURE) else (Stored(g, buf, offset), Signed(|buf|))
  {
  }

  /** A write that gets its memory overwrites the byte sequence; one that cannot grow leaves an empty file. */
  lemma WriteOverwrites(d: FileData, buf: seq<int>, offset: nat, m: Memory)
    requires Sound(d) && offset <= |Bytes(d)| && offset + |buf| < TWO31
    ensures var (d', n) := Written(d, buf, offset, m);
            && Sound(d')
            && (n == KERNEL_FAILURE <==> Fails(d, offset + |buf|, m))
            && (n == KERNEL_FAILURE ==> Bytes(d') == [])
            && (n != KERNEL_FAILURE ==> n == |buf| && Bytes(d') == Overwrite(Bytes(d), offset, buf))
  {
    EndValue(offset, |buf|);
    if !Fails(d, offset + |buf|, m) { StoredOverwrites(Prepared(d, offset + |buf|, m), buf, offset); }
  }

  /** The other bytes stay and the written ones are read back, whoever reads. */
  lemma ReadBack(f: seq<int>, offset: nat, buf: seq<int>, at: nat, count: nat)
    requires offset <= |f|
    ensures |Overwrite(f, offset, buf)| >= |f|
    ensures Slice(Overwrite(f, offset, buf), offset, |buf|) == buf
    ensures at + count <= offset ==> Slice(Overwrite(f, offset, buf), at, count) == Slice(f, at, count)
    ensures offset + |buf| <= at < |f| ==> Slice(Overwrite(f, offset, buf), at, count) == Slice(f, at, count)
  {
    var g := Overwrite(f, offset, buf);
    assert forall i :: offset <= i < offset + |buf| ==> g[i] == buf[i - offset];
    if at + count <= offset { assert g[at..at + count] == f[at..at + count]; }
    if offset + |buf| <= at < |f| {
      assert |g| == |f|;
      assert forall i :: at <= i < |f| ==> g[i] == f[i];
    }
  }

  // ---------------------------------------------------------------- the descriptor table

  predicate IsOpen(v: Vfs, fd: int) {
    0 <= fd < |v.fds| && v.fds[fd].node != NULL
  }

  /** The descriptor refers to a node, and its offset is not past the end of that node's file. */
  predicate Placed(nodes: seq<Node>, fd: Fd)
    requires AllSound(nodes)
  {
    fd.node != NULL ==>
      && 0 <= fd.node < |nodes|
      && 0 <= fd.offset <= (if nodes[fd.node].isFile then |Bytes(nodes[fd.node].data)| else 0)
  }

  predicate AllSound(nodes: seq<Node>) {
    forall i :: 0 <= i < |nodes| ==> Sound(nodes[i].data)
  }

  /** The table has its size, the files are sound and open descriptors refer to nodes. */
  predicate Shape(v: Vfs) {
    && |v.fds| == MAX_OPEN_FILES && AllSound(v.nodes)
    && forall i :: 0 <= i < |v.fds| && v.fds[i].node != NULL ==>
         0 <= v.fds[i].node < |v.nodes| && -TWO31 <= v.fds[i].offset < TWO31
  }

  /** Files are smaller than 2^31 bytes. */
  predicate AllSmall(nodes: seq<Node>)
    requires AllSound(nodes)
  {
    forall i :: 0 <= i < |nodes| ==> |Bytes(nodes[i].data)| < TWO31
  }

  /** And no offset is past the end of its file. */
  predicate Inv(v: Vfs) {
    && |v.fds| == MAX_OPEN_FILES && AllSound(v.nodes) && AllSmall(v.nodes)
    && forall i :: 0 <= i < |v.fds| ==> Placed(v.nodes, v.fds[i])
  }

  /** The lowest free descriptor from i on, or the end of the table. */
  function LowestFree(fds: seq<Fd>, i: nat): (r: nat)
    requires i <= |fds|
    ensures i <= r <= |fds| && (r < |fds| ==> fds[r].node == NULL)
    ensures forall k :: i <= k < r ==> fds[k].node != NULL
    decreases |fds| - i
  {
    if i == |fds| || fds[i].node == NULL then i else LowestFree(fds, i + 1)
  }

  /** One call; a path is already resolved to a node or NULL. What memory holds behind the buffer of the
      file matters only to a read that runs past it. */
  datatype Call =
    | Open(node: int, flags: int)
    | Close(fd: int)
    | Read(fd: int, count: nat, behind: seq<int>)
    | Write(fd: int, buf: seq<int>, memory: Memory)

  /** The value returned and, for a read, the bytes delivered. */
  datatype Reply = Reply(value: int, data: seq<int>)

  const FAILED := Reply(KERNEL_FAILURE, [])

  function Opened(fds: seq<Fd>, node: int, flags: int): (seq<Fd>, Reply) {
    var i := LowestFree(fds, 0);
    if node == NULL || i == |fds| then (fds, FAILED) else (fds[i := Fd(node, flags, 0)], Reply(i, []))
  }

  function Advanced(fds: seq<Fd>, fd: nat, n: int): seq<Fd>
    requires fd < |fds|
  {
    if n > 0 then fds[fd := fds[fd].(offset := Sum(fds[fd].offset, n))] else fds
  }

  /** The file data behind an open descriptor. */
  function DataOf(v: Vfs, fd: int): FileData
    requires Shape(v) && IsOpen(v, fd)
  {
    v.nodes[v.fds[fd].node].data
  }

  predicate OpenFile(v: Vfs, fd: int)
    requires Shape(v)
  {
    IsOpen(v, fd) && v.nodes[v.fds[fd].node].isFile
  }

  /** What the calls need: a node that exists, sizes of 32 bits, and writes that end. */
  predicate Legal(v: Vfs, c: Call)
    requires Shape(v)
  {
    match c
    case Open(node, _) => node == NULL || 0 <= node < |v.nodes|
    case Close(_) => true
    case Read(fd, count, _) => count < TWO32
    case Write(fd, buf, m) => OpenFile(v, fd) ==> Ends(DataOf(v, fd), buf, Unsigned(v.fds[fd].offset), m)
  }

  /** Reads whose end does not wrap and writes that end below 2^31. */
  predicate Small(v: Vfs, c: Call) {
    match c
    case Read(fd, count, _) => IsOpen(v, fd) ==> v.fds[fd].offset + count < TWO32
    case Write(fd, buf, _) => IsOpen(v, fd) ==> v.fds[fd].offset + |buf| < TWO31
    case _ => true
  }

  /** ramfs_read: the bytes delivered below the end of the file. */
  function Delivered(d: FileData, offset: nat, count: nat, behind: seq<int>): seq<int>
    requires Sound(d) && count < TWO32
  {
    if d.Absent? || offset >= d.size then []
    else (d.content[offset..] + Fresh(count, behind))[..ReadCount(d.size, offset, count)]
  }

  lemma DeliveredLength(d: FileData, offset: nat, count: nat, behind: seq<int>)
    requires Sound(d) && count < TWO32
    ensures |Delivered(d, offset, count, behind)| < TWO32
  {
    if d.Present? { CapacityAtMost(d); }
  }

  lemma CapacityAtMost(d: FileData)
    requires Sound(d) && d.Present?
    ensures d.size <= d.capacity <= TWO31
  {
    if d.capacity > 0 {
      var k :| 0 <= k <= 23 && d.capacity == Power(k);
      Power23();
      PowerGrows(k, 23);
    }
  }

  function Next(v: Vfs, c: Call): (Vfs, Reply)
    requires Shape(v) && Legal(v, c)
  {
    match c
    case Open(node, flags) =>
      var (fds, r) := Opened(v.fds, node, flags);
      (v.(fds := fds), r)
    case Close(fd) =>
      if IsOpen(v, fd) then (v.(fds := v.fds[fd := FREE]), Reply(KERNEL_SUCCESS, [])) else (v, FAILED)
    case Read(fd, count, behind) =>
      if !OpenFile(v, fd) then (v, FAILED)
      else
        var data := Delivered(DataOf(v, fd), Unsigned(v.fds[fd].offset), count, behind);
        DeliveredLength(DataOf(v, fd), Unsigned(v.fds[fd].offset), count, behind);
        (v.(fds := Advanced(v.fds, fd, Signed(|data|))), Reply(Signed(|data|), data))
    case Write(fd, buf, m) =>
      if !OpenFile(v, fd) then (v, FAILED)
      else
        var (d, n) := Written(DataOf(v, fd), buf, Unsigned(v.fds[fd].offset), m);
        (Vfs(v.nodes[v.fds[fd].node := Node(true, d)], Advanced(v.fds, fd, n)), Reply(n, []))
  }

  /** Every call keeps the shape, whatever the heap answers. */
  lemma NextShape(v: Vfs, c: Call)
    requires Shape(v) && Legal(v, c)
    ensures Shape(Next(v, c).0)
  {
    if c.Write? && OpenFile(v, c.fd) {
      assert Sound(Written(DataOf(v, c.fd), c.buf, Unsigned(v.fds[c.fd].offset), c.memory).0);
    }
  }

  /** Open takes the lowest free descriptor at offset 0; closing it frees that descriptor alone. */
  lemma OpenThenClose(v: Vfs, node: nat, flags: int)
    requires Shape(v) && node < |v.nodes| && LowestFree(v.fds, 0) < |v.fds|
    ensures var (v1, r) := Next(v, Open(node, flags));
            && 0 <= r.value < |v.fds| && v.fds[r.value].node == NULL
            && (forall k :: 0 <= k < r.value ==> v.fds[k].node != NULL)
            && Shape(v1) && IsOpen(v1, r.value) && v1.fds[r.value] == Fd(node, flags, 0)
            && Next(v1, Close(r.value)) == (v.(fds := v.fds[r.value := FREE]), Reply(KERNEL_SUCCESS, []))
  {
    NextShape(v, Open(node, flags));
    var i := LowestFree(v.fds, 0);
    assert v.fds[i := Fd(node, flags, 0)][i := FREE] == v.fds[i := FREE];
  }

  /** An advanced offset, kept in a signed 32-bit field, is the sum exactly below 2^31. */
  lemma OffsetFits(offset: nat, count: nat)
    requires offset < TWO31 && count < TWO32
    ensures Signed(count) >= 0 && Sum(offset, Signed(count)) == offset + count <==> offset + count < TWO31
  {
    if count < TWO31 {
      assert (offset + count) % TWO32 == offset + count;
    }
  }

  // ---------------------------------------------------------------- files as byte sequences

  /** The same descriptors over files that are byte sequences; a node that is no file is None. */
  datatype Content = None | File(bytes: seq<int>)
  datatype Ideal = Ideal(files: seq<Content>, fds: seq<Fd>)

  function ContentOf(n: Node): Content
    requires Sound(n.data)
  {
    if n.isFile then File(Bytes(n.data)) else None
  }

  function Abs(v: Vfs): Ideal
    requires AllSound(v.nodes)
  {
    Ideal(seq(|v.nodes|, i requires 0 <= i < |v.nodes| => ContentOf(v.nodes[i])), v.fds)
  }

  /** The file that an open descriptor refers to, with an offset inside it. */
  predicate OnFile(a: Ideal, fd: int) {
    && 0 <= fd < |a.fds| && 0 <= a.fds[fd].node < |a.files|
    && a.files[a.fds[fd].node].File? && 0 <= a.fds[fd].offset <= |a.files[a.fds[fd].node].bytes|
  }

  function IdealNext(a: Ideal, c: Call): (Ideal, Reply) {
    match c
    case Open(node, flags) =>
      var (fds, r) := Opened(a.fds, node, flags);
      (a.(fds := fds), r)
    case Close(fd) =>
      if 0 <= fd < |a.fds| && a.fds[fd].node != NULL
      then (a.(fds := a.fds[fd := FREE]), Reply(KERNEL_SUCCESS, []))
      else (a, FAILED)
    case Read(fd, count, _) =>
      if !OnFile(a, fd) then (a, FAILED)
      else
        var data := Slice(a.files[a.fds[fd].node].bytes, a.fds[fd].offset, count);
        (a.(fds := Advanced(a.fds, fd, |data|)), Reply(|data|, data))
    case Write(fd, buf, _) =>
      if !OnFile(a, fd) then (a, FAILED)
      else
        var i := a.fds[fd].node;
        var file := File(Overwrite(a.files[i].bytes, a.fds[fd].offset, buf));
        (Ideal(a.files[i := file], Advanced(a.fds, fd, |buf|)), Reply(|buf|, []))
  }

  /** The descriptor's write gets the memory it needs. */
  predicate Succeeds(v: Vfs, c: Call)
    requires Shape(v)
  {
    c.Write? && OpenFile(v, c.fd) ==>
      !Fails(DataOf(v, c.fd), EndOf(Unsigned(v.fds[c.fd].offset), |c.buf|), c.memory)
  }

  /** One call does what it does to byte sequences, and gives the same reply. */
  lemma StepRefines(v: Vfs, c: Call)
    requires Inv(v) && Legal(v, c) && Small(v, c) && Succeeds(v, c)
    ensures Inv(Next(v, c).0)
    ensures IdealNext(Abs(v), c) == (Abs(Next(v, c).0), Next(v, c).1)
  {
    match c
    case Open(node, flags) =>
    case Close(fd) =>
    case Read(fd, count, behind) => if OpenFile(v, fd) { ReadRefines(v, fd, count, behind); }
    case Write(fd, buf, m) => if OpenFile(v, fd) { WriteRefines(v, fd, buf, m); }
  }

  lemma ReadRefines(v: Vfs, fd: int, count: nat, behind: seq<int>)
    requires Inv(v) && OpenFile(v, fd) && Small(v, Read(fd, count, behind))
    ensures var c := Read(fd, count, behind);
            Legal(v, c) && Inv(Next(v, c).0) && IdealNext(Abs(v), c) == (Abs(Next(v, c).0), Next(v, c).1)
  {
    assert Placed(v.nodes, v.fds[fd]);
    var d, offset := DataOf(v, fd), v.fds[fd].offset;
    DeliversSlice(d, offset, count, behind);
    SmallSum(offset, |Delivered(d, offset, count, behind)|);
    OffsetMoves(v, fd, |Delivered(d, offset, count, behind)|);
  }

  /** An offset may move up to the end of its file. */
  lemma OffsetMoves(v: Vfs, fd: nat, n: nat)
    requires Inv(v) && OpenFile(v, fd) && v.fds[fd].offset + n <= |Bytes(DataOf(v, fd))|
    ensures Inv(v.(fds := Advanced(v.fds, fd, n)))
  {
    assert Placed(v.nodes, v.fds[fd]);
    SmallSum(v.fds[fd].offset, n);
    var fds := Advanced(v.fds, fd, n);
    forall k | 0 <= k < |fds| ensures Placed(v.nodes, fds[k]) {
      assert Placed(v.nodes, v.fds[k]);
    }
  }

  /** A read delivers the slice of the byte sequence. */
  lemma DeliversSlice(d: FileData, offset: nat, count: nat, behind: seq<int>)
    requires Sound(d) && offset + count < TWO32
    ensures Delivered(d, offset, count, behind) == Slice(Bytes(d), offset, count)
    ensures offset <= |Bytes(d)| ==> offset + |Delivered(d, offset, count, behind)| <= |Bytes(d)|
  {
    if d.Present? && offset < d.size {
      CapacityAtMost(d);
      ReadExact(d.size, offset, count);
      var end := Min(offset + count, d.size);
      assert (d.content[offset..] + Fresh(count, behind))[..end - offset] == d.content[offset..end];
      assert Bytes(d)[offset..end] == d.content[offset..end];
    }
  }

  lemma WriteRefines(v: Vfs, fd: int, buf: seq<int>, m: Memory)
    requires Inv(v) && OpenFile(v, fd) && Small(v, Write(fd, buf, m)) && Succeeds(v, Write(fd, buf, m))
    ensures var c := Write(fd, buf, m);
            Legal(v, c) && Inv(Next(v, c).0) && IdealNext(Abs(v), c) == (Abs(Next(v, c).0), Next(v, c).1)
  {
    var i, offset := v.fds[fd].node, v.fds[fd].offset;
    assert Placed(v.nodes, v.fds[fd]);
    SmallSum(offset, |buf|);
    WriteOverwrites(DataOf(v, fd), buf, offset, m);
    var d := Written(DataOf(v, fd), buf, offset, m).0;
    NodeReplaced(v.nodes, i, d, v.fds);
    LongerFile(v, fd, d, |buf|);
  }

  /** A file that gets longer keeps every offset inside it, and also the one that moves on. */
  lemma LongerFile(v: Vfs, fd: nat, d: FileData, n: nat)
    requires Inv(v) && OpenFile(v, fd) && Sound(d) && |Bytes(d)| < TWO31
    requires |Bytes(DataOf(v, fd))| <= |Bytes(d)| && v.fds[fd].offset + n <= |Bytes(d)|
    ensures Inv(Vfs(v.nodes[v.fds[fd].node := Node(true, d)], Advanced(v.fds, fd, n)))
  {
    var nodes, fds := v.nodes[v.fds[fd].node := Node(true, d)], Advanced(v.fds, fd, n);
    assert Placed(v.nodes, v.fds[fd]);
    SmallSum(v.fds[fd].offset, n);
    forall k | 0 <= k < |fds| ensures Placed(nodes, fds[k]) {
      assert Placed(v.nodes, v.fds[k]);
    }
  }

  /** Replacing the data of a file replaces its byte sequence. */
  lemma NodeReplaced(nodes: seq<Node>, i: nat, d: FileData, fds: seq<Fd>)
    requires AllSound(nodes) && i < |nodes| && nodes[i].isFile && Sound(d)
    ensures Abs(Vfs(nodes[i := Node(true, d)], fds)).files == Abs(Vfs(nodes, fds)).files[i := File(Bytes(d))]
  {
  }

  /** No offset is past the end of its file, whatever the sizes. */
  predicate InFiles(v: Vfs) {
    Shape(v) && forall k :: 0 <= k < |v.fds| ==> Placed(v.nodes, v.fds[k])
  }

  /** Every descriptor of the file that fd refers to is at its start. */
  predicate NoneMoved(v: Vfs, fd: int)
    requires Shape(v) && IsOpen(v, fd)
  {
    forall k :: 0 <= k < |v.fds| && v.fds[k].node == v.fds[fd].node ==> v.fds[k].offset == 0
  }

  /**
   * A write that cannot grow its file throws the contents away. No offset is then past the end of a
   * file exactly when no descriptor of that file had moved. Any other write keeps every offset inside its
   * file exactly when it fails, or ends below 2^31, or is of 2^31 bytes or more: its result is then
   * negative and nothing is advanced.
   */
  lemma WriteKeepsOffsets(v: Vfs, fd: int, buf: seq<int>, m: Memory)
    requires InFiles(v) && OpenFile(v, fd) && Legal(v, Write(fd, buf, m))
    ensures var need := EndOf(v.fds[fd].offset, |buf|);
            InFiles(Next(v, Write(fd, buf, m)).0) <==>
              if Drops(DataOf(v, fd), need, m) then NoneMoved(v, fd)
              else Fails(DataOf(v, fd), need, m) || v.fds[fd].offset + |buf| < TWO31 || |buf| >= TWO31
  {
    var d, need := DataOf(v, fd), EndOf(v.fds[fd].offset, |buf|);
    assert Placed(v.nodes, v.fds[fd]);
    if Fails(d, need, m) {
      DropKeepsOffsets(v, fd, buf, m);
    } else {
      StoreKeepsOffsets(v, fd, buf, m);
    }
  }

  lemma DropKeepsOffsets(v: Vfs, fd: int, buf: seq<int>, m: Memory)
    requires InFiles(v) && OpenFile(v, fd) && Legal(v, Write(fd, buf, m))
    requires Fails(DataOf(v, fd), EndOf(v.fds[fd].offset, |buf|), m)
    ensures InFiles(Next(v, Write(fd, buf, m)).0) <==>
              Drops(DataOf(v, fd), EndOf(v.fds[fd].offset, |buf|), m) ==> NoneMoved(v, fd)
  {
    var i := v.fds[fd].node;
    var v' := Next(v, Write(fd, buf, m)).0;
    assert Placed(v.nodes, v.fds[fd]);
    assert v' == Vfs(v.nodes[i := Node(true, Absent)], v.fds);
    NextShape(v, Write(fd, buf, m));
    forall k | 0 <= k < |v.fds| ensures Placed(v'.nodes, v.fds[k]) <==> (v.fds[k].node == i ==> v.fds[k].offset == 0) {
      assert Placed(v.nodes, v.fds[k]);
    }
  }

  /** A write that gets its memory raises the size to its end in 32 bits. */
  lemma WrittenSize(d: FileData, buf: seq<int>, offset: nat, m: Memory)
    requires Sound(d) && Ends(d, buf, offset, m) && !Fails(d, EndOf(offset, |buf|), m)
    ensures var (d', n) := Written(d, buf, offset, m);
            var need := EndOf(offset, |buf|);
            Sound(d') && n == Signed(|buf|) && |Bytes(d')| == if need > |Bytes(d)| then need else |Bytes(d)|
  {
    WrittenAt(d, buf, offset, m, EndOf(offset, |buf|));
  }

  /** The descriptors around a file that got longer, when one of them advances by n. */
  lemma AdvanceInside(v: Vfs, fd: int, d: FileData, n: int)
    requires InFiles(v) && OpenFile(v, fd) && Sound(d) && |Bytes(DataOf(v, fd))| <= |Bytes(d)|
    requires n > 0 ==> -TWO31 <= Sum(v.fds[fd].offset, n) < TWO31
    ensures InFiles(Vfs(v.nodes[v.fds[fd].node := Node(true, d)], Advanced(v.fds, fd, n))) <==>
              n <= 0 || 0 <= Sum(v.fds[fd].offset, n) <= |Bytes(d)|
  {
    var i := v.fds[fd].node;
    var nodes, fds := v.nodes[i := Node(true, d)], Advanced(v.fds, fd, n);
    assert Placed(v.nodes, v.fds[fd]);
    forall k | 0 <= k < |fds| && (k != fd || n <= 0) ensures Placed(nodes, fds[k]) {
      assert Placed(v.nodes, v.fds[k]);
    }
    assert Placed(nodes, fds[fd]) <==> n <= 0 || 0 <= Sum(v.fds[fd].offset, n) <= |Bytes(d)|;
  }

  /** What a write does to the state, by its parts. */
  lemma NextWrite(v: Vfs, fd: int, buf: seq<int>, m: Memory)
    requires InFiles(v) && OpenFile(v, fd) && Legal(v, Write(fd, buf, m))
    ensures 0 <= v.fds[fd].offset < TWO31 && Ends(DataOf(v, fd), buf, v.fds[fd].offset, m)
    ensures var (d, n) := Written(DataOf(v, fd), buf, v.fds[fd].offset, m);
            Next(v, Write(fd, buf, m)).0 == Vfs(v.nodes[v.fds[fd].node := Node(true, d)], Advanced(v.fds, fd, n))
  {
    assert Placed(v.nodes, v.fds[fd]);
    SmallSum(v.fds[fd].offset, 0);
  }

  lemma StoreKeepsOffsets(v: Vfs, fd: int, buf: seq<int>, m: Memory)
    requires InFiles(v) && OpenFile(v, fd) && Legal(v, Write(fd, buf, m))
    requires !Fails(DataOf(v, fd), EndOf(v.fds[fd].offset, |buf|), m)
    ensures InFiles(Next(v, Write(fd, buf, m)).0) <==> v.fds[fd].offset + |buf| < TWO31 || |buf| >= TWO31
  {
    NextWrite(v, fd, buf, m);
    StoreMoves(v, fd, buf, m, Written(DataOf(v, fd), buf, v.fds[fd].offset, m).0);
  }

  lemma StoreMoves(v: Vfs, fd: int, buf: seq<int>, m: Memory, d: FileData)
    requires InFiles(v) && OpenFile(v, fd) && 0 <= v.fds[fd].offset < TWO31
    requires Ends(DataOf(v, fd), buf, v.fds[fd].offset, m)
    requires !Fails(DataOf(v, fd), EndOf(v.fds[fd].offset, |buf|), m)
    requires d == Written(DataOf(v, fd), buf, v.fds[fd].offset, m).0
    ensures InFiles(Vfs(v.nodes[v.fds[fd].node := Node(true, d)], Advanced(v.fds, fd, Signed(|buf|)))) <==>
              v.fds[fd].offset + |buf| < TWO31 || |buf| >= TWO31
  {
    var offset := v.fds[fd].offset;
    WrittenSize(DataOf(v, fd), buf, offset, m);
    AdvancesTo(offset, |buf|);
    AdvanceInside(v, fd, d, Signed(|buf|));
  }

  /** Where a descriptor is after a write of count bytes that ends at 2^31 or below in 32 bits. */
  lemma AdvancesTo(offset: nat, count: nat)
    requires offset < TWO31 && count < TWO32 && EndOf(offset, count) <= TWO31
    ensures count >= TWO31 ==> Signed(count) <= 0
    ensures count < TWO31 ==> Signed(count) == count && EndOf(offset, count) == offset + count <= TWO31
    ensures count < TWO31 ==> Sum(offset, count) == if offset + count < TWO31 then offset + count else -TWO31
  {
    EndValue(offset, count);
  }

  /** Files stay smaller than 2^31 bytes exactly while no write ends at 2^31, or the one that does fails. */
  lemma WriteKeepsSmall(v: Vfs, fd: int, buf: seq<int>, m: Memory)
    requires InFiles(v) && AllSmall(v.nodes) && OpenFile(v, fd) && Legal(v, Write(fd, buf, m))
    ensures var v' := Next(v, Write(fd, buf, m)).0;
            AllSound(v'.nodes) &&
            (AllSmall(v'.nodes) <==>
               v.fds[fd].offset + |buf| != TWO31 || Fails(DataOf(v, fd), EndOf(v.fds[fd].offset, |buf|), m))
  {
    var i, offset, d := v.fds[fd].node, v.fds[fd].offset, DataOf(v, fd);
    NextWrite(v, fd, buf, m);
    NextShape(v, Write(fd, buf, m));
    EndValue(offset, |buf|);
    SmallReplaced(v.nodes, i, Written(d, buf, offset, m).0);
    if !Fails(d, EndOf(offset, |buf|), m) { WrittenSize(d, buf, offset, m); }
  }

  lemma SmallReplaced(nodes: seq<Node>, i: nat, d: FileData)
    requires AllSound(nodes) && AllSmall(nodes) && i < |nodes| && Sound(d)
    ensures AllSmall(nodes[i := Node(true, d)]) <==> |Bytes(d)| < TWO31
    ensures |Bytes(nodes[i].data)| < TWO31
  {
    var r := nodes[i := Node(true, d)];
    forall k | 0 <= k < |r| && k != i ensures |Bytes(r[k].data)| < TWO31 {
      assert r[k] == nodes[k];
    }
    assert r[i] == Node(true, d);
  }

  /** A file of one byte, read to its end, whose growth fails: the offset is left past the end. */
  lemma DroppedFile()
    ensures exists v: Vfs, c: Call :: Inv(v) && c.Write? && Legal(v, c) && !InFiles(Next(v, c).0)
  {
    FirstCapacity();
    var file := Present(seq(256, i => 0), 1, 256);
    var v := Vfs([Node(true, file)], seq(MAX_OPEN_FILES, i => if i == 0 then Fd(0, 0, 1) else FREE));
    var buf := seq(256, i => 1);
    assert v.fds[0] == Fd(0, 0, 1) && IsOpen(v, 0);
    WriteKeepsOffsets(v, 0, buf, Memory(true, false, []));
  }

  // ---------------------------------------------------------------- runs

  /** Every call of a run is legal, small and gets the memory it needs. */
  predicate LegalRun(v: Vfs, calls: seq<Call>)
    requires Shape(v)
    decreases |calls|
  {
    calls == [] ||
    (&& Legal(v, calls[0]) && Small(v, calls[0]) && Succeeds(v, calls[0])
     && (NextShape(v, calls[0]); LegalRun(Next(v, calls[0]).0, calls[1..])))
  }

  function Run(v: Vfs, calls: seq<Call>): (Vfs, seq<Reply>)
    requires Shape(v) && LegalRun(v, calls)
    decreases |calls|
  {
    if calls == [] then (v, [])
    else
      NextShape(v, calls[0]);
      var (v', r) := Next(v, calls[0]);
      var (end, replies) := Run(v', calls[1..]);
      (end, [r] + replies)
  }

  function IdealRun(a: Ideal, calls: seq<Call>): (Ideal, seq<Reply>)
    decreases |calls|
  {
    if calls == [] then (a, [])
    else
      var (a', r) := IdealNext(a, calls[0]);
      var (end, replies) := IdealRun(a', calls[1..]);
      (end, [r] + replies)
  }

  /**
   * Under any interleaving of calls through any descriptors, files behave as byte sequences: the same
   * replies, the same bytes, no offset past the end of its file and no size above its capacity.
   */
  lemma {:induction false} FilesAreByteSequences(v: Vfs, calls: seq<Call>)
    requires Inv(v) && LegalRun(v, calls)
    ensures Inv(Run(v, calls).0)
    ensures IdealRun(Abs(v), calls) == (Abs(Run(v, calls).0), Run(v, calls).1)
    decreases |calls|
  {
    if calls != [] {
      StepRefines(v, calls[0]);
      FilesAreByteSequences(Next(v, calls[0]).0, calls[1..]);
    }
  }

  // ---------------------------------------------------------------- the file system in place

  /** The nodes and the descriptor table. */
  class FileSystem {
    var nodes: seq<Node>
    const fdTable: array<Fd>

    ghost function V(): Vfs
      reads this, fdTable
    {
      Vfs(nodes, fdTable[..])
    }

    /** vfs_init leaves every descriptor free. */
    constructor (nodes: seq<Node>)
      requires AllSound(nodes)
      ensures Shape(V()) && (AllSmall(nodes) ==> Inv(V())) && this.nodes == nodes && fresh(fdTable)
      ensures forall fd :: !IsOpen(V(), fd)
    {
      this.nodes := nodes;
      fdTable := new Fd[MAX_OPEN_FILES];
      new;
      for i := 0 to MAX_OPEN_FILES
        invariant fdTable.Length == MAX_OPEN_FILES && this.nodes == nodes && fresh(fdTable)
        invariant forall k :: 0 <= k < i ==> fdTable[k] == FREE
      {
        fdTable[i] := FREE;
      }
    }

    /** The path has been resolved to a node, or to NULL. */
    method Open(node: int, flags: int) returns (fd: int)
      requires Shape(V()) && Legal(V(), Call.Open(node, flags))
      modifies fdTable
      ensures (V(), Reply(fd, [])) == Next(old(V()), Call.Open(node, flags))
    {
      if node == NULL { return KERNEL_FAILURE; }
      fd := -1;
      var i := 0;
      while i < MAX_OPEN_FILES
        invariant 0 <= i <= MAX_OPEN_FILES && fd == -1
        invariant LowestFree(fdTable[..], 0) == LowestFree(fdTable[..], i)
      {
        if fdTable[i].node == NULL {
          fd := i;
          break;
        }
        i := i + 1;
      }
      if fd == -1 { return KERNEL_FAILURE; }
      fdTable[fd] := Fd(node, flags, 0);
    }

    method Close(fd: int) returns (r: int)
      requires Shape(V())
      modifies fdTable
      ensures (V(), Reply(r, [])) == Next(old(V()), Call.Close(fd))
    {
      if fd < 0 || fd >= MAX_OPEN_FILES || fdTable[fd].node == NULL { return KERNEL_FAILURE; }
      fdTable[fd] := FREE;
      r := KERNEL_SUCCESS;
    }

    method Read(fd: int, count: nat, behind: seq<int>) returns (n: int, data: seq<int>)
      requires Shape(V()) && count < TWO32
      modifies fdTable
      ensures (V(), Reply(n, data)) == Next(old(V()), Call.Read(fd, count, behind))
    {
      if fd < 0 || fd >= MAX_OPEN_FILES || fdTable[fd].node == NULL { return KERNEL_FAILURE, []; }
      n, data := RamfsRead(fdTable[fd].node, count, Unsigned(fdTable[fd].offset), behind);
      if n > 0 { fdTable[fd] := fdTable[fd].(offset := Sum(fdTable[fd].offset, n)); }
    }

    method RamfsRead(node: nat, count: nat, offset: nat, behind: seq<int>) returns (n: int, data: seq<int>)
      requires node < |nodes| && Sound(nodes[node].data) && offset < TWO32 && count < TWO32
      ensures !nodes[node].isFile ==> n == KERNEL_FAILURE && data == []
      ensures nodes[node].isFile ==>
                && data == Delivered(nodes[node].data, offset, count, behind) && |data| < TWO32 && n == Signed(|data|)
                && (offset + count < TWO32 ==> data == Slice(Bytes(nodes[node].data), offset, count))
    {
      if !nodes[node].isFile { return KERNEL_FAILURE, []; }
      var d := nodes[node].data;
      DeliveredLength(d, offset, count, behind);
      if offset + count < TWO32 { DeliversSlice(d, offset, count, behind); }
      if d.Absent? || offset >= d.size { return 0, []; }
      var bytes := count;
      if (offset + bytes) % TWO32 > d.size { bytes := d.size - offset; }
      data := (d.content[offset..] + Fresh(count, behind))[..bytes];
      n := Signed(bytes);
    }

    method Write(fd: int, buf: seq<int>, m: Memory) returns (n: int)
      requires Shape(V()) && Legal(V(), Call.Write(fd, buf, m))
      modifies this`nodes, fdTable
      ensures (V(), Reply(n, [])) == Next(old(V()), Call.Write(fd, buf, m))
    {
      if fd < 0 || fd >= MAX_OPEN_FILES || fdTable[fd].node == NULL { return KERNEL_FAILURE; }
      n := RamfsWrite(fdTable[fd].node, buf, Unsigned(fdTable[fd].offset), m);
      if n > 0 { fdTable[fd] := fdTable[fd].(offset := Sum(fdTable[fd].offset, n)); }
    }

    method RamfsWrite(node: nat, buf: seq<int>, offset: nat, m: Memory) returns (n: int)
      requires node < |nodes| && Sound(nodes[node].data)
      requires nodes[node].isFile ==> Ends(nodes[node].data, buf, offset, m)
      modifies this`nodes
      ensures !old(nodes[node].isFile) ==> n == KERNEL_FAILURE && nodes == old(nodes)
      ensures old(nodes[node].isFile) ==>
                var (d, r) := Written(old(nodes[node].data), buf, offset, m);
                n == r && nodes == old(nodes)[node := Node(true, d)]
    {
      if !nodes[node].isFile { return KERNEL_FAILURE; }
      if nodes[node].data.Absent? && !m.headerOk { return KERNEL_FAILURE; }
      WrittenAt(nodes[node].data, buf, offset, m, EndOf(offset, |buf|));
      var need := (offset + |buf|) % TWO32;
      var ok := MakeRoom(node, need, m);
      if !ok { return KERNEL_FAILURE; }
      StoreBytes(node, buf, offset, need);
      n := Signed(|buf|);
    }

    /** The second half of ramfs_write. */
    method StoreBytes(node: nat, buf: seq<int>, offset: nat, need: nat)
      requires node < |nodes| && nodes[node].isFile && nodes[node].data.Present? && Sound(nodes[node].data)
      requires need == EndOf(offset, |buf|) && need <= nodes[node].data.capacity
      modifies this`nodes
      ensures nodes == old(nodes)[node := Node(true, Stored(old(nodes[node].data), buf, offset))]
    {
      var d := nodes[node].data;
      d := d.(content := Copied(d.content, buf, offset));
      if need > d.size { d := d.(size := need); }
      nodes := nodes[node := Node(true, d)];
    }

    /** The file gets its header and a large enough buffer, or loses its data. */
    method MakeRoom(node: nat, need: nat, m: Memory) returns (ok: bool)
      requires node < |nodes| && nodes[node].isFile && Sound(nodes[node].data) && need <= TWO31
      requires nodes[node].data.Absent? ==> m.headerOk
      modifies this`nodes
      ensures nodes == old(nodes)[node := Node(true, Prepared(old(nodes[node].data), need, m))]
      ensures ok == nodes[node].data.Present?
    {
      var d := nodes[node].data;
      if d.Absent? {
        d := Present([], 0, 0);
        nodes := nodes[node := Node(true, d)];
      }
      if need > d.capacity {
        var capacity := NewCapacity(d.capacity, need);
        if !m.growOk {
          nodes := nodes[node := Node(true, Absent)];
          return false;
        }
        d := d.(content := d.content + Fresh(capacity - d.capacity, m.junk), capacity := capacity);
        nodes := nodes[node := Node(true, d)];
      }
      ok := true;
    }

    /** The doubling loop. */
    static method NewCapacity(capacity: nat, need: nat) returns (c: nat)
      requires (capacity == 0 || IsCapacity(capacity)) && capacity < need <= TWO31
      ensures IsCapacity(c) && c == GrowTo(capacity, need)
    {
      c := capacity;
      if c == 0 {
        c := 256;
        FirstCapacity();
      }
      while c < need
        invariant IsCapacity(c) && GrowTo(capacity, need) == Capacity(c, need)
        decreases need - c
      {
        DoubleStep(c, need, c * 2 % TWO32);
        c := c * 2 % TWO32;
      }
    }
  }
}
