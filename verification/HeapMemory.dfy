/** Block headers inside the memory that they manage (kernel/memory/kmalloc.c).

    Memory is a sequence of cells, one for each byte address from the start of the heap. A 32-bit
    field lives in the cell of its first byte. */
module HeapMemory {
  import opened HeapSpec

  const CELLS := 0x30000000

  const SIZE := 0
  const FREE := 4
  const NEXT := 8
  const PREV := 12

  predicate Mapped(a: nat) { KHEAP_START <= a < KHEAP_START + CELLS }

  function Get(mem: seq<int>, a: nat): int
    requires |mem| == CELLS && Mapped(a)
  {
    mem[a - KHEAP_START]
  }

  function Set(mem: seq<int>, a: nat, v: int): (r: seq<int>)
    requires |mem| == CELLS && Mapped(a)
    ensures |r| == CELLS
  {
    mem[a - KHEAP_START := v]
  }

  /** Address of the block after and before block i, 0 for none. */
  function NextOf(bs: seq<Block>, i: nat): nat { if i + 1 < |bs| then bs[i + 1].addr else 0 }

  function PrevOf(bs: seq<Block>, i: nat): nat
    requires i <= |bs|
  {
    if i > 0 then bs[i - 1].addr else 0
  }

  function Flag(b: bool): int { if b then 1 else 0 }

  predicate InRange(b: Block) { KHEAP_START <= b.addr && Stop(b) <= KHEAP_START + CELLS }

  /** The four header fields at b. */
  predicate Fields(mem: seq<int>, b: Block, next: int, prev: int) {
    && |mem| == CELLS && InRange(b)
    && Get(mem, b.addr + SIZE) == b.size && Get(mem, b.addr + FREE) == Flag(b.free)
    && Get(mem, b.addr + NEXT) == next && Get(mem, b.addr + PREV) == prev
  }

  predicate HeaderAt(mem: seq<int>, bs: seq<Block>, i: nat)
    requires i < |bs|
  {
    Fields(mem, bs[i], NextOf(bs, i), PrevOf(bs, i))
  }

  /** Memory holds a doubly linked list of the headers of bs. */
  predicate Rep(mem: seq<int>, bs: seq<Block>) {
    |mem| == CELLS && forall i :: 0 <= i < |bs| ==> HeaderAt(mem, bs, i)
  }

  /** Address x belongs to the header of b, or to its data. */
  predicate InHeader(b: Block, x: int) { b.addr <= x < b.addr + HEADER }
  predicate InData(b: Block, x: int) { b.addr + HEADER <= x < Stop(b) }

  lemma Separate(bs: seq<Block>, from: nat, to: nat, h: nat, k: nat, w: int, x: int)
    requires Tiles(bs, from, to) && h < |bs| && k < |bs| && InHeader(bs[h], w)
    ensures InData(bs[k], x) ==> x != w
    ensures InHeader(bs[k], x) && h != k ==> x != w
  {
    if h < k { Ordered(bs, from, to, h, k); }
    if k < h { Ordered(bs, from, to, k, h); }
  }

  lemma DataSeparate(bs: seq<Block>, from: nat, to: nat, h: nat, k: nat, w: int, x: int)
    requires Tiles(bs, from, to) && h < |bs| && k < |bs| && InData(bs[h], w) && h != k
    ensures InData(bs[k], x) || InHeader(bs[k], x) ==> x != w
  {
    if h < k { Ordered(bs, from, to, h, k); }
    if k < h { Ordered(bs, from, to, k, h); }
  }

  /** The header of b is the same in both memories. */
  ghost predicate SameHeader(mem: seq<int>, mem': seq<int>, b: Block) {
    && |mem| == CELLS && |mem'| == CELLS && InRange(b)
    && forall x: nat :: InHeader(b, x) ==> Get(mem', x) == Get(mem, x)
  }

  /** The data of b is the same in both memories. */
  ghost predicate SameData(mem: seq<int>, mem': seq<int>, b: Block) {
    && |mem| == CELLS && |mem'| == CELLS && InRange(b)
    && forall x: nat :: InData(b, x) ==> Get(mem', x) == Get(mem, x)
  }

  /** The n cells from address a on. */
  function Bytes(mem: seq<int>, a: nat, n: nat): seq<int>
    requires |mem| == CELLS && KHEAP_START <= a && a + n <= KHEAP_START + CELLS
  {
    mem[a - KHEAP_START..a - KHEAP_START + n]
  }

  lemma SameDataChain(mem0: seq<int>, mem1: seq<int>, mem2: seq<int>, b: Block, b1: Block)
    requires SameData(mem0, mem1, b) && SameData(mem1, mem2, b1)
    requires b1.addr <= b.addr && Stop(b) <= Stop(b1)
    ensures SameData(mem0, mem2, b)
  {
    assert forall x: nat :: InData(b, x) ==> InData(b1, x);
  }

  lemma SameBytes(mem: seq<int>, mem': seq<int>, b: Block, n: nat)
    requires SameData(mem, mem', b) && n <= b.size
    ensures Bytes(mem', b.addr + HEADER, n) == Bytes(mem, b.addr + HEADER, n)
  {
    var s, s' := Bytes(mem, b.addr + HEADER, n), Bytes(mem', b.addr + HEADER, n);
    forall k | 0 <= k < n ensures s'[k] == s[k] {
      var x := b.addr + HEADER + k;
      assert InData(b, x) && Get(mem', x) == Get(mem, x);
    }
  }

  /** Replacing blocks [i, j) by mid: it is enough to get the new headers and the two neighbours
      right and to leave all other headers alone. */
  lemma ReplaceRep(mem: seq<int>, mem': seq<int>, bs: seq<Block>, i: nat, j: nat, mid: seq<Block>)
    requires Rep(mem, bs) && i <= j <= |bs| && |mem'| == CELLS
    requires var bs' := Replace(bs, i, j, mid);
             && (forall k :: i <= k < i + |mid| ==> HeaderAt(mem', bs', k))
             && (i > 0 ==> HeaderAt(mem', bs', i - 1))
             && (j < |bs| ==> HeaderAt(mem', bs', i + |mid|))
    requires forall k :: 0 <= k < i - 1 || j < k < |bs| ==> SameHeader(mem, mem', bs[k])
    ensures Rep(mem', Replace(bs, i, j, mid))
  {
    var bs' := Replace(bs, i, j, mid);
    forall k | 0 <= k < |bs'| ensures HeaderAt(mem', bs', k) {
      if k < i - 1 {
        assert bs'[k] == bs[k] && HeaderAt(mem, bs, k) && SameHeader(mem, mem', bs[k]);
        HeaderMoves(mem, mem', bs[k], NextOf(bs, k), PrevOf(bs, k));
      } else if k > i + |mid| {
        var m := k - i - |mid| + j;
        assert bs'[k] == bs[m] && HeaderAt(mem, bs, m) && SameHeader(mem, mem', bs[m]);
        HeaderMoves(mem, mem', bs[m], NextOf(bs, m), PrevOf(bs, m));
      }
    }
  }

  lemma HeaderMoves(mem: seq<int>, mem': seq<int>, b: Block, next: int, prev: int)
    requires Fields(mem, b, next, prev) && SameHeader(mem, mem', b)
    ensures Fields(mem', b, next, prev)
  {
    assert InHeader(b, b.addr + SIZE) && InHeader(b, b.addr + FREE);
    assert InHeader(b, b.addr + NEXT) && InHeader(b, b.addr + PREV);
  }

  // ---------------------------------------------------------------- the stores of split_block

  /** x is none of the cells that split_block writes when it cuts b after size bytes, next being the
      block behind b. */
  predicate SplitSkips(b: Block, size: nat, next: nat, x: int) {
    var n := b.addr + HEADER + size;
    x !in {n + SIZE, n + FREE, n + NEXT, n + PREV, b.addr + NEXT, b.addr + SIZE} && (next != 0 ==> x != next + PREV)
  }

  /** mem' is mem after the stores of split_block. */
  ghost predicate SplitStores(mem: seq<int>, mem': seq<int>, b: Block, size: nat, next: nat) {
    var n := b.addr + HEADER + size;
    && |mem| == CELLS && |mem'| == CELLS && InRange(b) && size + HEADER <= b.size
    && Get(mem', n + SIZE) == b.size - size - HEADER && Get(mem', n + FREE) == 1
    && Get(mem', n + NEXT) == next && Get(mem', n + PREV) == b.addr
    && (next != 0 && Mapped(next + PREV) ==> Get(mem', next + PREV) == n)
    && Get(mem', b.addr + NEXT) == n && Get(mem', b.addr + SIZE) == size
    && forall x: nat :: Mapped(x) && SplitSkips(b, size, next, x) ==> Get(mem', x) == Get(mem, x)
  }

  lemma SplitSkipsOthers(bs: seq<Block>, end: nat, i: nat, size: nat, k: nat, x: nat)
    requires Tiles(bs, KHEAP_START, end) && i < |bs| && size + HEADER <= bs[i].size && k < |bs|
    requires (InData(bs[k], x) && k != i) || (InHeader(bs[k], x) && k != i && k != i + 1)
    ensures SplitSkips(bs[i], size, NextOf(bs, i), x)
  {
    var b := bs[i];
    var n := b.addr + HEADER + size;
    Separate(bs, KHEAP_START, end, i, k, b.addr + NEXT, x);
    Separate(bs, KHEAP_START, end, i, k, b.addr + SIZE, x);
    DataSeparate(bs, KHEAP_START, end, i, k, n + SIZE, x);
    DataSeparate(bs, KHEAP_START, end, i, k, n + FREE, x);
    DataSeparate(bs, KHEAP_START, end, i, k, n + NEXT, x);
    DataSeparate(bs, KHEAP_START, end, i, k, n + PREV, x);
    if i + 1 < |bs| { Separate(bs, KHEAP_START, end, i + 1, k, bs[i + 1].addr + PREV, x); }
  }

  lemma SplitFrame(mem: seq<int>, mem': seq<int>, bs: seq<Block>, end: nat, i: nat, size: nat, k: nat)
    requires Rep(mem, bs) && Tiles(bs, KHEAP_START, end) && i < |bs| && k < |bs| && k != i
    requires size + HEADER <= bs[i].size && SplitStores(mem, mem', bs[i], size, NextOf(bs, i))
    ensures SameData(mem, mem', bs[k])
    ensures k != i + 1 ==> SameHeader(mem, mem', bs[k])
  {
    assert HeaderAt(mem, bs, k);
    forall x: nat | InData(bs[k], x) || (k != i + 1 && InHeader(bs[k], x)) ensures Get(mem', x) == Get(mem, x) {
      SplitSkipsOthers(bs, end, i, size, k, x);
    }
  }

  lemma SplitOwn(mem: seq<int>, mem': seq<int>, b: Block, size: nat, next: nat, prev: int, b1: Block, b2: Block)
    requires Fields(mem, b, next, prev) && SplitStores(mem, mem', b, size, next)
    requires next == 0 || next >= Stop(b)
    requires b1 == b.(size := size) && b2 == Block(b.addr + HEADER + size, b.size - size - HEADER, true)
    ensures Fields(mem', b1, b2.addr, prev) && Fields(mem', b2, next, b1.addr)
  {
  }

  lemma SplitNext(mem: seq<int>, mem': seq<int>, b: Block, size: nat, c: Block, next: int, n: nat)
    requires Fields(mem, c, next, b.addr) && SplitStores(mem, mem', b, size, c.addr) && Stop(b) <= c.addr
    requires n == b.addr + HEADER + size
    ensures Fields(mem', c, next, n)
  {
  }

  /** Two headers in place of block i, and the neighbours' links set to them. */
  lemma TwoForOne(mem: seq<int>, mem': seq<int>, bs: seq<Block>, i: nat, b1: Block, b2: Block)
    requires Rep(mem, bs) && i < |bs| && |mem'| == CELLS && b1.addr == bs[i].addr
    requires Fields(mem', b1, b2.addr, PrevOf(bs, i)) && Fields(mem', b2, NextOf(bs, i), b1.addr)
    requires forall k :: 0 <= k < |bs| && k != i && k != i + 1 ==> SameHeader(mem, mem', bs[k])
    requires i + 1 < |bs| ==> Fields(mem', bs[i + 1], NextOf(bs, i + 1), b2.addr)
    ensures Rep(mem', Replace(bs, i, i + 1, [b1, b2]))
  {
    var bs' := Replace(bs, i, i + 1, [b1, b2]);
    assert bs'[i] == b1 && bs'[i + 1] == b2;
    assert NextOf(bs', i + 1) == NextOf(bs, i);
    if i > 0 {
      assert bs'[i - 1] == bs[i - 1] && HeaderAt(mem, bs, i - 1) && SameHeader(mem, mem', bs[i - 1]);
      HeaderMoves(mem, mem', bs[i - 1], b1.addr, PrevOf(bs, i - 1));
    }
    if i + 1 < |bs| { assert bs'[i + 2] == bs[i + 1] && NextOf(bs', i + 2) == NextOf(bs, i + 1); }
    ReplaceRep(mem, mem', bs, i, i + 1, [b1, b2]);
  }

  lemma SplitFrames(mem: seq<int>, mem': seq<int>, bs: seq<Block>, end: nat, i: nat, size: nat)
    requires Rep(mem, bs) && Tiles(bs, KHEAP_START, end) && i < |bs|
    requires size + HEADER + 16 < bs[i].size && SplitStores(mem, mem', bs[i], size, NextOf(bs, i))
    ensures forall k :: 0 <= k < |bs| && k != i ==> SameData(mem, mem', bs[k])
    ensures forall k :: 0 <= k < |bs| && k != i && k != i + 1 ==> SameHeader(mem, mem', bs[k])
  {
    forall k | 0 <= k < |bs| && k != i
      ensures SameData(mem, mem', bs[k])
      ensures k != i + 1 ==> SameHeader(mem, mem', bs[k])
    {
      SplitFrame(mem, mem', bs, end, i, size, k);
    }
  }

  lemma SplitRep(mem: seq<int>, mem': seq<int>, bs: seq<Block>, end: nat, i: nat, size: nat)
    requires Rep(mem, bs) && Tiles(bs, KHEAP_START, end) && i < |bs|
    requires size + HEADER + 16 < bs[i].size && SplitStores(mem, mem', bs[i], size, NextOf(bs, i))
    ensures Rep(mem', Replace(bs, i, i + 1, SplitOf(bs[i], size)))
    ensures forall k :: 0 <= k < |bs| && k != i ==> SameData(mem, mem', bs[k])
  {
    var b := bs[i];
    SplitFrames(mem, mem', bs, end, i, size);
    assert HeaderAt(mem, bs, i) && Fits(bs, end, i);
    var b1, b2 := b.(size := size), Block(b.addr + HEADER + size, b.size - size - HEADER, true);
    SplitOwn(mem, mem', b, size, NextOf(bs, i), PrevOf(bs, i), b1, b2);
    if i + 1 < |bs| {
      assert HeaderAt(mem, bs, i + 1);
      SplitNext(mem, mem', b, size, bs[i + 1], NextOf(bs, i + 1), b2.addr);
    }
    TwoForOne(mem, mem', bs, i, b1, b2);
    assert SplitOf(b, size) == [b1, b2];
  }

  // ---------------------------------------------------------------- the stores of kfree

  /** mem' is mem after block a has taken over its successor c: size, next and, if there is a block
      behind c, its prev. */
  ghost predicate AbsorbStores(mem: seq<int>, mem': seq<int>, a: Block, c: Block, next: nat) {
    && |mem| == CELLS && |mem'| == CELLS && InRange(a)
    && Get(mem', a.addr + SIZE) == a.size + HEADER + c.size && Get(mem', a.addr + NEXT) == next
    && (next != 0 && Mapped(next + PREV) ==> Get(mem', next + PREV) == a.addr)
    && forall x: nat :: Mapped(x) && x != a.addr + SIZE && x != a.addr + NEXT && (next != 0 ==> x != next + PREV) ==>
         Get(mem', x) == Get(mem, x)
  }

  lemma AbsorbFrame(mem: seq<int>, mem': seq<int>, bs: seq<Block>, end: nat, j: nat, k: nat)
    requires Rep(mem, bs) && Tiles(bs, KHEAP_START, end) && j + 1 < |bs| && k < |bs|
    requires AbsorbStores(mem, mem', bs[j], bs[j + 1], NextOf(bs, j + 1))
    ensures SameData(mem, mem', bs[k])
    ensures k != j && k != j + 2 ==> SameHeader(mem, mem', bs[k])
  {
    assert HeaderAt(mem, bs, k);
    forall x: nat | InData(bs[k], x) || (k != j && k != j + 2 && InHeader(bs[k], x))
      ensures Get(mem', x) == Get(mem, x)
    {
      Separate(bs, KHEAP_START, end, j, k, bs[j].addr + SIZE, x);
      Separate(bs, KHEAP_START, end, j, k, bs[j].addr + NEXT, x);
      if j + 2 < |bs| { Separate(bs, KHEAP_START, end, j + 2, k, bs[j + 2].addr + PREV, x); }
    }
  }

  lemma AbsorbOwn(mem: seq<int>, mem': seq<int>, a: Block, c: Block, next: nat, prev: int, was: int)
    requires Fields(mem, a, was, prev) && AbsorbStores(mem, mem', a, c, next) && InRange(c) && Stop(a) == c.addr
    requires next == 0 || next >= Stop(c)
    ensures Fields(mem', a.(size := a.size + HEADER + c.size), next, prev)
  {
  }

  lemma AbsorbNext(mem: seq<int>, mem': seq<int>, a: Block, c: Block, d: Block, next: int, was: int)
    requires Fields(mem, d, next, was) && AbsorbStores(mem, mem', a, c, d.addr) && Stop(a) <= d.addr
    ensures Fields(mem', d, next, a.addr)
  {
  }

  /** One header in place of two, and the neighbours' links set to it. */
  lemma OneForTwo(mem: seq<int>, mem': seq<int>, bs: seq<Block>, j: nat, b: Block)
    requires Rep(mem, bs) && j + 1 < |bs| && |mem'| == CELLS && b.addr == bs[j].addr
    requires Fields(mem', b, NextOf(bs, j + 1), PrevOf(bs, j))
    requires forall k :: 0 <= k < |bs| && k != j && k != j + 2 ==> SameHeader(mem, mem', bs[k])
    requires j + 2 < |bs| ==> Fields(mem', bs[j + 2], NextOf(bs, j + 2), b.addr)
    ensures Rep(mem', Replace(bs, j, j + 2, [b]))
  {
    var bs' := Replace(bs, j, j + 2, [b]);
    assert bs'[j] == b && NextOf(bs', j) == NextOf(bs, j + 1);
    if j > 0 {
      assert bs'[j - 1] == bs[j - 1] && HeaderAt(mem, bs, j - 1) && SameHeader(mem, mem', bs[j - 1]);
      HeaderMoves(mem, mem', bs[j - 1], b.addr, PrevOf(bs, j - 1));
    }
    if j + 2 < |bs| { assert bs'[j + 1] == bs[j + 2] && NextOf(bs', j + 1) == NextOf(bs, j + 2); }
    ReplaceRep(mem, mem', bs, j, j + 2, [b]);
  }

  lemma AbsorbRep(mem: seq<int>, mem': seq<int>, bs: seq<Block>, end: nat, j: nat)
    requires Rep(mem, bs) && Tiles(bs, KHEAP_START, end) && j + 1 < |bs|
    requires AbsorbStores(mem, mem', bs[j], bs[j + 1], NextOf(bs, j + 1))
    ensures Rep(mem', Absorb(bs, j))
    ensures forall k :: 0 <= k < |bs| ==> SameData(mem, mem', bs[k])
  {
    var a, c := bs[j], bs[j + 1];
    forall k | 0 <= k < |bs|
      ensures SameData(mem, mem', bs[k])
      ensures k != j && k != j + 2 ==> SameHeader(mem, mem', bs[k])
    {
      AbsorbFrame(mem, mem', bs, end, j, k);
    }
    assert HeaderAt(mem, bs, j) && HeaderAt(mem, bs, j + 1) && Fits(bs, end, j) && Fits(bs, end, j + 1);
    AbsorbOwn(mem, mem', a, c, NextOf(bs, j + 1), PrevOf(bs, j), NextOf(bs, j));
    if j + 2 < |bs| {
      assert HeaderAt(mem, bs, j + 2);
      AbsorbNext(mem, mem', a, c, bs[j + 2], NextOf(bs, j + 2), c.addr);
    }
    OneForTwo(mem, mem', bs, j, a.(size := a.size + HEADER + c.size));
  }

  // ---------------------------------------------------------------- the other stores

  /** A store to the free field of block i. */
  lemma FlagRep(mem: seq<int>, bs: seq<Block>, end: nat, i: nat, free: bool)
    requires Rep(mem, bs) && Tiles(bs, KHEAP_START, end) && i < |bs|
    ensures Mapped(bs[i].addr + FREE)
    ensures var mem' := Set(mem, bs[i].addr + FREE, Flag(free));
            && Rep(mem', bs[i := bs[i].(free := free)])
            && forall k :: 0 <= k < |bs| ==> SameData(mem, mem', bs[k])
  {
    assert HeaderAt(mem, bs, i);
    var w := bs[i].addr + FREE;
    var mem', bs' := Set(mem, w, Flag(free)), bs[i := bs[i].(free := free)];
    forall k | 0 <= k < |bs| ensures SameData(mem, mem', bs[k]) && HeaderAt(mem', bs', k) {
      assert HeaderAt(mem, bs, k);
      forall x: nat | InData(bs[k], x) || (InHeader(bs[k], x) && k != i) ensures x != w {
        Separate(bs, KHEAP_START, end, i, k, w, x);
      }
      if k != i { HeaderMoves(mem, mem', bs[k], NextOf(bs, k), PrevOf(bs, k)); }
    }
  }

  /** A new block behind the heap, linked to the last one. */
  lemma AppendRep(mem: seq<int>, mem': seq<int>, bs: seq<Block>, end: nat, b: Block)
    requires Rep(mem, bs) && Tiles(bs, KHEAP_START, end) && b.addr == end && |mem'| == CELLS && InRange(b)
    requires Fields(mem', b, 0, PrevOf(bs, |bs|))
    requires bs != [] ==> Mapped(bs[|bs| - 1].addr + NEXT) && Get(mem', bs[|bs| - 1].addr + NEXT) == end
    requires forall x: nat :: Mapped(x) && x < end && (bs != [] ==> x != bs[|bs| - 1].addr + NEXT) ==>
               Get(mem', x) == Get(mem, x)
    ensures Rep(mem', bs + [b])
    ensures forall k :: 0 <= k < |bs| ==> SameData(mem, mem', bs[k])
  {
    var bs', last := bs + [b], |bs| - 1;
    forall k | 0 <= k < |bs| ensures SameData(mem, mem', bs[k]) && HeaderAt(mem', bs', k) {
      assert HeaderAt(mem, bs, k);
      InBounds(bs, KHEAP_START, end, k);
      forall x: nat | InData(bs[k], x) || (InHeader(bs[k], x) && k != last) ensures x != bs[last].addr + NEXT {
        Separate(bs, KHEAP_START, end, last, k, bs[last].addr + NEXT, x);
      }
      if k != last { HeaderMoves(mem, mem', bs[k], NextOf(bs, k), PrevOf(bs, k)); }
    }
    assert HeaderAt(mem', bs', |bs|);
  }
}
