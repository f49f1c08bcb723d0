/** The kernel heap as a sequence of blocks (kernel/memory/kmalloc.c). */
module HeapSpec {
  import opened KernelBase

  const KHEAP_START := 0xD0000000
  const FIRST_PAGE := 0xD0000
  const HEADER := 16
  const PAGE := 0x1000

  /** A block: its header at addr is followed by size usable bytes. */
  datatype Block = Block(addr: nat, size: nat, free: bool)

  function Stop(b: Block): nat { b.addr + HEADER + b.size }

  /** Where block i starts, or the end of the heap behind the last block. */
  function StartOf(bs: seq<Block>, end: nat, i: nat): nat
    requires i <= |bs|
  {
    if i < |bs| then bs[i].addr else end
  }

  predicate BlockOk(b: Block) { b.addr % 8 == 0 && b.size % 8 == 0 }

  /** Block i is sound and ends where the next one, or the rest of memory, starts. */
  predicate Fits(bs: seq<Block>, to: nat, i: nat)
    requires i < |bs|
  {
    BlockOk(bs[i]) && Stop(bs[i]) == StartOf(bs, to, i + 1)
  }

  /** The blocks lie end to end from one address to another. */
  predicate Tiles(bs: seq<Block>, from: nat, to: nat) {
    && StartOf(bs, to, 0) == from
    && forall i :: 0 <= i < |bs| ==> Fits(bs, to, i)
  }

  predicate NoTwoFree(bs: seq<Block>) {
    forall i :: 0 < i < |bs| ==> !(bs[i - 1].free && bs[i].free)
  }

  predicate Inv(bs: seq<Block>, end: nat) { Tiles(bs, KHEAP_START, end) && NoTwoFree(bs) && end % 8 == 0 }

  /** Replace the blocks [i, j) by mid. */
  function Replace(bs: seq<Block>, i: nat, j: nat, mid: seq<Block>): seq<Block>
    requires i <= j <= |bs|
  {
    bs[..i] + mid + bs[j..]
  }

  lemma Multiples(a: nat, b: nat)
    requires a % 8 == 0 && b % 8 == 0
    ensures (a + HEADER + b) % 8 == 0 && (a + b) % 8 == 0
    ensures a >= b ==> (a - b) % 8 == 0
    ensures a >= b + HEADER ==> (a - b - HEADER) % 8 == 0
  {
    var x, y := a / 8, b / 8;
    assert a == 8 * x && b == 8 * y;
    Times8(x + 2 + y);
    Times8(x + y);
    Times8(x - y);
    Times8(x - y - 2);
  }

  lemma Times8(k: int)
    ensures 8 * k % 8 == 0
  {
  }

  lemma ReplaceTiles(bs: seq<Block>, from: nat, to: nat, i: nat, j: nat, mid: seq<Block>)
    requires Tiles(bs, from, to) && i <= j <= |bs| && Tiles(mid, StartOf(bs, to, i), StartOf(bs, to, j))
    ensures Tiles(Replace(bs, i, j, mid), from, to)
  {
    var r := Replace(bs, i, j, mid);
    forall k | 0 <= k < |r| ensures Fits(r, to, k) {
      if k < i { assert Fits(bs, to, k); }
      else if k < i + |mid| { assert Fits(mid, StartOf(bs, to, j), k - i); }
      else { assert Fits(bs, to, k - i - |mid| + j); }
    }
  }

  /** Tiled blocks are in address order and do not overlap. */
  lemma {:induction false} Ordered(bs: seq<Block>, from: nat, to: nat, i: nat, j: nat)
    requires Tiles(bs, from, to) && i < j <= |bs|
    ensures Stop(bs[i]) <= StartOf(bs, to, j)
    decreases j - i
  {
    assert Fits(bs, to, i);
    if i + 1 < j { Ordered(bs, from, to, i + 1, j); }
  }

  lemma {:induction false} InBounds(bs: seq<Block>, from: nat, to: nat, i: nat)
    requires Tiles(bs, from, to) && i < |bs|
    ensures from <= bs[i].addr && Stop(bs[i]) <= to
  {
    if i > 0 { Ordered(bs, from, to, 0, i); }
    Ordered(bs, from, to, i, |bs|);
  }

  // ---------------------------------------------------------------- allocation

  /** The first free block with room for size bytes, or |bs|. */
  function FirstFit(bs: seq<Block>, size: nat): (i: nat)
    ensures i <= |bs|
    ensures i < |bs| ==> bs[i].free && bs[i].size >= size
    ensures forall k :: 0 <= k < i ==> !(bs[k].free && bs[k].size >= size)
  {
    if bs == [] then 0
    else if bs[0].free && bs[0].size >= size then 0
    else
      var i := FirstFit(bs[1..], size);
      assert forall k :: 0 < k < i + 1 ==> bs[k] == bs[1..][k - 1];
      i + 1
  }

  /** split_block: a remainder of more than 32 bytes becomes a free block. */
  function SplitOf(b: Block, size: nat): seq<Block>
    requires size <= b.size
  {
    if b.size - size <= HEADER + 16 then [b]
    else [b.(size := size), Block(b.addr + HEADER + size, b.size - size - HEADER, true)]
  }

  /** A free block of which the first size bytes have been handed out. */
  function Taken(b: Block, size: nat): seq<Block>
    requires size <= b.size
  {
    SplitOf(b.(free := false), size)
  }

  lemma TakenTiles(b: Block, size: nat)
    requires BlockOk(b) && size % 8 == 0 && size <= b.size
    ensures Tiles(Taken(b, size), b.addr, Stop(b))
    ensures var r := Taken(b, size); r[0].addr == b.addr && !r[0].free && r[0].size >= size && (|r| == 2 ==> r[1].free)
  {
    Multiples(b.size, size);
    Multiples(b.addr, size);
  }

  /** kmalloc from block i. */
  function AllocAt(bs: seq<Block>, i: nat, size: nat): seq<Block>
    requires i < |bs| && size <= bs[i].size
  {
    Replace(bs, i, i + 1, Taken(bs[i], size))
  }

  lemma AllocAtInv(bs: seq<Block>, end: nat, i: nat, size: nat)
    requires Inv(bs, end) && i < |bs| && bs[i].free && size % 8 == 0 && size <= bs[i].size
    ensures Inv(AllocAt(bs, i, size), end)
  {
    var mid := Taken(bs[i], size);
    assert Fits(bs, end, i);
    TakenTiles(bs[i], size);
    ReplaceTiles(bs, KHEAP_START, end, i, i + 1, mid);
    var r := AllocAt(bs, i, size);
    forall k | 0 < k < |r| ensures !(r[k - 1].free && r[k].free) {
      if k < i { assert r[k] == bs[k] && r[k - 1] == bs[k - 1]; }
      else if k < i + |mid| { assert r[k] == mid[k - i]; if k > i { assert r[k - 1] == mid[k - i - 1]; } }
      else {
        assert r[k] == bs[k - |mid| + 1];
        if k > i + |mid| { assert r[k - 1] == bs[k - |mid|]; }
      }
    }
  }

  /** kmalloc from freshly mapped pages at the end of the heap. */
  function Grown(bs: seq<Block>, end: nat, bytes: nat): seq<Block>
    requires bytes >= HEADER
  {
    bs + [Block(end, bytes - HEADER, true)]
  }

  /** Growing and at once handing out from the new block keeps the invariant. */
  lemma GrowInv(bs: seq<Block>, end: nat, bytes: nat, size: nat)
    requires Inv(bs, end) && bytes % 8 == 0 && size % 8 == 0 && size + HEADER <= bytes
    ensures var g := Grown(bs, end, bytes);
            Tiles(g, KHEAP_START, end + bytes) && Inv(AllocAt(g, |bs|, size), end + bytes)
  {
    var g := Grown(bs, end, bytes);
    var added := g[|bs|];
    Multiples(end, bytes);
    GrownTiles(bs, end, bytes);
    TakenTiles(added, size);
    ReplaceTiles(g, KHEAP_START, end + bytes, |bs|, |bs| + 1, Taken(added, size));
    assert AllocAt(g, |bs|, size) == bs + Taken(added, size);
    TakenLast(bs, added, size);
  }

  lemma GrownTiles(bs: seq<Block>, end: nat, bytes: nat)
    requires Inv(bs, end) && bytes % 8 == 0 && HEADER <= bytes
    ensures Tiles(Grown(bs, end, bytes), KHEAP_START, end + bytes) && BlockOk(Grown(bs, end, bytes)[|bs|])
  {
    var g, top := Grown(bs, end, bytes), end + bytes;
    Multiples(bytes, 0);
    forall i | 0 <= i < |g| ensures Fits(g, top, i) {
      if i < |bs| { assert Fits(bs, end, i); }
    }
  }

  lemma TakenLast(bs: seq<Block>, b: Block, size: nat)
    requires NoTwoFree(bs) && size <= b.size
    ensures NoTwoFree(bs + Taken(b, size))
  {
  }

  // ---------------------------------------------------------------- freeing

  /** The blocks that kfree merges block i with: at most one on either side. */
  function MergeLo(bs: seq<Block>, i: nat): nat
    requires i < |bs|
  {
    if i > 0 && bs[i - 1].free then i - 1 else i
  }

  function MergeHi(bs: seq<Block>, i: nat): nat
    requires i < |bs|
  {
    if i + 1 < |bs| && bs[i + 1].free then i + 2 else i + 1
  }

  function FreeAt(bs: seq<Block>, i: nat): seq<Block>
    requires i < |bs|
  {
    var lo, hi := MergeLo(bs, i), MergeHi(bs, i);
    var size := Stop(bs[hi - 1]) - bs[lo].addr - HEADER;
    Replace(bs, lo, hi, [Block(bs[lo].addr, if size < 0 then 0 else size, true)])
  }

  /** Block j takes over its successor. */
  function Absorb(bs: seq<Block>, j: nat): seq<Block>
    requires j + 1 < |bs|
  {
    Replace(bs, j, j + 2, [bs[j].(size := bs[j].size + HEADER + bs[j + 1].size)])
  }

  lemma AbsorbTiles(bs: seq<Block>, from: nat, to: nat, j: nat)
    requires Tiles(bs, from, to) && j + 1 < |bs|
    ensures Tiles(Absorb(bs, j), from, to)
  {
    assert Fits(bs, to, j) && Fits(bs, to, j + 1);
    Multiples(bs[j].size, bs[j + 1].size);
    var mid := [bs[j].(size := bs[j].size + HEADER + bs[j + 1].size)];
    assert Fits(mid, StartOf(bs, to, j + 2), 0);
    ReplaceTiles(bs, from, to, j, j + 2, mid);
  }

  /** What kfree does step by step: mark the block, take over the next, be taken over. */
  function FreeSteps(bs: seq<Block>, i: nat): seq<Block>
    requires i < |bs|
  {
    var bs1 := bs[i := bs[i].(free := true)];
    var bs2 := if i + 1 < |bs| && bs[i + 1].free then Absorb(bs1, i) else bs1;
    if i > 0 && bs[i - 1].free then Absorb(bs2, i - 1) else bs2
  }

  lemma AbsorbShape(front: seq<Block>, x: Block, y: Block, back: seq<Block>)
    ensures Absorb(front + [x, y] + back, |front|) == front + [x.(size := x.size + HEADER + y.size)] + back
  {
  }

  lemma MarkTiles(bs: seq<Block>, end: nat, i: nat, flag: bool)
    requires Tiles(bs, KHEAP_START, end) && i < |bs|
    ensures Tiles(bs[i := bs[i].(free := flag)], KHEAP_START, end)
  {
    var bs' := bs[i := bs[i].(free := flag)];
    forall k | 0 <= k < |bs'| ensures Fits(bs', end, k) { assert Fits(bs, end, k); }
  }

  lemma MergeBoth(bs: seq<Block>, i: nat)
    requires 0 < i && i + 1 < |bs| && bs[i - 1].free && bs[i + 1].free
    requires Stop(bs[i - 1]) == bs[i].addr && Stop(bs[i]) == bs[i + 1].addr
    ensures FreeSteps(bs, i) == FreeAt(bs, i)
  {
    var front, p, b, n, back := bs[..i - 1], bs[i - 1], bs[i].(free := true), bs[i + 1], bs[i + 2..];
    var c := b.(size := b.size + HEADER + n.size);
    assert bs[i := b] == (front + [p]) + [b, n] + back;
    AbsorbShape(front + [p], b, n, back);
    assert (front + [p]) + [c] + back == front + [p, c] + back;
    AbsorbShape(front, p, c, back);
    var size := Stop(n) - p.addr - HEADER;
    assert size == p.size + HEADER + c.size;
    assert FreeAt(bs, i) == front + [Block(p.addr, size, true)] + back;
  }

  lemma MergePrev(bs: seq<Block>, i: nat)
    requires 0 < i < |bs| && bs[i - 1].free && !(i + 1 < |bs| && bs[i + 1].free) && Stop(bs[i - 1]) == bs[i].addr
    ensures FreeSteps(bs, i) == FreeAt(bs, i)
  {
    var front, p, b, back := bs[..i - 1], bs[i - 1], bs[i].(free := true), bs[i + 1..];
    assert bs[i := b] == front + [p, b] + back;
    AbsorbShape(front, p, b, back);
    var size := Stop(bs[i]) - p.addr - HEADER;
    assert size == p.size + HEADER + b.size;
    assert FreeAt(bs, i) == front + [Block(p.addr, size, true)] + back;
  }

  lemma MergeNext(bs: seq<Block>, i: nat)
    requires i + 1 < |bs| && bs[i + 1].free && !(i > 0 && bs[i - 1].free) && Stop(bs[i]) == bs[i + 1].addr
    ensures FreeSteps(bs, i) == FreeAt(bs, i)
  {
    var front, b, n, back := bs[..i], bs[i].(free := true), bs[i + 1], bs[i + 2..];
    assert bs[i := b] == front + [b, n] + back;
    AbsorbShape(front, b, n, back);
    var size := Stop(n) - b.addr - HEADER;
    assert size == b.size + HEADER + n.size;
    assert FreeAt(bs, i) == front + [Block(b.addr, size, true)] + back;
  }

  /** The steps of kfree amount to one merge of up to three blocks. */
  lemma FreeStepsMerge(bs: seq<Block>, end: nat, i: nat)
    requires Tiles(bs, KHEAP_START, end) && i < |bs|
    ensures FreeSteps(bs, i) == FreeAt(bs, i)
  {
    var prev, next := i > 0 && bs[i - 1].free, i + 1 < |bs| && bs[i + 1].free;
    assert Fits(bs, end, i);
    if i > 0 { assert Fits(bs, end, i - 1); }
    if prev && next { MergeBoth(bs, i); }
    else if prev { MergePrev(bs, i); }
    else if next { MergeNext(bs, i); }
  }

  lemma FreeStepsTile(bs: seq<Block>, end: nat, i: nat)
    requires Tiles(bs, KHEAP_START, end) && i < |bs|
    ensures Tiles(FreeSteps(bs, i), KHEAP_START, end)
  {
    MarkTiles(bs, end, i, true);
    var bs1 := bs[i := bs[i].(free := true)];
    if i + 1 < |bs| && bs[i + 1].free { AbsorbTiles(bs1, KHEAP_START, end, i); }
    var bs2 := if i + 1 < |bs| && bs[i + 1].free then Absorb(bs1, i) else bs1;
    if i > 0 && bs[i - 1].free { AbsorbTiles(bs2, KHEAP_START, end, i - 1); }
  }

  lemma FreeAtInv(bs: seq<Block>, end: nat, i: nat)
    requires Inv(bs, end) && i < |bs| && !bs[i].free
    ensures Inv(FreeAt(bs, i), end)
  {
    FreeStepsMerge(bs, end, i);
    FreeStepsTile(bs, end, i);
    var r, lo, hi := FreeAt(bs, i), MergeLo(bs, i), MergeHi(bs, i);
    forall k | 0 < k < |r| ensures !(r[k - 1].free && r[k].free) {
      if k < lo { assert r[k] == bs[k] && r[k - 1] == bs[k - 1]; }
      else if k == lo { assert r[k - 1] == bs[lo - 1]; }
      else {
        assert r[k] == bs[k - lo - 1 + hi];
        if k > lo + 1 { assert r[k - 1] == bs[k - lo - 2 + hi]; }
      }
    }
  }

  // ---------------------------------------------------------------- live allocations

  /** Freeing what was just handed out of a free block restores the heap, split or not. */
  lemma FreeUndoesAlloc(bs: seq<Block>, end: nat, i: nat, size: nat)
    requires Inv(bs, end) && i < |bs| && bs[i].free && size % 8 == 0 && size <= bs[i].size
    ensures i < |AllocAt(bs, i, size)| && FreeAt(AllocAt(bs, i, size), i) == bs
  {
    var r, mid := AllocAt(bs, i, size), Taken(bs[i], size);
    assert Fits(bs, end, i);
    if i > 0 { assert r[i - 1] == bs[i - 1] && !bs[i - 1].free; }
    if i + 1 < |bs| { assert r[i + |mid|] == bs[i + 1] && !bs[i + 1].free; }
    assert MergeLo(r, i) == i && MergeHi(r, i) == i + |mid|;
    assert r[..i] == bs[..i] && r[i + |mid|..] == bs[i + 1..];
    assert bs == bs[..i] + [bs[i]] + bs[i + 1..];
  }

  /** Every block of bs in use, except the one at address gone, is still there as it was. */
  predicate LiveKept(bs: seq<Block>, bs': seq<Block>, gone: int) {
    forall k :: 0 <= k < |bs| && !bs[k].free && bs[k].addr != gone ==> bs[k] in bs'
  }

  lemma AllocKeepsLive(bs: seq<Block>, i: nat, size: nat)
    requires i < |bs| && bs[i].free && size <= bs[i].size
    ensures LiveKept(bs, AllocAt(bs, i, size), -1)
  {
    var r, mid := AllocAt(bs, i, size), Taken(bs[i], size);
    forall k | 0 <= k < |bs| && !bs[k].free ensures bs[k] in r {
      if k < i { assert r[k] == bs[k]; } else { assert r[k - 1 + |mid|] == bs[k]; }
    }
  }

  lemma FreeKeepsLive(bs: seq<Block>, i: nat)
    requires i < |bs| && !bs[i].free
    ensures LiveKept(bs, FreeAt(bs, i), bs[i].addr)
  {
    var r, lo, hi := FreeAt(bs, i), MergeLo(bs, i), MergeHi(bs, i);
    forall k | 0 <= k < |bs| && !bs[k].free && bs[k].addr != bs[i].addr ensures bs[k] in r {
      if k < lo { assert r[k] == bs[k]; } else if k >= hi { assert r[k - hi + lo + 1] == bs[k]; }
    }
  }

  /** Live allocations never overlap, and lie inside the heap. */
  lemma LiveDisjoint(bs: seq<Block>, end: nat, i: nat, j: nat)
    requires Inv(bs, end) && i < |bs| && j < |bs| && i != j
    ensures Stop(bs[i]) <= bs[j].addr || Stop(bs[j]) <= bs[i].addr
    ensures KHEAP_START <= bs[i].addr && Stop(bs[i]) <= end
  {
    if i < j { Ordered(bs, KHEAP_START, end, i, j); } else { Ordered(bs, KHEAP_START, end, j, i); }
    InBounds(bs, KHEAP_START, end, i);
  }

  // ---------------------------------------------------------------- sizes in 32 bits

  /** (size + 7) & ~7 */
  function Round8(size: nat): nat { (size + 7) % TWO32 / 8 * 8 }

  /** The number of pages that expand_heap maps for a block of min bytes. */
  function PagesFor(min: nat): nat { ((min + HEADER) % TWO32 + PAGE - 1) % TWO32 / PAGE }

  /** Counting the pages does not wrap around. Rounding may: then 0 bytes are handed out. */
  predicate NoWrap(size: nat) { size < TWO32 && Round8(size) + HEADER + PAGE - 1 < TWO32 }

  lemma Round8Value(size: nat)
    ensures Round8(size) % 8 == 0
    ensures size + 7 < TWO32 ==> size <= Round8(size) <= size + 7
    ensures size < TWO32 <= size + 7 ==> Round8(size) == 0
  {
    if size < TWO32 <= size + 7 { assert (size + 7) % TWO32 == size + 7 - TWO32; }
  }

  /** Rounding gives room for the request exactly when the sum does not wrap. */
  lemma Round8Fits(size: nat)
    requires size < TWO32
    ensures Round8(size) >= size <==> size + 7 < TWO32
  {
    Round8Value(size);
  }

  lemma PagesValue(min: nat)
    requires min + HEADER + PAGE - 1 < TWO32
    ensures min + HEADER <= PagesFor(min) * PAGE < min + HEADER + PAGE && PagesFor(min) * PAGE % 8 == 0
  {
    var t := min + HEADER + PAGE - 1;
    assert (min + HEADER) % TWO32 == min + HEADER && t % TWO32 == t;
    PageMultiple(t, t / PAGE);
  }

  lemma PageMultiple(t: nat, p: nat)
    requires p == t / PAGE
    ensures p * PAGE <= t < p * PAGE + PAGE && p * PAGE % 8 == 0
  {
    PageAligned(p);
  }

  lemma PageAligned(p: nat)
    ensures p * PAGE % 8 == 0
  {
    assert p * PAGE == 8 * (p * 512);
  }

  /** The pages hold header and block exactly when the sum does not wrap. */
  lemma PagesFit(min: nat)
    requires min < TWO32
    ensures PagesFor(min) * PAGE >= min + HEADER <==> min + HEADER + PAGE - 1 < TWO32
  {
    if min + HEADER + PAGE - 1 < TWO32 { PagesValue(min); }
    else if min + HEADER < TWO32 {
      assert ((min + HEADER) % TWO32 + PAGE - 1) % TWO32 == min + HEADER + PAGE - 1 - TWO32;
    }
    else { assert (min + HEADER) % TWO32 == min + HEADER - TWO32; }
  }

  /** Where split_block puts a header when a block of n bytes is cut from pages new ones behind end, with
      all sums in 32 bits: nowhere if there is no remainder to speak of. */
  predicate HeadersFit(end: nat, n: nat, pages: nat) {
    var size := (pages * PAGE - HEADER) % TWO32;
    var remaining, next := (size - n) % TWO32, (end + HEADER + n) % TWO32;
    && HEADER <= pages * PAGE
    && (remaining > HEADER + 16 ==> end + HEADER <= next && next + HEADER <= end + pages * PAGE)
  }

  /** Growing writes its headers into the new pages, one behind the other, exactly when counting the pages
      does not wrap. */
  lemma GrowthExact(end: nat, n: nat)
    requires n < TWO32 && n % 8 == 0 && end + PagesFor(n) * PAGE <= TWO32
    ensures HeadersFit(end, n, PagesFor(n)) <==> n + HEADER + PAGE - 1 < TWO32
  {
    if n + HEADER + PAGE - 1 < TWO32 {
      PagesValue(n);
      RemainderIs(PagesFor(n) * PAGE - HEADER, n);
    } else if n + HEADER < TWO32 {
      assert ((n + HEADER) % TWO32 + PAGE - 1) % TWO32 == n + HEADER + PAGE - 1 - TWO32;
    } else {
      assert (n + HEADER) % TWO32 == n + HEADER - TWO32;
      assert n == TWO32 - 8 || n == TWO32 - 16;
      if n == TWO32 - 8 { HeaderInHeader(end); }
    }
  }

  lemma RemainderIs(size: nat, n: nat)
    requires n <= size < TWO32
    ensures size % TWO32 == size && (size - n) % TWO32 == size - n
  {
  }

  lemma HeaderInHeader(end: nat)
    requires end + PAGE <= TWO32
    ensures PagesFor(TWO32 - 8) == 1 && !HeadersFit(end, TWO32 - 8, 1)
  {
    var n := TWO32 - 8;
    assert (PAGE - HEADER) % TWO32 == PAGE - HEADER;
    assert (PAGE - HEADER - n) % TWO32 == PAGE - HEADER + 8;
    assert (end + HEADER + n) % TWO32 == end + HEADER - 8;
  }

  // ---------------------------------------------------------------- one operation

  datatype HeapOp = Malloc(size: nat) | Free(ptr: nat)

  datatype HeapState = HeapState(blocks: seq<Block>, end: nat)

  /** An allocation of n bytes: from the first block that fits, or from bytes new ones at the end of
      the heap, or not at all. Whether the heap can grow depends on the pages left. */
  ghost predicate Allocs(s: HeapState, n: nat, bytes: nat, ptr: nat, s': HeapState) {
    var i := FirstFit(s.blocks, n);
    if i < |s.blocks| then
      s' == HeapState(AllocAt(s.blocks, i, n), s.end) && ptr == s.blocks[i].addr + HEADER
    else
      || (s' == s && ptr == 0)
      || (&& bytes >= HEADER + n
          && s' == HeapState(AllocAt(Grown(s.blocks, s.end, bytes), |s.blocks|, n), s.end + bytes)
          && ptr == s.end + HEADER)
  }

  /** The size of the block that an allocation of n bytes hands out, from a heap that may grow by bytes. */
  function HandsOut(bs: seq<Block>, n: nat, bytes: nat): nat {
    var i := FirstFit(bs, n);
    if i < |bs| then Taken(bs[i], n)[0].size
    else if bytes >= HEADER + n then Taken(Block(0, bytes - HEADER, true), n)[0].size
    else 0
  }

  lemma HandsOutRoom(bs: seq<Block>, n: nat, bytes: nat)
    requires bytes >= HEADER + n
    ensures HandsOut(bs, n, bytes) >= n
  {
  }

  /** What a request of 0 bytes gets: a small first free block as it is, or nothing. */
  lemma HandsOutNothing(bs: seq<Block>)
    ensures var i := FirstFit(bs, 0);
            HandsOut(bs, 0, PAGE) == if i < |bs| && bs[i].size <= HEADER + 16 then bs[i].size else 0
  {
  }

  /** The copy of krealloc from a block of count bytes stays inside the block handed out for size bytes
      exactly when rounding does not wrap, or there is nothing to copy, or the first free block is handed out
      whole and is large enough. */
  lemma CopyExact(bs: seq<Block>, count: nat, size: nat)
    requires 0 < size && count < size && NoWrap(size)
    ensures var n := Round8(size);
            var i := FirstFit(bs, 0);
            count <= HandsOut(bs, n, PagesFor(n) * PAGE) <==>
              size + 7 < TWO32 || count == 0 || (i < |bs| && count <= bs[i].size <= HEADER + 16)
  {
    Round8Value(size);
    if size + 7 < TWO32 {
      PagesValue(Round8(size));
      HandsOutRoom(bs, Round8(size), PagesFor(Round8(size)) * PAGE);
    } else {
      assert PagesFor(0) == 1;
      HandsOutNothing(bs);
    }
  }

  /** kmalloc and kfree, as the methods of the heap promise them. */
  ghost predicate HeapStep(s: HeapState, op: HeapOp, ptr: nat, s': HeapState) {
    match op
    case Malloc(size) =>
      size < TWO32 &&
      if size == 0 then s' == s && ptr == 0 else Allocs(s, Round8(size), PagesFor(Round8(size)) * PAGE, ptr, s')
    case Free(p) =>
      if p == 0 then s' == s else
        exists i: nat :: i < |s.blocks| && !s.blocks[i].free && s.blocks[i].addr + HEADER == p
                         && s' == HeapState(FreeAt(s.blocks, i), s.end)
  }

  lemma AllocsInv(s: HeapState, n: nat, bytes: nat, ptr: nat, s': HeapState)
    requires Inv(s.blocks, s.end) && Allocs(s, n, bytes, ptr, s') && n % 8 == 0 && bytes % 8 == 0
    ensures Inv(s'.blocks, s'.end) && LiveKept(s.blocks, s'.blocks, -1)
  {
    var i := FirstFit(s.blocks, n);
    if i < |s.blocks| {
      AllocAtInv(s.blocks, s.end, i, n);
      AllocKeepsLive(s.blocks, i, n);
    } else if s' != s {
      GrowInv(s.blocks, s.end, bytes, n);
      GrowKeepsLive(s.blocks, s.end, bytes, n);
    }
  }

  lemma MallocInv(s: HeapState, size: nat, ptr: nat, s': HeapState)
    requires Inv(s.blocks, s.end) && HeapStep(s, Malloc(size), ptr, s')
    ensures Inv(s'.blocks, s'.end) && LiveKept(s.blocks, s'.blocks, -1)
  {
    if size > 0 {
      Round8Value(size);
      AllocsInv(s, Round8(size), PagesFor(Round8(size)) * PAGE, ptr, s');
    }
  }

  lemma FreeInv(s: HeapState, p: nat, ptr: nat, s': HeapState)
    requires Inv(s.blocks, s.end) && HeapStep(s, Free(p), ptr, s')
    ensures Inv(s'.blocks, s'.end) && LiveKept(s.blocks, s'.blocks, p - HEADER)
  {
    if p != 0 {
      var i: nat :| i < |s.blocks| && !s.blocks[i].free && s.blocks[i].addr + HEADER == p
                    && s' == HeapState(FreeAt(s.blocks, i), s.end);
      FreeAtInv(s.blocks, s.end, i);
      FreeKeepsLive(s.blocks, i);
    }
  }

  lemma GrowKeepsLive(bs: seq<Block>, end: nat, bytes: nat, n: nat)
    requires HEADER + n <= bytes
    ensures LiveKept(bs, AllocAt(Grown(bs, end, bytes), |bs|, n), -1)
  {
    var g := Grown(bs, end, bytes);
    AllocKeepsLive(g, |bs|, n);
    assert forall k :: 0 <= k < |bs| ==> bs[k] == g[k];
  }
}
