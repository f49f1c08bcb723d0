/** The kernel heap: kmalloc, kfree and krealloc on memory (kernel/memory/kmalloc.c). */
module Heap {
  import opened KernelBase
  import opened HeapSpec
  import opened HeapMemory
  import HP = HeapPages
  import opened HeapRuns
  import opened HeapSystem
  import P = PageBitmap
  import PG = Paging
  import PR = PagingRuns
  import V = Vmm

  class Heap {
    const mem: array<int>
    const vmm: V.Vmm
    ghost const dir: nat
    var head: nat
    var end: nat
    ghost var top: nat
    ghost var blocks: seq<Block>

    ghost function I(): Image
      reads this, mem
    {
      Image(blocks, end, mem[..])
    }

    ghost function Y(): System
      requires vmm.pmm.Valid()
      reads this, mem, vmm, vmm.mem, vmm.pmm.bitmap
    {
      System(I(), top, vmm.S())
    }

    /** The headers in memory form a list of blocks that tile the heap. */
    ghost predicate Linked()
      reads this, mem
    {
      && mem.Length == CELLS && end <= KHEAP_START + CELLS && end % 8 == 0
      && Tiles(blocks, KHEAP_START, end) && Rep(mem[..], blocks)
      && head == if blocks == [] then 0 else KHEAP_START
    }

    /** The heap ends at the virtual page top, and every page of it is backed in one fixed directory by a
        page of its own. */
    ghost predicate Budget()
      reads this`end, this`top, vmm, vmm.mem, vmm.pmm.bitmap
    {
      && vmm.Valid() && vmm.cr3 / PAGE == dir && end == top * PAGE && FIRST_PAGE <= top <= PG.VPAGES
      && HP.Backed(vmm.layout, vmm.S(), dir, FIRST_PAGE, top)
    }

    ghost predicate Valid()
      reads this, mem, vmm, vmm.mem, vmm.pmm.bitmap
    {
      Linked() && NoTwoFree(blocks) && Budget()
    }

    /** The heap never reaches past the size of the managed memory: its pages and the free pages together
        are no more than there are pages. */
    lemma EndBounded()
      requires Budget()
      ensures top - FIRST_PAGE + |vmm.pmm.Free()| <= P.PAGES
      ensures end <= KHEAP_START + (P.MEMORY_END - P.MEMORY_START) < TWO32
    {
      HP.BackedCounts(vmm.layout, vmm.S(), dir, FIRST_PAGE, top);
    }

    /** Between two calls of the heap, others may do whatever spares its pages and their frames. */
    twostate lemma OthersKeep(op: PR.VmOp)
      requires old(Valid()) && end == old(end) && top == old(top) && head == old(head) && blocks == old(blocks)
      requires mem[..] == old(mem[..]) && vmm.Valid() && vmm.cr3 == old(vmm.cr3)
      requires PR.Legal(vmm.layout, old(vmm.S()), op)
      requires HP.Spares(vmm.layout, old(vmm.S()), op, dir, FIRST_PAGE, top)
      requires vmm.S() == PR.Next(vmm.layout, old(vmm.S()), op)
      ensures Valid()
    {
      HP.BackedNext(vmm.layout, old(vmm.S()), op, dir, FIRST_PAGE, top);
    }

    /** kmalloc_init */
    constructor (vmm: V.Vmm)
      requires vmm.Valid()
      ensures Valid() && blocks == [] && end == KHEAP_START && this.vmm == vmm && fresh(mem)
    {
      mem := new int[CELLS];
      this.vmm, dir := vmm, vmm.cr3 / PAGE;
      head := 0;
      end := KHEAP_START;
      top := FIRST_PAGE;
      blocks := [];
    }

    /** One store to memory. */
    method Store(a: nat, v: int)
      requires mem.Length == CELLS && HeapMemory.Mapped(a)
      modifies mem
      ensures mem[..] == Set(old(mem[..]), a, v)
    {
      mem[a - KHEAP_START] := v;
    }

    /** block->field */
    function Field(block: nat, field: nat): int
      requires mem.Length == CELLS && HeapMemory.Mapped(block + field)
      reads mem
    {
      mem[block + field - KHEAP_START]
    }

    lemma FieldsOf(i: nat)
      requires Linked() && i < |blocks|
      ensures HeaderAt(mem[..], blocks, i) && Fits(blocks, end, i)
      ensures var b := blocks[i];
              && InRange(b) && Field(b.addr, SIZE) == b.size && Field(b.addr, FREE) == Flag(b.free)
              && Field(b.addr, NEXT) == NextOf(blocks, i) && Field(b.addr, PREV) == PrevOf(blocks, i)
    {
      assert HeaderAt(mem[..], blocks, i);
      assert Fits(blocks, end, i);
    }

    /** split_block, for the block with index i. */
    method SplitBlock(block: nat, size: nat, ghost i: nat)
      requires Linked() && i < |blocks| && blocks[i].addr == block && size % 8 == 0 && size <= blocks[i].size
      modifies this`blocks, mem
      ensures Linked() && blocks == Replace(old(blocks), i, i + 1, SplitOf(old(blocks)[i], size))
      ensures forall k :: 0 <= k < |old(blocks)| && k != i ==> SameData(old(mem[..]), mem[..], old(blocks)[k])
    {
      FieldsOf(i);
      if i + 1 < |blocks| { FieldsOf(i + 1); }
      DataUnchanged(mem[..], blocks);
      var remaining := Field(block, SIZE) - size;
      if remaining <= HEADER + 16 {
        return;
      }
      ghost var b := blocks[i];
      SplitTiles(blocks, end, i, size);
      WriteSplit(block, size, remaining, b);
      SplitRep(old(mem[..]), mem[..], blocks, end, i, size);
      blocks := Replace(blocks, i, i + 1, SplitOf(b, size));
    }

    /** The four fields of the header of a new free block at a. */
    method WriteHeader(a: nat, size: nat, next: nat, prev: nat)
      requires mem.Length == CELLS && KHEAP_START <= a && a + HEADER <= KHEAP_START + CELLS
      modifies mem
      ensures Get(mem[..], a + SIZE) == size && Get(mem[..], a + FREE) == 1
      ensures Get(mem[..], a + NEXT) == next && Get(mem[..], a + PREV) == prev
      ensures forall x: nat :: HeapMemory.Mapped(x) && x !in {a + SIZE, a + FREE, a + NEXT, a + PREV} ==>
                Get(mem[..], x) == Get(old(mem[..]), x)
    {
      Store(a + SIZE, size);
      Store(a + FREE, 1);
      Store(a + NEXT, next);
      Store(a + PREV, prev);
    }

    /** The stores of split_block. */
    method WriteSplit(block: nat, size: nat, remaining: nat, ghost b: Block)
      requires mem.Length == CELLS && InRange(b) && b.addr == block && remaining == b.size - size > HEADER + 16
      requires size % 8 == 0 && Field(block, NEXT) >= 0
      requires Field(block, NEXT) != 0 ==> Stop(b) <= Field(block, NEXT) && HeapMemory.Mapped(Field(block, NEXT) + PREV)
      modifies mem
      ensures SplitStores(old(mem[..]), mem[..], b, size, old(Field(block, NEXT)))
    {
      var n := block + HEADER + size;
      var next := Field(block, NEXT);
      WriteHeader(n, remaining - HEADER, next, block);
      LinkSplit(block, size, n, next);
    }

    /** The next block and the split block get to know the new block n. */
    method LinkSplit(block: nat, size: nat, n: nat, next: nat)
      requires mem.Length == CELLS && KHEAP_START <= block && block + HEADER <= KHEAP_START + CELLS
      requires next != 0 ==> block + HEADER <= next && HeapMemory.Mapped(next + PREV)
      modifies mem
      ensures next != 0 ==> Get(mem[..], next + PREV) == n
      ensures Get(mem[..], block + NEXT) == n && Get(mem[..], block + SIZE) == size
      ensures forall x: nat :: (
                && HeapMemory.Mapped(x) && x !in {block + SIZE, block + NEXT}
                && (next != 0 ==> x != next + PREV)) ==>
                  Get(mem[..], x) == Get(old(mem[..]), x)
    {
      if next != 0 {
        Store(next + PREV, n);
      }
      Store(block + NEXT, n);
      Store(block + SIZE, size);
    }

    /** block->free = flag */
    method MarkBlock(block: nat, flag: bool, ghost i: nat)
      requires Linked() && i < |blocks| && blocks[i].addr == block
      modifies this`blocks, mem
      ensures Linked() && blocks == old(blocks)[i := old(blocks)[i].(free := flag)]
      ensures forall k :: 0 <= k < |old(blocks)| ==> SameData(old(mem[..]), mem[..], old(blocks)[k])
    {
      FieldsOf(i);
      FlagRep(mem[..], blocks, end, i, flag);
      MarkTiles(blocks, end, i, flag);
      Store(block + FREE, if flag then 1 else 0);
      blocks := blocks[i := blocks[i].(free := flag)];
    }

    /** The merging in kfree: block takes over the block behind it. */
    method TakeOverNext(block: nat, ghost j: nat)
      requires Linked() && j + 1 < |blocks| && blocks[j].addr == block
      modifies this`blocks, mem
      ensures Linked() && blocks == Absorb(old(blocks), j)
      ensures forall k :: 0 <= k < |old(blocks)| ==> SameData(old(mem[..]), mem[..], old(blocks)[k])
    {
      FieldsOf(j);
      FieldsOf(j + 1);
      if j + 2 < |blocks| { FieldsOf(j + 2); }
      AbsorbTiles(blocks, KHEAP_START, end, j);
      WriteAbsorb(block, blocks[j], blocks[j + 1]);
      AbsorbRep(old(mem[..]), mem[..], blocks, end, j);
      blocks := Absorb(blocks, j);
    }

    method WriteAbsorb(block: nat, ghost a: Block, ghost c: Block)
      requires mem.Length == CELLS && InRange(a) && InRange(c) && a.addr == block && Stop(a) == c.addr
      requires Field(block, NEXT) == c.addr && Field(block, SIZE) == a.size && Field(c.addr, SIZE) == c.size
      requires Field(c.addr, NEXT) >= 0
      requires Field(c.addr, NEXT) != 0 ==>
                 Stop(c) <= Field(c.addr, NEXT) && HeapMemory.Mapped(Field(c.addr, NEXT) + PREV)
      modifies mem
      ensures AbsorbStores(old(mem[..]), mem[..], a, c, old(Field(c.addr, NEXT)))
    {
      var next := Field(block, NEXT);
      var behind := Field(next, NEXT);
      Store(block + SIZE, Field(block, SIZE) + HEADER + Field(next, SIZE));
      Store(block + NEXT, behind);
      if behind != 0 {
        Store(behind + PREV, block);
      }
    }

    /** expand_heap: map pages behind the heap and write the header of one free block over them. A
        failure half way costs the pages mapped so far, and leaves at most one, but changes nothing else. */
    method ExpandHeap(min: nat) returns (block: nat)
      requires Linked() && Budget() && min % 8 == 0 && (CannotGrow(min) || min + HEADER + PAGE - 1 < TWO32)
      modifies this`end, this`top, mem, vmm.mem, vmm.pmm.bitmap
      ensures Budget() && block in {0, old(end)}
      ensures block == 0 <==> old(CannotGrow(min))
      ensures block == 0 ==> mem[..] == old(mem[..]) && end == old(end) && |vmm.pmm.Free()| <= 1
      ensures HP.Grew(vmm.layout, old(vmm.S()), dir, old(top), PagesFor(min), vmm.S(), top)
      ensures old(HP.Costs(vmm.S(), dir, top, PagesFor(min))) == |old(vmm.pmm.Free())| - |vmm.pmm.Free()|
      ensures block != 0 ==>
                && end == old(end) + PagesFor(min) * PAGE && end <= KHEAP_START + CELLS
                && Fields(mem[..], Block(old(end), PagesFor(min) * PAGE - HEADER, true), 0, 0)
                && forall x: nat :: HeapMemory.Mapped(x) && x < old(end) ==> Get(mem[..], x) == Get(old(mem[..]), x)
    {
      block := end;
      var ok := MoveEnd(PagesFor(min));
      if !ok {
        return 0;
      }
      PagesValue(min);
      WriteNewBlock(block, PagesFor(min) * PAGE);
    }

    /** The part of expand_heap that maps pages and moves heap_end. */
    method MoveEnd(pages: nat) returns (ok: bool)
      requires Budget()
      modifies this`end, this`top, vmm.mem, vmm.pmm.bitmap
      ensures Budget()
      ensures ok <==> !old(HP.Short(vmm.S(), dir, top, pages))
      ensures end == if ok then old(end) + pages * PAGE else old(end)
      ensures end <= KHEAP_START + CELLS && (!ok ==> |vmm.pmm.Free()| <= 1)
      ensures HP.Grew(vmm.layout, old(vmm.S()), dir, old(top), pages, vmm.S(), top)
      ensures old(HP.Costs(vmm.S(), dir, top, pages)) == |old(vmm.pmm.Free())| - |vmm.pmm.Free()|
    {
      EndBounded();
      ok := MapPages(pages);
      if ok {
        end := end + pages * PAGE;
        top := top + pages;
      }
    }

    /** The part of expand_heap that writes the header of the new block. */
    method WriteNewBlock(block: nat, bytes: nat)
      requires mem.Length == CELLS && KHEAP_START <= block && HEADER <= bytes && block + bytes <= KHEAP_START + CELLS
      modifies mem
      ensures Fields(mem[..], Block(block, bytes - HEADER, true), 0, 0)
      ensures forall x: nat :: HeapMemory.Mapped(x) && x < block ==> Get(mem[..], x) == Get(old(mem[..]), x)
    {
      WriteHeader(block, bytes - HEADER, 0, 0);
    }

    /** The pages that expand_heap would map, and the page tables missing for them, are more than the
        free pages. */
    ghost predicate CannotGrow(min: nat)
      requires Budget()
      reads this`top, this`end, vmm, vmm.mem, vmm.pmm.bitmap
    {
      HP.Short(vmm.S(), dir, top, PagesFor(min))
    }

    /** The loop of expand_heap, and what it costs. If it fails it leaves at most one free page. */
    method MapPages(pages: nat) returns (ok: bool)
      requires Budget()
      modifies vmm.mem, vmm.pmm.bitmap
      ensures Budget()
      ensures ok <==> !old(HP.Short(vmm.S(), dir, top, pages))
      ensures HP.Grew(vmm.layout, old(vmm.S()), dir, top, pages, vmm.S(),
                      if ok then top + pages else top)
      ensures ok ==> && top + pages <= PG.VPAGES && top + pages - FIRST_PAGE <= P.PAGES
                     && HP.Backed(vmm.layout, vmm.S(), dir, FIRST_PAGE, top + pages)
      ensures old(HP.Costs(vmm.S(), dir, top, pages)) == |old(vmm.pmm.Free())| - |vmm.pmm.Free()|
      ensures !ok ==> |vmm.pmm.Free()| <= 1
      ensures |vmm.pmm.Free()| == |old(vmm.pmm.Free())| <==>
                pages == 0 || old(HP.Short(vmm.S(), dir, top, 1))
    {
      ghost var s0, v := vmm.S(), top;
      EndBounded();
      ghost var tr;
      ok, tr := MapLoop(pages);
      ghost var v' := if ok then v + pages else v;
      HP.GrewResult(vmm.layout, tr, s0, dir, FIRST_PAGE, v, pages, vmm.S(), v');
    }

    method MapLoop(pages: nat) returns (ok: bool, ghost tr: seq<PR.Vm>)
      requires vmm.Valid() && vmm.cr3 / PAGE == dir && end == top * PAGE && top + |vmm.S().free| < PG.VPAGES
      modifies vmm.mem, vmm.pmm.bitmap
      ensures vmm.Valid() && HP.Turns(tr, dir, top) && tr[0] == old(vmm.S()) && tr[|tr| - 1] == vmm.S()
      ensures |tr| - 1 <= pages && (ok <==> |tr| - 1 == pages)
      ensures !ok ==> !HP.HasRoom(vmm.S(), dir, top + |tr| - 1)
    {
      tr := [vmm.S()];
      for i := 0 to pages
        invariant vmm.Valid() && |tr| == i + 1 && HP.Turns(tr, dir, top) && tr[0] == old(vmm.S()) && tr[i] == vmm.S()
        invariant top + i + |vmm.S().free| < PG.VPAGES
      {
        ghost var w := top + i;
        PageOfAddress(w);
        ok := MapOne(end + i * PAGE, w);
        if !ok {
          return false, tr;
        }
        HP.TurnsOneMore(tr, dir, top, w, vmm.S());
        tr := tr + [vmm.S()];
      }
      return true, tr;
    }

    /** One turn of the loop of expand_heap. */
    method MapOne(vaddr: nat, ghost w: nat) returns (ok: bool)
      requires vmm.Valid() && vmm.cr3 / PAGE == dir && vaddr < TWO32 && vaddr / PAGE == w
      modifies vmm.mem, vmm.pmm.bitmap
      ensures vmm.Valid()
      ensures ok ==> HP.Turned(old(vmm.S()), dir, w, vmm.S()) && |vmm.S().free| < |old(vmm.S()).free|
      ensures !ok ==> vmm.S() == old(vmm.S()) && !HP.HasRoom(vmm.S(), dir, w)
    {
      ok := vmm.AllocMapPage(vaddr, HP.HEAP_FLAGS);
    }

    /** How many pages kmalloc asks for. */
    ghost function Wanted(size: nat): nat
      reads this`blocks
    {
      if size == 0 || FirstFit(blocks, Round8(size)) < |blocks| then 0 else PagesFor(Round8(size))
    }

    /** kmalloc makes the heap longer. */
    ghost predicate WillGrow(size: nat)
      requires Budget()
      reads this, vmm, vmm.mem, vmm.pmm.bitmap
    {
      size != 0 && FirstFit(blocks, Round8(size)) == |blocks| && !CannotGrow(Round8(size))
    }

    /** kmalloc: first fit, or the start of freshly mapped pages. Growing with a page count that wraps around
        is left out: GrowthExact says what it does. */
    method Kmalloc(size: nat) returns (ptr: nat)
      requires Valid() && size < TWO32 && (WillGrow(size) ==> NoWrap(size))
      modifies this, mem, vmm.mem, vmm.pmm.bitmap
      ensures Valid()
      ensures HP.Grew(vmm.layout, old(vmm.S()), dir, old(top), old(Wanted(size)), vmm.S(), top)
      ensures Acts(vmm.layout, dir, old(Y()), HeapCall(MallocOp(size), ptr), Y())
      ensures ptr == 0 && size != 0 ==> |vmm.pmm.Free()| <= 1
      ensures Step(old(I()), MallocOp(size), ptr, I())
      ensures ptr == 0 <==> size == 0 || old(FirstFit(blocks, Round8(size)) == |blocks| && CannotGrow(Round8(size)))
      ensures HeapStep(HeapState(old(blocks), old(end)), Malloc(size), ptr, HeapState(blocks, end))
      ensures forall k :: 0 <= k < |old(blocks)| && !old(blocks)[k].free ==>
                SameData(old(mem[..]), mem[..], old(blocks)[k])
    {
      ptr := Allocate(size);
      HeapActs(vmm.layout, dir, old(Y()), MallocOp(size), ptr, Y(), old(Wanted(size)));
    }

    method Allocate(size: nat) returns (ptr: nat)
      requires Valid() && size < TWO32 && (WillGrow(size) ==> NoWrap(size))
      modifies this, mem, vmm.mem, vmm.pmm.bitmap
      ensures Valid() && Step(old(I()), MallocOp(size), ptr, I())
      ensures HP.Grew(vmm.layout, old(vmm.S()), dir, old(top), old(Wanted(size)), vmm.S(), top)
      ensures ptr == 0 && size != 0 ==> |vmm.pmm.Free()| <= 1
      ensures ptr == 0 <==> size == 0 || old(FirstFit(blocks, Round8(size)) == |blocks| && CannotGrow(Round8(size)))
    {
      DataUnchanged(mem[..], blocks);
      HP.GrewNothing(vmm.layout, vmm.S(), dir, top);
      if size == 0 {
        return 0;
      }
      Round8Value(size);
      var n := (size + 7) % TWO32 / 8 * 8;
      ghost var i: nat;
      var block, last;
      block, last, i := FindBlock(n);
      if block != 0 {
        AllocAtInv(blocks, end, i, n);
        HandOut(block, n, i);
        return block + HEADER;
      }
      ptr := Grow(last, n);
    }

    /** The search of kmalloc: the first free block with room for n bytes, and the block before it. */
    method FindBlock(n: nat) returns (block: nat, last: nat, ghost i: nat)
      requires Linked()
      ensures i == FirstFit(blocks, n)
      ensures block == StartOf(blocks, 0, FirstFit(blocks, n)) && last == PrevOf(blocks, FirstFit(blocks, n))
      ensures block == 0 <==> FirstFit(blocks, n) == |blocks|
    {
      block, last, i := head, 0, 0;
      while block != 0
        invariant i <= |blocks| && block == StartOf(blocks, 0, i) && last == PrevOf(blocks, i)
        invariant forall k :: 0 <= k < i ==> !(blocks[k].free && blocks[k].size >= n)
        decreases |blocks| - i
      {
        FieldsOf(i);
        if Field(block, FREE) != 0 && Field(block, SIZE) >= n {
          FirstFitIs(blocks, n, i);
          return;
        }
        last := block;
        block := Field(block, NEXT);
        i := i + 1;
      }
      if i < |blocks| { FieldsOf(i); }
      FirstFitIs(blocks, n, i);
    }

    /** kmalloc: split block i, mark it used. */
    method HandOut(block: nat, n: nat, ghost i: nat)
      requires Linked() && i < |blocks| && blocks[i].addr == block && n % 8 == 0 && n <= blocks[i].size
      modifies this`blocks, mem
      ensures Linked() && blocks == AllocAt(old(blocks), i, n)
      ensures forall k :: 0 <= k < |old(blocks)| && k != i ==> SameData(old(mem[..]), mem[..], old(blocks)[k])
    {
      ghost var bs, mem0 := blocks, mem[..];
      SplitBlock(block, n, i);
      ghost var bs1, mem1 := blocks, mem[..];
      MarkBlock(block, false, i);
      HandOutBlocks(bs, i, n);
      forall k | 0 <= k < |bs| && k != i ensures SameData(mem0, mem[..], bs[k]) {
        assert bs[k] == bs1[if k < i then k else k - 1 + |SplitOf(bs[i], n)|];
        SameDataChain(mem0, mem1, mem[..], bs[k], bs[k]);
      }
    }

    /** kmalloc: no block fits, grow the heap. */
    method Grow(last: nat, n: nat) returns (ptr: nat)
      requires Valid() && last == PrevOf(blocks, |blocks|) && n % 8 == 0
      requires CannotGrow(n) || n + HEADER + PAGE - 1 < TWO32
      modifies this, mem, vmm.mem, vmm.pmm.bitmap
      ensures Valid()
      ensures ptr == 0 <==> old(CannotGrow(n))
      ensures ptr == 0 ==> blocks == old(blocks) && end == old(end) && |vmm.pmm.Free()| <= 1
      ensures HP.Grew(vmm.layout, old(vmm.S()), dir, old(top), PagesFor(n), vmm.S(), top)
      ensures ptr != 0 ==>
                var bytes := PagesFor(n) * PAGE;
                && bytes >= HEADER + n && ptr == old(end) + HEADER && end == old(end) + bytes
                && blocks == AllocAt(Grown(old(blocks), old(end), bytes), |old(blocks)|, n)
      ensures forall k :: 0 <= k < |old(blocks)| ==> SameData(old(mem[..]), mem[..], old(blocks)[k])
    {
      ghost var mem0 := mem[..];
      DataUnchanged(mem0, blocks);
      var block := ExpandHeap(n);
      if block == 0 {
        return 0;
      }
      PagesValue(n);
      HandOutNew(last, block, n, PagesFor(n) * PAGE, mem0);
      return block + HEADER;
    }

    /** kmalloc: the bytes new ones at block become a block of which n bytes are handed out. */
    method HandOutNew(last: nat, block: nat, n: nat, ghost bytes: nat, ghost mem0: seq<int>)
      requires mem.Length == CELLS && |mem0| == CELLS && block + bytes == end <= KHEAP_START + CELLS
      requires Inv(blocks, block) && Rep(mem0, blocks) && n % 8 == 0 && bytes % 8 == 0 && HEADER + n <= bytes
      requires head == (if blocks == [] then 0 else KHEAP_START) && last == PrevOf(blocks, |blocks|)
      requires Fields(mem[..], Block(block, bytes - HEADER, true), 0, 0)
      requires forall x: nat :: HeapMemory.Mapped(x) && x < block ==> Get(mem[..], x) == Get(mem0, x)
      modifies this`head, this`blocks, mem
      ensures Linked() && NoTwoFree(blocks)
      ensures blocks == AllocAt(Grown(old(blocks), block, bytes), |old(blocks)|, n)
      ensures forall k :: 0 <= k < |old(blocks)| ==> SameData(mem0, mem[..], old(blocks)[k])
    {
      ghost var b := Block(block, bytes - HEADER, true);
      GrowInv(blocks, block, bytes, n);
      LinkAndHandOut(last, block, n, b, mem0);
    }

    method LinkAndHandOut(last: nat, block: nat, n: nat, ghost b: Block, ghost mem0: seq<int>)
      requires mem.Length == CELLS && |mem0| == CELLS && block == b.addr
               && b.addr + b.size + HEADER == end <= KHEAP_START + CELLS
      requires Tiles(blocks, KHEAP_START, b.addr) && Rep(mem0, blocks) && end % 8 == 0
      requires head == (if blocks == [] then 0 else KHEAP_START) && last == PrevOf(blocks, |blocks|)
      requires Tiles(blocks + [b], KHEAP_START, end) && Fields(mem[..], b, 0, 0)
      requires forall x: nat :: HeapMemory.Mapped(x) && x < b.addr ==> Get(mem[..], x) == Get(mem0, x)
      requires n % 8 == 0 && n <= b.size
      modifies this`head, this`blocks, mem
      ensures Linked() && blocks == AllocAt(old(blocks) + [b], |old(blocks)|, n)
      ensures forall k :: 0 <= k < |old(blocks)| ==> SameData(mem0, mem[..], old(blocks)[k])
    {
      ghost var bs := blocks;
      Link(last, block, b, mem0);
      ghost var mem1 := mem[..];
      HandOut(block, n, |bs|);
      forall k | 0 <= k < |bs| ensures SameData(mem0, mem[..], bs[k]) {
        assert (bs + [b])[k] == bs[k];
        SameDataChain(mem0, mem1, mem[..], bs[k], bs[k]);
      }
    }

    /** kmalloc: put the new block b at the end of the list. */
    method Link(last: nat, block: nat, ghost b: Block, ghost mem0: seq<int>)
      requires mem.Length == CELLS && |mem0| == CELLS && block == b.addr
               && b.addr + b.size + HEADER == end <= KHEAP_START + CELLS
      requires Tiles(blocks, KHEAP_START, b.addr) && Rep(mem0, blocks) && end % 8 == 0
      requires head == (if blocks == [] then 0 else KHEAP_START) && last == PrevOf(blocks, |blocks|)
      requires Tiles(blocks + [b], KHEAP_START, end) && Fields(mem[..], b, 0, 0)
      requires forall x: nat :: HeapMemory.Mapped(x) && x < b.addr ==> Get(mem[..], x) == Get(mem0, x)
      modifies this`head, this`blocks, mem
      ensures Linked() && blocks == old(blocks) + [b]
      ensures forall k :: 0 <= k < |old(blocks)| ==> SameData(mem0, mem[..], old(blocks)[k])
    {
      if blocks != [] {
        InBounds(blocks, KHEAP_START, b.addr, |blocks| - 1);
        assert HeaderAt(mem0, blocks, |blocks| - 1);
      }
      if last != 0 {
        Store(last + NEXT, block);
        Store(block + PREV, last);
      } else {
        head := block;
      }
      AppendRep(mem0, mem[..], blocks, b.addr, b);
      blocks := blocks + [b];
    }

    /** kfree of an address that kmalloc returned and that has not been freed, or of NULL. */
    method Kfree(ptr: nat, ghost i: nat)
      requires Linked() && NoTwoFree(blocks)
      requires ptr != 0 ==> i < |blocks| && !blocks[i].free && blocks[i].addr + HEADER == ptr
      modifies this`blocks, mem
      ensures Linked() && NoTwoFree(blocks)
      ensures old(Budget()) ==> Budget() && Acts(vmm.layout, dir, old(Y()), HeapCall(FreeOp(ptr), 0), Y())
      ensures Step(old(I()), FreeOp(ptr), 0, I())
      ensures blocks == if ptr == 0 then old(blocks) else FreeAt(old(blocks), i)
      ensures forall k :: 0 <= k < |old(blocks)| ==> SameData(old(mem[..]), mem[..], old(blocks)[k])
    {
      ghost var s0 := I();
      if ptr == 0 {
        DataUnchanged(mem[..], blocks);
      } else {
        Release(ptr - HEADER, i);
      }
      FreeIsStep(s0, ptr, i, I());
      if old(Budget()) {
        HP.GrewNothing(vmm.layout, vmm.S(), dir, top);
        HeapActs(vmm.layout, dir, old(Y()), FreeOp(ptr), 0, Y(), 0);
      }
    }

    /** kfree of a pointer that is not null. */
    method Release(block: nat, ghost i: nat)
      requires Linked() && NoTwoFree(blocks) && i < |blocks| && !blocks[i].free && blocks[i].addr == block
      modifies this`blocks, mem
      ensures Linked() && NoTwoFree(blocks) && blocks == FreeAt(old(blocks), i)
      ensures forall k :: 0 <= k < |old(blocks)| ==> SameData(old(mem[..]), mem[..], old(blocks)[k])
    {
      DataUnchanged(mem[..], blocks);
      FreeStepsMerge(blocks, end, i);
      FreeAtInv(blocks, end, i);
      MarkBlock(block, true, i);
      assert forall k :: 0 <= k < |blocks| ==> Within(old(blocks)[k], blocks[k]);
      MergeAfter(block, i, old(blocks), old(mem[..]));
      MergeBefore(block, i, old(blocks), old(mem[..]));
    }

    /** kfree: merge with the next block if it is free. */
    method MergeAfter(block: nat, ghost i: nat, ghost bs: seq<Block>, ghost mem0: seq<int>)
      requires Linked() && i < |blocks| && blocks[i].addr == block && DataKept(bs, mem0, blocks, mem[..])
      modifies this`blocks, mem
      ensures Linked() && DataKept(bs, mem0, blocks, mem[..])
      ensures blocks == if i + 1 < |old(blocks)| && old(blocks)[i + 1].free then Absorb(old(blocks), i) else old(blocks)
    {
      FieldsOf(i);
      if i + 1 < |blocks| { FieldsOf(i + 1); }
      var next := Field(block, NEXT);
      if next != 0 && Field(next, FREE) != 0 {
        TakeOverNext(block, i);
        KeptByAbsorb(bs, mem0, old(blocks), old(mem[..]), i, mem[..]);
      }
    }

    /** kfree: merge with the previous block if it is free. */
    method MergeBefore(block: nat, ghost i: nat, ghost bs: seq<Block>, ghost mem0: seq<int>)
      requires Linked() && i < |blocks| && blocks[i].addr == block && DataKept(bs, mem0, blocks, mem[..])
      modifies this`blocks, mem
      ensures Linked() && DataKept(bs, mem0, blocks, mem[..])
      ensures blocks == if i > 0 && old(blocks)[i - 1].free then Absorb(old(blocks), i - 1) else old(blocks)
    {
      FieldsOf(i);
      if i > 0 { FieldsOf(i - 1); }
      var prev := Field(block, PREV);
      if prev != 0 && Field(prev, FREE) != 0 {
        TakeOverNext(prev, i - 1);
        KeptByAbsorb(bs, mem0, old(blocks), old(mem[..]), i - 1, mem[..]);
      }
    }

    /** memcpy(dst, src, n) from the data of block i to that of block m. */
    method CopyData(dst: nat, src: nat, n: nat, ghost m: nat, ghost i: nat)
      requires Linked() && m < |blocks| && i < |blocks| && m != i
      requires blocks[m].addr + HEADER == dst && blocks[i].addr + HEADER == src
      requires n <= blocks[m].size && n <= blocks[i].size
      modifies mem
      ensures Linked()
      ensures InRange(blocks[m]) && InRange(blocks[i])
      ensures Bytes(mem[..], dst, n) == Bytes(old(mem[..]), src, n)
      ensures forall k :: 0 <= k < |blocks| && k != m ==> SameData(old(mem[..]), mem[..], blocks[k])
    {
      FieldsOf(m);
      FieldsOf(i);
      LiveApart(blocks, end, i, m);
      CopyCells(dst, src, n);
      CopyRep(old(mem[..]), mem[..], blocks, end, m);
    }

    /** memcpy between ranges that do not overlap. */
    method CopyCells(dst: nat, src: nat, n: nat)
      requires mem.Length == CELLS && KHEAP_START <= dst && dst + n <= KHEAP_START + CELLS
      requires KHEAP_START <= src && src + n <= KHEAP_START + CELLS && (dst + n <= src || src + n <= dst)
      modifies mem
      ensures Bytes(mem[..], dst, n) == Bytes(old(mem[..]), src, n)
      ensures forall x: nat :: HeapMemory.Mapped(x) && !(dst <= x < dst + n) ==> Get(mem[..], x) == Get(old(mem[..]), x)
    {
      var d, s := dst - KHEAP_START, src - KHEAP_START;
      for k := 0 to n
        invariant mem[d..d + k] == old(mem[s..s + k])
        invariant forall x :: 0 <= x < CELLS && !(d <= x < d + k) ==> mem[x] == old(mem[x])
      {
        mem[d + k] := mem[s + k];
      }
    }

    /** krealloc does not move block i, or what it copies stays inside the block that it moves to. */
    ghost predicate CopyFits(size: nat, i: nat)
      requires Budget() && i < |blocks|
      reads this, vmm, vmm.mem, vmm.pmm.bitmap
    {
      || blocks[i].size >= size || (FirstFit(blocks, Round8(size)) == |blocks| && CannotGrow(Round8(size)))
      || blocks[i].size <= HandsOut(blocks, Round8(size), PagesFor(Round8(size)) * PAGE)
    }

    /** How many pages krealloc asks for. */
    ghost function ReallocWanted(ptr: nat, size: nat, i: nat): nat
      requires ptr != 0 ==> i < |blocks|
      reads this`blocks
    {
      if ptr != 0 && blocks[i].size >= size then 0 else Wanted(size)
    }

    /** krealloc of NULL or of the live block i. A copy that does not fit is left out: CopyExact says when
        that happens. */
    method Krealloc(ptr: nat, size: nat, ghost i: nat) returns (r: nat)
      requires Valid() && size < TWO32 && (WillGrow(size) ==> NoWrap(size))
      requires ptr != 0 ==> i < |blocks| && !blocks[i].free && blocks[i].addr + HEADER == ptr && CopyFits(size, i)
      modifies this, mem, vmm.mem, vmm.pmm.bitmap
      ensures Valid()
      ensures Acts(vmm.layout, dir, old(Y()), HeapCall(ReallocOp(ptr, size), r), Y())
      ensures HP.Grew(vmm.layout, old(vmm.S()), dir, old(top), old(ReallocWanted(ptr, size, i)), vmm.S(), top)
      ensures Step(old(I()), ReallocOp(ptr, size), r, I())
      ensures ptr == 0 ==> HeapStep(HeapState(old(blocks), old(end)), Malloc(size), r, HeapState(blocks, end))
      ensures ptr != 0 && size == 0 ==> r == 0 && blocks == FreeAt(old(blocks), i)
      ensures ptr != 0 && size != 0 && old(blocks)[i].size >= size ==>
                r == ptr && blocks == old(blocks) && mem[..] == old(mem[..])
      ensures ptr != 0 && old(blocks)[i].size < size ==>
                Moved(old(blocks), old(mem[..]), old(blocks)[i], size, r, blocks, mem[..])
      ensures LiveKept(old(blocks), blocks, if ptr == 0 then -1 else ptr - HEADER)
      ensures forall k :: 0 <= k < |old(blocks)| && !old(blocks)[k].free && old(blocks)[k].addr + HEADER != ptr ==>
                SameData(old(mem[..]), mem[..], old(blocks)[k])
    {
      ghost var s0 := HeapState(blocks, end);
      if ptr == 0 {
        r := Kmalloc(size);
        MallocInv(s0, size, r, HeapState(blocks, end));
        return;
      }
      r := ReallocBlock(ptr, size, i);
      ReallocIsStep(old(I()), ptr, size, i, r, I());
      DataUnchanged(old(mem[..]), old(blocks));
      ReallocKeeps(old(I()), i, size, r, I());
    }

    /** krealloc of block i. */
    method ReallocBlock(ptr: nat, size: nat, ghost i: nat) returns (r: nat)
      requires Valid() && size < TWO32 && (WillGrow(size) ==> NoWrap(size))
      requires i < |blocks| && !blocks[i].free && blocks[i].addr + HEADER == ptr && CopyFits(size, i)
      modifies this, mem, vmm.mem, vmm.pmm.bitmap
      ensures Valid() && Reallocs(old(I()), old(blocks)[i], size, r, I())
      ensures HP.Grew(vmm.layout, old(vmm.S()), dir, old(top), old(ReallocWanted(ptr, size, i)), vmm.S(), top)
      ensures size == 0 ==> r == 0 && blocks == FreeAt(old(blocks), i)
      ensures size != 0 && old(blocks)[i].size >= size ==> r == ptr && blocks == old(blocks) && mem[..] == old(mem[..])
      ensures old(blocks)[i].size < size ==> Moved(old(blocks), old(mem[..]), old(blocks)[i], size, r, blocks, mem[..])
    {
      FieldsOf(i);
      HP.GrewNothing(vmm.layout, vmm.S(), dir, top);
      if size == 0 {
        Kfree(ptr, i);
        return 0;
      }
      var block := ptr - HEADER;
      if Field(block, SIZE) >= size {
        return ptr;
      }
      r := Reallocate(ptr, size, i);
    }

    /** krealloc when the block is too small. */
    method Reallocate(ptr: nat, size: nat, ghost i: nat) returns (r: nat)
      requires Valid() && size < TWO32 && (WillGrow(size) ==> NoWrap(size))
      requires i < |blocks| && !blocks[i].free && blocks[i].addr + HEADER == ptr && blocks[i].size < size
      requires CopyFits(size, i)
      modifies this, mem, vmm.mem, vmm.pmm.bitmap
      ensures HP.Grew(vmm.layout, old(vmm.S()), dir, old(top), old(Wanted(size)), vmm.S(), top)
      ensures Valid() && Moved(old(blocks), old(mem[..]), old(blocks)[i], size, r, blocks, mem[..])
      ensures Reallocs(old(I()), old(blocks)[i], size, r, I())
    {
      ghost var s0, a := I(), blocks[i];
      ghost var m, i1;
      r, m, i1 := KmallocBeside(size, i);
      if r != 0 {
        MoveTo(ptr, size, r, m, i1, s0, i, a);
      }
    }

    /** Block a of s0 is copied to the new block m and freed. */
    method MoveTo(ptr: nat, size: nat, r: nat, ghost m: nat, ghost i1: nat, ghost s0: Image, ghost i: nat,
                  ghost a: Block)
      requires Valid() && Beside(s0, i, size, r, I(), m, i1)
      requires a == s0.blocks[i] && a.addr + HEADER == ptr && a.size < size && a.size <= blocks[m].size
      modifies this`blocks, mem
      ensures Valid() && r != 0 && Moved(s0.blocks, s0.mem, a, size, r, blocks, mem[..]) && Moves(s0, a, size, r, I())
    {
      ghost var s1 := I();
      MoveBlock(ptr, r, m, i1);
      Reallocated(s0, i, a, size, r, s1, m, i1, I());
    }

    /** kmalloc while block i is in use: it becomes block i1, and what is returned is block m. */
    method KmallocBeside(size: nat, ghost i: nat) returns (r: nat, ghost m: nat, ghost i1: nat)
      requires Valid() && 0 < size < TWO32 && (WillGrow(size) ==> NoWrap(size)) && i < |blocks| && !blocks[i].free
      modifies this, mem, vmm.mem, vmm.pmm.bitmap
      ensures Valid() && (r == 0 ==> blocks == old(blocks))
      ensures HP.Grew(vmm.layout, old(vmm.S()), dir, old(top), old(Wanted(size)), vmm.S(), top)
      ensures r == 0 <==> old(FirstFit(blocks, Round8(size)) == |blocks| && CannotGrow(Round8(size)))
      ensures HeapStep(Blocks(old(I())), Malloc(size), r, Blocks(I())) && LiveSame(old(I()), I(), -1)
      ensures r == 0 ==> SameData(old(mem[..]), mem[..], old(blocks)[i])
      ensures r != 0 ==> Beside(old(I()), i, size, r, I(), m, i1)
    {
      ghost var bs0, s0 := blocks, HeapState(blocks, end);
      m, i1 := 0, 0;
      r := Kmalloc(size);
      ghost var s1 := HeapState(blocks, end);
      MallocInv(s0, size, r, s1);
      if r == 0 {
        MallocFailed(s0, size, s1);
      } else {
        m := MallocGives(s0, size, r, s1);
        i1 := IndexOf(bs0[i], blocks);
      }
    }

    /** krealloc: copy the old block i to the new block m and free it. */
    method MoveBlock(ptr: nat, r: nat, ghost m: nat, ghost i: nat)
      requires Linked() && NoTwoFree(blocks) && m < |blocks| && i < |blocks| && m != i && !blocks[i].free
      requires blocks[m].addr + HEADER == r && blocks[i].addr + HEADER == ptr && blocks[i].size <= blocks[m].size
      modifies this`blocks, mem
      ensures Linked() && NoTwoFree(blocks) && Copied(old(I()), m, i, I())
    {
      FieldsOf(i);
      ghost var s := I();
      var n := Field(ptr - HEADER, SIZE);
      CopyData(r, ptr, n, m, i);
      ghost var mem1 := mem[..];
      Kfree(ptr, i);
      CopiedIs(s, m, i, r, ptr, n, mem1, I());
    }
  }

  /** From s to s1, kmalloc has handed out block m at r, and block i of s is now block i1. */
  ghost predicate Beside(s: Image, i: nat, size: nat, r: nat, s1: Image, m: nat, i1: nat) {
    && i < |s.blocks| && !s.blocks[i].free && HeapStep(Blocks(s), Malloc(size), r, Blocks(s1))
    && m < |s1.blocks| && s1.blocks[m].addr + HEADER == r && !s1.blocks[m].free
    && s1.blocks[m].size == HandsOut(s.blocks, Round8(size), PagesFor(Round8(size)) * PAGE)
    && (s1.blocks[m].size >= size <==> size + 7 < TWO32)
    && i1 < |s1.blocks| && s1.blocks[i1] == s.blocks[i] && i1 != m
    && OthersStay(s, s1, s1.blocks[m])
  }

  /** Every block in use in s is a block of s1 other than b, with the same data. */
  ghost predicate OthersStay(s: Image, s1: Image, b: Block) {
    forall k :: 0 <= k < |s.blocks| && !s.blocks[k].free ==>
      SameData(s.mem, s1.mem, s.blocks[k]) && s.blocks[k] in s1.blocks && s.blocks[k] != b
  }

  /** From s to s1, block i has been copied to the start of block m and freed. */
  ghost predicate Copied(s: Image, m: nat, i: nat, s1: Image) {
    && m < |s.blocks| && i < |s.blocks| && s1.blocks == FreeAt(s.blocks, i) && s1.end == s.end
    && var a, b := s.blocks[m], s.blocks[i];
       && InRange(a) && InRange(b) && |s.mem| == CELLS && |s1.mem| == CELLS && b.size <= a.size
       && Bytes(s1.mem, a.addr + HEADER, b.size) == Bytes(s.mem, b.addr + HEADER, b.size)
       && forall k :: 0 <= k < |s.blocks| && k != m ==> SameData(s.mem, s1.mem, s.blocks[k])
  }

  lemma CopiedIs(s: Image, m: nat, i: nat, r: nat, ptr: nat, n: nat, mem1: seq<int>, s1: Image)
    requires m < |s.blocks| && i < |s.blocks| && s1.blocks == FreeAt(s.blocks, i) && s1.end == s.end
    requires InRange(s.blocks[m]) && InRange(s.blocks[i]) && s.blocks[i].size <= s.blocks[m].size
    requires |s.mem| == CELLS && |mem1| == CELLS && |s1.mem| == CELLS
    requires r == s.blocks[m].addr + HEADER && ptr == s.blocks[i].addr + HEADER && n == s.blocks[i].size
    requires Bytes(mem1, r, n) == Bytes(s.mem, ptr, n)
    requires forall k :: 0 <= k < |s.blocks| && k != m ==> SameData(s.mem, mem1, s.blocks[k])
    requires forall k :: 0 <= k < |s.blocks| ==> SameData(mem1, s1.mem, s.blocks[k])
    ensures Copied(s, m, i, s1)
  {
    SameBytes(mem1, s1.mem, s.blocks[m], s.blocks[i].size);
    forall k | 0 <= k < |s.blocks| && k != m ensures SameData(s.mem, s1.mem, s.blocks[k]) {
      SameDataChain(s.mem, mem1, s1.mem, s.blocks[k], s.blocks[k]);
    }
  }

  /** The new block b holds what block a held before the allocation (mem0) and the copy (mem1). */
  lemma HoldsNew(a: Block, mem0: seq<int>, mem1: seq<int>, b: Block, bs2: seq<Block>, mem2: seq<int>, size: nat, r: nat)
    requires SameData(mem0, mem1, a) && InRange(a) && InRange(b) && |mem1| == CELLS && |mem2| == CELLS
    requires b in bs2 && !b.free && b.addr + HEADER == r && a.size <= b.size && (b.size >= size <==> size + 7 < TWO32)
    requires Bytes(mem2, b.addr + HEADER, a.size) == Bytes(mem1, a.addr + HEADER, a.size)
    ensures |mem0| == CELLS && Bytes(mem2, r, a.size) == Bytes(mem0, a.addr + HEADER, a.size)
    ensures exists c :: Holds(c, bs2, mem2, r, size, a, mem0)
  {
    SameBytes(mem0, mem1, a, a.size);
    assert Holds(b, bs2, mem2, r, size, a, mem0);
  }

  /** The copy is in place: block m of s1 got the bytes of block i1, which is block a of mem0. */
  lemma CopyHolds(a: Block, mem0: seq<int>, size: nat, r: nat, s1: Image, m: nat, i1: nat, s2: Image)
    requires SameData(mem0, s1.mem, a) && Inv(s1.blocks, s1.end) && Copied(s1, m, i1, s2)
    requires i1 != m && s1.blocks[i1] == a && !a.free && !s1.blocks[m].free
    requires r == s1.blocks[m].addr + HEADER && (s1.blocks[m].size >= size <==> size + 7 < TWO32)
    ensures |mem0| == CELLS && Bytes(s2.mem, r, a.size) == Bytes(mem0, a.addr + HEADER, a.size)
    ensures exists c :: Holds(c, s2.blocks, s2.mem, r, size, a, mem0)
  {
    NewBlockStays(s1, m, i1);
    HoldsNew(a, mem0, s1.mem, s1.blocks[m], s2.blocks, s2.mem, size, r);
  }

  /** Allocating, copying and freeing make up krealloc. */
  lemma Reallocated(s0: Image, i: nat, a: Block, size: nat, r: nat, s1: Image, m: nat, i1: nat, s2: Image)
    requires Inv(s1.blocks, s1.end) && Beside(s0, i, size, r, s1, m, i1) && Copied(s1, m, i1, s2)
    requires a == s0.blocks[i] && a.size < size
    ensures r != 0 && (exists c :: Holds(c, s2.blocks, s2.mem, r, size, a, s0.mem)) && Moves(s0, a, size, r, s2)
  {
    CopyHolds(a, s0.mem, size, r, s1, m, i1, s2);
    DataMoves(s0, s1, m, s2.mem);
    MovesIs(s0, a, size, r, Blocks(s1), i1, s2);
  }

  lemma NewBlockStays(s: Image, m: nat, i: nat)
    requires Inv(s.blocks, s.end) && m < |s.blocks| && i < |s.blocks| && m != i && !s.blocks[m].free
             && !s.blocks[i].free
    ensures s.blocks[m] in FreeAt(s.blocks, i)
  {
    FreeKeepsLive(s.blocks, i);
    LiveApart(s.blocks, s.end, m, i);
  }

  /** krealloc of block i leaves every other block in use in its place, with its bytes. */
  lemma ReallocKeeps(s: Image, i: nat, size: nat, r: nat, s': Image)
    requires Inv(s.blocks, s.end) && i < |s.blocks| && Reallocs(s, s.blocks[i], size, r, s')
    requires forall k :: 0 <= k < |s.blocks| ==> SameData(s.mem, s.mem, s.blocks[k])
    ensures LiveKept(s.blocks, s'.blocks, s.blocks[i].addr)
    ensures forall k :: 0 <= k < |s.blocks| && !s.blocks[k].free && s.blocks[k].addr != s.blocks[i].addr ==>
              SameData(s.mem, s'.mem, s.blocks[k])
  {
    ReallocInv(s, s.blocks[i], size, r, s');
  }

  /** b is a block of bs' in use at address r and starts with all bytes that block a had in mem. It has room
      for size bytes exactly when rounding does not wrap. */
  predicate Holds(b: Block, bs': seq<Block>, mem': seq<int>, r: nat, size: nat, a: Block, mem: seq<int>) {
    && |mem| == CELLS && |mem'| == CELLS && InRange(a) && InRange(b)
    && b in bs' && !b.free && b.addr + HEADER == r && a.size <= b.size && (b.size >= size <==> size + 7 < TWO32)
    && Bytes(mem', r, a.size) == Bytes(mem, a.addr + HEADER, a.size)
  }

  /** What krealloc of block a to a larger size does: nothing to the old blocks when it fails;
      otherwise r holds the old bytes. */
  ghost predicate Moved(bs: seq<Block>, mem: seq<int>, a: Block, size: nat, r: nat, bs': seq<Block>, mem': seq<int>) {
    if r == 0 then bs' == bs && SameData(mem, mem', a)
    else exists b :: Holds(b, bs', mem', r, size, a, mem)
  }

  lemma PageOfAddress(w: nat)
    ensures w * PAGE / PAGE == w
  {
  }

  lemma LiveApart(bs: seq<Block>, end: nat, i: nat, j: nat)
    requires Tiles(bs, KHEAP_START, end) && i < |bs| && j < |bs| && i != j
    ensures Stop(bs[i]) <= bs[j].addr || Stop(bs[j]) <= bs[i].addr
  {
    if i < j { Ordered(bs, KHEAP_START, end, i, j); } else { Ordered(bs, KHEAP_START, end, j, i); }
  }

  lemma IndexOf(b: Block, bs: seq<Block>) returns (i: nat)
    requires b in bs
    ensures i < |bs| && bs[i] == b
  {
    i :| 0 <= i < |bs| && bs[i] == b;
  }

  lemma MallocFailed(s: HeapState, size: nat, s': HeapState)
    requires HeapStep(s, Malloc(size), 0, s')
    ensures s' == s
  {
  }

  /** A successful kmalloc returns a block in use that was not in use. The block has the size asked
      for exactly when rounding up does not wrap around. */
  lemma MallocGives(s: HeapState, size: nat, ptr: nat, s': HeapState) returns (m: nat)
    requires Inv(s.blocks, s.end) && HeapStep(s, Malloc(size), ptr, s') && ptr != 0 && s'.end <= TWO32
    ensures m < |s'.blocks| && s'.blocks[m].addr + HEADER == ptr && !s'.blocks[m].free
    ensures s'.blocks[m].size == HandsOut(s.blocks, Round8(size), PagesFor(Round8(size)) * PAGE)
    ensures s'.blocks[m].size >= size <==> size + 7 < TWO32
    ensures forall k :: 0 <= k < |s.blocks| && !s.blocks[k].free ==> s.blocks[k].addr != s'.blocks[m].addr
  {
    Round8Value(size);
    m := AllocsGives(s, Round8(size), PagesFor(Round8(size)) * PAGE, ptr, s');
    MallocInv(s, size, ptr, s');
    InBounds(s'.blocks, KHEAP_START, s'.end, m);
  }

  lemma AllocsGives(s: HeapState, n: nat, bytes: nat, ptr: nat, s': HeapState) returns (m: nat)
    requires Inv(s.blocks, s.end) && Allocs(s, n, bytes, ptr, s') && ptr != 0
    ensures m < |s'.blocks| && s'.blocks[m].addr + HEADER == ptr && !s'.blocks[m].free && s'.blocks[m].size >= n
    ensures s'.blocks[m].size == HandsOut(s.blocks, n, bytes)
    ensures forall k :: 0 <= k < |s.blocks| && !s.blocks[k].free ==> s.blocks[k].addr != s'.blocks[m].addr
  {
    m := FirstFit(s.blocks, n);
    if m < |s.blocks| {
      assert s'.blocks[m] == Taken(s.blocks[m], n)[0];
      forall k | 0 <= k < |s.blocks| && !s.blocks[k].free ensures s.blocks[k].addr != s.blocks[m].addr {
        LiveApart(s.blocks, s.end, k, m);
      }
    } else {
      var g := Grown(s.blocks, s.end, bytes);
      assert s'.blocks[m] == Taken(g[m], n)[0];
      forall k | 0 <= k < |s.blocks| ensures s.blocks[k].addr != s.end { InBounds(s.blocks, KHEAP_START, s.end, k); }
    }
  }

  /** Following the data through allocation (s1), copy and release (mem2). */
  lemma DataMoves(s0: Image, s1: Image, m: nat, mem2: seq<int>)
    requires m < |s1.blocks| && OthersStay(s0, s1, s1.blocks[m])
    requires forall k :: 0 <= k < |s1.blocks| && k != m ==> SameData(s1.mem, mem2, s1.blocks[k])
    ensures forall k :: 0 <= k < |s0.blocks| && !s0.blocks[k].free ==> SameData(s0.mem, mem2, s0.blocks[k])
  {
    forall k | 0 <= k < |s0.blocks| && !s0.blocks[k].free ensures SameData(s0.mem, mem2, s0.blocks[k]) {
      var j := IndexOf(s0.blocks[k], s1.blocks);
      SameDataChain(s0.mem, s1.mem, mem2, s0.blocks[k], s1.blocks[j]);
    }
  }

  /** Stores into the data of block m leave all headers and all other data alone. */
  lemma CopyRep(mem: seq<int>, mem': seq<int>, bs: seq<Block>, end: nat, m: nat)
    requires Rep(mem, bs) && Tiles(bs, KHEAP_START, end) && m < |bs| && |mem'| == CELLS
    requires forall x: nat :: HeapMemory.Mapped(x) && !InData(bs[m], x) ==> Get(mem', x) == Get(mem, x)
    ensures Rep(mem', bs) && forall k :: 0 <= k < |bs| && k != m ==> SameData(mem, mem', bs[k])
  {
    forall k | 0 <= k < |bs| ensures HeaderAt(mem', bs, k) && (k != m ==> SameData(mem, mem', bs[k])) {
      assert HeaderAt(mem, bs, k);
      if k != m { LiveApart(bs, end, k, m); }
      assert SameHeader(mem, mem', bs[k]);
      HeaderMoves(mem, mem', bs[k], NextOf(bs, k), PrevOf(bs, k));
    }
  }

  predicate Within(b: Block, b1: Block) { b1.addr <= b.addr && Stop(b) <= Stop(b1) }

  predicate Covered(b: Block, bs: seq<Block>) { exists m :: 0 <= m < |bs| && Within(b, bs[m]) }

  /** The data of all blocks bs is as it was in mem0, and lies in blocks of bs1. */
  ghost predicate DataKept(bs: seq<Block>, mem0: seq<int>, bs1: seq<Block>, mem: seq<int>) {
    forall k :: 0 <= k < |bs| ==> SameData(mem0, mem, bs[k]) && Covered(bs[k], bs1)
  }

  lemma KeptByAbsorb(bs: seq<Block>, mem0: seq<int>, bs1: seq<Block>, mem1: seq<int>, j: nat, mem2: seq<int>)
    requires DataKept(bs, mem0, bs1, mem1) && j + 1 < |bs1| && Stop(bs1[j]) == bs1[j + 1].addr
    requires forall k :: 0 <= k < |bs1| ==> SameData(mem1, mem2, bs1[k])
    ensures DataKept(bs, mem0, Absorb(bs1, j), mem2)
  {
    var bs2 := Absorb(bs1, j);
    forall k | 0 <= k < |bs| ensures SameData(mem0, mem2, bs[k]) && Covered(bs[k], bs2) {
      var m :| 0 <= m < |bs1| && Within(bs[k], bs1[m]);
      SameDataChain(mem0, mem1, mem2, bs[k], bs1[m]);
      if m < j { assert bs2[m] == bs1[m]; }
      else if m <= j + 1 { assert Within(bs[k], bs2[j]); }
      else { assert bs2[m - 1] == bs1[m]; }
    }
  }

  lemma FirstFitIs(bs: seq<Block>, n: nat, i: nat)
    requires i <= |bs| && (i < |bs| ==> bs[i].free && bs[i].size >= n)
    requires forall k :: 0 <= k < i ==> !(bs[k].free && bs[k].size >= n)
    ensures FirstFit(bs, n) == i
  {
  }

  lemma HandOutBlocks(bs: seq<Block>, i: nat, n: nat)
    requires i < |bs| && n <= bs[i].size
    ensures var s := Replace(bs, i, i + 1, SplitOf(bs[i], n));
            i < |s| && s[i := s[i].(free := false)] == AllocAt(bs, i, n)
  {
  }

  lemma DataUnchanged(mem: seq<int>, bs: seq<Block>)
    requires Rep(mem, bs)
    ensures forall k :: 0 <= k < |bs| ==> SameData(mem, mem, bs[k])
  {
    forall k | 0 <= k < |bs| ensures SameData(mem, mem, bs[k]) { assert HeaderAt(mem, bs, k); }
  }

  lemma SplitTiles(bs: seq<Block>, end: nat, i: nat, size: nat)
    requires Tiles(bs, KHEAP_START, end) && i < |bs| && size % 8 == 0 && size <= bs[i].size
    ensures Tiles(Replace(bs, i, i + 1, SplitOf(bs[i], size)), KHEAP_START, end)
  {
    assert Fits(bs, end, i);
    var b, mid := bs[i], SplitOf(bs[i], size);
    Multiples(b.size, size);
    Multiples(b.addr, size);
    assert Fits(mid, Stop(b), 0);
    if |mid| == 2 { assert Fits(mid, Stop(b), 1); }
    ReplaceTiles(bs, KHEAP_START, end, i, i + 1, mid);
  }
}
