/** Runs of kmalloc, kfree and krealloc, and of stores by the owners of blocks (kernel/memory/kmalloc.c). */
module HeapRuns {
  import opened HeapSpec
  import opened HeapMemory

  /** The blocks, the end of the heap and its memory. */
  datatype Image = Image(blocks: seq<Block>, end: nat, mem: seq<int>)

  function Blocks(s: Image): HeapState { HeapState(s.blocks, s.end) }

  datatype Op =
    | MallocOp(size: nat)
    | FreeOp(ptr: nat)
    | ReallocOp(ptr: nat, size: nat)
    | StoreOp(ptr: nat, at: nat, value: int)

  /** Block i is in use and ptr is its address. */
  predicate Live(s: Image, ptr: nat, i: nat) {
    i < |s.blocks| && !s.blocks[i].free && s.blocks[i].addr + HEADER == ptr
  }

  /** The data of every block in use, except the one at address gone, is the same. */
  ghost predicate LiveSame(s: Image, s': Image, gone: int) {
    forall k :: 0 <= k < |s.blocks| && !s.blocks[k].free && s.blocks[k].addr != gone ==>
      SameData(s.mem, s'.mem, s.blocks[k])
  }

  /** krealloc moves block b to r: it allocates, copies all bytes of b and then frees b. */
  ghost predicate Moves(s: Image, b: Block, size: nat, r: nat, s': Image) {
    && (exists mid :: HeapStep(Blocks(s), Malloc(size), r, mid) && HeapStep(mid, Free(b.addr + HEADER), 0, Blocks(s')))
    && LiveSame(s, s', b.addr)
    && InRange(b) && KHEAP_START <= r && r + b.size <= KHEAP_START + CELLS && |s.mem| == CELLS && |s'.mem| == CELLS
    && Bytes(s'.mem, r, b.size) == Bytes(s.mem, b.addr + HEADER, b.size)
  }

  /** krealloc of the block b in use. */
  ghost predicate Reallocs(s: Image, b: Block, size: nat, r: nat, s': Image) {
    if size == 0 then r == 0 && HeapStep(Blocks(s), Free(b.addr + HEADER), 0, Blocks(s')) && LiveSame(s, s', -1)
    else if b.size >= size then r == b.addr + HEADER && s' == s
    else if r == 0 then HeapStep(Blocks(s), Malloc(size), 0, Blocks(s')) && LiveSame(s, s', -1)
    else Moves(s, b, size, r, s')
  }

  /** What the methods of the heap promise, and what a store into a block in use does. */
  ghost predicate Step(s: Image, op: Op, r: nat, s': Image) {
    match op
    case MallocOp(size) => HeapStep(Blocks(s), Malloc(size), r, Blocks(s')) && LiveSame(s, s', -1)
    case FreeOp(ptr) => HeapStep(Blocks(s), Free(ptr), 0, Blocks(s')) && LiveSame(s, s', -1)
    case ReallocOp(ptr, size) =>
      if ptr == 0 then HeapStep(Blocks(s), Malloc(size), r, Blocks(s')) && LiveSame(s, s', -1)
      else exists i: nat :: Live(s, ptr, i) && Reallocs(s, s.blocks[i], size, r, s')
    case StoreOp(ptr, at, value) =>
      && |s.mem| == CELLS && (forall k :: 0 <= k < |s.blocks| ==> InRange(s.blocks[k]))
      && exists i: nat :: Live(s, ptr, i) && at < s.blocks[i].size && s' == s.(mem := Set(s.mem, ptr + at, value))
  }

  /** A run that starts with the empty heap. */
  ghost predicate HeapRun(tr: seq<Image>, ops: seq<Op>, results: seq<nat>) {
    && |tr| == |ops| + 1 && |results| == |ops|
    && tr[0].blocks == [] && tr[0].end == KHEAP_START
    && (forall i :: 0 <= i < |tr| ==> |tr[i].mem| == CELLS)
    && forall i :: 0 <= i < |ops| ==> Step(tr[i], ops[i], results[i], tr[i + 1])
  }

  lemma FreeIsStep(s: Image, ptr: nat, i: nat, s': Image)
    requires ptr != 0 ==> Live(s, ptr, i)
    requires s'.blocks == (if ptr == 0 then s.blocks else FreeAt(s.blocks, i)) && s'.end == s.end
    requires LiveSame(s, s', -1)
    ensures Step(s, FreeOp(ptr), 0, s')
  {
  }

  lemma ReallocIsStep(s: Image, ptr: nat, size: nat, i: nat, r: nat, s': Image)
    requires ptr != 0 && Live(s, ptr, i) && Reallocs(s, s.blocks[i], size, r, s')
    ensures Step(s, ReallocOp(ptr, size), r, s')
  {
  }

  lemma MovesIs(s: Image, b: Block, size: nat, r: nat, mid: HeapState, i: nat, s': Image)
    requires HeapStep(Blocks(s), Malloc(size), r, mid) && i < |mid.blocks| && mid.blocks[i] == b && !b.free
    requires s'.blocks == FreeAt(mid.blocks, i) && s'.end == mid.end && LiveSame(s, s', b.addr)
    requires InRange(b) && KHEAP_START <= r && r + b.size <= KHEAP_START + CELLS && |s.mem| == CELLS
             && |s'.mem| == CELLS
    requires Bytes(s'.mem, r, b.size) == Bytes(s.mem, b.addr + HEADER, b.size)
    ensures Moves(s, b, size, r, s')
  {
    assert HeapStep(mid, Free(b.addr + HEADER), 0, Blocks(s'));
  }

  // ---------------------------------------------------------------- one step

  lemma LiveThrough(bs: seq<Block>, mid: seq<Block>, bs': seq<Block>, gone: int)
    requires LiveKept(bs, mid, -1) && LiveKept(mid, bs', gone) && gone >= 0
    requires forall k :: 0 <= k < |bs| ==> bs[k].addr >= 0
    ensures LiveKept(bs, bs', gone)
  {
    forall k | 0 <= k < |bs| && !bs[k].free && bs[k].addr != gone ensures bs[k] in bs' {
      assert bs[k] in mid;
      var j :| 0 <= j < |mid| && mid[j] == bs[k];
    }
  }

  lemma MovesInv(s: Image, b: Block, size: nat, r: nat, s': Image)
    requires Inv(s.blocks, s.end) && Moves(s, b, size, r, s')
    ensures Inv(s'.blocks, s'.end) && LiveKept(s.blocks, s'.blocks, b.addr)
  {
    var mid :| HeapStep(Blocks(s), Malloc(size), r, mid) && HeapStep(mid, Free(b.addr + HEADER), 0, Blocks(s'));
    MallocInv(Blocks(s), size, r, mid);
    FreeInv(mid, b.addr + HEADER, 0, Blocks(s'));
    LiveThrough(s.blocks, mid.blocks, s'.blocks, b.addr);
  }

  lemma ReallocInv(s: Image, b: Block, size: nat, r: nat, s': Image)
    requires Inv(s.blocks, s.end) && Reallocs(s, b, size, r, s')
    ensures Inv(s'.blocks, s'.end) && LiveKept(s.blocks, s'.blocks, b.addr)
  {
    if size == 0 { FreeInv(Blocks(s), b.addr + HEADER, 0, Blocks(s')); }
    else if b.size >= size {}
    else if r == 0 { MallocInv(Blocks(s), size, 0, Blocks(s')); }
    else { MovesInv(s, b, size, r, s'); }
  }

  /** Every operation keeps the blocks end to end, aligned and without two free neighbours. */
  lemma StepInv(s: Image, op: Op, r: nat, s': Image)
    requires Inv(s.blocks, s.end) && Step(s, op, r, s')
    ensures Inv(s'.blocks, s'.end)
  {
    match op
    case MallocOp(size) => MallocInv(Blocks(s), size, r, Blocks(s'));
    case FreeOp(ptr) => FreeInv(Blocks(s), ptr, 0, Blocks(s'));
    case ReallocOp(ptr, size) =>
      if ptr == 0 { MallocInv(Blocks(s), size, r, Blocks(s')); }
      else {
        var i: nat :| Live(s, ptr, i) && Reallocs(s, s.blocks[i], size, r, s');
        ReallocInv(s, s.blocks[i], size, r, s');
      }
    case StoreOp(ptr, at, value) =>
  }

  /** The operation frees, reallocates or writes the block at ptr. */
  predicate WorksOn(op: Op, ptr: nat) { !op.MallocOp? && op.ptr == ptr }

  /** An operation on other blocks leaves a block in use in its place, with its extent and its bytes. */
  lemma StepKeeps(s: Image, op: Op, r: nat, s': Image, b: Block)
    requires Inv(s.blocks, s.end) && Step(s, op, r, s') && |s.mem| == |s'.mem| == CELLS
    requires b in s.blocks && !b.free && InRange(b) && !WorksOn(op, b.addr + HEADER)
    ensures b in s'.blocks && SameData(s.mem, s'.mem, b)
  {
    var k :| 0 <= k < |s.blocks| && s.blocks[k] == b;
    match op
    case MallocOp(size) => MallocInv(Blocks(s), size, r, Blocks(s'));
    case FreeOp(ptr) => FreeInv(Blocks(s), ptr, 0, Blocks(s'));
    case ReallocOp(ptr, size) =>
      if ptr == 0 { MallocInv(Blocks(s), size, r, Blocks(s')); }
      else {
        var i: nat :| Live(s, ptr, i) && Reallocs(s, s.blocks[i], size, r, s');
        ReallocInv(s, s.blocks[i], size, r, s');
      }
    case StoreOp(ptr, at, value) =>
      var i: nat :| Live(s, ptr, i) && at < s.blocks[i].size && s' == s.(mem := Set(s.mem, ptr + at, value));
      forall x: nat | InData(b, x) ensures x != ptr + at {
        DataSeparate(s.blocks, KHEAP_START, s.end, i, k, ptr + at, x);
      }
  }

  // ---------------------------------------------------------------- runs

  /** After every run the blocks tile the heap, aligned, with no two free neighbours. */
  lemma {:induction false} EveryRunInv(tr: seq<Image>, ops: seq<Op>, results: seq<nat>, n: nat)
    requires HeapRun(tr, ops, results) && n < |tr|
    ensures Inv(tr[n].blocks, tr[n].end)
  {
    if n > 0 {
      EveryRunInv(tr, ops, results, n - 1);
      assert Step(tr[n - 1], ops[n - 1], results[n - 1], tr[n]);
      StepInv(tr[n - 1], ops[n - 1], results[n - 1], tr[n]);
    }
  }

  lemma RunKeeps(tr: seq<Image>, ops: seq<Op>, results: seq<nat>, i: nat, b: Block)
    requires HeapRun(tr, ops, results) && i < |ops| && b in tr[i].blocks && !b.free && InRange(b)
    requires !WorksOn(ops[i], b.addr + HEADER)
    ensures b in tr[i + 1].blocks && SameData(tr[i].mem, tr[i + 1].mem, b)
  {
    EveryRunInv(tr, ops, results, i);
    assert Step(tr[i], ops[i], results[i], tr[i + 1]);
    StepKeeps(tr[i], ops[i], results[i], tr[i + 1], b);
  }

  /** In every run an allocation keeps its place, its extent and its bytes until its owner frees,
      reallocates or writes it. */
  lemma {:induction false} LiveUntilFreed(tr: seq<Image>, ops: seq<Op>, results: seq<nat>, i: nat, j: nat, b: Block)
    requires HeapRun(tr, ops, results) && i <= j < |tr| && b in tr[i].blocks && !b.free && InRange(b)
    requires forall k :: i <= k < j ==> !WorksOn(ops[k], b.addr + HEADER)
    ensures b in tr[j].blocks && SameData(tr[i].mem, tr[j].mem, b)
    decreases j
  {
    if i < j {
      LiveUntilFreed(tr, ops, results, i, j - 1, b);
      RunKeeps(tr, ops, results, j - 1, b);
      SameDataChain(tr[i].mem, tr[j - 1].mem, tr[j].mem, b, b);
    }
  }
}
