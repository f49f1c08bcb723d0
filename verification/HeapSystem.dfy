/** The heap among the other users of pages and page tables: calls of the heap interleaved with any operations
    of the memory managers that spare its pages (kernel/memory/kmalloc.c, kernel/memory/vmm.c). */
module HeapSystem {
  import opened KernelBase
  import opened HeapSpec
  import opened HeapRuns
  import opened HeapPages
  import P = PageBitmap
  import PG = Paging
  import PR = PagingRuns

  /** The heap, the virtual page that it ends at, and the memory managers. */
  datatype System = System(heap: Image, top: nat, vm: PR.Vm)

  datatype Act = HeapCall(op: Op, result: nat) | OtherCall(vmOp: PR.VmOp)

  /** Every page of the heap is backed in directory d by a page of its own. */
  ghost predicate Good(l: PG.Layout, d: nat, s: System) {
    && PR.VmOk(l, s.vm) && d in s.vm.dirs
    && Inv(s.heap.blocks, s.heap.end) && s.heap.end == s.top * PAGE && FIRST_PAGE <= s.top <= PG.VPAGES
    && Backed(l, s.vm, d, FIRST_PAGE, s.top)
  }

  /** What the methods of the heap promise, and what others may do: whatever leaves the pages of the heap and
      the frames behind them alone. */
  ghost predicate Acts(l: PG.Layout, d: nat, s: System, a: Act, s': System) {
    Good(l, d, s) ==>
      match a
      case HeapCall(op, r) =>
        && Step(s.heap, op, r, s'.heap) && s'.heap.end == s'.top * PAGE
        && exists n: nat :: Grew(l, s.vm, d, s.top, n, s'.vm, s'.top)
      case OtherCall(op) =>
        && PR.Legal(l, s.vm, op) && Spares(l, s.vm, op, d, FIRST_PAGE, s.top)
        && s' == s.(vm := PR.Next(l, s.vm, op))
  }

  lemma HeapActs(l: PG.Layout, d: nat, s: System, op: Op, r: nat, s': System, n: nat)
    requires Step(s.heap, op, r, s'.heap) && s'.heap.end == s'.top * PAGE && Grew(l, s.vm, d, s.top, n, s'.vm, s'.top)
    ensures Acts(l, d, s, HeapCall(op, r), s')
  {
  }

  /** A run from the empty heap. Nothing else is known of its states. */
  ghost predicate SystemRun(l: PG.Layout, d: nat, tr: seq<System>, acts: seq<Act>) {
    && |tr| == |acts| + 1 && PR.VmOk(l, tr[0].vm) && d in tr[0].vm.dirs
    && tr[0].heap.blocks == [] && tr[0].heap.end == KHEAP_START && tr[0].top == FIRST_PAGE
    && forall i :: 0 <= i < |acts| ==> Acts(l, d, tr[i], acts[i], tr[i + 1])
  }

  /** The frame behind virtual page v of the heap. */
  ghost function FrameBehind(l: PG.Layout, d: nat, s: System, v: nat): nat
    requires Good(l, d, s) && v < s.top
  {
    PG.FrameOf(PR.At(l, s.vm, d, v))
  }

  lemma HeapCallGood(l: PG.Layout, d: nat, s: System, op: Op, r: nat, s': System)
    requires Good(l, d, s) && Acts(l, d, s, HeapCall(op, r), s')
    ensures Good(l, d, s') && s.top <= s'.top
  {
    var n: nat :| Grew(l, s.vm, d, s.top, n, s'.vm, s'.top);
    GrewBacked(l, s.vm, d, FIRST_PAGE, s.top, n, s'.vm, s'.top);
    StepInv(s.heap, op, r, s'.heap);
  }

  lemma HeapCallFrame(l: PG.Layout, d: nat, s: System, op: Op, r: nat, s': System, v: nat)
    requires Good(l, d, s) && Acts(l, d, s, HeapCall(op, r), s') && Good(l, d, s') && v < s.top <= s'.top
    ensures FrameBehind(l, d, s', v) == FrameBehind(l, d, s, v)
  {
    var n: nat :| Grew(l, s.vm, d, s.top, n, s'.vm, s'.top);
    ExtendElsewhere(l, s.vm, d, s.top, Reach(s.vm, d, s.top, n), s'.vm, d, v);
  }

  lemma OtherCallGood(l: PG.Layout, d: nat, s: System, op: PR.VmOp, s': System)
    requires Good(l, d, s) && Acts(l, d, s, OtherCall(op), s')
    ensures Good(l, d, s')
  {
    BackedNext(l, s.vm, op, d, FIRST_PAGE, s.top);
  }

  lemma OtherCallFrame(l: PG.Layout, d: nat, s: System, op: PR.VmOp, s': System, v: nat)
    requires Good(l, d, s) && Acts(l, d, s, OtherCall(op), s') && Good(l, d, s') && FIRST_PAGE <= v < s.top
    ensures FrameBehind(l, d, s', v) == FrameBehind(l, d, s, v)
  {
    SparedEntry(l, s.vm, op, d, FIRST_PAGE, s.top, v);
  }

  /** One act keeps the heap sound and no shorter, and leaves every page of it on its frame. */
  lemma ActGood(l: PG.Layout, d: nat, s: System, a: Act, s': System)
    requires Good(l, d, s) && Acts(l, d, s, a, s')
    ensures Good(l, d, s') && s.top <= s'.top
  {
    match a
    case HeapCall(op, r) => HeapCallGood(l, d, s, op, r, s');
    case OtherCall(op) => OtherCallGood(l, d, s, op, s');
  }

  lemma ActFrame(l: PG.Layout, d: nat, s: System, a: Act, s': System, v: nat)
    requires Good(l, d, s) && Acts(l, d, s, a, s') && Good(l, d, s') && FIRST_PAGE <= v < s.top <= s'.top
    ensures FrameBehind(l, d, s', v) == FrameBehind(l, d, s, v)
  {
    match a
    case HeapCall(op, r) => HeapCallFrame(l, d, s, op, r, s', v);
    case OtherCall(op) => OtherCallFrame(l, d, s, op, s', v);
  }

  /** In every run every page of the heap has a frame of its own that is taken and holds no table. */
  lemma {:induction false} EveryRunGood(l: PG.Layout, d: nat, tr: seq<System>, acts: seq<Act>, n: nat)
    requires SystemRun(l, d, tr, acts) && n < |tr|
    ensures Good(l, d, tr[n])
  {
    if n > 0 {
      EveryRunGood(l, d, tr, acts, n - 1);
      assert Acts(l, d, tr[n - 1], acts[n - 1], tr[n]);
      ActGood(l, d, tr[n - 1], acts[n - 1], tr[n]);
    }
  }

  /** In every run the heap is no longer than the managed memory, whatever else is allocated and freed. */
  lemma EveryRunBounded(l: PG.Layout, d: nat, tr: seq<System>, acts: seq<Act>, n: nat)
    requires SystemRun(l, d, tr, acts) && n < |tr|
    ensures tr[n].top - FIRST_PAGE + |tr[n].vm.free| <= P.PAGES
    ensures tr[n].heap.end <= KHEAP_START + (P.MEMORY_END - P.MEMORY_START) < TWO32
  {
    EveryRunGood(l, d, tr, acts, n);
    BackedCounts(l, tr[n].vm, d, FIRST_PAGE, tr[n].top);
  }

  /** In every run a page of the heap stays on its frame for ever. */
  lemma {:induction false} FramesStay(l: PG.Layout, d: nat, tr: seq<System>, acts: seq<Act>, i: nat, j: nat, v: nat)
    requires SystemRun(l, d, tr, acts) && i <= j < |tr| && FIRST_PAGE <= v < tr[i].top
    ensures Good(l, d, tr[i]) && Good(l, d, tr[j]) && tr[i].top <= tr[j].top
    ensures v < tr[j].top && FrameBehind(l, d, tr[j], v) == FrameBehind(l, d, tr[i], v)
    decreases j
  {
    EveryRunGood(l, d, tr, acts, i);
    if i < j {
      FramesStay(l, d, tr, acts, i, j - 1, v);
      assert Acts(l, d, tr[j - 1], acts[j - 1], tr[j]);
      ActGood(l, d, tr[j - 1], acts[j - 1], tr[j]);
      ActFrame(l, d, tr[j - 1], acts[j - 1], tr[j], v);
    }
  }
}
