/** The physical page bitmap (kernel/memory/pmm.c): a bit array that refines a set of free pages. */
module PageBitmap {
  const MEMORY_START := 0x100000
  const MEMORY_END := 0x4000000
  const PAGE_SIZE := 0x1000
  const PAGES := 16128
  const BITMAP_SIZE := 2016
  const KERNEL_END := 0x200000

  // ---------------------------------------------------------------- bits of a byte

  /** 1 << j, see MaskIsShift. */
  function Mask(j: nat): bv8
    requires j < 8
  {
    if j == 0 then 1 else if j == 1 then 2 else if j == 2 then 4 else if j == 3 then 8
    else if j == 4 then 16 else if j == 5 then 32 else if j == 6 then 64 else 128
  }

  lemma MaskIsShift(j: nat)
    requires j < 8
    ensures Mask(j) == 1 << j
  {
    if j == 0 {} else if j == 1 {} else if j == 2 {} else if j == 3 {}
    else if j == 4 {} else if j == 5 {} else if j == 6 {} else {}
  }

  /** Bit j of a byte, counted from the lowest. */
  predicate Bit(b: bv8, j: nat)
    requires j < 8
    decreases j
  {
    if j == 0 then b & 1 != 0 else Bit(b >> 1, j - 1)
  }

  lemma MaskShifts(b: bv8, j: nat)
    requires 0 < j < 8
    ensures b & Mask(j) != 0 <==> (b >> 1) & Mask(j - 1) != 0
  {
  }

  lemma {:induction false} BitTest(b: bv8, j: nat)
    requires j < 8
    ensures Bit(b, j) <==> b & Mask(j) != 0
    decreases j
  {
    if j > 0 {
      MaskShifts(b, j);
      BitTest(b >> 1, j - 1);
    }
  }

  lemma MasksMeet(j: nat, k: nat)
    requires j < 8 && k < 8
    ensures Mask(j) != 0 && Mask(j) & Mask(k) == if j == k then Mask(j) else 0
  {
  }

  lemma MaskOut(b: bv8, m: bv8, n: bv8)
    requires n != 0 && (m & n == 0 || m == n)
    ensures (b | m) & n != 0 <==> b & n != 0 || m == n
    ensures (b & !m) & n != 0 <==> b & n != 0 && m != n
  {
  }

  lemma MaskUpdate(b: bv8, j: nat, k: nat)
    requires j < 8 && k < 8
    ensures (b | Mask(j)) & Mask(k) != 0 <==> b & Mask(k) != 0 || j == k
    ensures (b & !Mask(j)) & Mask(k) != 0 <==> b & Mask(k) != 0 && j != k
  {
    MasksMeet(j, k);
    MasksMeet(k, j);
    MaskOut(b, Mask(j), Mask(k));
  }

  /** Setting or clearing one bit changes that bit and no other. */
  lemma BitUpdate(b: bv8, j: nat, k: nat)
    requires j < 8 && k < 8
    ensures Bit(b | Mask(j), k) <==> Bit(b, k) || j == k
    ensures Bit(b & !Mask(j), k) <==> Bit(b, k) && j != k
  {
    MaskUpdate(b, j, k);
    BitTest(b, k);
    BitTest(b | Mask(j), k);
    BitTest(b & !Mask(j), k);
  }

  lemma BitOfConstant(k: nat)
    requires k < 8
    ensures Bit(0xFF, k) && !Bit(0, k)
  {
    BitTest(0xFF, k);
    BitTest(0, k);
  }

  lemma ZeroByte(b: bv8)
    ensures b == 0 <==> forall k :: 0 <= k < 8 ==> !Bit(b, k)
  {
    forall k | 0 <= k < 8 { BitOfConstant(k); }
    BitTest(b, 0); BitTest(b, 1); BitTest(b, 2); BitTest(b, 3);
    BitTest(b, 4); BitTest(b, 5); BitTest(b, 6); BitTest(b, 7);
  }

  // ---------------------------------------------------------------- the set of free pages

  predicate IsFree(bits: seq<bv8>, i: nat)
    requires |bits| == BITMAP_SIZE && i < PAGES
  {
    Bit(bits[i / 8], i % 8)
  }

  ghost function FreeSet(bits: seq<bv8>): set<nat>
    requires |bits| == BITMAP_SIZE
  {
    set i: nat | i < PAGES && IsFree(bits, i)
  }

  /** Setting the bit of page i in its byte frees page i and nothing else. */
  lemma SetFree(bits: seq<bv8>, i: nat, byte: bv8)
    requires |bits| == BITMAP_SIZE && i < PAGES
    requires forall j :: 0 <= j < 8 ==> (Bit(byte, j) <==> Bit(bits[i / 8], j) || j == i % 8)
    ensures FreeSet(bits[i / 8 := byte]) == FreeSet(bits) + {i}
  {
  }

  /** Clearing it takes page i away and nothing else. */
  lemma ClearFree(bits: seq<bv8>, i: nat, byte: bv8)
    requires |bits| == BITMAP_SIZE && i < PAGES
    requires forall j :: 0 <= j < 8 ==> (Bit(byte, j) <==> Bit(bits[i / 8], j) && j != i % 8)
    ensures FreeSet(bits[i / 8 := byte]) == FreeSet(bits) - {i}
  {
  }

  predicate From(lo: int, i: int) { lo <= i }

  ghost function Range(lo: int, hi: int): set<nat> { set i: nat | i < hi && From(lo, i) }

  function PageOf(addr: nat): int { (addr - MEMORY_START) / PAGE_SIZE }

  predicate Managed(addr: nat) { MEMORY_START <= addr < MEMORY_END }

  predicate IsLowest(p: nat, free: set<nat>) { p in free && forall q :: q in free ==> p <= q }

  /** The pages that pmm_mark_reserved takes away: it rounds both ends down. */
  ghost function ReservedBy(start: nat, end: nat): set<nat> {
    if end < MEMORY_START || start >= MEMORY_END then {} else
      var s := if start < MEMORY_START then MEMORY_START else start;
      var e := if end > MEMORY_END then MEMORY_END else end;
      Range(PageOf(s), PageOf(e))
  }

  class Pmm {
    const bitmap: array<bv8>

    ghost predicate Valid() { bitmap.Length == BITMAP_SIZE }

    ghost function Free(): set<nat>
      requires Valid()
      reads bitmap
    {
      FreeSet(bitmap[..])
    }

    constructor ()
      ensures Valid() && fresh(bitmap)
    {
      bitmap := new bv8[BITMAP_SIZE];
    }

    method SetBit(i: nat)
      requires Valid() && i < PAGES
      modifies bitmap
      ensures Free() == old(Free()) + {i}
    {
      var row, bit := i / 8, i % 8;
      var byte := bitmap[row] | Mask(bit);
      forall j | 0 <= j < 8 { BitUpdate(bitmap[row], bit, j); }
      SetFree(bitmap[..], i, byte);
      bitmap[row] := byte;
    }

    method ClearBit(i: nat)
      requires Valid() && i < PAGES
      modifies bitmap
      ensures Free() == old(Free()) - {i}
    {
      var row, bit := i / 8, i % 8;
      var byte := bitmap[row] & !Mask(bit);
      forall j | 0 <= j < 8 { BitUpdate(bitmap[row], bit, j); }
      ClearFree(bitmap[..], i, byte);
      bitmap[row] := byte;
    }

    /** The loops that clear the bits of [first, last). */
    method ClearRange(first: nat, last: nat)
      requires Valid() && last <= PAGES
      modifies bitmap
      ensures Free() == old(Free()) - Range(first, last)
    {
      var i := first;
      while i < last
        invariant i <= last || i == first
        invariant Free() == old(Free()) - Range(first, i)
      {
        ClearBit(i);
        i := i + 1;
      }
    }

    /** pmm_init: everything above 2MB is free. */
    method Init()
      requires Valid()
      modifies bitmap
      ensures Free() == Range(PageOf(KERNEL_END), PAGES)
    {
      for i := 0 to BITMAP_SIZE
        invariant forall k :: 0 <= k < i ==> bitmap[k] == 0xFF
      {
        bitmap[i] := 0xFF;
      }
      forall k: nat | k < PAGES ensures IsFree(bitmap[..], k) {
        BitOfConstant(k % 8);
      }
      var endPage := (KERNEL_END - MEMORY_START) / PAGE_SIZE;
      if endPage > PAGES {
        endPage := PAGES;
      }
      ClearRange(0, endPage);
    }

    /** pmm_alloc_page: the lowest free page, or 0. */
    method Alloc() returns (addr: nat)
      requires Valid()
      modifies bitmap
      ensures old(Free()) == {} ==> addr == 0 && Free() == {}
      ensures old(Free()) != {} ==>
                && Managed(addr) && addr % PAGE_SIZE == 0
                && IsLowest(PageOf(addr), old(Free())) && Free() == old(Free()) - {PageOf(addr)}
    {
      for i := 0 to BITMAP_SIZE
        invariant bitmap[..] == old(bitmap[..])
        invariant forall k: nat :: k < 8 * i && k < PAGES ==> !IsFree(bitmap[..], k)
      {
        ZeroByte(bitmap[i]);
        if bitmap[i] != 0 {
          for j := 0 to 8
            invariant bitmap[..] == old(bitmap[..])
            invariant forall k: nat :: k < 8 * i + j && k < PAGES ==> !IsFree(bitmap[..], k)
          {
            BitTest(bitmap[i], j);
            if bitmap[i] & Mask(j) != 0 {
              var page := i * 8 + j;
              assert page / 8 == i && page % 8 == j;
              assert page in Free();
              ClearBit(page);
              return MEMORY_START + page * PAGE_SIZE;
            }
          }
        } else {
          forall k: nat | 8 * i <= k < 8 * i + 8 ensures !IsFree(bitmap[..], k) {
            assert k / 8 == i && !Bit(bitmap[i], k % 8);
          }
        }
      }
      return 0;
    }

    /** pmm_free_page: addresses outside the managed memory are ignored. */
    method FreePage(addr: nat)
      requires Valid()
      modifies bitmap
      ensures Free() == if Managed(addr) then old(Free()) + {PageOf(addr)} else old(Free())
    {
      if addr < MEMORY_START || addr >= MEMORY_END {
        return;
      }
      var page := (addr - MEMORY_START) / PAGE_SIZE;
      if page >= PAGES {
        return;
      }
      SetBit(page);
    }

    /** pmm_mark_reserved */
    method MarkReserved(start: nat, end: nat)
      requires Valid()
      modifies bitmap
      ensures Free() == old(Free()) - ReservedBy(start, end)
    {
      if end < MEMORY_START {
        return;
      }
      if start >= MEMORY_END {
        return;
      }
      var s, e := start, end;
      if s < MEMORY_START {
        s := MEMORY_START;
      }
      if e > MEMORY_END {
        e := MEMORY_END;
      }
      ClearRange((s - MEMORY_START) / PAGE_SIZE, (e - MEMORY_START) / PAGE_SIZE);
    }

    /** pmm_get_free_memory */
    method FreeMemory() returns (bytes: nat)
      requires Valid()
      ensures bytes == PAGE_SIZE * |Free()| <= MEMORY_END - MEMORY_START
    {
      FreeAtMost(bitmap[..]);
      var count := 0;
      for i := 0 to BITMAP_SIZE
        invariant count == |FreeBelow(bitmap[..], 8 * i)|
      {
        var b := bitmap[i];
        for j := 0 to 8
          invariant count == |FreeBelow(bitmap[..], 8 * i + j)|
        {
          BitTest(b, j);
          FreeBelowStep(bitmap[..], 8 * i + j);
          if b & Mask(j) != 0 {
            count := count + 1;
          }
        }
      }
      assert FreeBelow(bitmap[..], PAGES) == Free();
      return count * PAGE_SIZE;
    }
  }

  ghost function FreeBelow(bits: seq<bv8>, n: nat): set<nat>
    requires |bits| == BITMAP_SIZE && n <= PAGES
  {
    set i: nat | i < n && IsFree(bits, i)
  }

  lemma FreeBelowStep(bits: seq<bv8>, n: nat)
    requires |bits| == BITMAP_SIZE && n < PAGES
    ensures |FreeBelow(bits, n + 1)| == |FreeBelow(bits, n)| + if IsFree(bits, n) then 1 else 0
  {
    var below := FreeBelow(bits, n);
    assert FreeBelow(bits, n + 1) == if IsFree(bits, n) then below + {n} else below;
  }

  /** There are never more free pages than pages. */
  lemma FreeAtMost(bits: seq<bv8>)
    requires |bits| == BITMAP_SIZE
    ensures |FreeSet(bits)| <= PAGES
  {
    AtMost(FreeSet(bits), PAGES);
  }

  /** A set of numbers below n has at most n members. */
  lemma {:induction false} AtMost(pages: set<nat>, n: nat)
    requires forall p :: p in pages ==> p < n
    ensures |pages| <= n
  {
    if n == 0 {
      assert pages == {};
    } else {
      AtMost(pages - {n - 1}, n - 1);
    }
  }

  // ---------------------------------------------------------------- runs

  datatype PageOp = AllocOp | FreeOp(addr: nat) | ReserveOp(start: nat, end: nat)

  /** The set of free pages after one operation, as the methods above promise it. */
  ghost predicate PageStep(free: set<nat>, op: PageOp, result: nat, free': set<nat>) {
    match op
    case AllocOp =>
      if free == {} then result == 0 && free' == {}
      else
        && Managed(result) && result % PAGE_SIZE == 0
        && IsLowest(PageOf(result), free) && free' == free - {PageOf(result)}
    case FreeOp(addr) => free' == if Managed(addr) then free + {PageOf(addr)} else free
    case ReserveOp(start, end) => free' == free - ReservedBy(start, end)
  }

  ghost predicate PageRun(tr: seq<set<nat>>, ops: seq<PageOp>, results: seq<nat>) {
    && |tr| == |ops| + 1 && |results| == |ops|
    && forall i :: 0 <= i < |ops| ==> PageStep(tr[i], ops[i], results[i], tr[i + 1])
  }

  predicate Frees(op: PageOp, p: int) { op.FreeOp? && Managed(op.addr) && PageOf(op.addr) == p }

  /** A page that is not free becomes free only by being freed. */
  lemma {:induction false} OnlyFreedComesBack(tr: seq<set<nat>>, ops: seq<PageOp>, results: seq<nat>, i: nat, j: nat,
                                              p: nat)
    requires PageRun(tr, ops, results) && i <= j <= |ops| && p !in tr[i] && p in tr[j]
    ensures exists k :: i <= k < j && Frees(ops[k], p)
    decreases j - i
  {
    assert i < j;
    assert PageStep(tr[i], ops[i], results[i], tr[i + 1]);
    if !Frees(ops[i], p) {
      OnlyFreedComesBack(tr, ops, results, i + 1, j, p);
    }
  }

  /** In every run, a page handed out is not handed out again before it has been freed. */
  lemma NoDoubleHandout(tr: seq<set<nat>>, ops: seq<PageOp>, results: seq<nat>, i: nat, j: nat)
    requires PageRun(tr, ops, results) && i < j < |ops| && ops[i] == AllocOp && ops[j] == AllocOp
    requires results[i] == results[j] != 0
    ensures exists k :: i < k < j && Frees(ops[k], PageOf(results[i]))
  {
    assert PageStep(tr[i], ops[i], results[i], tr[i + 1]);
    assert PageStep(tr[j], ops[j], results[j], tr[j + 1]);
    OnlyFreedComesBack(tr, ops, results, i + 1, j, PageOf(results[i]));
  }

  /** After pmm_init, no page below 2MB is handed out before it has been freed. */
  lemma ReservedNotHandedOut(tr: seq<set<nat>>, ops: seq<PageOp>, results: seq<nat>, j: nat)
    requires PageRun(tr, ops, results) && tr[0] == Range(PageOf(KERNEL_END), PAGES)
    requires j < |ops| && ops[j] == AllocOp && results[j] != 0
    ensures results[j] >= KERNEL_END || exists k :: 0 <= k < j && Frees(ops[k], PageOf(results[j]))
  {
    assert PageStep(tr[j], ops[j], results[j], tr[j + 1]);
    if results[j] < KERNEL_END {
      assert !From(PageOf(KERNEL_END), PageOf(results[j]));
      OnlyFreedComesBack(tr, ops, results, 0, j, PageOf(results[j]));
    }
  }

  /** Page p contains an address of [start, end). */
  predicate Meets(p: nat, start: nat, end: nat) {
    start < end && start < MEMORY_START + (p + 1) * PAGE_SIZE && MEMORY_START + p * PAGE_SIZE < end
  }

  /** Reserving [start, end) takes away every page that the range meets, exactly unless the range
      ends inside a page that is still free. */
  lemma ReserveTakesAll(free: set<nat>, start: nat, end: nat)
    requires forall p :: p in free ==> p < PAGES
    ensures (forall p :: p in free - ReservedBy(start, end) ==> !Meets(p, start, end))
            <==> || start >= end || end <= MEMORY_START || end >= MEMORY_END
                 || end % PAGE_SIZE == 0 || PageOf(end) !in free
  {
    if start < end && MEMORY_START < end < MEMORY_END {
      var s := if start < MEMORY_START then MEMORY_START else start;
      var last := PageOf(end);
      if end % PAGE_SIZE != 0 && last in free {
        assert last in free - ReservedBy(start, end);
        assert Meets(last, start, end);
      }
      forall p | p in free - ReservedBy(start, end) && Meets(p, start, end) ensures p == last && end % PAGE_SIZE != 0 {
        assert From(PageOf(s), p);
      }
    } else if start < end && end >= MEMORY_END && start < MEMORY_END {
      forall p | p in free - ReservedBy(start, end) ensures !Meets(p, start, end) {
        var s := if start < MEMORY_START then MEMORY_START else start;
        assert p < PageOf(MEMORY_END);
        assert !From(PageOf(s), p);
      }
    }
  }
}
