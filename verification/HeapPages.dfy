/** The pages behind the heap: expand_heap maps them one by one (kernel/memory/kmalloc.c). */
module HeapPages {
  import opened PageBitmap
  import opened Paging
  import opened PagingRuns

  /** expand_heap maps its pages writable. */
  const HEAP_FLAGS := 2

  // ---------------------------------------------------------------- pages that hold data

  /** Page p is taken and is neither a directory nor a page table. */
  ghost predicate Owned(l: Layout, s: Vm, p: nat)
    requires VmOk(l, s)
  {
    p !in s.free && Plain(l, s, p)
  }

  /** Virtual page v of directory d is backed by a page that holds data. */
  ghost predicate Backs(l: Layout, s: Vm, d: nat, v: nat)
    requires VmOk(l, s) && d in s.dirs && v < VPAGES
  {
    var e := At(l, s, d, v);
    Present(e) && FrameOf(e) >= FIRST_MANAGED && Owned(l, s, FrameOf(e) - FIRST_MANAGED)
  }

  /** Every virtual page of [lo, hi) is backed, and no two by the same page. */
  ghost predicate Backed(l: Layout, s: Vm, d: nat, lo: nat, hi: nat)
    requires VmOk(l, s) && d in s.dirs && hi <= VPAGES
  {
    && (forall v :: lo <= v < hi ==> Backs(l, s, d, v))
    && (forall v, w :: lo <= v < w < hi ==> FrameOf(At(l, s, d, v)) != FrameOf(At(l, s, d, w)))
  }

  lemma FreeIsPlain(l: Layout, s: Vm, p: nat)
    requires VmOk(l, s) && p in s.free
    ensures Plain(l, s, p)
  {
    assert !Taken(s.free, p + FIRST_MANAGED);
  }

  /** A page just taken is owned, and owned pages stay owned. */
  lemma OwnedTake(l: Layout, s: Vm, p: nat)
    requires VmOk(l, s) && s.free != {} && (Owned(l, s, p) || p == Lowest(s.free))
    ensures VmOk(l, TakeNext(s)) && Owned(l, TakeNext(s), p)
  {
    TakeKeeps(l, s);
    if p == Lowest(s.free) { FreeIsPlain(l, s, p); }
  }

  /** The new page table was a free page, so no owned page becomes a table. */
  lemma OwnedWithTable(l: Layout, s: Vm, d: nat, i: nat, p: nat)
    requires VmOk(l, s) && d in s.dirs && LOW_TABLES <= i < WORDS && !Present(s.mem[d][i]) && s.free != {}
             && Owned(l, s, p)
    ensures VmOk(l, WithTable(s, d, i)) && Owned(l, WithTable(s, d, i), p)
  {
    WithTableKeeps(l, s, d, i);
    var r, t := WithTable(s, d, i), Lowest(s.free) + FIRST_MANAGED;
    TableEntry(t * 4096);
    assert forall x :: x in s.dirs ==> x != t by { assert !Taken(s.free, t); }
    forall d', i' | d' in r.dirs && 0 <= i' < WORDS && HasTable(r.mem, d', i')
      ensures FrameOf(r.mem[d'][i']) != p + FIRST_MANAGED
    {
      if d' == d && i' == i { assert r.mem[d'][i'] == t * 4096 + 3; }
      else { assert r.mem[d'][i'] == s.mem[d'][i'] && HasTable(s.mem, d', i'); }
    }
  }

  /** A store into a page table changes no directory. */
  lemma OwnedStored(l: Layout, s: Vm, d: nat, v: nat, e: nat, p: nat)
    requires VmOk(l, s) && d in s.dirs && v < VPAGES && Owned(l, s, p)
    ensures VmOk(l, Stored(s, d, v, e)) && Owned(l, Stored(s, d, v, e), p)
  {
    if Mapped(s.mem, d, v) {
      StoredSets(l, s, d, v, e);
      TableBounds(l, s.mem, s.dirs, s.free, d, v);
      var r := Stored(s, d, v, e);
      assert forall x :: x in s.dirs ==> r.mem[x] == s.mem[x];
      assert forall x, i :: x in s.dirs && 0 <= i < WORDS ==> HasTable(r.mem, x, i) == HasTable(s.mem, x, i);
    }
  }

  lemma OwnedMap(l: Layout, s: Vm, d: nat, v: nat, e: nat, p: nat)
    requires VmOk(l, s) && d in s.dirs && v < VPAGES && Owned(l, s, p)
    ensures VmOk(l, MapNext(s, d, v, e)) && Owned(l, MapNext(s, d, v, e), p)
  {
    if Mapped(s.mem, d, v) {
      OwnedStored(l, s, d, v, e, p);
    } else if s.free != {} {
      OwnedWithTable(l, s, d, v / WORDS, p);
      WithTableKeeps(l, s, d, v / WORDS);
      OwnedStored(l, WithTable(s, d, v / WORDS), d, v, e, p);
    }
  }

  lemma OwnedAllocMap(l: Layout, s: Vm, d: nat, v: nat, flags: nat, p: nat)
    requires VmOk(l, s) && d in s.dirs && v < VPAGES && |s.free| >= Needed(s, d, v)
    requires Owned(l, s, p) || p == Lowest(s.free)
    ensures VmOk(l, AllocMapNext(s, d, v, flags)) && Owned(l, AllocMapNext(s, d, v, flags), p)
  {
    AllocMapIs(s, d, v, flags);
    OwnedTakeMap(l, s, d, v, Entry(Lowest(s.free) + FIRST_MANAGED, flags), p);
  }

  lemma OwnedTakeMap(l: Layout, s: Vm, d: nat, v: nat, e: nat, p: nat)
    requires VmOk(l, s) && d in s.dirs && v < VPAGES && s.free != {} && (Owned(l, s, p) || p == Lowest(s.free))
    ensures VmOk(l, TakeNext(s)) && VmOk(l, MapNext(TakeNext(s), d, v, e)) && Owned(l, MapNext(TakeNext(s), d, v, e), p)
  {
    OwnedTake(l, s, p);
    OwnedMap(l, TakeNext(s), d, v, e, p);
  }

  /** Mapping one more page behind backed pages backs that page too. */
  lemma AllocMapBacks(l: Layout, s: Vm, d: nat, lo: nat, v: nat, flags: nat)
    requires VmOk(l, s) && d in s.dirs && LOW_PAGES <= lo <= v < VPAGES && |s.free| >= Needed(s, d, v)
             && Backed(l, s, d, lo, v)
    ensures var r := AllocMapNext(s, d, v, flags); VmOk(l, r) && d in r.dirs && Backed(l, r, d, lo, v + 1)
  {
    AllocMapSets(l, s, d, v, flags);
    AllocMapIs(s, d, v, flags);
    var r, e := AllocMapNext(s, d, v, flags), Entry(Lowest(s.free) + FIRST_MANAGED, flags);
    EntryParts(Lowest(s.free) + FIRST_MANAGED, flags);
    forall p: nat | Owned(l, s, p) || p == Lowest(s.free) ensures Owned(l, r, p) {
      OwnedTakeMap(l, s, d, v, e, p);
    }
    NewPageBacks(l, s, d, lo, v, e, r, Lowest(s.free));
  }

  lemma NewPageBacks(l: Layout, s: Vm, d: nat, lo: nat, v: nat, e: nat, r: Vm, q: nat)
    requires Sets(l, s, r, d, v, e) && d in s.dirs && LOW_PAGES <= lo <= v < VPAGES && Backed(l, s, d, lo, v)
    requires q in s.free && MapsTo(e, q + FIRST_MANAGED) && Owned(l, r, q)
    requires forall p: nat :: Owned(l, s, p) ==> Owned(l, r, p)
    ensures Backed(l, r, d, lo, v + 1)
  {
    forall w | lo <= w < v
      ensures At(l, r, d, w) == At(l, s, d, w) && Backs(l, r, d, w) && FrameOf(At(l, r, d, w)) != FrameOf(e)
    {
      assert Backs(l, s, d, w);
    }
    BackedMore(l, s, r, d, lo, v, e);
  }

  lemma BackedMore(l: Layout, s: Vm, r: Vm, d: nat, lo: nat, v: nat, e: nat)
    requires VmOk(l, s) && VmOk(l, r) && d in s.dirs && d in r.dirs && v < VPAGES && Backed(l, s, d, lo, v)
    requires Backs(l, r, d, v) && At(l, r, d, v) == e
    requires forall w :: lo <= w < v ==>
               At(l, r, d, w) == At(l, s, d, w) && Backs(l, r, d, w) && FrameOf(At(l, r, d, w)) != FrameOf(e)
    ensures Backed(l, r, d, lo, v + 1)
  {
    forall a, b | lo <= a < b < v + 1 ensures FrameOf(At(l, r, d, a)) != FrameOf(At(l, r, d, b)) {
      if b < v { assert FrameOf(At(l, s, d, a)) != FrameOf(At(l, s, d, b)); }
    }
  }

  // ---------------------------------------------------------------- counting

  /** The page behind virtual page v. */
  ghost function PageBehind(l: Layout, s: Vm, d: nat, v: nat): int
    requires VmOk(l, s) && d in s.dirs && v < VPAGES
  {
    FrameOf(At(l, s, d, v)) - FIRST_MANAGED
  }

  /** The pages behind [lo, hi) are as many as the virtual pages, and none of them is free. */
  lemma {:induction false} PagesBehind(l: Layout, s: Vm, d: nat, lo: nat, hi: nat, top: nat) returns (pages: set<nat>)
    requires VmOk(l, s) && d in s.dirs && lo <= hi <= top <= VPAGES && Backed(l, s, d, lo, top)
    ensures |pages| == hi - lo && pages !! s.free && forall p :: p in pages ==> p < PAGES
    ensures forall v :: hi <= v < top ==> PageBehind(l, s, d, v) !in pages
    decreases hi
  {
    if lo == hi {
      pages := {};
    } else {
      var w := hi - 1;
      var before := PagesBehind(l, s, d, lo, w, top);
      assert Backs(l, s, d, w);
      var q := PageBehind(l, s, d, w);
      pages := before + {q};
      forall v | hi <= v < top ensures PageBehind(l, s, d, v) !in pages {
        assert FrameOf(At(l, s, d, w)) != FrameOf(At(l, s, d, v));
      }
    }
  }

  /** The backed pages and the free pages together are no more than there are pages. */
  lemma BackedCounts(l: Layout, s: Vm, d: nat, lo: nat, hi: nat)
    requires VmOk(l, s) && d in s.dirs && lo <= hi <= VPAGES && Backed(l, s, d, lo, hi)
    ensures hi - lo + |s.free| <= PAGES
  {
    var pages := PagesBehind(l, s, d, lo, hi, hi);
    AtMost(pages + s.free, PAGES);
  }

  // ---------------------------------------------------------------- what others do

  /** From mem to mem' directory entries only change flags. */
  ghost predicate SameTables(dirs: set<nat>, mem: Memory, mem': Memory) {
    && MemoryOk(mem) && MemoryOk(mem') && (forall d :: d in dirs ==> d < FRAMES)
    && forall d, i :: d in dirs && 0 <= i < WORDS ==> SameTable(mem, mem', d, i)
  }

  predicate SameTable(mem: Memory, mem': Memory, d: nat, i: nat)
    requires MemoryOk(mem) && MemoryOk(mem') && d < FRAMES && i < WORDS
  {
    Present(mem'[d][i]) == Present(mem[d][i]) && FrameOf(mem'[d][i]) == FrameOf(mem[d][i])
  }

  /** No directory is used as a page table. */
  ghost predicate DirsApart(dirs: set<nat>, mem: Memory) {
    && MemoryOk(mem) && (forall d :: d in dirs ==> d < FRAMES)
    && forall d, i :: d in dirs && 0 <= i < WORDS && Present(mem[d][i]) ==> FrameOf(mem[d][i]) !in dirs
  }

  lemma MarkIfTables(dirs: set<nat>, mem0: Memory, mem: Memory, d: nat, v: nat)
    requires DirsApart(dirs, mem0) && SameTables(dirs, mem0, mem) && d in dirs && v < VPAGES
    ensures SameTables(dirs, mem0, MarkIf(mem, d, v))
  {
    var r, i := MarkIf(mem, d, v), v / WORDS;
    assert SameTable(mem0, mem, d, i);
    UserParts(mem[d][i]);
    forall x, j | x in dirs && 0 <= j < WORDS ensures SameTable(mem0, r, x, j) {
      assert SameTable(mem0, mem, x, j);
    }
  }

  lemma {:induction false} MarkedTables(dirs: set<nat>, mem: Memory, d: nat, lo: nat, hi: nat)
    requires DirsApart(dirs, mem) && d in dirs && hi <= VPAGES
    ensures SameTables(dirs, mem, Marked(mem, d, lo, hi))
    decreases hi
  {
    if lo < hi {
      MarkedTables(dirs, mem, d, lo, hi - 1);
      MarkIfTables(dirs, mem, Marked(mem, d, lo, hi - 1), d, hi - 1);
    }
  }

  lemma DirsAreApart(l: Layout, s: Vm)
    requires VmOk(l, s)
    ensures DirsApart(s.dirs, s.mem)
  {
    forall d, i | d in s.dirs && 0 <= i < WORDS && Present(s.mem[d][i]) ensures FrameOf(s.mem[d][i]) !in s.dirs {
      if i < LOW_TABLES { assert l.IsLowTable(l.ktab + i); } else { assert HasTable(s.mem, d, i); }
    }
  }

  lemma OwnedMarked(l: Layout, s: Vm, d: nat, lo: nat, hi: nat, p: nat)
    requires VmOk(l, s) && d in s.dirs && hi <= VPAGES && Owned(l, s, p)
    ensures var r := s.(mem := Marked(s.mem, d, lo, hi)); VmOk(l, r) && Owned(l, r, p)
  {
    MarkedStructure(l, s, d, lo, hi);
    DirsAreApart(l, s);
    MarkedTables(s.dirs, s.mem, d, lo, hi);
    var mem := Marked(s.mem, d, lo, hi);
    forall x, i | x in s.dirs && 0 <= i < WORDS && HasTable(mem, x, i) ensures FrameOf(mem[x][i]) != p + FIRST_MANAGED {
      assert SameTable(s.mem, mem, x, i) && HasTable(s.mem, x, i);
    }
  }

  lemma OwnedSpace(l: Layout, s: Vm, p: nat)
    requires VmOk(l, s) && Owned(l, s, p)
    ensures VmOk(l, SpaceNext(l, s)) && Owned(l, SpaceNext(l, s), p)
  {
    SpaceKeeps(l, s);
    if s.free != {} {
      var r, d := SpaceNext(l, s), Lowest(s.free) + FIRST_MANAGED;
      assert !Taken(s.free, d);
      assert forall i :: 0 <= i < WORDS ==> !HasTable(r.mem, d, i);
      assert forall x, i :: x in s.dirs && 0 <= i < WORDS ==> HasTable(r.mem, x, i) == HasTable(s.mem, x, i);
    }
  }

  /** No operation but freeing it takes a data page away from its owner. */
  lemma OwnedNext(l: Layout, s: Vm, op: VmOp, p: nat)
    requires VmOk(l, s) && Legal(l, s, op) && Owned(l, s, p) && op != GiveOp(p)
    ensures VmOk(l, Next(l, s, op)) && Owned(l, Next(l, s, op), p)
  {
    NextOk(l, s, op);
    match op
    case MapOp(d, v, e) => OwnedMap(l, s, d, v, e, p);
    case UnmapOp(d, v) => OwnedStored(l, s, d, v, 0, p);
    case AllocMapOp(d, v, flags) => if |s.free| >= Needed(s, d, v) { OwnedAllocMap(l, s, d, v, flags, p); }
    case MarkOp(d, lo, hi) => OwnedMarked(l, s, d, lo, hi, p);
    case SpaceOp => OwnedSpace(l, s, p);
    case TakeOp => if s.free != {} { OwnedTake(l, s, p); }
    case GiveOp(q) =>
  }

  /** The operation leaves alone what backs the pages [lo, hi) of directory d. */
  ghost predicate Spares(l: Layout, s: Vm, op: VmOp, d: nat, lo: nat, hi: nat)
    requires VmOk(l, s) && d in s.dirs && hi <= VPAGES
  {
    match op
    case MapOp(d', v, _) => d' == d ==> v < lo || hi <= v
    case UnmapOp(d', v) => d' == d ==> v < lo || hi <= v
    case AllocMapOp(d', v, _) => d' == d ==> v < lo || hi <= v
    case GiveOp(p) => forall v :: lo <= v < hi ==> FrameOf(At(l, s, d, v)) != p + FIRST_MANAGED
    case _ => true
  }

  lemma SparedEntry(l: Layout, s: Vm, op: VmOp, d: nat, lo: nat, hi: nat, v: nat)
    requires VmOk(l, s) && d in s.dirs && hi <= VPAGES && Legal(l, s, op) && Spares(l, s, op, d, lo, hi)
             && LOW_PAGES <= lo <= v < hi
    ensures VmOk(l, Next(l, s, op)) && d in Next(l, s, op).dirs
    ensures var e, e' := At(l, s, d, v), At(l, Next(l, s, op), d, v);
            Present(e') == Present(e) && FrameOf(e') == FrameOf(e)
  {
    match op
    case MapOp(d', v', e) => MapSets(l, s, d', v', e);
    case UnmapOp(d', v') => UnmapSets(l, s, d', v');
    case AllocMapOp(d', v', flags) => AllocMapSets(l, s, d', v', flags);
    case MarkOp(d', a, b) =>
      MarkedSets(l, s, d', a, b, Marked(s.mem, d', a, b));
      UserParts(At(l, s, d, v));
    case SpaceOp => SpaceKeeps(l, s);
    case TakeOp => TakeKeeps(l, s);
    case GiveOp(p) => GiveKeeps(l, s, p);
  }

  /** What the rest of the kernel does with other pages leaves every page of the heap backed. */
  lemma BackedNext(l: Layout, s: Vm, op: VmOp, d: nat, lo: nat, hi: nat)
    requires VmOk(l, s) && d in s.dirs && LOW_PAGES <= lo && hi <= VPAGES && Backed(l, s, d, lo, hi)
    requires Legal(l, s, op) && Spares(l, s, op, d, lo, hi)
    ensures var r := Next(l, s, op); VmOk(l, r) && d in r.dirs && Backed(l, r, d, lo, hi)
  {
    NextOk(l, s, op);
    forall v | lo <= v < hi
      ensures Backs(l, Next(l, s, op), d, v) && FrameOf(At(l, Next(l, s, op), d, v)) == FrameOf(At(l, s, d, v))
    {
      assert Backs(l, s, d, v);
      SparedEntry(l, s, op, d, lo, hi, v);
      OwnedNext(l, s, op, FrameOf(At(l, s, d, v)) - FIRST_MANAGED);
    }
  }

  // ---------------------------------------------------------------- expand_heap

  /** How many of the n pages from v on need a new page table in directory d. */
  function Missing(mem: Memory, d: nat, v: nat, n: nat): nat
    requires MemoryOk(mem) && d < FRAMES && v + n <= VPAGES
  {
    if n == 0 then 0
    else
      var w := v + n - 1;
      Missing(mem, d, v, n - 1) + if !Mapped(mem, d, w) && (n == 1 || w % WORDS == 0) then 1 else 0
  }

  lemma MissingGrows(mem: Memory, d: nat, v: nat, k: nat, n: nat)
    requires MemoryOk(mem) && d < FRAMES && k <= n && v + n <= VPAGES
    ensures Missing(mem, d, v, k) <= Missing(mem, d, v, n)
    decreases n
  {
    if k < n { MissingGrows(mem, d, v, k, n - 1); }
  }

  lemma StoredDir(l: Layout, s: Vm, d: nat, v: nat, e: nat)
    requires VmOk(l, s) && d in s.dirs && v < VPAGES
    ensures Stored(s, d, v, e).mem[d] == s.mem[d] && Stored(s, d, v, e).free == s.free
  {
    if Mapped(s.mem, d, v) { TableBounds(l, s.mem, s.dirs, s.free, d, v); }
  }

  lemma MapDir(l: Layout, s: Vm, d: nat, v: nat, e: nat)
    requires VmOk(l, s) && d in s.dirs && v < VPAGES && (Mapped(s.mem, d, v) || s.free != {})
    ensures var r := MapNext(s, d, v, e);
            && MemoryOk(r.mem)
            && (forall i :: 0 <= i < WORDS ==> Present(r.mem[d][i]) == (Present(s.mem[d][i]) || i == v / WORDS))
            && |r.free| == |s.free| - if Mapped(s.mem, d, v) then 0 else 1
  {
    MapSets(l, s, d, v, e);
    if Mapped(s.mem, d, v) {
      StoredDir(l, s, d, v, e);
    } else {
      WithTableKeeps(l, s, d, v / WORDS);
      WithTableDir(l, s, d, v / WORDS);
      StoredDir(l, WithTable(s, d, v / WORDS), d, v, e);
    }
  }

  lemma WithTableDir(l: Layout, s: Vm, d: nat, i: nat)
    requires VmOk(l, s) && d in s.dirs && i < WORDS && s.free != {}
    ensures var r, t := WithTable(s, d, i), Lowest(s.free) + FIRST_MANAGED;
            r.mem[d] == s.mem[d][i := t * 4096 + 3] && Present(t * 4096 + 3) && |r.free| == |s.free| - 1
  {
    var t := Lowest(s.free) + FIRST_MANAGED;
    assert !Taken(s.free, t);
    TableEntry(t * 4096);
  }

  /** From s0 to s the k pages from v on have been mapped: how many free pages that took, and which
      tables there are now. */
  ghost predicate Progress(l: Layout, s0: Vm, s: Vm, d: nat, v: nat, k: nat) {
    && VmOk(l, s0) && VmOk(l, s) && s.dirs == s0.dirs && d in s.dirs && v + k <= VPAGES
    && |s.free| + k + Missing(s0.mem, d, v, k) == |s0.free|
    && forall i :: 0 <= i < WORDS ==>
         Present(s.mem[d][i]) == (Present(s0.mem[d][i]) || (k > 0 && v / WORDS <= i <= (v + k - 1) / WORDS))
  }

  /** One more page fits exactly if the count says so, and then the count stays right. */
  lemma ProgressStep(l: Layout, s0: Vm, s: Vm, d: nat, v: nat, k: nat, w: nat, flags: nat)
    requires Progress(l, s0, s, d, v, k) && w == v + k < VPAGES
    ensures |s.free| >= Needed(s, d, w) <==> |s0.free| >= k + 1 + Missing(s0.mem, d, v, k + 1)
    ensures |s.free| >= Needed(s, d, w) ==> Progress(l, s0, AllocMapNext(s, d, w, flags), d, v, k + 1)
  {
    NeededNow(l, s0, s, d, v, k, w);
    if |s.free| >= Needed(s, d, w) {
      AllocMapDir(l, s, d, w, flags);
      ProgressKept(l, s0, s, AllocMapNext(s, d, w, flags), d, v, k, w);
    }
  }

  lemma NeededNow(l: Layout, s0: Vm, s: Vm, d: nat, v: nat, k: nat, w: nat)
    requires Progress(l, s0, s, d, v, k) && w == v + k < VPAGES
    ensures Needed(s, d, w) == 1 + Missing(s0.mem, d, v, k + 1) - Missing(s0.mem, d, v, k)
  {
    SameTableAsBefore(v, k);
    assert Mapped(s.mem, d, w) == (Mapped(s0.mem, d, w) || (k > 0 && w % WORDS != 0));
  }

  lemma AllocMapDir(l: Layout, s: Vm, d: nat, v: nat, flags: nat)
    requires VmOk(l, s) && d in s.dirs && v < VPAGES && |s.free| >= Needed(s, d, v)
    ensures var r := AllocMapNext(s, d, v, flags);
            && VmOk(l, r) && r.dirs == s.dirs && |r.free| == |s.free| - Needed(s, d, v)
            && forall i :: 0 <= i < WORDS ==> Present(r.mem[d][i]) == (Present(s.mem[d][i]) || i == v / WORDS)
  {
    AllocMapSets(l, s, d, v, flags);
    AllocMapIs(s, d, v, flags);
    TakeKeeps(l, s);
    MapDir(l, TakeNext(s), d, v, Entry(Lowest(s.free) + FIRST_MANAGED, flags));
  }

  lemma ProgressKept(l: Layout, s0: Vm, s: Vm, r: Vm, d: nat, v: nat, k: nat, w: nat)
    requires Progress(l, s0, s, d, v, k) && w == v + k < VPAGES
    requires VmOk(l, r) && r.dirs == s.dirs && |r.free| == |s.free| - Needed(s, d, w)
    requires forall i :: 0 <= i < WORDS ==> Present(r.mem[d][i]) == (Present(s.mem[d][i]) || i == w / WORDS)
    ensures Progress(l, s0, r, d, v, k + 1)
  {
    NeededNow(l, s0, s, d, v, k, w);
    SameTableAsBefore(v, k);
  }

  lemma SameTableAsBefore(v: nat, k: nat)
    ensures var w := v + k; k > 0 ==> (w / WORDS <= (w - 1) / WORDS <==> w % WORDS != 0)
    ensures k > 0 ==> v / WORDS <= (v + k - 1) / WORDS <= (v + k) / WORDS <= (v + k - 1) / WORDS + 1
    ensures v / WORDS <= (v + k) / WORDS
  {
  }

  /** The n pages from v on cannot all be mapped: they and the tables missing for them are more than
      the free pages. */
  ghost predicate Short(s: Vm, d: nat, v: nat, n: nat)
    requires MemoryOk(s.mem) && d < FRAMES
  {
    v + n > VPAGES || |s.free| < n + Missing(s.mem, d, v, n)
  }

  lemma ShortGrows(s: Vm, d: nat, v: nat, k: nat, n: nat)
    requires MemoryOk(s.mem) && d < FRAMES && k <= n && Short(s, d, v, k)
    ensures Short(s, d, v, n)
  {
    if v + n <= VPAGES { MissingGrows(s.mem, d, v, k, n); }
  }

  /** How many of the n pages from v on can be mapped, one after the other. */
  ghost function Reach(s: Vm, d: nat, v: nat, n: nat): (k: nat)
    requires MemoryOk(s.mem) && d < FRAMES && v <= VPAGES
    ensures k <= n && !Short(s, d, v, k) && (k < n ==> Short(s, d, v, k + 1))
  {
    if n == 0 || !Short(s, d, v, n) then n else Reach(s, d, v, n - 1)
  }

  lemma ReachIs(s: Vm, d: nat, v: nat, n: nat, k: nat)
    requires MemoryOk(s.mem) && d < FRAMES && v <= VPAGES
    requires k <= n && !Short(s, d, v, k) && (k < n ==> Short(s, d, v, k + 1))
    ensures Reach(s, d, v, n) == k
  {
    var r := Reach(s, d, v, n);
    if r < k { ShortGrows(s, d, v, r + 1, k); }
    if k < r { ShortGrows(s, d, v, k + 1, r); }
  }

  /** One turn of the loop of expand_heap, in a state with whole memory. */
  ghost function Turn(s: Vm, d: nat, v: nat): Vm {
    if MemoryOk(s.mem) && d < FRAMES && v < VPAGES && (forall p :: p in s.free ==> p < PAGES)
    then AllocMapNext(s, d, v, HEAP_FLAGS) else s
  }

  /** The loop of expand_heap after k turns that all succeed. */
  ghost function Extend(s: Vm, d: nat, v: nat, k: nat): Vm {
    if k == 0 then s else Turn(Extend(s, d, v, k - 1), d, v + k - 1)
  }

  lemma ExtendOneMore(s: Vm, d: nat, v: nat, k: nat, n: nat, w: nat)
    requires n == k + 1 && w == v + k
    ensures Extend(s, d, v, n) == Turn(Extend(s, d, v, k), d, w)
  {
  }

  lemma TurnIs(l: Layout, s: Vm, d: nat, v: nat)
    requires VmOk(l, s) && d in s.dirs && v < VPAGES
    ensures Turn(s, d, v) == AllocMapNext(s, d, v, HEAP_FLAGS)
  {
  }

  /** The loop stops after k pages exactly if k is as far as the free pages reach. It stops only with at most
      one page left. */
  lemma ShortExact(l: Layout, s0: Vm, s: Vm, d: nat, v: nat, k: nat, n: nat)
    requires Progress(l, s0, s, d, v, k) && k <= n
    ensures k == n ==> !Short(s0, d, v, n) && Reach(s0, d, v, n) == k
    ensures k < n && v + k < VPAGES && |s.free| < Needed(s, d, v + k) ==>
              Short(s0, d, v, n) && Reach(s0, d, v, n) == k && |s.free| <= 1
  {
    assert !Short(s0, d, v, k);
    if k == n {
      ReachIs(s0, d, v, n, k);
    } else if v + k < VPAGES && |s.free| < Needed(s, d, v + k) {
      ProgressStep(l, s0, s, d, v, k, v + k, HEAP_FLAGS);
      ReachIs(s0, d, v, n, k);
      ShortGrows(s0, d, v, k + 1, n);
    }
  }

  lemma BackedLess(l: Layout, s: Vm, d: nat, lo: nat, mid: nat, hi: nat)
    requires VmOk(l, s) && d in s.dirs && mid <= hi <= VPAGES && Backed(l, s, d, lo, hi)
    ensures Backed(l, s, d, lo, mid)
  {
  }

  /** The loop of expand_heap before its turn for page v + k: lo is the first page of the heap. */
  ghost predicate Expanding(l: Layout, s0: Vm, s: Vm, d: nat, lo: nat, v: nat, k: nat) {
    Progress(l, s0, s, d, v, k) && s == Extend(s0, d, v, k) && Backed(l, s, d, lo, v + k)
  }

  lemma ExpandingStep(l: Layout, s0: Vm, s: Vm, d: nat, lo: nat, v: nat, k: nat, w: nat, r: Vm, n: nat)
    requires Expanding(l, s0, s, d, lo, v, k) && LOW_PAGES <= lo <= v && w == v + k < VPAGES && n == k + 1
    requires |s.free| >= Needed(s, d, w) && r == AllocMapNext(s, d, w, HEAP_FLAGS)
    ensures Expanding(l, s0, r, d, lo, v, n)
  {
    ExtendOneMore(s0, d, v, k, n, w);
    TurnIs(l, s, d, w);
    ProgressStep(l, s0, s, d, v, k, w, HEAP_FLAGS);
    AllocMapBacks(l, s, d, lo, w, HEAP_FLAGS);
  }

  /** As far as the free pages reach, every turn of the loop succeeds. */
  lemma {:induction false} ExpandingTo(l: Layout, s: Vm, d: nat, lo: nat, v: nat, k: nat, r: Vm)
    requires VmOk(l, s) && d in s.dirs && LOW_PAGES <= lo <= v <= VPAGES && Backed(l, s, d, lo, v)
    requires !Short(s, d, v, k) && r == Extend(s, d, v, k)
    ensures Expanding(l, s, r, d, lo, v, k)
    decreases k
  {
    if k > 0 {
      var j, w := k - 1, v + k - 1;
      var before := Extend(s, d, v, j);
      LessFits(s, d, v, j, k);
      ExpandingTo(l, s, d, lo, v, j, before);
      ExtendOneMore(s, d, v, j, k, w);
      TurnIs(l, before, d, w);
      FitsNext(l, s, before, d, v, j, w);
      ExpandingStep(l, s, before, d, lo, v, j, w, r, k);
    }
  }

  lemma LessFits(s: Vm, d: nat, v: nat, j: nat, k: nat)
    requires MemoryOk(s.mem) && d < FRAMES && j <= k && !Short(s, d, v, k)
    ensures !Short(s, d, v, j)
  {
    MissingGrows(s.mem, d, v, j, k);
  }

  lemma FitsNext(l: Layout, s0: Vm, s: Vm, d: nat, v: nat, k: nat, w: nat)
    requires Progress(l, s0, s, d, v, k) && w == v + k && !Short(s0, d, v, k + 1)
    ensures w < VPAGES && |s.free| >= Needed(s, d, w)
  {
    ProgressStep(l, s0, s, d, v, k, w, HEAP_FLAGS);
  }

  /** There are pages to map page v. */
  predicate HasRoom(s: Vm, d: nat, v: nat) {
    MemoryOk(s.mem) && d < FRAMES && v < VPAGES && |s.free| >= Needed(s, d, v)
  }

  /** From s to r page v has been mapped. */
  ghost predicate Turned(s: Vm, d: nat, v: nat, r: Vm) {
    HasRoom(s, d, v) && r == Turn(s, d, v)
  }

  /** The states that the loop goes through, from page v on. */
  ghost predicate Turns(tr: seq<Vm>, d: nat, v: nat) {
    tr != [] && forall i :: 0 <= i < |tr| - 1 ==> Turned(tr[i], d, v + i, tr[i + 1])
  }

  lemma TurnsOneMore(tr: seq<Vm>, d: nat, v: nat, w: nat, r: Vm)
    requires Turns(tr, d, v) && w == v + |tr| - 1 && Turned(tr[|tr| - 1], d, w, r)
    ensures Turns(tr + [r], d, v)
  {
    var tr' := tr + [r];
    forall i | 0 <= i < |tr'| - 1 ensures Turned(tr'[i], d, v + i, tr'[i + 1]) {
      assert i < |tr| - 1 ==> Turned(tr[i], d, v + i, tr[i + 1]);
    }
  }

  /** The loop goes on no further than the free pages reach. */
  lemma {:induction false} TurnsFit(l: Layout, tr: seq<Vm>, d: nat, lo: nat, v: nat, k: nat)
    requires Turns(tr, d, v) && VmOk(l, tr[0]) && d in tr[0].dirs
    requires LOW_PAGES <= lo <= v <= VPAGES && Backed(l, tr[0], d, lo, v) && k < |tr|
    ensures !Short(tr[0], d, v, k) && tr[k] == Extend(tr[0], d, v, k)
    decreases k
  {
    if k > 0 {
      var j, w := k - 1, v + k - 1;
      TurnsFit(l, tr, d, lo, v, j);
      assert Turned(tr[j], d, v + j, tr[j + 1]);
      TurnFits(l, tr[0], d, lo, v, j, k, w, tr[j], tr[k]);
    }
  }

  lemma TurnFits(l: Layout, s0: Vm, d: nat, lo: nat, v: nat, j: nat, k: nat, w: nat, s: Vm, r: Vm)
    requires VmOk(l, s0) && d in s0.dirs && LOW_PAGES <= lo <= v <= VPAGES && Backed(l, s0, d, lo, v)
    requires !Short(s0, d, v, j) && s == Extend(s0, d, v, j) && k == j + 1 && w == v + j && Turned(s, d, w, r)
    ensures !Short(s0, d, v, k) && r == Extend(s0, d, v, k)
  {
    ExpandingTo(l, s0, d, lo, v, j, s);
    ProgressStep(l, s0, s, d, v, j, w, HEAP_FLAGS);
    ExtendOneMore(s0, d, v, j, k, w);
  }

  /** And exactly that far. */
  lemma TurnsReach(l: Layout, tr: seq<Vm>, d: nat, lo: nat, v: nat, n: nat)
    requires Turns(tr, d, v) && VmOk(l, tr[0]) && d in tr[0].dirs
    requires LOW_PAGES <= lo <= v && v + |tr[0].free| < VPAGES && Backed(l, tr[0], d, lo, v)
    requires |tr| - 1 <= n && (|tr| - 1 < n ==> !HasRoom(tr[|tr| - 1], d, v + |tr| - 1))
    ensures Reach(tr[0], d, v, n) == |tr| - 1 && (|tr| - 1 == n <==> !Short(tr[0], d, v, n))
    ensures tr[|tr| - 1] == Extend(tr[0], d, v, |tr| - 1)
  {
    var k := |tr| - 1;
    TurnsFit(l, tr, d, lo, v, k);
    ExpandingTo(l, tr[0], d, lo, v, k, tr[k]);
    ShortExact(l, tr[0], tr[k], d, v, k, n);
  }

  /** From s to s' the heap wanted n pages from v on, in directory d, and now ends at page v'. */
  ghost predicate Grew(l: Layout, s: Vm, d: nat, v: nat, n: nat, s': Vm, v': nat) {
    && VmOk(l, s) && d in s.dirs && v <= VPAGES
    && var k := Reach(s, d, v, n);
       s' == Extend(s, d, v, k) && v' == if k == n then v + n else v
  }

  lemma GrewNothing(l: Layout, s: Vm, d: nat, v: nat)
    requires VmOk(l, s) && d in s.dirs && v <= VPAGES
    ensures Grew(l, s, d, v, 0, s, v)
  {
  }

  /** Growing, whether it succeeds or fails half way, keeps the heap backed up to its end. */
  lemma GrewBacked(l: Layout, s: Vm, d: nat, lo: nat, v: nat, n: nat, s': Vm, v': nat)
    requires Grew(l, s, d, v, n, s', v') && LOW_PAGES <= lo <= v && Backed(l, s, d, lo, v)
    ensures VmOk(l, s') && d in s'.dirs && v <= v' <= VPAGES && Backed(l, s', d, lo, v')
  {
    var k := Reach(s, d, v, n);
    ExpandingTo(l, s, d, lo, v, k, s');
    BackedLess(l, s', d, lo, v', v + k);
  }

  /** How many free pages it takes to map as many of the n pages from v on as there are pages for. */
  ghost function Costs(s: Vm, d: nat, v: nat, n: nat): nat
    requires MemoryOk(s.mem) && d < FRAMES && v <= VPAGES
  {
    var k := Reach(s, d, v, n);
    k + Missing(s.mem, d, v, k)
  }

  /** What a growth costs: the pages it maps and the tables they need. If it fails it has used up all pages
      but at most one; it costs nothing exactly when not even the first page can be mapped. */
  lemma GrewCosts(l: Layout, s: Vm, d: nat, lo: nat, v: nat, n: nat, s': Vm, v': nat)
    requires Grew(l, s, d, v, n, s', v') && LOW_PAGES <= lo <= v && Backed(l, s, d, lo, v) && v + |s.free| < VPAGES
    ensures |s'.free| + Costs(s, d, v, n) == |s.free|
    ensures Short(s, d, v, n) ==> |s'.free| <= 1
    ensures |s'.free| == |s.free| <==> n == 0 || |s.free| < Needed(s, d, v)
  {
    var k := Reach(s, d, v, n);
    ExpandingTo(l, s, d, lo, v, k, s');
    if k < n {
      ProgressStep(l, s, s', d, v, k, v + k, HEAP_FLAGS);
    }
    NeededFirst(s, d, v);
  }

  /** All of this about the states that the loop goes through when the heap wants n pages. */
  lemma GrewResult(l: Layout, tr: seq<Vm>, s: Vm, d: nat, lo: nat, v: nat, n: nat, s': Vm, v': nat)
    requires Turns(tr, d, v) && s == tr[0] && VmOk(l, s) && d in s.dirs && s' == tr[|tr| - 1]
    requires LOW_PAGES <= lo <= v && v + |s.free| < VPAGES && Backed(l, s, d, lo, v)
    requires |tr| - 1 <= n && (|tr| - 1 < n ==> !HasRoom(s', d, v + |tr| - 1))
    requires v' == if |tr| - 1 == n then v + n else v
    ensures Grew(l, s, d, v, n, s', v') && (|tr| - 1 == n <==> !Short(s, d, v, n))
    ensures VmOk(l, s') && d in s'.dirs && v <= v' <= VPAGES && v' - lo <= PAGES
    ensures Backed(l, s', d, lo, v) && Backed(l, s', d, lo, v')
    ensures |s'.free| + Costs(s, d, v, n) == |s.free| && (Short(s, d, v, n) ==> |s'.free| <= 1)
    ensures |s'.free| == |s.free| <==> n == 0 || Short(s, d, v, 1)
  {
    TurnsReach(l, tr, d, lo, v, n);
    GrewBacked(l, s, d, lo, v, n, s', v');
    BackedCounts(l, s', d, lo, v');
    BackedLess(l, s', d, lo, v, v');
    GrewCosts(l, s, d, lo, v, n, s', v');
    NeededFirst(s, d, v);
  }

  lemma NeededFirst(s: Vm, d: nat, v: nat)
    requires MemoryOk(s.mem) && d < FRAMES && v < VPAGES
    ensures Short(s, d, v, 1) <==> |s.free| < Needed(s, d, v)
  {
    assert Missing(s.mem, d, v, 1) == Missing(s.mem, d, v, 0) + if !Mapped(s.mem, d, v) then 1 else 0;
  }

  lemma AllocMapElsewhere(l: Layout, s: Vm, d: nat, v: nat, r: Vm, d': nat, w: nat)
    requires VmOk(l, s) && d in s.dirs && LOW_PAGES <= v < VPAGES && r == AllocMapNext(s, d, v, HEAP_FLAGS)
    requires d' in s.dirs && w < VPAGES && (d' != d || w != v)
    ensures VmOk(l, r) && r.dirs == s.dirs && At(l, r, d', w) == At(l, s, d', w)
  {
    AllocMapSets(l, s, d, v, HEAP_FLAGS);
  }

  /** The pages that a growth maps are mapped in the directory in use and in no other. */
  lemma {:induction false} ExtendElsewhere(l: Layout, s: Vm, d: nat, v: nat, k: nat, r: Vm, d': nat, w: nat)
    requires VmOk(l, s) && d in s.dirs && LOW_PAGES <= v && v + k <= VPAGES && r == Extend(s, d, v, k)
    requires d' in s.dirs && w < VPAGES && (d' != d || w < v || v + k <= w)
    ensures VmOk(l, r) && r.dirs == s.dirs && At(l, r, d', w) == At(l, s, d', w)
    decreases k
  {
    if k > 0 {
      var before, x := Extend(s, d, v, k - 1), v + k - 1;
      ExtendElsewhere(l, s, d, v, k - 1, before, d', w);
      ExtendOneMore(s, d, v, k - 1, k, x);
      TurnIs(l, before, d, x);
      AllocMapElsewhere(l, before, d, x, r, d', w);
    }
  }
}
