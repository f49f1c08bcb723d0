/** Runs of the virtual memory manager, with every store it makes (kernel/memory/vmm.c). */
module PagingRuns {
  import opened PageBitmap
  import opened Paging

  /** Physical memory, the frames that are page directories, and the free pages. */
  datatype Vm = Vm(mem: Memory, dirs: set<nat>, free: set<nat>)

  ghost predicate VmOk(l: Layout, s: Vm) {
    Structure(l, s.mem, s.dirs, s.free) && forall p :: p in s.free ==> p < PAGES
  }

  /** The entry of virtual page v in directory d. */
  ghost function At(l: Layout, s: Vm, d: nat, v: nat): nat
    requires VmOk(l, s) && d in s.dirs && v < VPAGES
  {
    Pte(l, s.mem, s.dirs, s.free, d, v)
  }

  lemma {:induction false} LowestExists(free: set<nat>) returns (p: nat)
    requires free != {}
    ensures IsLowest(p, free)
    decreases |free|
  {
    var q :| q in free;
    if free == {q} {
      p := q;
    } else {
      var r := LowestExists(free - {q});
      p := if q < r then q else r;
      forall x | x in free ensures p <= x {
        if x != q { assert x in free - {q}; }
      }
    }
  }

  ghost function Lowest(free: set<nat>): (p: nat)
    requires free != {}
    ensures IsLowest(p, free)
  {
    assert exists p: nat :: IsLowest(p, free) by { var p := LowestExists(free); }
    var p: nat :| IsLowest(p, free);
    p
  }

  // ---------------------------------------------------------------- the operations

  /** pmm_alloc_page for a page that is neither directory nor table. */
  ghost function TakeNext(s: Vm): Vm {
    if s.free == {} then s else s.(free := s.free - {Lowest(s.free)})
  }

  /** The part of vmm_map_page that makes a page table. */
  ghost function WithTable(s: Vm, d: nat, i: nat): Vm
    requires MemoryOk(s.mem) && d < FRAMES && i < WORDS && s.free != {} && Lowest(s.free) < PAGES
  {
    var t := Lowest(s.free) + FIRST_MANAGED;
    Vm(Put(s.mem[t := Zeros()], d, i, t * 4096 + 3), s.dirs, s.free - {Lowest(s.free)})
  }

  /** The store of a table entry, if there is a table. */
  function Stored(s: Vm, d: nat, v: nat, e: nat): Vm
    requires MemoryOk(s.mem) && d < FRAMES && v < VPAGES
  {
    if Mapped(s.mem, d, v) && TableOf(s.mem, d, v) < FRAMES
    then s.(mem := Put(s.mem, TableOf(s.mem, d, v), v % WORDS, e)) else s
  }

  /** vmm_map_page */
  ghost function MapNext(s: Vm, d: nat, v: nat, e: nat): Vm
    requires MemoryOk(s.mem) && d < FRAMES && v < VPAGES && (s.free != {} ==> Lowest(s.free) < PAGES)
  {
    if Mapped(s.mem, d, v) then Stored(s, d, v, e)
    else if s.free == {} then s
    else Stored(WithTable(s, d, v / WORDS), d, v, e)
  }

  /** How many pages vmm_alloc_map_page needs. */
  function Needed(s: Vm, d: nat, v: nat): nat
    requires MemoryOk(s.mem) && d < FRAMES && v < VPAGES
  {
    if Mapped(s.mem, d, v) then 1 else 2
  }

  /** vmm_alloc_map_page */
  ghost function AllocMapNext(s: Vm, d: nat, v: nat, flags: nat): Vm
    requires MemoryOk(s.mem) && d < FRAMES && v < VPAGES && forall p :: p in s.free ==> p < PAGES
  {
    if |s.free| < Needed(s, d, v) then s
    else MapNext(TakeNext(s), d, v, Entry(Lowest(s.free) + FIRST_MANAGED, flags))
  }

  /** One turn of the loop of vmm_mark_user_range. */
  function MarkIf(mem: Memory, d: nat, v: nat): (r: Memory)
    requires MemoryOk(mem) && d < FRAMES && v < VPAGES
    ensures MemoryOk(r)
  {
    if Mapped(mem, d, v) && TableOf(mem, d, v) < FRAMES then MarkOne(mem, d, v) else mem
  }

  function Marked(mem: Memory, d: nat, lo: nat, hi: nat): (r: Memory)
    requires MemoryOk(mem) && d < FRAMES && hi <= VPAGES
    ensures MemoryOk(r)
    decreases hi
  {
    if hi <= lo then mem else MarkIf(Marked(mem, d, lo, hi - 1), d, hi - 1)
  }

  /** vmm_create_address_space */
  ghost function SpaceNext(l: Layout, s: Vm): Vm
    requires MemoryOk(s.mem) && l.Ok() && (s.free != {} ==> Lowest(s.free) < PAGES)
  {
    if s.free == {} then s else
      var d := Lowest(s.free) + FIRST_MANAGED;
      Vm(s.mem[d := NewDir(s.mem, l.kdir)], s.dirs + {d}, s.free - {Lowest(s.free)})
  }

  datatype VmOp =
    | MapOp(d: nat, v: nat, e: nat)
    | UnmapOp(d: nat, v: nat)
    | AllocMapOp(d: nat, v: nat, flags: nat)
    | MarkOp(d: nat, lo: nat, hi: nat)
    | SpaceOp
    | TakeOp
    | GiveOp(p: nat)

  /** Page p is used neither as a directory nor as a page table. */
  ghost predicate Plain(l: Layout, s: Vm, p: nat)
    requires MemoryOk(s.mem) && forall d :: d in s.dirs ==> d < FRAMES
  {
    && p < PAGES && p + FIRST_MANAGED !in s.dirs && !l.IsLowTable(p + FIRST_MANAGED)
    && forall d, i :: d in s.dirs && 0 <= i < WORDS && HasTable(s.mem, d, i) ==>
         FrameOf(s.mem[d][i]) != p + FIRST_MANAGED
  }

  /** Operations work on an address space that exists, and no directory or table is freed. */
  ghost predicate Legal(l: Layout, s: Vm, op: VmOp)
    requires VmOk(l, s)
  {
    match op
    case MapOp(d, v, _) => d in s.dirs && v < VPAGES
    case UnmapOp(d, v) => d in s.dirs && v < VPAGES
    case AllocMapOp(d, v, _) => d in s.dirs && v < VPAGES
    case MarkOp(d, lo, hi) => d in s.dirs && hi <= VPAGES
    case SpaceOp => true
    case TakeOp => true
    case GiveOp(p) => Plain(l, s, p)
  }

  ghost function Next(l: Layout, s: Vm, op: VmOp): Vm
    requires VmOk(l, s) && Legal(l, s, op)
  {
    match op
    case MapOp(d, v, e) => MapNext(s, d, v, e)
    case UnmapOp(d, v) => Stored(s, d, v, 0)
    case AllocMapOp(d, v, flags) => AllocMapNext(s, d, v, flags)
    case MarkOp(d, lo, hi) => s.(mem := Marked(s.mem, d, lo, hi))
    case SpaceOp => SpaceNext(l, s)
    case TakeOp => TakeNext(s)
    case GiveOp(p) => s.(free := s.free + {p})
  }

  // ---------------------------------------------------------------- what one operation does

  /** The flat map of s changes to that of s' at the pages that share the entry of (d, v), to e. */
  ghost predicate Sets(l: Layout, s: Vm, s': Vm, d: nat, v: nat, e: nat) {
    && VmOk(l, s) && VmOk(l, s') && s'.dirs == s.dirs
    && forall d', v' :: d' in s.dirs && 0 <= v' < VPAGES ==>
         At(l, s', d', v') == if Shared(d, v, d', v') then e else At(l, s, d', v')
  }

  /** The address spaces of s have the same pages in s'. */
  ghost predicate Keeps(l: Layout, s: Vm, s': Vm) {
    && VmOk(l, s) && VmOk(l, s') && s.dirs <= s'.dirs
    && forall d', v' :: d' in s.dirs && 0 <= v' < VPAGES ==> At(l, s', d', v') == At(l, s, d', v')
  }

  lemma SetsMap(l: Layout, s: Vm, s': Vm, d: nat, v: nat, e: nat)
    requires Sets(l, s, s', d, v, e)
    ensures MapSet(l, s.dirs, s.mem, s.free, s'.mem, s'.free, d, v, e)
  {
  }

  lemma KeepsThenSets(l: Layout, s: Vm, s1: Vm, s2: Vm, d: nat, v: nat, e: nat)
    requires Keeps(l, s, s1) && s1.dirs == s.dirs && Sets(l, s1, s2, d, v, e)
    ensures Sets(l, s, s2, d, v, e)
  {
  }

  lemma StoredSets(l: Layout, s: Vm, d: nat, v: nat, e: nat)
    requires VmOk(l, s) && d in s.dirs && v < VPAGES && Mapped(s.mem, d, v)
    ensures Sets(l, s, Stored(s, d, v, e), d, v, e)
  {
    PutPte(l, s.mem, s.dirs, s.free, d, v, e);
  }

  /** Without a table there is nothing to unmap. */
  lemma UnmapSets(l: Layout, s: Vm, d: nat, v: nat)
    requires VmOk(l, s) && d in s.dirs && v < VPAGES
    ensures Sets(l, s, Stored(s, d, v, 0), d, v, 0)
  {
    if Mapped(s.mem, d, v) { StoredSets(l, s, d, v, 0); } else { assert v / WORDS >= LOW_TABLES; }
  }

  lemma TakeKeeps(l: Layout, s: Vm)
    requires VmOk(l, s)
    ensures Keeps(l, s, TakeNext(s)) && TakeNext(s).dirs == s.dirs
  {
    TakingKeepsMap(l, s.dirs, s.mem, s.free, TakeNext(s).free);
  }

  lemma WithTableKeeps(l: Layout, s: Vm, d: nat, i: nat)
    requires VmOk(l, s) && d in s.dirs && LOW_TABLES <= i < WORDS && !Present(s.mem[d][i]) && s.free != {}
    ensures var r := WithTable(s, d, i); Keeps(l, s, r) && r.dirs == s.dirs && Present(r.mem[d][i])
  {
    var t := Lowest(s.free) + FIRST_MANAGED;
    TableEntry(t * 4096);
    AddTable(l, s.mem, s.dirs, s.free, d, i, t, t * 4096 + 3);
  }

  /** vmm_map_page sets the entry, unless a table is missing and no page is free. */
  lemma MapSets(l: Layout, s: Vm, d: nat, v: nat, e: nat)
    requires VmOk(l, s) && d in s.dirs && v < VPAGES
    ensures if Mapped(s.mem, d, v) || s.free != {} then Sets(l, s, MapNext(s, d, v, e), d, v, e)
            else MapNext(s, d, v, e) == s
  {
    if Mapped(s.mem, d, v) {
      StoredSets(l, s, d, v, e);
    } else if s.free != {} {
      WithTableKeeps(l, s, d, v / WORDS);
      var s1 := WithTable(s, d, v / WORDS);
      StoredSets(l, s1, d, v, e);
      KeepsThenSets(l, s, s1, Stored(s1, d, v, e), d, v, e);
    }
  }

  lemma TakeCounts(s: Vm)
    requires s.free != {}
    ensures |TakeNext(s).free| == |s.free| - 1
  {
  }

  /** vmm_alloc_map_page maps the lowest free page, or does nothing if the pages do not suffice. */
  lemma AllocMapSets(l: Layout, s: Vm, d: nat, v: nat, flags: nat)
    requires VmOk(l, s) && d in s.dirs && v < VPAGES
    ensures if |s.free| >= Needed(s, d, v)
            then s.free != {} &&
                 Sets(l, s, AllocMapNext(s, d, v, flags), d, v, Entry(Lowest(s.free) + FIRST_MANAGED, flags))
            else AllocMapNext(s, d, v, flags) == s
  {
    if |s.free| >= Needed(s, d, v) {
      AllocMapIs(s, d, v, flags);
      TakeThenMap(l, s, d, v, Entry(Lowest(s.free) + FIRST_MANAGED, flags));
    }
  }

  lemma AllocMapIs(s: Vm, d: nat, v: nat, flags: nat)
    requires MemoryOk(s.mem) && d < FRAMES && v < VPAGES && (forall p :: p in s.free ==> p < PAGES)
    requires |s.free| >= Needed(s, d, v)
    ensures s.free != {} && TakeNext(s).free == s.free - {Lowest(s.free)} && |TakeNext(s).free| == |s.free| - 1
    ensures AllocMapNext(s, d, v, flags) == MapNext(TakeNext(s), d, v, Entry(Lowest(s.free) + FIRST_MANAGED, flags))
  {
  }

  lemma TakeThenMap(l: Layout, s: Vm, d: nat, v: nat, e: nat)
    requires VmOk(l, s) && d in s.dirs && v < VPAGES && |s.free| >= Needed(s, d, v)
    ensures VmOk(l, TakeNext(s)) && Sets(l, s, MapNext(TakeNext(s), d, v, e), d, v, e)
  {
    var s1 := TakeNext(s);
    TakeKeeps(l, s);
    TakeCounts(s);
    MapSets(l, s1, d, v, e);
    KeepsThenSets(l, s, s1, MapNext(s1, d, v, e), d, v, e);
  }

  lemma {:induction false} MarkedSets(l: Layout, s: Vm, d: nat, lo: nat, hi: nat, r: Memory)
    requires VmOk(l, s) && d in s.dirs && hi <= VPAGES && r == Marked(s.mem, d, lo, hi)
    ensures UserMarked(l, s.dirs, s.free, s.mem, r, d, lo, hi)
    decreases hi
  {
    if hi <= lo {
      MarkedNothing(l, s, d, lo, hi);
    } else {
      var v := hi - 1;
      var mem := Marked(s.mem, d, lo, v);
      MarkedSets(l, s, d, lo, v, mem);
      MarkedOneMore(s.mem, d, lo, v, hi);
      MarkIfSets(l, s.dirs, s.free, s.mem, mem, r, d, lo, v, hi);
    }
  }

  lemma MarkedOneMore(mem: Memory, d: nat, lo: nat, v: nat, w: nat)
    requires MemoryOk(mem) && d < FRAMES && lo <= v < VPAGES && w == v + 1
    ensures Marked(mem, d, lo, w) == MarkIf(Marked(mem, d, lo, v), d, v)
  {
  }

  lemma MarkIfSets(l: Layout, dirs: set<nat>, free: set<nat>, mem0: Memory, mem: Memory, r: Memory,
                   d: nat, lo: int, v: nat, w: nat)
    requires UserMarked(l, dirs, free, mem0, mem, d, lo, v) && lo <= v < VPAGES && w == v + 1
    requires r == MarkIf(mem, d, v)
    ensures UserMarked(l, dirs, free, mem0, r, d, lo, w)
  {
    if Mapped(mem, d, v) { MarkOneSets(l, dirs, free, mem, d, v); }
    MarkStep(l, dirs, free, mem0, mem, r, d, lo, v);
  }

  lemma MarkedNothing(l: Layout, s: Vm, d: nat, lo: nat, hi: nat)
    requires VmOk(l, s) && d in s.dirs && hi <= lo
    ensures UserMarked(l, s.dirs, s.free, s.mem, s.mem, d, lo, hi)
  {
  }

  lemma MarkedStructure(l: Layout, s: Vm, d: nat, lo: nat, hi: nat)
    requires VmOk(l, s) && d in s.dirs && hi <= VPAGES
    ensures Structure(l, Marked(s.mem, d, lo, hi), s.dirs, s.free)
  {
    MarkedSets(l, s, d, lo, hi, Marked(s.mem, d, lo, hi));
  }

  /** While pages are being marked, every table stays where it is. */
  lemma MarkedBounds(l: Layout, s: Vm, d: nat, lo: nat, v: nat)
    requires VmOk(l, s) && d in s.dirs && v < VPAGES
    ensures var mem := Marked(s.mem, d, lo, v); Mapped(mem, d, v) ==> TableOf(mem, d, v) < FRAMES
  {
    MarkedStructure(l, s, d, lo, v);
    var mem := Marked(s.mem, d, lo, v);
    if Mapped(mem, d, v) { TableBounds(l, mem, s.dirs, s.free, d, v); }
  }

  lemma SpaceKeeps(l: Layout, s: Vm)
    requires VmOk(l, s)
    ensures Keeps(l, s, SpaceNext(l, s))
  {
    if s.free != {} { AddDir(l, s.mem, s.dirs, s.free, Lowest(s.free) + FIRST_MANAGED); }
  }

  /** Freeing a page that is no directory and no table leaves all address spaces alone. */
  lemma GiveKeeps(l: Layout, s: Vm, p: nat)
    requires VmOk(l, s) && Plain(l, s, p)
    ensures Keeps(l, s, s.(free := s.free + {p}))
  {
    var free' := s.free + {p};
    forall x | Taken(s.free, x) && x != p + FIRST_MANAGED ensures Taken(free', x) {}
    assert Structure(l, s.mem, s.dirs, free');
  }

  /** Every operation keeps the tables sound. */
  lemma NextOk(l: Layout, s: Vm, op: VmOp)
    requires VmOk(l, s) && Legal(l, s, op)
    ensures VmOk(l, Next(l, s, op)) && s.dirs <= Next(l, s, op).dirs
  {
    match op
    case MapOp(d, v, e) => MapSets(l, s, d, v, e);
    case UnmapOp(d, v) => UnmapSets(l, s, d, v);
    case AllocMapOp(d, v, flags) => AllocMapSets(l, s, d, v, flags);
    case MarkOp(d, lo, hi) => MarkedSets(l, s, d, lo, hi, Marked(s.mem, d, lo, hi));
    case SpaceOp => SpaceKeeps(l, s);
    case TakeOp => TakeKeeps(l, s);
    case GiveOp(p) => GiveKeeps(l, s, p);
  }

  // ---------------------------------------------------------------- runs

  ghost predicate LegalRun(l: Layout, s: Vm, ops: seq<VmOp>)
    requires VmOk(l, s)
    decreases |ops|
  {
    ops == [] || (Legal(l, s, ops[0]) && (NextOk(l, s, ops[0]); LegalRun(l, Next(l, s, ops[0]), ops[1..])))
  }

  /** The state after a run of operations. Only the first state is known to be sound. */
  ghost function Run(l: Layout, s: Vm, ops: seq<VmOp>): (r: Vm)
    requires VmOk(l, s) && LegalRun(l, s, ops)
    ensures VmOk(l, r)
    decreases |ops|
  {
    if ops == [] then s else
      NextOk(l, s, ops[0]);
      Run(l, Next(l, s, ops[0]), ops[1..])
  }

  /** After every run all address spaces agree on every page below 80MB. */
  lemma {:induction false} LowPagesAgree(l: Layout, s: Vm, ops: seq<VmOp>, d: nat, d': nat, v: nat)
    requires VmOk(l, s) && LegalRun(l, s, ops)
    requires d in Run(l, s, ops).dirs && d' in Run(l, s, ops).dirs && v < LOW_PAGES
    ensures At(l, Run(l, s, ops), d, v) == At(l, Run(l, s, ops), d', v)
  {
    var r := Run(l, s, ops);
    TableBounds(l, r.mem, r.dirs, r.free, d, v);
    TableBounds(l, r.mem, r.dirs, r.free, d', v);
  }

  /** The operation writes into directory d or a table of it. */
  predicate WorksOn(op: VmOp, d: nat) {
    (op.MapOp? || op.UnmapOp? || op.AllocMapOp? || op.MarkOp?) && op.d == d
  }

  lemma StepIsolated(l: Layout, s: Vm, op: VmOp, d: nat, v: nat)
    requires VmOk(l, s) && Legal(l, s, op) && d in s.dirs && LOW_PAGES <= v < VPAGES && !WorksOn(op, d)
    ensures VmOk(l, Next(l, s, op)) && d in Next(l, s, op).dirs && At(l, Next(l, s, op), d, v) == At(l, s, d, v)
  {
    match op
    case MapOp(d', v', e) => MapSets(l, s, d', v', e);
    case UnmapOp(d', v') => UnmapSets(l, s, d', v');
    case AllocMapOp(d', v', flags) => AllocMapSets(l, s, d', v', flags);
    case MarkOp(d', lo, hi) => MarkedSets(l, s, d', lo, hi, Marked(s.mem, d', lo, hi));
    case SpaceOp => SpaceKeeps(l, s);
    case TakeOp => TakeKeeps(l, s);
    case GiveOp(p) => GiveKeeps(l, s, p);
  }

  /** Over every run, what is done in other address spaces, or with pages, never changes what an
      address space maps above 80MB. */
  lemma {:induction false} SpacesIsolated(l: Layout, s: Vm, ops: seq<VmOp>, d: nat, v: nat)
    requires VmOk(l, s) && LegalRun(l, s, ops) && d in s.dirs && LOW_PAGES <= v < VPAGES
    requires forall i :: 0 <= i < |ops| ==> !WorksOn(ops[i], d)
    ensures d in Run(l, s, ops).dirs && At(l, Run(l, s, ops), d, v) == At(l, s, d, v)
    decreases |ops|
  {
    if ops != [] {
      StepIsolated(l, s, ops[0], d, v);
      SpacesIsolated(l, Next(l, s, ops[0]), ops[1..], d, v);
    }
  }

  // ---------------------------------------------------------------- low memory over runs

  /** The operation maps low pages only to themselves, and unmaps none. */
  predicate LowToItself(op: VmOp) {
    match op
    case MapOp(_, v, e) => v >= LOW_PAGES || MapsTo(e, v)
    case UnmapOp(_, v) => v >= LOW_PAGES
    case AllocMapOp(_, v, _) => v >= LOW_PAGES
    case _ => true
  }

  lemma StoredIdentity(l: Layout, s: Vm, d: nat, v: nat, e: nat)
    requires VmOk(l, s) && Identity(l, s.mem) && d in s.dirs && v < VPAGES && (v >= LOW_PAGES || MapsTo(e, v))
    ensures Identity(l, Stored(s, d, v, e).mem)
  {
    if Mapped(s.mem, d, v) { IdentityKept(l, s.mem, s.dirs, s.free, d, v, e); }
  }

  lemma WithTableIdentity(l: Layout, s: Vm, d: nat, i: nat)
    requires VmOk(l, s) && Identity(l, s.mem) && d in s.dirs && i < WORDS && s.free != {}
    ensures Identity(l, WithTable(s, d, i).mem)
  {
    var t := Lowest(s.free) + FIRST_MANAGED;
    FreshFrameKeepsIdentity(l, s.mem, s.dirs, s.free, t, Zeros());
    PutPdeKeepsIdentity(l, s.mem[t := Zeros()], d, i, t * 4096 + 3);
  }

  lemma MapIdentity(l: Layout, s: Vm, d: nat, v: nat, e: nat)
    requires VmOk(l, s) && Identity(l, s.mem) && d in s.dirs && v < VPAGES && (v >= LOW_PAGES || MapsTo(e, v))
    ensures Identity(l, MapNext(s, d, v, e).mem)
  {
    if Mapped(s.mem, d, v) {
      StoredIdentity(l, s, d, v, e);
    } else if s.free != {} {
      WithTableKeeps(l, s, d, v / WORDS);
      WithTableIdentity(l, s, d, v / WORDS);
      StoredIdentity(l, WithTable(s, d, v / WORDS), d, v, e);
    }
  }

  lemma {:induction false} MarkedIdentity(l: Layout, s: Vm, d: nat, lo: nat, hi: nat, r: Memory)
    requires VmOk(l, s) && Identity(l, s.mem) && d in s.dirs && hi <= VPAGES && r == Marked(s.mem, d, lo, hi)
    ensures Identity(l, r)
    decreases hi
  {
    if lo < hi {
      var v := hi - 1;
      var mem := Marked(s.mem, d, lo, v);
      MarkedIdentity(l, s, d, lo, v, mem);
      MarkedStructure(l, s, d, lo, v);
      MarkedOneMore(s.mem, d, lo, v, hi);
      MarkIfIdentity(l, s.dirs, s.free, mem, d, v, r);
    }
  }

  lemma MarkIfIdentity(l: Layout, dirs: set<nat>, free: set<nat>, mem: Memory, d: nat, v: nat, r: Memory)
    requires Structure(l, mem, dirs, free) && Identity(l, mem) && d in dirs && v < VPAGES && r == MarkIf(mem, d, v)
    ensures Identity(l, r)
  {
    if Mapped(mem, d, v) { MarkOneKeepsIdentity(l, dirs, free, mem, d, v); }
  }

  lemma AllocMapIdentity(l: Layout, s: Vm, d: nat, v: nat, flags: nat)
    requires VmOk(l, s) && Identity(l, s.mem) && d in s.dirs && LOW_PAGES <= v < VPAGES
    ensures Identity(l, AllocMapNext(s, d, v, flags).mem)
  {
    if |s.free| >= Needed(s, d, v) {
      TakeKeeps(l, s);
      MapIdentity(l, TakeNext(s), d, v, Entry(Lowest(s.free) + FIRST_MANAGED, flags));
    }
  }

  lemma NextIdentity(l: Layout, s: Vm, op: VmOp)
    requires VmOk(l, s) && Identity(l, s.mem) && Legal(l, s, op) && LowToItself(op)
    ensures Identity(l, Next(l, s, op).mem)
  {
    match op
    case MapOp(d, v, e) => MapIdentity(l, s, d, v, e);
    case UnmapOp(d, v) => StoredIdentity(l, s, d, v, 0);
    case AllocMapOp(d, v, flags) => AllocMapIdentity(l, s, d, v, flags);
    case MarkOp(d, lo, hi) => MarkedIdentity(l, s, d, lo, hi, Marked(s.mem, d, lo, hi));
    case SpaceOp =>
      if s.free != {} {
        FreshFrameKeepsIdentity(l, s.mem, s.dirs, s.free, Lowest(s.free) + FIRST_MANAGED, NewDir(s.mem, l.kdir));
      }
    case TakeOp =>
    case GiveOp(p) =>
  }

  /** Over every run that maps low pages only to themselves, a physical address used as a pointer
      reaches its frame, in every address space. */
  lemma {:induction false} EveryRunReachesFrames(l: Layout, s: Vm, ops: seq<VmOp>, d: nat, p: nat)
    requires VmOk(l, s) && Identity(l, s.mem) && LegalRun(l, s, ops)
    requires forall i :: 0 <= i < |ops| ==> LowToItself(ops[i])
    requires d in Run(l, s, ops).dirs && p < FRAMES
    ensures Identity(l, Run(l, s, ops).mem) && MapsTo(At(l, Run(l, s, ops), d, p), p)
    decreases |ops|
  {
    if ops == [] {
      PointersReachFrames(l, s.mem, s.dirs, s.free, d, p);
    } else {
      NextOk(l, s, ops[0]);
      NextIdentity(l, s, ops[0]);
      EveryRunReachesFrames(l, Next(l, s, ops[0]), ops[1..], d, p);
    }
  }

  /** The state that vmm_init leaves starts such runs. */
  lemma InitialOk(l: Layout, s: Vm)
    requires MemoryOk(s.mem) && l.Ok() && s.dirs == {l.kdir} && s.free == Range(PageOf(KERNEL_END), PAGES)
    requires forall i :: 0 <= i < WORDS ==> s.mem[l.kdir][i] == if i < LOW_TABLES then (l.ktab + i) * 4096 + 3 else 0
    requires forall v :: 0 <= v < LOW_PAGES ==> LowEntry(l, s.mem, v) == v * 4096 + 3
    ensures VmOk(l, s) && Identity(l, s.mem)
  {
    InitialStructure(l, s.mem, s.free);
  }
}
