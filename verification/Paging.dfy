/** Two-level page tables in physical memory (kernel/memory/vmm.c, in the format of section 4.3 of
    the Intel SDM, Volume 3A) and the flat page map that they stand for.

    Physical memory is a sequence of page frames of 1024 words. A page directory is named by its
    frame; a virtual page by its number v, below 2^20. */
module Paging {
  const FRAMES := 0x4000
  const WORDS := 1024
  const FIRST_MANAGED := 256
  const LOW_TABLES := 20
  const LOW_PAGES := 20480
  const VPAGES := 0x100000
  const PAGE_PRESENT := 1
  const PAGE_WRITABLE := 2
  const PAGE_USER := 4

  type Memory = seq<seq<nat>>

  predicate Present(e: nat) { e % 2 == 1 }
  function FrameOf(e: nat): nat { e / 4096 }

  /** (phys & 0xFFFFF000) | (flags & 0xFFF) | PAGE_PRESENT */
  function Entry(frame: nat, flags: nat): nat {
    var f := flags % 4096;
    frame * 4096 + (if f % 2 == 1 then f else f + 1)
  }

  /** e | PAGE_USER */
  function WithUser(e: nat): nat { if e / 4 % 2 == 1 then e else e + 4 }

  lemma Product(a: int, m: int)
    requires m >= 0
    ensures a >= 1 ==> a * m >= m
    ensures a <= -1 ==> a * m <= -m
  {
    if a >= 1 { assert a * m == (a - 1) * m + m; }
    if a <= -1 { assert a * m == (a + 1) * m - m; }
  }

  lemma Split(q: nat, r: nat, m: nat)
    requires r < m
    ensures (q * m + r) / m == q && (q * m + r) % m == r
  {
    var x := q * m + r;
    var y, z := x / m, x % m;
    assert x == y * m + z;
    assert (q - y) * m == z - r by { assert (q - y) * m == q * m - y * m; }
    Product(q - y, m);
  }

  /** The entry that vmm_map_page stores is present and refers to the given frame. */
  lemma EntryParts(frame: nat, flags: nat)
    ensures Present(Entry(frame, flags)) && FrameOf(Entry(frame, flags)) == frame
  {
    var f := flags % 4096;
    var g := if f % 2 == 1 then f else f + 1;
    Split(frame, g, 4096);
    var n := g / 2;
    assert g == 2 * n + 1;
    Split(2048 * frame + n, 1, 2);
  }

  lemma TableEntry(phys: nat)
    requires phys % 4096 == 0
    ensures Present(phys + 3) && FrameOf(phys + 3) == phys / 4096
  {
    EntryParts(phys / 4096, 3);
  }

  lemma EntryFields(f: nat, h: nat, k: nat)
    requires h < 512 && k < 8
    ensures var e := 4096 * f + 8 * h + k; Present(e) == Present(k) && FrameOf(e) == f && e / 4 % 2 == k / 4
  {
    var e := 4096 * f + 8 * h + k;
    Split(f, 8 * h + k, 4096);
    Split(1024 * f + 2 * h + k / 4, k % 4, 4);
    Split(512 * f + h, k / 4, 2);
    Split(2048 * f + 4 * h + k / 2, k % 2, 2);
    assert k == k / 4 * 4 + k % 4 && k == k / 2 * 2 + k % 2;
  }

  lemma UserParts(e: nat)
    ensures Present(WithUser(e)) == Present(e) && FrameOf(WithUser(e)) == FrameOf(e) && WithUser(e) / 4 % 2 == 1
  {
    var f := e / 4096;
    var g := e - 4096 * f;
    var h := g / 8;
    var k := g - 8 * h;
    EntryFields(f, h, k);
    if k < 4 { EntryFields(f, h, k + 4); }
  }

  /** The kernel's page directory and its 20 page tables, both in memory that is never free. */
  datatype Layout = Layout(kdir: nat, ktab: nat) {
    predicate Ok() {
      kdir < 512 && ktab + LOW_TABLES <= 512 && (kdir < ktab || ktab + LOW_TABLES <= kdir)
    }

    predicate IsLowTable(t: nat) { ktab <= t < ktab + LOW_TABLES }
  }

  predicate MemoryOk(mem: Memory) { |mem| == FRAMES && forall p :: 0 <= p < FRAMES ==> |mem[p]| == WORDS }

  /** Frame t is outside the managed memory or not free; free holds page numbers of the bitmap. */
  predicate Taken(free: set<nat>, t: nat) { t < FIRST_MANAGED || t - FIRST_MANAGED !in free }

  /** The directory entry with index i in directory d refers to a page table of its own. */
  predicate HasTable(mem: Memory, d: nat, i: nat)
    requires MemoryOk(mem) && d < FRAMES
  {
    LOW_TABLES <= i < WORDS && Present(mem[d][i])
  }

  ghost predicate DirsOk(l: Layout, dirs: set<nat>, free: set<nat>) {
    && l.Ok() && l.kdir in dirs
    && (forall t :: l.IsLowTable(t) ==> Taken(free, t))
    && (forall d :: d in dirs ==> d < FRAMES && Taken(free, d) && !l.IsLowTable(d))
  }

  /** All directories share the low tables; every other table is taken, and used once. */
  ghost predicate Structure(l: Layout, mem: Memory, dirs: set<nat>, free: set<nat>) {
    && MemoryOk(mem) && DirsOk(l, dirs, free)
    && (forall d, i :: d in dirs && 0 <= i < LOW_TABLES ==> Present(mem[d][i]) && FrameOf(mem[d][i]) == l.ktab + i)
    && (forall d, i :: d in dirs && 0 <= i < WORDS && HasTable(mem, d, i) ==>
          var t := FrameOf(mem[d][i]); t < FRAMES && Taken(free, t) && t !in dirs && !l.IsLowTable(t))
    && (forall d, i, d', i' | d in dirs && d' in dirs && 0 <= i < WORDS && 0 <= i' < WORDS ::
          HasTable(mem, d, i) && HasTable(mem, d', i') && FrameOf(mem[d][i]) == FrameOf(mem[d'][i']) ==>
              d == d' && i == i')
  }

  /** The page table of virtual page v in directory d, if any. */
  function TableOf(mem: Memory, d: nat, v: nat): nat
    requires MemoryOk(mem) && d < FRAMES && v < VPAGES
  {
    FrameOf(mem[d][v / WORDS])
  }

  predicate Mapped(mem: Memory, d: nat, v: nat)
    requires MemoryOk(mem) && d < FRAMES && v < VPAGES
  {
    Present(mem[d][v / WORDS])
  }

  /** The flat page map: the table entry of virtual page v in directory d, 0 without a table. */
  ghost function Pte(l: Layout, mem: Memory, dirs: set<nat>, free: set<nat>, d: nat, v: nat): nat
    requires Structure(l, mem, dirs, free) && d in dirs && v < VPAGES
  {
    if !Mapped(mem, d, v) then 0 else
      TableBounds(l, mem, dirs, free, d, v);
      mem[TableOf(mem, d, v)][v % WORDS]
  }

  lemma TableBounds(l: Layout, mem: Memory, dirs: set<nat>, free: set<nat>, d: nat, v: nat)
    requires Structure(l, mem, dirs, free) && d in dirs && v < VPAGES && Mapped(mem, d, v)
    ensures TableOf(mem, d, v) < FRAMES && Taken(free, TableOf(mem, d, v)) && TableOf(mem, d, v) !in dirs
    ensures v < LOW_PAGES ==> TableOf(mem, d, v) == l.ktab + v / WORDS
  {
    var i := v / WORDS;
    if i < LOW_TABLES { assert l.IsLowTable(l.ktab + i); } else { assert HasTable(mem, d, i); }
  }

  /** Two virtual pages have the same table entry: the same page, in one directory or below 80MB. */
  predicate Shared(d: nat, v: nat, d': nat, v': nat) { v == v' && (d == d' || v < LOW_PAGES) }

  lemma TablesMeet(l: Layout, mem: Memory, dirs: set<nat>, free: set<nat>, d: nat, v: nat, d': nat, v': nat)
    requires Structure(l, mem, dirs, free) && d in dirs && d' in dirs && v < VPAGES && v' < VPAGES
    requires Mapped(mem, d, v) && Mapped(mem, d', v')
    ensures TableOf(mem, d, v) == TableOf(mem, d', v') && v % WORDS == v' % WORDS <==> Shared(d, v, d', v')
  {
    var i, i' := v / WORDS, v' / WORDS;
    if i >= LOW_TABLES { assert HasTable(mem, d, i); }
    if i' >= LOW_TABLES { assert HasTable(mem, d', i'); }
    if i < LOW_TABLES { assert l.IsLowTable(l.ktab + i); }
    if i' < LOW_TABLES { assert l.IsLowTable(l.ktab + i'); }
    assert v == v' <==> i == i' && v % WORDS == v' % WORDS;
  }

  // ---------------------------------------------------------------- changes of the map

  /** From (mem, free) to (mem', free') the map changes at virtual page v of directory d, and at the
      pages that share its entry, to e; everywhere else it stays as it is. */
  ghost predicate MapSet(l: Layout, dirs: set<nat>, mem: Memory, free: set<nat>, mem': Memory, free': set<nat>,
                         d: nat, v: nat, e: nat) {
    && Structure(l, mem, dirs, free) && Structure(l, mem', dirs, free')
    && forall d', v' :: d' in dirs && 0 <= v' < VPAGES ==>
         Pte(l, mem', dirs, free', d', v') == if Shared(d, v, d', v') then e else Pte(l, mem, dirs, free, d', v')
  }

  ghost predicate MapKept(l: Layout, dirs: set<nat>, mem: Memory, free: set<nat>, mem': Memory, free': set<nat>) {
    && Structure(l, mem, dirs, free) && Structure(l, mem', dirs, free')
    && forall d', v' :: d' in dirs && 0 <= v' < VPAGES ==>
         Pte(l, mem', dirs, free', d', v') == Pte(l, mem, dirs, free, d', v')
  }

  // ---------------------------------------------------------------- the kinds of store

  function Put(mem: Memory, p: nat, i: nat, w: nat): (r: Memory)
    requires MemoryOk(mem) && p < FRAMES && i < WORDS
    ensures MemoryOk(r)
  {
    var page: seq<nat> := mem[p][i := w];
    mem[p := page]
  }

  /** A store into a page table changes the map at one page, in every directory that shares it. */
  lemma PutPte(l: Layout, mem: Memory, dirs: set<nat>, free: set<nat>, d: nat, v: nat, e: nat)
    requires Structure(l, mem, dirs, free) && d in dirs && v < VPAGES && Mapped(mem, d, v)
    ensures TableOf(mem, d, v) < FRAMES
    ensures MapSet(l, dirs, mem, free, Put(mem, TableOf(mem, d, v), v % WORDS, e), free, d, v, e)
  {
    TableBounds(l, mem, dirs, free, d, v);
    var t := TableOf(mem, d, v);
    var r := Put(mem, t, v % WORDS, e);
    assert forall d' :: d' in dirs ==> r[d'] == mem[d'];
    assert Structure(l, r, dirs, free);
    forall d', v' | d' in dirs && 0 <= v' < VPAGES
      ensures Pte(l, r, dirs, free, d', v') == if Shared(d, v, d', v') then e else Pte(l, mem, dirs, free, d', v')
    {
      if Mapped(mem, d', v') { TablesMeet(l, mem, dirs, free, d, v, d', v'); TableBounds(l, mem, dirs, free, d', v'); }
      else { assert v' / WORDS >= LOW_TABLES; }
    }
  }

  function Zeros(): seq<nat> { seq(WORDS, _ => 0) }

  /** Linking a fresh, cleared table into an empty directory entry leaves the map as it is. */
  lemma AddTable(l: Layout, mem: Memory, dirs: set<nat>, free: set<nat>, d: nat, i: nat, t: nat, e: nat)
    requires Structure(l, mem, dirs, free) && d in dirs && LOW_TABLES <= i < WORDS && !Present(mem[d][i])
    requires t < FRAMES && !Taken(free, t) && Present(e) && FrameOf(e) == t
    ensures MapKept(l, dirs, mem, free, Put(mem[t := Zeros()], d, i, e), free - {t - FIRST_MANAGED})
  {
    var r, free' := Put(mem[t := Zeros()], d, i, e), free - {t - FIRST_MANAGED};
    AddTableStructure(l, mem, dirs, free, d, i, t, e);
    forall d', v' | d' in dirs && 0 <= v' < VPAGES
      ensures Pte(l, r, dirs, free', d', v') == Pte(l, mem, dirs, free, d', v')
    {
      if d' == d && v' / WORDS == i {
        assert r[t] == Zeros();
      } else {
        assert r[d'][v' / WORDS] == mem[d'][v' / WORDS];
        if Mapped(mem, d', v') { TableBounds(l, mem, dirs, free, d', v'); }
      }
    }
  }

  lemma AddTableStructure(l: Layout, mem: Memory, dirs: set<nat>, free: set<nat>, d: nat, i: nat, t: nat, e: nat)
    requires Structure(l, mem, dirs, free) && d in dirs && LOW_TABLES <= i < WORDS && !Present(mem[d][i])
    requires t < FRAMES && !Taken(free, t) && Present(e) && FrameOf(e) == t
    ensures Structure(l, Put(mem[t := Zeros()], d, i, e), dirs, free - {t - FIRST_MANAGED})
  {
    var r, free' := Put(mem[t := Zeros()], d, i, e), free - {t - FIRST_MANAGED};
    assert forall d', i' :: d' in dirs && 0 <= i' < WORDS && !(d' == d && i' == i) ==> r[d'][i'] == mem[d'][i'];
    assert r[d][i] == e;
    assert forall x :: Taken(free, x) ==> Taken(free', x);
    forall d', i' | d' in dirs && 0 <= i' < WORDS && HasTable(r, d', i')
      ensures var x := FrameOf(r[d'][i']); x < FRAMES && Taken(free', x) && x !in dirs && !l.IsLowTable(x)
      ensures FrameOf(r[d'][i']) == t ==> d' == d && i' == i
    {
      if !(d' == d && i' == i) { assert HasTable(mem, d', i'); }
    }
    forall d1, i1, d2, i2 | d1 in dirs && d2 in dirs && 0 <= i1 < WORDS && 0 <= i2 < WORDS
      ensures HasTable(r, d1, i1) && HasTable(r, d2, i2) && FrameOf(r[d1][i1]) == FrameOf(r[d2][i2]) ==>
                d1 == d2 && i1 == i2
    {
      if HasTable(r, d1, i1) && HasTable(r, d2, i2) && FrameOf(r[d1][i1]) == FrameOf(r[d2][i2]) {
        if FrameOf(r[d1][i1]) != t { assert HasTable(mem, d1, i1) && HasTable(mem, d2, i2); }
      }
    }
  }

  /** Changing only flags of a directory entry leaves the map as it is. */
  lemma PutPde(l: Layout, mem: Memory, dirs: set<nat>, free: set<nat>, d: nat, i: nat, e: nat)
    requires Structure(l, mem, dirs, free) && d in dirs && i < WORDS
    requires Present(e) == Present(mem[d][i]) && FrameOf(e) == FrameOf(mem[d][i])
    ensures MapKept(l, dirs, mem, free, Put(mem, d, i, e), free)
  {
    var r := Put(mem, d, i, e);
    assert forall d', i' :: d' in dirs && 0 <= i' < WORDS ==>
             Present(r[d'][i']) == Present(mem[d'][i']) && FrameOf(r[d'][i']) == FrameOf(mem[d'][i']);
    assert forall d', i' :: d' in dirs && 0 <= i' < WORDS ==> HasTable(r, d', i') == HasTable(mem, d', i');
    assert Structure(l, r, dirs, free);
    forall d', v' | d' in dirs && 0 <= v' < VPAGES
      ensures Pte(l, r, dirs, free, d', v') == Pte(l, mem, dirs, free, d', v')
    {
      if Mapped(mem, d', v') { TableBounds(l, mem, dirs, free, d', v'); }
    }
  }

  /** The first words of a new directory: the kernel's low entries, the rest empty. */
  function NewDir(mem: Memory, kdir: nat): (page: seq<nat>)
    requires MemoryOk(mem) && kdir < FRAMES
    ensures |page| == WORDS
  {
    mem[kdir][..LOW_TABLES] + seq(WORDS - LOW_TABLES, _ => 0)
  }

  /** A new directory agrees with all others below 80MB and maps nothing above. */
  lemma AddDir(l: Layout, mem: Memory, dirs: set<nat>, free: set<nat>, d: nat)
    requires Structure(l, mem, dirs, free) && d < FRAMES && !Taken(free, d)
    ensures var r, free', dirs' := mem[d := NewDir(mem, l.kdir)], free - {d - FIRST_MANAGED}, dirs + {d};
            && Structure(l, r, dirs', free')
            && (forall d', v :: d' in dirs && 0 <= v < VPAGES ==>
                  Pte(l, r, dirs', free', d', v) == Pte(l, mem, dirs, free, d', v))
            && (forall v :: 0 <= v < VPAGES ==>
                  Pte(l, r, dirs', free', d, v) == if v < LOW_PAGES then Pte(l, mem, dirs, free, l.kdir, v) else 0)
  {
    var r, free', dirs' := mem[d := NewDir(mem, l.kdir)], free - {d - FIRST_MANAGED}, dirs + {d};
    AddDirStructure(l, mem, dirs, free, d);
    forall d', v | d' in dirs && 0 <= v < VPAGES
      ensures Pte(l, r, dirs', free', d', v) == Pte(l, mem, dirs, free, d', v)
    {
      assert r[d'] == mem[d'];
      if Mapped(mem, d', v) { TableBounds(l, mem, dirs, free, d', v); }
    }
    forall v | 0 <= v < VPAGES
      ensures Pte(l, r, dirs', free', d, v) == if v < LOW_PAGES then Pte(l, mem, dirs, free, l.kdir, v) else 0
    {
      if v < LOW_PAGES { TableBounds(l, mem, dirs, free, l.kdir, v); TableBounds(l, r, dirs', free', d, v); }
    }
  }

  lemma AddDirStructure(l: Layout, mem: Memory, dirs: set<nat>, free: set<nat>, d: nat)
    requires Structure(l, mem, dirs, free) && d < FRAMES && !Taken(free, d)
    ensures Structure(l, mem[d := NewDir(mem, l.kdir)], dirs + {d}, free - {d - FIRST_MANAGED})
  {
    var r, free', dirs' := mem[d := NewDir(mem, l.kdir)], free - {d - FIRST_MANAGED}, dirs + {d};
    assert forall x :: Taken(free, x) ==> Taken(free', x);
    assert forall i :: 0 <= i < WORDS ==> !HasTable(r, d, i);
    assert forall d', i :: d' in dirs && 0 <= i < WORDS ==> HasTable(r, d', i) == HasTable(mem, d', i);
  }

  // ---------------------------------------------------------------- low memory

  /** The entry of virtual page v in the shared low tables. */
  function LowEntry(l: Layout, mem: Memory, v: nat): nat
    requires MemoryOk(mem) && l.Ok() && v < LOW_PAGES
  {
    mem[l.ktab + v / WORDS][v % WORDS]
  }

  /** Every address below 80MB is mapped to itself, so that the kernel can use physical addresses
      as pointers. */
  predicate Identity(l: Layout, mem: Memory)
    requires MemoryOk(mem) && l.Ok()
  {
    forall v :: 0 <= v < LOW_PAGES ==> MapsTo(LowEntry(l, mem, v), v)
  }

  /** The entry e is present and refers to frame p. */
  predicate MapsTo(e: nat, p: nat) { Present(e) && FrameOf(e) == p }

  /** A pointer to any frame of physical memory, dereferenced in any directory, reaches that frame. */
  lemma PointersReachFrames(l: Layout, mem: Memory, dirs: set<nat>, free: set<nat>, d: nat, p: nat)
    requires Structure(l, mem, dirs, free) && Identity(l, mem) && d in dirs && p < FRAMES
    ensures MapsTo(Pte(l, mem, dirs, free, d, p), p)
  {
    TableBounds(l, mem, dirs, free, d, p);
    assert Pte(l, mem, dirs, free, d, p) == LowEntry(l, mem, p);
  }

  /** A store into a page table keeps the identity map exactly when it maps a page above 80MB, or
      maps a page to itself. */
  lemma IdentityKept(l: Layout, mem: Memory, dirs: set<nat>, free: set<nat>, d: nat, v: nat, e: nat)
    requires Structure(l, mem, dirs, free) && Identity(l, mem) && d in dirs && v < VPAGES && Mapped(mem, d, v)
    ensures TableOf(mem, d, v) < FRAMES
    ensures Identity(l, Put(mem, TableOf(mem, d, v), v % WORDS, e)) <==> v >= LOW_PAGES || MapsTo(e, v)
  {
    TableBounds(l, mem, dirs, free, d, v);
    var r := Put(mem, TableOf(mem, d, v), v % WORDS, e);
    if v >= LOW_PAGES { assert HasTable(mem, d, v / WORDS); }
    else { assert LowEntry(l, r, v) == e; }
    forall v' | 0 <= v' < LOW_PAGES && v' != v ensures LowEntry(l, r, v') == LowEntry(l, mem, v') {
      assert l.IsLowTable(l.ktab + v' / WORDS);
      assert v' == v' / WORDS * WORDS + v' % WORDS && v == v / WORDS * WORDS + v % WORDS;
    }
  }

  /** Linking a new table, and filling a new directory, touch no low table. */
  lemma FreshFrameKeepsIdentity(l: Layout, mem: Memory, dirs: set<nat>, free: set<nat>, t: nat, page: seq<nat>)
    requires Structure(l, mem, dirs, free) && Identity(l, mem) && t < FRAMES && !Taken(free, t) && |page| == WORDS
    ensures Identity(l, mem[t := page])
  {
    var r := mem[t := page];
    forall v | 0 <= v < LOW_PAGES ensures MapsTo(LowEntry(l, r, v), v) {
      assert l.IsLowTable(l.ktab + v / WORDS);
      assert MapsTo(LowEntry(l, mem, v), v);
    }
  }

  /** A store into a directory touches no low table. */
  lemma PutPdeKeepsIdentity(l: Layout, mem: Memory, d: nat, i: nat, e: nat)
    requires MemoryOk(mem) && l.Ok() && Identity(l, mem) && d < FRAMES && !l.IsLowTable(d) && i < WORDS
    ensures Identity(l, Put(mem, d, i, e))
  {
    forall v | 0 <= v < LOW_PAGES ensures LowEntry(l, Put(mem, d, i, e), v) == LowEntry(l, mem, v) {
      assert l.IsLowTable(l.ktab + v / WORDS);
    }
  }

  /** Structure does not depend on more pages being taken. */
  lemma TakingKeepsMap(l: Layout, dirs: set<nat>, mem: Memory, free: set<nat>, free': set<nat>)
    requires Structure(l, mem, dirs, free) && free' <= free
    ensures MapKept(l, dirs, mem, free, mem, free')
  {
    assert forall x :: Taken(free, x) ==> Taken(free', x);
  }

  lemma MapSetAfterKept(l: Layout, dirs: set<nat>, mem: Memory, free: set<nat>, mem1: Memory, free1: set<nat>,
                        mem2: Memory, free2: set<nat>, d: nat, v: nat, e: nat)
    requires MapKept(l, dirs, mem, free, mem1, free1) && MapSet(l, dirs, mem1, free1, mem2, free2, d, v, e)
    ensures MapSet(l, dirs, mem, free, mem2, free2, d, v, e)
  {
  }

  // ---------------------------------------------------------------- user pages

  /** From mem0 to mem, exactly the pages of [lo, hi) that have a table in d have become user pages;
      nothing else about the map has changed. */
  ghost predicate UserMarked(l: Layout, dirs: set<nat>, free: set<nat>, mem0: Memory, mem: Memory, d: nat, lo: int,
                             hi: int) {
    && Structure(l, mem0, dirs, free) && Structure(l, mem, dirs, free) && d in dirs
    && (forall d', v :: d' in dirs && 0 <= v < VPAGES ==> Mapped(mem, d', v) == Mapped(mem0, d', v))
    && (forall d', v :: d' in dirs && 0 <= v < VPAGES ==>
          Pte(l, mem, dirs, free, d', v) ==
            if lo <= v < hi && Mapped(mem0, d, v) && (d' == d || v < LOW_PAGES)
            then WithUser(Pte(l, mem0, dirs, free, d', v)) else Pte(l, mem0, dirs, free, d', v))
  }

  /** One iteration of vmm_mark_user_range, for a page with a table. */
  function MarkOne(mem: Memory, d: nat, v: nat): (r: Memory)
    requires MemoryOk(mem) && d < FRAMES && v < VPAGES && TableOf(mem, d, v) < FRAMES
    ensures MemoryOk(r)
  {
    var i, t := v / WORDS, TableOf(mem, d, v);
    var mem1 := Put(mem, d, i, WithUser(mem[d][i]));
    Put(mem1, t, v % WORDS, WithUser(mem1[t][v % WORDS]))
  }

  lemma MarkOneSets(l: Layout, dirs: set<nat>, free: set<nat>, mem: Memory, d: nat, v: nat)
    requires Structure(l, mem, dirs, free) && d in dirs && v < VPAGES && Mapped(mem, d, v)
    ensures TableOf(mem, d, v) < FRAMES
    ensures MapSet(l, dirs, mem, free, MarkOne(mem, d, v), free, d, v, WithUser(Pte(l, mem, dirs, free, d, v)))
    ensures forall d', v' :: d' in dirs && 0 <= v' < VPAGES ==>
              Mapped(MarkOne(mem, d, v), d', v') == Mapped(mem, d', v')
  {
    TableBounds(l, mem, dirs, free, d, v);
    var i, t := v / WORDS, TableOf(mem, d, v);
    var mem1 := Put(mem, d, i, WithUser(mem[d][i]));
    UserParts(mem[d][i]);
    PutPde(l, mem, dirs, free, d, i, WithUser(mem[d][i]));
    assert TableOf(mem1, d, v) == t && Mapped(mem1, d, v);
    var e := WithUser(Pte(l, mem, dirs, free, d, v));
    PutPte(l, mem1, dirs, free, d, v, e);
    MapSetAfterKept(l, dirs, mem, free, mem1, free, MarkOne(mem, d, v), free, d, v, e);
    assert forall d' :: d' in dirs ==> MarkOne(mem, d, v)[d'] == mem1[d'];
  }

  /** Marking a page for users keeps the identity map. */
  lemma MarkOneKeepsIdentity(l: Layout, dirs: set<nat>, free: set<nat>, mem: Memory, d: nat, v: nat)
    requires Structure(l, mem, dirs, free) && Identity(l, mem) && d in dirs && v < VPAGES && Mapped(mem, d, v)
    ensures TableOf(mem, d, v) < FRAMES && Identity(l, MarkOne(mem, d, v))
  {
    TableBounds(l, mem, dirs, free, d, v);
    var i, t := v / WORDS, TableOf(mem, d, v);
    var mem1 := Put(mem, d, i, WithUser(mem[d][i]));
    UserParts(mem[d][i]);
    PutPde(l, mem, dirs, free, d, i, WithUser(mem[d][i]));
    PutPdeKeepsIdentity(l, mem, d, i, WithUser(mem[d][i]));
    assert TableOf(mem1, d, v) == t && Mapped(mem1, d, v);
    UserParts(mem1[t][v % WORDS]);
    IdentityKept(l, mem1, dirs, free, d, v, WithUser(mem1[t][v % WORDS]));
    if v < LOW_PAGES { assert MapsTo(LowEntry(l, mem1, v), v); }
  }

  lemma MarkStep(l: Layout, dirs: set<nat>, free: set<nat>, mem0: Memory, mem: Memory, mem': Memory, d: nat, lo: int,
                 v: nat)
    requires UserMarked(l, dirs, free, mem0, mem, d, lo, v) && lo <= v < VPAGES
    requires Structure(l, mem', dirs, free)
    requires if Mapped(mem, d, v) then
               MapSet(l, dirs, mem, free, mem', free, d, v, WithUser(Pte(l, mem, dirs, free, d, v)))
             else mem' == mem
    requires forall d', v' :: d' in dirs && 0 <= v' < VPAGES ==> Mapped(mem', d', v') == Mapped(mem, d', v')
    ensures UserMarked(l, dirs, free, mem0, mem', d, lo, v + 1)
  {
    forall d' | d' in dirs && v < LOW_PAGES ensures Pte(l, mem0, dirs, free, d', v) == Pte(l, mem0, dirs, free, d, v) {
      TableBounds(l, mem0, dirs, free, d, v);
      TableBounds(l, mem0, dirs, free, d', v);
    }
  }

  // ---------------------------------------------------------------- initialisation

  lemma PutLowEntry(l: Layout, mem: Memory, v: nat, e: nat, v': nat)
    requires MemoryOk(mem) && l.Ok() && v < LOW_PAGES && v' < LOW_PAGES
    ensures LowEntry(l, Put(mem, l.ktab + v / WORDS, v % WORDS, e), v') == if v == v' then e else LowEntry(l, mem, v')
  {
    assert v == v / WORDS * WORDS + v % WORDS && v' == v' / WORDS * WORDS + v' % WORDS;
  }

  lemma InitialTables(l: Layout, mem: Memory, free: set<nat>)
    requires MemoryOk(mem) && l.Ok() && (forall t :: 0 <= t < 512 ==> Taken(free, t))
    requires forall i :: 0 <= i < WORDS ==> mem[l.kdir][i] == if i < LOW_TABLES then (l.ktab + i) * 4096 + 3 else 0
    ensures Structure(l, mem, {l.kdir}, free)
  {
    assert forall t: nat :: l.IsLowTable(t) ==> t < 512;
    assert forall i :: LOW_TABLES <= i < WORDS ==> !HasTable(mem, l.kdir, i);
    forall i | 0 <= i < LOW_TABLES ensures Present(mem[l.kdir][i]) && FrameOf(mem[l.kdir][i]) == l.ktab + i {
      Split(l.ktab + i, 3, 4096);
    }
  }

  /** Filled low tables and a directory that refers to them make a sound identity map. */
  lemma InitialStructure(l: Layout, mem: Memory, free: set<nat>)
    requires MemoryOk(mem) && l.Ok() && (forall t :: 0 <= t < 512 ==> Taken(free, t))
    requires forall i :: 0 <= i < WORDS ==> mem[l.kdir][i] == if i < LOW_TABLES then (l.ktab + i) * 4096 + 3 else 0
    requires forall v :: 0 <= v < LOW_PAGES ==> LowEntry(l, mem, v) == v * 4096 + 3
    ensures Structure(l, mem, {l.kdir}, free) && Identity(l, mem)
    ensures forall v :: 0 <= v < VPAGES ==>
              Pte(l, mem, {l.kdir}, free, l.kdir, v) == if v < LOW_PAGES then v * 4096 + 3 else 0
  {
    InitialTables(l, mem, free);
    forall v | 0 <= v < VPAGES
      ensures Pte(l, mem, {l.kdir}, free, l.kdir, v) == if v < LOW_PAGES then v * 4096 + 3 else 0
    {
      if v < LOW_PAGES { TableBounds(l, mem, {l.kdir}, free, l.kdir, v); assert LowEntry(l, mem, v) == v * 4096 + 3; }
    }
    forall v | 0 <= v < LOW_PAGES ensures MapsTo(LowEntry(l, mem, v), v) {
      Split(v, 3, 4096);
      TableEntry(v * 4096);
    }
  }
}
