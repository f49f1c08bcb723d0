/** The virtual memory manager on physical memory and the page bitmap (kernel/memory/vmm.c). */
module Vmm {
  import opened KernelBase
  import opened Paging
  import opened PageBitmap
  import opened PagingRuns

  /** From free to free' the lowest page has been taken. */
  ghost predicate LowestTaken(free: set<nat>, free': set<nat>) {
    exists p: nat :: IsLowest(p, free) && free' == free - {p}
  }

  /** Counting the pages that a mapping takes: one, and one more for a page table. */
  lemma PagesTaken(free: set<nat>, free1: set<nat>, free2: set<nat>, hadTable: bool)
    requires LowestTaken(free, free1)
    requires if hadTable then free2 == free1 else LowestTaken(free1, free2)
    ensures |free2| == |free| - (if hadTable then 1 else 2) && free2 <= free1 <= free
  {
  }

  lemma LowestUnique(free: set<nat>, p: nat)
    requires IsLowest(p, free)
    ensures p == Lowest(free) && LowestTaken(free, free - {p})
  {
  }

  lemma MapFree(s: Vm, d: nat, v: nat, e: nat)
    requires MemoryOk(s.mem) && d < FRAMES && v < VPAGES && forall p :: p in s.free ==> p < PAGES
    ensures var s' := MapNext(s, d, v, e);
            && (Mapped(s.mem, d, v) || s.free == {} ==> s'.free == s.free)
            && (!Mapped(s.mem, d, v) && s.free != {} ==> LowestTaken(s.free, s'.free))
  {
    if s.free != {} { LowestUnique(s.free, Lowest(s.free)); }
  }

  /** After one page has been taken, mapping succeeds if and only if the pages sufficed. */
  lemma AllocMapCases(s: Vm, s1: Vm, d: nat, v: nat, flags: nat, e: nat)
    requires MemoryOk(s.mem) && d < FRAMES && v < VPAGES && forall p :: p in s.free ==> p < PAGES
    requires s.free != {} && s1 == TakeNext(s) && e == Entry(Lowest(s.free) + FIRST_MANAGED, flags)
    ensures var enough := Mapped(s.mem, d, v) || s1.free != {};
            && (enough <==> |s.free| >= Needed(s, d, v))
            && (enough ==> MapNext(s1, d, v, e) == AllocMapNext(s, d, v, flags))
            && (!enough ==> MapNext(s1, d, v, e) == s1 && AllocMapNext(s, d, v, flags) == s)
  {
    TakeCounts(s);
  }

  /** vmm_alloc_map_page takes one page, and one more for a page table. */
  lemma AllocMapCounts(l: Layout, s: Vm, d: nat, v: nat, flags: nat)
    requires VmOk(l, s) && d in s.dirs && v < VPAGES && |s.free| >= Needed(s, d, v)
    ensures var s' := AllocMapNext(s, d, v, flags);
            |s'.free| == |s.free| - Needed(s, d, v) && s'.free <= s.free && Lowest(s.free) !in s'.free
  {
    var s1, e := TakeNext(s), Entry(Lowest(s.free) + FIRST_MANAGED, flags);
    TakeCounts(s);
    MapFree(s1, d, v, e);
    LowestUnique(s.free, Lowest(s.free));
    PagesTaken(s.free, s1.free, AllocMapNext(s, d, v, flags).free, Mapped(s.mem, d, v));
  }

  /** What each address space maps after a new one has been made. */
  lemma NewSpaceMaps(l: Layout, s: Vm, r: Vm)
    requires VmOk(l, s) && r == SpaceNext(l, s)
    ensures VmOk(l, r)
    ensures s.free == {} ==> r == s
    ensures s.free != {} ==>
              var d := Lowest(s.free) + FIRST_MANAGED;
              && d !in s.dirs && d != l.kdir && r.dirs == s.dirs + {d} && r.free == s.free - {d - FIRST_MANAGED}
              && (forall d', v :: d' in s.dirs && 0 <= v < VPAGES ==> At(l, r, d', v) == At(l, s, d', v))
              && (forall v :: 0 <= v < VPAGES ==> At(l, r, d, v) == if v < LOW_PAGES then At(l, s, l.kdir, v) else 0)
  {
    if s.free != {} { AddDir(l, s.mem, s.dirs, s.free, Lowest(s.free) + FIRST_MANAGED); }
  }

  class Vmm {
    const pmm: Pmm
    const mem: array<seq<nat>>
    const layout: Layout
    var cr3: nat
    ghost var dirs: set<nat>

    ghost predicate Valid()
      reads this, mem, pmm.bitmap
    {
      && pmm.Valid() && Structure(layout, mem[..], dirs, pmm.Free())
      && cr3 % PAGE_SIZE == 0 && cr3 / PAGE_SIZE in dirs
    }

    /** The state whose runs are described in PagingRuns. */
    ghost function S(): Vm
      requires pmm.Valid()
      reads this`dirs, mem, pmm.bitmap
    {
      Vm(mem[..], dirs, pmm.Free())
    }

    /** The entry that the flat page map has for virtual page v in directory d. */
    ghost function Map(d: nat, v: nat): nat
      requires Valid() && d in dirs && v < VPAGES
      reads this, mem, pmm.bitmap
    {
      At(layout, S(), d, v)
    }

    constructor (pmm: Pmm, layout: Layout)
      ensures this.pmm == pmm && this.layout == layout && mem.Length == FRAMES && fresh(mem)
      ensures forall p :: 0 <= p < FRAMES ==> |mem[p]| == WORDS
    {
      this.pmm, this.layout := pmm, layout;
      mem := new seq<nat>[FRAMES](_ => Zeros());
      cr3 := 0;
      dirs := {};
    }

    method PutWord(p: nat, i: nat, w: nat)
      requires MemoryOk(mem[..]) && p < FRAMES && i < WORDS
      modifies mem
      ensures mem[..] == Put(old(mem[..]), p, i, w)
    {
      mem[p] := mem[p][i := w];
    }

    /** The loops that clear a frame. */
    method ClearFrame(p: nat)
      requires MemoryOk(mem[..]) && p < FRAMES
      modifies mem
      ensures mem[..] == old(mem[..])[p := Zeros()]
    {
      for i := 0 to WORDS
        invariant MemoryOk(mem[..])
        invariant forall q :: 0 <= q < FRAMES && q != p ==> mem[q] == old(mem[q])
        invariant forall k :: 0 <= k < i ==> mem[p][k] == 0
      {
        PutWord(p, i, 0);
      }
      assert mem[p] == Zeros();
    }

    /** vmm_get_physical_address */
    method GetPhysicalAddress(vaddr: nat) returns (r: nat)
      requires Valid() && vaddr < TWO32
      ensures r == FrameOf(Map(cr3 / PAGE_SIZE, vaddr / PAGE_SIZE)) * PAGE_SIZE
    {
      var pdi, pti := vaddr / 0x400000, vaddr / 0x1000 % 1024;
      ghost var v := vaddr / PAGE_SIZE;
      assert pdi == v / WORDS && pti == v % WORDS;
      var pde := mem[cr3 / PAGE_SIZE][pdi];
      if !Present(pde) {
        return 0;
      }
      TableBounds(layout, mem[..], dirs, pmm.Free(), cr3 / PAGE_SIZE, v);
      return mem[pde / 4096][pti] / 4096 * 4096;
    }

    /** vmm_unmap_page */
    method UnmapPage(vaddr: nat)
      requires Valid() && vaddr < TWO32
      modifies mem
      ensures Valid()
      ensures MapSet(layout, dirs, old(mem[..]), old(pmm.Free()), mem[..], pmm.Free(),
                     cr3 / PAGE_SIZE, vaddr / PAGE_SIZE, 0)
      ensures S() == Stored(old(S()), cr3 / PAGE_SIZE, vaddr / PAGE_SIZE, 0)
      ensures old(Identity(layout, mem[..])) && LowToItself(UnmapOp(cr3 / PAGE_SIZE, vaddr / PAGE_SIZE)) ==>
                Identity(layout, mem[..])
    {
      var pdi, pti := vaddr / 0x400000, vaddr / 0x1000 % 1024;
      ghost var d, v := cr3 / PAGE_SIZE, vaddr / PAGE_SIZE;
      assert pdi == v / WORDS && pti == v % WORDS;
      var pde := mem[cr3 / PAGE_SIZE][pdi];
      if !Present(pde) {
        assert pdi >= LOW_TABLES;
        return;
      }
      if Identity(layout, mem[..]) && v >= LOW_PAGES { StoredIdentity(layout, S(), d, v, 0); }
      PutPte(layout, mem[..], dirs, pmm.Free(), d, v, 0);
      PutWord(pde / 4096, pti, 0);
    }

    /** vmm_map_page: 0, or -1 with nothing changed when a page table is needed and no page is left. */
    method MapPage(vaddr: nat, phys: nat, flags: nat) returns (r: int)
      requires Valid() && vaddr < TWO32
      modifies mem, pmm.bitmap
      ensures Valid() && r in {0, -1}
      ensures var d, v := cr3 / PAGE_SIZE, vaddr / PAGE_SIZE;
              var hadTable := old(Mapped(mem[..], cr3 / PAGE_SIZE, vaddr / PAGE_SIZE));
              && (r == -1 <==> !hadTable && old(pmm.Free()) == {})
              && (r == -1 ==> mem[..] == old(mem[..]) && pmm.Free() == old(pmm.Free()))
              && (r == 0 ==> MapSet(layout, dirs, old(mem[..]), old(pmm.Free()), mem[..], pmm.Free(), d, v,
                                    Entry(phys / 4096, flags)))
              && (r == 0 && hadTable ==> pmm.Free() == old(pmm.Free()))
              && (r == 0 && !hadTable ==> LowestTaken(old(pmm.Free()), pmm.Free()))
      ensures S() == MapNext(old(S()), cr3 / PAGE_SIZE, vaddr / PAGE_SIZE, Entry(phys / 4096, flags))
      ensures old(Identity(layout, mem[..]))
              && LowToItself(MapOp(cr3 / PAGE_SIZE, vaddr / PAGE_SIZE, Entry(phys / 4096, flags))) ==>
                Identity(layout, mem[..])
    {
      ghost var d, v, e, s0 := cr3 / PAGE_SIZE, vaddr / PAGE_SIZE, Entry(phys / 4096, flags), S();
      if Mapped(mem[..], d, v) { TableBounds(layout, mem[..], dirs, pmm.Free(), d, v); }
      MapSets(layout, s0, d, v, e);
      MapFree(s0, d, v, e);
      if Identity(layout, mem[..]) && LowToItself(MapOp(d, v, e)) { MapIdentity(layout, s0, d, v, e); }
      r := MapEntry(vaddr, phys, flags);
      if r == 0 { SetsMap(layout, s0, S(), d, v, e); }
    }

    /** vmm_map_page, store by store. */
    method MapEntry(vaddr: nat, phys: nat, flags: nat) returns (r: int)
      requires pmm.Valid() && MemoryOk(mem[..]) && cr3 / PAGE_SIZE < FRAMES && vaddr < TWO32
      requires var d, v := cr3 / PAGE_SIZE, vaddr / PAGE_SIZE; Mapped(mem[..], d, v) ==> TableOf(mem[..], d, v) < FRAMES
      modifies mem, pmm.bitmap
      ensures S() == MapNext(old(S()), cr3 / PAGE_SIZE, vaddr / PAGE_SIZE, Entry(phys / 4096, flags))
      ensures r == if old(Mapped(mem[..], cr3 / PAGE_SIZE, vaddr / PAGE_SIZE)) || old(pmm.Free()) != {} then 0 else -1
    {
      var pdi, pti := vaddr / 0x400000, vaddr / 0x1000 % 1024;
      ghost var d, v := cr3 / PAGE_SIZE, vaddr / PAGE_SIZE;
      assert pdi == v / WORDS && pti == v % WORDS;
      var pde := mem[cr3 / PAGE_SIZE][pdi];
      if !Present(pde) {
        pde := NewTable(pdi);
        if pde == 0 {
          return -1;
        }
      }
      assert pde == mem[d][v / WORDS];
      PutWord(pde / 4096, pti, Entry(phys / 4096, flags));
      return 0;
    }

    /** The part of vmm_map_page that makes a page table for directory entry pdi. */
    method NewTable(pdi: nat) returns (pde: nat)
      requires pmm.Valid() && MemoryOk(mem[..]) && cr3 / PAGE_SIZE < FRAMES && pdi < WORDS
      modifies mem, pmm.bitmap
      ensures old(pmm.Free()) == {} ==> pde == 0 && S() == old(S())
      ensures old(pmm.Free()) != {} ==>
                && S() == WithTable(old(S()), cr3 / PAGE_SIZE, pdi) && MemoryOk(mem[..])
                && Present(pde) && mem[cr3 / PAGE_SIZE][pdi] == pde && pde / 4096 < FRAMES
    {
      var ptPhys := pmm.Alloc();
      if ptPhys == 0 {
        return 0;
      }
      ghost var t := ptPhys / 4096;
      assert t == PageOf(ptPhys) + FIRST_MANAGED;
      LowestUnique(old(pmm.Free()), PageOf(ptPhys));
      TableEntry(ptPhys);
      pde := LinkTable(pdi, ptPhys);
    }

    method LinkTable(pdi: nat, ptPhys: nat) returns (pde: nat)
      requires MemoryOk(mem[..]) && pdi < WORDS && ptPhys / 4096 < FRAMES && cr3 / PAGE_SIZE < FRAMES
      modifies mem
      ensures pde == ptPhys + 3
      ensures mem[..] == Put(old(mem[..])[ptPhys / 4096 := Zeros()], cr3 / PAGE_SIZE, pdi, pde)
    {
      ClearFrame(ptPhys / 4096);
      pde := ptPhys + PAGE_PRESENT + PAGE_WRITABLE;
      PutWord(cr3 / PAGE_SIZE, pdi, pde);
    }

    /** vmm_alloc_map_page: all or nothing. */
    method AllocMapPage(vaddr: nat, flags: nat) returns (ok: bool)
      requires Valid() && vaddr < TWO32
      modifies mem, pmm.bitmap
      ensures Valid()
      ensures !ok ==> mem[..] == old(mem[..]) && pmm.Free() == old(pmm.Free())
      ensures var hadTable := old(Mapped(mem[..], cr3 / PAGE_SIZE, vaddr / PAGE_SIZE));
              && (ok <==> |old(pmm.Free())| >= if hadTable then 1 else 2)
              && (ok ==> && |pmm.Free()| == |old(pmm.Free())| - (if hadTable then 1 else 2)
                         && pmm.Free() <= old(pmm.Free()))
      ensures ok ==> exists p: nat ::
                && IsLowest(p, old(pmm.Free())) && p !in pmm.Free()
                && MapSet(layout, dirs, old(mem[..]), old(pmm.Free()), mem[..], pmm.Free(),
                          cr3 / PAGE_SIZE, vaddr / PAGE_SIZE, Entry(p + FIRST_MANAGED, flags))
      ensures S() == AllocMapNext(old(S()), cr3 / PAGE_SIZE, vaddr / PAGE_SIZE, flags)
      ensures old(Identity(layout, mem[..])) && LowToItself(AllocMapOp(cr3 / PAGE_SIZE, vaddr / PAGE_SIZE, flags)) ==>
                Identity(layout, mem[..])
    {
      ghost var d, v, s0 := cr3 / PAGE_SIZE, vaddr / PAGE_SIZE, S();
      AllocMapSets(layout, s0, d, v, flags);
      if |s0.free| >= Needed(s0, d, v) { AllocMapCounts(layout, s0, d, v, flags); }
      if Identity(layout, mem[..]) && v >= LOW_PAGES { AllocMapIdentity(layout, s0, d, v, flags); }
      if Mapped(mem[..], d, v) { TableBounds(layout, mem[..], dirs, s0.free, d, v); }
      ok := AllocThenMap(vaddr, flags);
      if ok { SetsMap(layout, s0, S(), d, v, Entry(Lowest(s0.free) + FIRST_MANAGED, flags)); }
    }

    /** pmm_alloc_page for a page to map. */
    method TakeFrame() returns (phys: nat)
      requires pmm.Valid() && MemoryOk(mem[..])
      modifies pmm.bitmap
      ensures old(pmm.Free()) == {} ==> phys == 0 && S() == old(S())
      ensures old(pmm.Free()) != {} ==>
                && Managed(phys) && phys % PAGE_SIZE == 0 && PageOf(phys) == Lowest(old(pmm.Free()))
                && phys / 4096 == PageOf(phys) + FIRST_MANAGED
                && S() == TakeNext(old(S())) && |pmm.Free()| == |old(pmm.Free())| - 1
    {
      phys := pmm.Alloc();
      if phys != 0 {
        LowestUnique(old(pmm.Free()), PageOf(phys));
        TakeCounts(old(S()));
      }
    }

    /** vmm_alloc_map_page, call by call. */
    method AllocThenMap(vaddr: nat, flags: nat) returns (ok: bool)
      requires pmm.Valid() && MemoryOk(mem[..]) && cr3 / PAGE_SIZE < FRAMES && vaddr < TWO32
      requires var d, v := cr3 / PAGE_SIZE, vaddr / PAGE_SIZE; Mapped(mem[..], d, v) ==> TableOf(mem[..], d, v) < FRAMES
      modifies mem, pmm.bitmap
      ensures S() == AllocMapNext(old(S()), cr3 / PAGE_SIZE, vaddr / PAGE_SIZE, flags)
      ensures ok <==> |old(pmm.Free())| >= old(Needed(S(), cr3 / PAGE_SIZE, vaddr / PAGE_SIZE))
    {
      ghost var s0 := S();
      var phys := TakeFrame();
      if phys == 0 {
        return false;
      }
      AllocMapCases(s0, S(), cr3 / PAGE_SIZE, vaddr / PAGE_SIZE, flags, Entry(phys / 4096, flags));
      var r := MapEntry(vaddr, phys, flags);
      if r != 0 {
        pmm.FreePage(phys);
        assert pmm.Free() == s0.free;
        return false;
      }
      return true;
    }

    /** vmm_create_address_space */
    method CreateAddressSpace() returns (dir: nat)
      requires Valid()
      modifies this`dirs, mem, pmm.bitmap
      ensures Valid()
      ensures old(pmm.Free()) == {} ==> dir == 0 && dirs == old(dirs) && mem[..] == old(mem[..]) && pmm.Free() == {}
      ensures old(pmm.Free()) != {} ==>
                var d := dir / PAGE_SIZE;
                && d !in old(dirs) && dirs == old(dirs) + {d} && pmm.Free() == old(pmm.Free()) - {d - FIRST_MANAGED}
                && (forall d', v :: d' in old(dirs) && 0 <= v < VPAGES ==> Map(d', v) == old(Map(d', v)))
                && (forall v :: 0 <= v < VPAGES ==>
                      Map(d, v) == if v < LOW_PAGES then old(Map(layout.kdir, v)) else 0)
      ensures S() == SpaceNext(layout, old(S()))
      ensures old(Identity(layout, mem[..])) ==> Identity(layout, mem[..])
    {
      ghost var s0 := S();
      NewSpaceMaps(layout, s0, SpaceNext(layout, s0));
      if Identity(layout, mem[..]) { NextIdentity(layout, s0, SpaceOp); }
      dir := FillSpace();
      assert S() == SpaceNext(layout, s0);
    }

    /** vmm_create_address_space, store by store. */
    method FillSpace() returns (dir: nat)
      requires pmm.Valid() && MemoryOk(mem[..]) && layout.Ok()
      requires pmm.Free() != {} ==> Lowest(pmm.Free()) + FIRST_MANAGED != layout.kdir
      modifies this`dirs, mem, pmm.bitmap
      ensures S() == SpaceNext(layout, old(S()))
      ensures dir == if old(pmm.Free()) == {} then 0 else (Lowest(old(pmm.Free())) + FIRST_MANAGED) * PAGE_SIZE
    {
      ghost var mem0 := mem[..];
      var phys := pmm.Alloc();
      if phys == 0 {
        return 0;
      }
      dir := phys;
      ghost var d := dir / 4096;
      assert d == PageOf(phys) + FIRST_MANAGED;
      LowestUnique(old(pmm.Free()), PageOf(phys));
      ClearFrame(dir / 4096);
      CopyLow(dir / 4096);
      assert mem[d] == NewDir(mem0, layout.kdir);
      assert mem[..] == mem0[d := NewDir(mem0, layout.kdir)];
      dirs := dirs + {d};
    }

    /** The loop that copies the kernel's 20 entries to a new directory. */
    method CopyLow(d: nat)
      requires MemoryOk(mem[..]) && layout.Ok() && d < FRAMES && d != layout.kdir
      modifies mem
      ensures MemoryOk(mem[..]) && mem[..] == old(mem[..])[d := mem[d]]
      ensures forall i :: 0 <= i < WORDS ==> mem[d][i] == if i < LOW_TABLES then mem[layout.kdir][i] else old(mem[d][i])
    {
      for i := 0 to LOW_TABLES
        invariant MemoryOk(mem[..])
        invariant forall q :: 0 <= q < FRAMES && q != d ==> mem[q] == old(mem[q])
        invariant forall k :: 0 <= k < WORDS ==> mem[d][k] == if k < i then mem[layout.kdir][k] else old(mem[d][k])
      {
        PutWord(d, i, mem[layout.kdir][i]);
      }
    }

    /** vmm_switch_directory */
    method SwitchDirectory(dir: nat)
      requires Valid() && dir % PAGE_SIZE == 0 && dir / PAGE_SIZE in dirs
      modifies this`cr3
      ensures Valid() && cr3 == dir
    {
      cr3 := dir;
    }

    /** vmm_mark_user_range; the end of the range is computed in 32 bits. */
    method MarkUserRange(start: nat, len: nat)
      requires Valid() && start < TWO32 && len < TWO32
      modifies mem
      ensures Valid()
      ensures UserMarked(layout, dirs, old(pmm.Free()), old(mem[..]), mem[..], cr3 / PAGE_SIZE,
                         start / 4096, (start + len + 0xFFF) % TWO32 / 4096)
      ensures mem[..] == Marked(old(mem[..]), cr3 / PAGE_SIZE, start / 4096, (start + len + 0xFFF) % TWO32 / 4096)
      ensures old(Identity(layout, mem[..])) ==> Identity(layout, mem[..])
    {
      var lo, hi := start / 4096, (start + len + 0xFFF) % TWO32 / 4096;
      MarkedSets(layout, S(), cr3 / PAGE_SIZE, lo, hi, Marked(mem[..], cr3 / PAGE_SIZE, lo, hi));
      if Identity(layout, mem[..]) {
        MarkedIdentity(layout, S(), cr3 / PAGE_SIZE, lo, hi, Marked(mem[..], cr3 / PAGE_SIZE, lo, hi));
      }
      MarkPages(lo * 4096, hi * 4096, lo, hi, S());
    }

    /** The loop of vmm_mark_user_range. */
    method MarkPages(start: nat, end: nat, ghost lo: nat, ghost hi: nat, ghost s: Vm)
      requires VmOk(layout, s) && cr3 / PAGE_SIZE in s.dirs && mem[..] == s.mem
      requires start == lo * 4096 && end == hi * 4096 && lo <= VPAGES && hi <= VPAGES
      modifies mem
      ensures mem[..] == Marked(s.mem, cr3 / PAGE_SIZE, lo, hi)
    {
      var addr := start;
      ghost var d, v, now := cr3 / PAGE_SIZE, lo, s.mem;
      while addr < end
        invariant addr == v * 4096 && lo <= v && (v <= hi || v == lo) && v <= VPAGES
        invariant mem[..] == now && now == Marked(s.mem, d, lo, v)
      {
        ghost var next := Marked(s.mem, d, lo, v + 1);
        MarkedBounds(layout, s, d, lo, v);
        MarkedOneMore(s.mem, d, lo, v, v + 1);
        MarkPage(addr, v, next);
        addr := addr + 0x1000;
        v, now := v + 1, next;
      }
    }

    /** The loop body of vmm_mark_user_range. */
    method MarkPage(addr: nat, ghost v: nat, ghost next: Memory)
      requires MemoryOk(mem[..]) && cr3 / PAGE_SIZE < FRAMES && addr == v * 4096 && v < VPAGES
      requires var d := cr3 / PAGE_SIZE; Mapped(mem[..], d, v) ==> TableOf(mem[..], d, v) < FRAMES
      requires next == MarkIf(mem[..], cr3 / PAGE_SIZE, v)
      modifies mem
      ensures mem[..] == next
    {
      var pdi, pti := addr / 0x400000, addr / 0x1000 % 1024;
      ghost var d := cr3 / PAGE_SIZE;
      assert pdi == v / WORDS && pti == v % WORDS;
      var pde := mem[cr3 / PAGE_SIZE][pdi];
      if !Present(pde) {
        return;
      }
      PutWord(cr3 / PAGE_SIZE, pdi, WithUser(mem[cr3 / PAGE_SIZE][pdi]));
      PutWord(pde / 4096, pti, WithUser(mem[pde / 4096][pti]));
    }

    /** vmm_init, up to enabling paging. */
    method Init()
      requires layout.Ok() && MemoryOk(mem[..]) && pmm.Valid()
      modifies this, mem, pmm.bitmap
      ensures Valid() && Identity(layout, mem[..])
      ensures dirs == {layout.kdir} && cr3 == layout.kdir * PAGE_SIZE && pmm.Free() == Range(PageOf(KERNEL_END), PAGES)
      ensures forall v :: 0 <= v < VPAGES ==> Map(layout.kdir, v) == if v < LOW_PAGES then v * 4096 + 3 else 0
    {
      pmm.Init();
      ClearFrame(layout.kdir);
      for i := 0 to LOW_TABLES
        modifies mem
        invariant MemoryOk(mem[..]) && mem[layout.kdir] == Zeros()
      {
        ClearFrame(layout.ktab + i);
      }
      FillLowTables();
      FillDirectory();
      dirs := {layout.kdir};
      cr3 := layout.kdir * PAGE_SIZE;
      InitialStructure(layout, mem[..], pmm.Free());
    }

    method FillLowTables()
      requires layout.Ok() && MemoryOk(mem[..])
      modifies mem
      ensures MemoryOk(mem[..]) && mem[layout.kdir] == old(mem[layout.kdir])
      ensures forall v :: 0 <= v < LOW_PAGES ==> LowEntry(layout, mem[..], v) == v * 4096 + 3
    {
      for i := 0 to 80 * 1024 * 1024 / 0x1000
        invariant MemoryOk(mem[..]) && mem[layout.kdir] == old(mem[layout.kdir])
        invariant forall v :: 0 <= v < i ==> LowEntry(layout, mem[..], v) == v * 4096 + 3
      {
        var phys := i * 0x1000;
        forall v: nat | v < LOW_PAGES { PutLowEntry(layout, mem[..], i, phys + 3, v); }
        PutWord(layout.ktab + i / 1024, i % 1024, phys + 0x001 + 0x002);
      }
    }

    method FillDirectory()
      requires layout.Ok() && MemoryOk(mem[..]) && mem[layout.kdir] == Zeros()
      requires forall v :: 0 <= v < LOW_PAGES ==> LowEntry(layout, mem[..], v) == v * 4096 + 3
      modifies mem
      ensures MemoryOk(mem[..])
      ensures forall v :: 0 <= v < LOW_PAGES ==> LowEntry(layout, mem[..], v) == v * 4096 + 3
      ensures forall i :: 0 <= i < WORDS ==>
                mem[layout.kdir][i] == if i < LOW_TABLES then (layout.ktab + i) * 4096 + 3 else 0
    {
      var ptAddr := layout.ktab * 4096;
      for i := 0 to LOW_TABLES
        invariant MemoryOk(mem[..]) && ptAddr == (layout.ktab + i) * 4096
        invariant forall v :: 0 <= v < LOW_PAGES ==> LowEntry(layout, mem[..], v) == v * 4096 + 3
        invariant forall k :: 0 <= k < WORDS ==>
                    mem[layout.kdir][k] == if k < i then (layout.ktab + k) * 4096 + 3 else 0
      {
        ghost var mem0 := mem[..];
        PutWord(layout.kdir, i, ptAddr + 0x001 + 0x002);
        assert forall v :: 0 <= v < LOW_PAGES ==> LowEntry(layout, mem[..], v) == LowEntry(layout, mem0, v);
        ptAddr := ptAddr + 0x1000;
      }
    }
  }
}
