/** New address spaces, the state after start-up, and what holds over every run. */
module MemorySpaces {
  import opened Common
  import opened PageRuns
  import opened PhysicalMemories
  import opened Paging
  import opened VirtualMemories
  import opened MemoryTheorems
  import opened MemoryRegions

  /** No directory has a table at frame f. */
  ghost predicate Unlinked(s: Vm, f: nat) {
    forall e, i :: e in s.spaces && 0 <= i < RECURSIVE_ENTRY && At(s.mem, e)[i].present ==> At(s.mem, e)[i].frame != f
  }

  /** The frame holds a directory as map_kernel_pd_entries fills it. */
  ghost predicate Prepared(s: Vm, f: nat) {
    forall i :: 0 <= i < ENTRIES ==>
      At(s.mem, f)[i] ==
      if i == RECURSIVE_ENTRY then Entry(true, true, false, f) else if i >= KERNEL_PDE then At(s.mem, s.boot)[i] else NO_ENTRY
  }

  lemma AddSpaceApart(s: Vm, f: nat)
    requires VmInv(s) && f !in s.spaces && Unlinked(s, f) && Prepared(s, f)
    ensures var t := s.(spaces := s.spaces + {f}); TablesOwned(t) && TablesApart(t)
  {
    var t := s.(spaces := s.spaces + {f});
    hide At, FramesRight;
    forall d, e, i: nat, j: nat | d in t.spaces && e in t.spaces && SameTable(t, d, i, e, j)
      ensures i == j && (d == e || i >= KERNEL_PDE)
    {
      var d', e' := if d == f then s.boot else d, if e == f then s.boot else e;
      assert SameTable(s, d', i, e', j);
    }
  }

  lemma PreparedSelf(s: Vm, f: nat)
    requires Prepared(s, f)
    ensures At(s.mem, f)[RECURSIVE_ENTRY] == Entry(true, true, false, f)
  {
    hide At;
    var i := RECURSIVE_ENTRY;
    assert 0 <= i < ENTRIES;
  }

  lemma AddSpaceInv(s: Vm, f: nat)
    requires VmInv(s) && f in s.tables && f !in s.spaces && Unlinked(s, f) && Prepared(s, f)
    ensures VmInv(s.(spaces := s.spaces + {f}))
  {
    hide At, TablesOwned, TablesApart, KernelShared, Unlinked, Prepared;
    AddSpaceApart(s, f);
    AddSpaceShared(s, f);
    PreparedSelf(s, f);
  }

  lemma AddSpaceShared(s: Vm, f: nat)
    requires KernelShared(s) && s.boot in s.spaces && Prepared(s, f)
    ensures KernelShared(s.(spaces := s.spaces + {f}))
  {
    hide At;
    var t := s.(spaces := s.spaces + {f});
    forall d, i | d in t.spaces && KERNEL_PDE <= i < RECURSIVE_ENTRY
      ensures At(t.mem, d)[i] == At(t.mem, t.boot)[i] && At(t.mem, d)[i].present && !At(t.mem, d)[i].user
    {
      assert At(s.mem, s.boot)[i] == At(s.mem, s.boot)[i] && At(s.mem, s.boot)[i].present && !At(s.mem, s.boot)[i].user;
      assert d != f ==> At(s.mem, d)[i] == At(s.mem, s.boot)[i];
    }
  }

  /** A prepared directory translates the kernel's pages like the start-up one, and nothing else. */
  lemma PreparedWalk(s: Vm, f: nat, x: nat)
    requires Prepared(s, f) && x < TOP
    ensures Walk(s.mem, f, x) == if Pde(x) >= KERNEL_PDE then Walk(s.mem, s.boot, x) else None
  {
    PageIndex(x, x);
    hide At, Pde, Pte;
  }

  // ---- Filling in the new directory ----

  /** The new directory is written through the kernel page that has its frame. */
  ghost function Drafted(s: Vm, f: nat): Vm {
    s.(mem := s.mem[f := NewDirectory(s, f)], tables := s.tables + {f})
  }

  lemma DraftedInv(s: Vm, f: nat)
    requires VmInv(s) && f in s.used && f !in s.tables && f < TWO16
    ensures VmInv(Drafted(s, f)) && Unlinked(Drafted(s, f), f) && Prepared(Drafted(s, f), f)
  {
    var t := Drafted(s, f);
    assert Short(f) == f && Pde(KERNEL_PAGE) == KERNEL_PDE;
    assert forall d :: d in s.spaces ==> At(t.mem, d) == At(s.mem, d);
    assert At(t.mem, f) == NewDirectory(s, f);
    assert t.mem.Keys == s.mem.Keys + {f};
    hide At, NewDirectory, TablesApart;
    SameDirectories(s, t);
  }

  lemma DraftedWalks(s: Vm, f: nat)
    requires VmInv(s) && f !in s.tables
    ensures SameWalks(s, Drafted(s, f))
  {
    hide TablesApart, KernelShared, Pte, NewDirectory;
    var t := Drafted(s, f);
    forall d, x: nat | d in s.spaces && x < TOP
      ensures Walk(t.mem, d, x) == Walk(s.mem, d, x)
    {
      PageIndex(x, x);
      assert At(t.mem, d) == At(s.mem, d);
    }
  }

  /** Unmapping the kernel page leaves the directory as it is. */
  lemma EmptiedKeeps(s: Vm, k: nat, f: nat)
    requires VmInv(s) && k < TOP && HasTable(s, Pde(k)) && Unlinked(s, f) && Prepared(s, f)
    ensures Unlinked(Emptied(s, k), f) && Prepared(Emptied(s, k), f)
  {
    hide TablesApart, KernelShared, FramesRight, Pte;
    PageIndex(k, k);
    var t, w := Emptied(s, k), TableOf(s, Pde(k));
    assert At(s.mem, s.cr3)[Pde(k)].present;
    assert w !in s.spaces && w != f;
    assert forall d :: d != w ==> At(t.mem, d) == At(s.mem, d);
    hide At;
  }

  lemma UnmapIgnoresTables(s: Vm, v: nat, tables: set<nat>)
    ensures UnmapPage(s.(tables := tables), v) ==
            match UnmapPage(s, v) case Panic => Panic case Ok(t) => Ok(t.(tables := tables))
    ensures GetPhysicalPage(s.(tables := tables), v) == GetPhysicalPage(s, v)
  {
  }

  lemma TwoWalks(s: Vm, t: Vm, u: Vm, w: Vm, k: nat, page: Page)
    requires OneMapped(s, t, k, page) && SameWalks(t, u) && OneUnmapped(u, w, k)
    requires VmInv(s) && k < TOP && Pde(k) >= KERNEL_PDE && Translate(s, k).None?
    ensures SameWalks(s, w)
  {
    hide VmInv, Walk, Pde;
    assert OneMapped(s, u, k, page);
    MapUnmap(s, u, w, k, page);
  }

  /** The kernel page is mapped and the directory written through it. */
  lemma DraftStage(s: Vm, fuel: nat) returns (k: nat, d: nat)
    requires VmInv(s) && LowFree(s.used) != {} && KernelFree(s)
    ensures var a := KernelFilled(s, k, d);
      Alloc(s, None, 1, KERNEL_FLAGS, false, fuel) == Ok((a, Some(k))) && OneMapped(s, a, k, Granted(s, k, d, KERNEL_FLAGS)) &&
      GetPhysicalPage(a, k) == Ok(d) && Translate(a, k) == Some(Granted(s, k, d, KERNEL_FLAGS)) && SameWalks(a, Drafted(a, d))
    ensures KernelSpot(s, k) && d in LowFree(s.used)
    ensures var b := Drafted(KernelFilled(s, k, d), d);
      VmInv(b) && Unlinked(b, d) && Prepared(b, d) && HasTable(b, Pde(k)) && GetPhysicalPage(b, k) == Ok(d) &&
      b.used == s.used + {d} && b.size == Wrapped(s.size, 1) && d !in b.spaces && d in b.tables && b.tables == s.tables + {d}
    ensures HasTable(s, Pde(k)) && Drafted(KernelFilled(s, k, d), d).spaces == s.spaces
  {
    hide VmInv, LowFree, KernelFree, Place, AllocFrames, Alloc, OneMapped, SameWalks, HasTable, Unlinked, Prepared, Filled,
      Walk, Pde, NewDirectory, KernelSpot, Wrapped;
    InvRecursive(s);
    k, d := KernelAlloc(s, fuel);
    SpotFacts(s, k);
    LowFrame(s.used, d);
    var a := KernelFilled(s, k, d);
    FilledFacts(s, k, d);
    MappedCurrent(s, a, k, Granted(s, k, d, KERNEL_FLAGS));
    GetMapped(a, k, d);
    InvRecursive(a);
    DraftedInv(a, d);
    DraftedWalks(a, d);
    DraftedTables(a, d);
    var b := Drafted(a, d);
    MappedSpaces(s, a, k, Granted(s, k, d, KERNEL_FLAGS));
    MappedCurrent(s, a, k, Granted(s, k, d, KERNEL_FLAGS));
    SameCurrent(a, b, k);
    GetMapped(b, k, d);
  }

  lemma MappedSpaces(s: Vm, t: Vm, v: nat, page: Page)
    requires OneMapped(s, t, v, page)
    ensures t.spaces == s.spaces && t.cr3 == s.cr3 && t.boot == s.boot
  {
  }

  lemma SameCurrent(s: Vm, t: Vm, v: nat)
    requires SameWalks(s, t) && s.cr3 in s.spaces && v < TOP
    ensures Translate(t, v) == Translate(s, v)
  {
  }

  /** create_new_virtual_space: one frame more, no translation changed, and a directory that shares the kernel's
      pages and has no others. */
  lemma NewSpaceExact(s: Vm, fuel: nat) returns (t: Vm, d: nat)
    requires VmInv(s) && LowFree(s.used) != {} && KernelFree(s)
    ensures NewSpace(s, fuel) == Ok((t, d)) && VmInv(t)
    ensures d !in s.used && t.used == s.used + {d} && t.spaces == s.spaces + {d} && t.cr3 == s.cr3 && t.boot == s.boot
    ensures Counted(s) ==> Counted(t)
    ensures forall e, x: nat :: e in s.spaces && x < TOP ==> Walk(t.mem, e, x) == Walk(s.mem, e, x)
    ensures forall x: nat :: x < TOP ==> Walk(t.mem, d, x) == if Pde(x) >= KERNEL_PDE then Walk(s.mem, s.boot, x) else None
    ensures t.tables == s.tables + {d} && DirectoriesSame(s, t) && forall i :: 0 <= i < KERNEL_PDE ==> At(t.mem, d)[i] == NO_ENTRY
  {
    hide VmInv, LowFree, KernelFree, Alloc, OneMapped, SameWalks, OneUnmapped, HasTable, Unlinked, Prepared, Counted, KernelFilled, Drafted,
      Walk, Pde, KernelSpot, Wrapped, UnmapPage, GetPhysicalPage, Emptied, NewSpace, DirectoriesSame, At;
    InvRecursive(s);
    var k;
    k, d := DraftStage(s, fuel);
    SpotFacts(s, k);
    LowFrame(s.used, d);
    TakeFrame(s, d);
    var a := KernelFilled(s, k, d);
    var b := Drafted(a, d);
    var u := UnmapStage(b, k, d);
    TwoWalks(s, a, b, u, k, Granted(s, k, d, KERNEL_FLAGS));
    DraftedFrame(a, d);
    NewSpaceWalks(s, u, d);
    AddSpaceInv(u, d);
    t := u.(spaces := u.spaces + {d});
    NewSpaceSteps(s, a, b, u, k, d, fuel);
    CountedSame(s.(used := s.used + {d}, size := Wrapped(s.size, 1)), t);
    PreparedLow(u, d);
    DraftedDirectories(s, a, b, u, t, k, d);
  }

  lemma PreparedLow(s: Vm, f: nat)
    requires Prepared(s, f)
    ensures forall i :: 0 <= i < KERNEL_PDE ==> At(s.mem, f)[i] == NO_ENTRY
  {
    hide At;
  }

  lemma DraftedDirectories(s: Vm, a: Vm, b: Vm, u: Vm, t: Vm, k: nat, d: nat)
    requires VmInv(s) && d !in s.spaces && k < TOP && HasTable(s, Pde(k)) && a == KernelFilled(s, k, d) && b == Drafted(a, d)
    requires DirectoriesSame(b, u) && b.spaces == s.spaces && t.mem == u.mem
    ensures DirectoriesSame(s, t)
  {
    hide VmInv, HasTable, Pde, Pte, NewDirectory;
    PageIndex(k, k);
    WriteDirectories(s, Pde(k), Pte(k), Entry(true, true, false, d));
    assert a.mem == Write(s, TableOf(s, Pde(k)), Pte(k), Entry(true, true, false, d)).mem;
  }

  lemma DraftedFrame(a: Vm, f: nat)
    ensures Drafted(a, f).tables == a.tables + {f}
  {
  }

  lemma UnmapStage(b: Vm, k: nat, d: nat) returns (u: Vm)
    requires VmInv(b) && k < TOP && HasTable(b, Pde(k)) && Unlinked(b, d) && Prepared(b, d) && GetPhysicalPage(b, k) == Ok(d)
    ensures UnmapPage(b, k) == Ok(u) && GetPhysicalPage(u, k) == Ok(d) && VmInv(u) && OneUnmapped(b, u, k)
    ensures Unlinked(u, d) && Prepared(u, d) && u.used == b.used && u.size == b.size && u.tables == b.tables && u.spaces == b.spaces
    ensures DirectoriesSame(b, u)
  {
    hide VmInv, HasTable, Unlinked, Prepared, Pde, UnmapPage, GetPhysicalPage, At, DirectoriesSame;
    UnmapThere(b, k);
    EmptiedFacts(b, k);
    EmptiedKeeps(b, k, d);
    u := Emptied(b, k);
    DirectoriesRefl(b);
    EmptiedDirectories(b, b, k);
    UnmapThere(u, k);
  }

  lemma DirectoriesRefl(s: Vm)
    ensures DirectoriesSame(s, s)
  {
  }

  lemma SpotFacts(s: Vm, k: nat)
    requires KernelSpot(s, k)
    ensures k < TOP && KERNEL_PDE <= Pde(k) < RECURSIVE_ENTRY && Translate(s, k).None?
  {
    KernelIndex(k);
  }

  lemma DraftedTables(a: Vm, f: nat)
    requires VmInv(a) && f !in a.tables
    ensures forall i: nat :: i < ENTRIES ==> HasTable(Drafted(a, f), i) == HasTable(a, i) && TableOf(Drafted(a, f), i) == TableOf(a, i)
    ensures forall i: nat :: i < RECURSIVE_ENTRY && HasTable(a, i) ==> At(Drafted(a, f).mem, TableOf(a, i)) == At(a.mem, TableOf(a, i))
    ensures Drafted(a, f).used == a.used && Drafted(a, f).size == a.size && Drafted(a, f).tables == a.tables + {f}
  {
    hide TablesApart, KernelShared, NewDirectory;
  }

  lemma NewSpaceSteps(s: Vm, a: Vm, b: Vm, u: Vm, k: nat, d: nat, fuel: nat)
    requires Alloc(s, None, 1, KERNEL_FLAGS, false, fuel) == Ok((a, Some(k)))
    requires GetPhysicalPage(a, k) == Ok(d) && Translate(a, k).Some? && Translate(a, k).value.frame == d && b == Drafted(a, d)
    requires UnmapPage(b, k) == Ok(u) && GetPhysicalPage(u, k) == Ok(d) && u.tables == b.tables
    ensures NewSpace(s, fuel) == Ok((u.(spaces := u.spaces + {d}), d))
  {
    hide Alloc, UnmapPage, GetPhysicalPage, Translate, NewDirectory;
    var c := a.(mem := a.mem[d := NewDirectory(a, d)]);
    UnmapIgnoresTables(b, k, a.tables);
    assert c == b.(tables := a.tables);
    UnmapIgnoresTables(u, k, a.tables);
    assert u.tables == a.tables + {d};
  }

  lemma NewSpaceWalks(s: Vm, u: Vm, d: nat)
    requires SameWalks(s, u) && Prepared(u, d) && s.boot in s.spaces
    ensures u.spaces == s.spaces && u.cr3 == s.cr3 && u.boot == s.boot
    ensures forall x: nat :: x < TOP ==> Walk(u.mem, d, x) == if Pde(x) >= KERNEL_PDE then Walk(s.mem, s.boot, x) else None
    ensures forall e, x: nat :: e in s.spaces && x < TOP ==> Walk(u.mem, e, x) == Walk(s.mem, e, x)
  {
    hide Walk, Pde, Prepared;
    forall x: nat | x < TOP
      ensures Walk(u.mem, d, x) == if Pde(x) >= KERNEL_PDE then Walk(s.mem, s.boot, x) else None
    {
      PreparedWalk(u, d, x);
    }
  }
}
