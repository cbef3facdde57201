/** What allocation keeps about the address spaces, and what it does to translations. */
module VirtualMemories {
  import opened Common
  import opened PageRuns
  import opened PhysicalMemories
  import opened Paging

  /** Pages below the recursive entry's. */
  const TOP: nat := RECURSIVE_ENTRY * ENTRIES

  // ---- The invariant ----

  ghost predicate Recursive(s: Vm) {
    s.cr3 in s.spaces && s.boot in s.spaces && s.spaces <= s.tables &&
    forall d :: d in s.spaces ==> At(s.mem, d)[RECURSIVE_ENTRY] == Entry(true, true, false, d)
  }

  /** The kernel part of every directory is the same, present, and out of reach of user code. */
  ghost predicate KernelShared(s: Vm) {
    forall d, i :: d in s.spaces && KERNEL_PDE <= i < RECURSIVE_ENTRY ==>
      At(s.mem, d)[i] == At(s.mem, s.boot)[i] && At(s.mem, d)[i].present && !At(s.mem, d)[i].user
  }

  ghost predicate TablesOwned(s: Vm) {
    forall d, i :: d in s.spaces && 0 <= i < RECURSIVE_ENTRY && At(s.mem, d)[i].present ==>
      At(s.mem, d)[i].frame in s.tables && At(s.mem, d)[i].frame !in s.spaces
  }

  /** No table serves two places, except that all spaces share the kernel's. */
  ghost predicate TablesApart(s: Vm) {
    forall d, e, i: nat, j: nat :: d in s.spaces && e in s.spaces && SameTable(s, d, i, e, j) ==>
      i == j && (d == e || i >= KERNEL_PDE)
  }

  /** Entry i of directory d and entry j of directory e name the same table. */
  predicate SameTable(s: Vm, d: nat, i: nat, e: nat, j: nat) {
    i < RECURSIVE_ENTRY && j < RECURSIVE_ENTRY && At(s.mem, d)[i].present && At(s.mem, e)[j].present &&
    At(s.mem, d)[i].frame == At(s.mem, e)[j].frame
  }

  /** Frames that hold directories or tables are in use; frames that were never one read as zero. */
  ghost predicate FramesRight(s: Vm) {
    s.tables <= s.used && s.mem.Keys <= s.tables && (forall f :: f in s.used ==> f < FRAMES)
  }

  ghost predicate VmInv(s: Vm) {
    Recursive(s) && KernelShared(s) && TablesOwned(s) && TablesApart(s) && FramesRight(s)
  }

  // ---- Reaching tables through the recursive entry ----

  ghost predicate HasTable(s: Vm, i: nat)
    requires i < ENTRIES
  {
    At(s.mem, s.cr3)[i].present
  }

  ghost function TableOf(s: Vm, i: nat): nat
    requires i < ENTRIES
  {
    At(s.mem, s.cr3)[i].frame
  }

  lemma WindowIndex(i: nat)
    requires i < ENTRIES
    ensures Pde(Window(i)) == RECURSIVE_ENTRY && Pte(Window(i)) == i
  {
  }

  /** Through the recursive entry the kernel sees the current directory and exactly the tables it has. */
  lemma WindowMeaning(s: Vm, i: nat)
    requires Recursive(s) && i < ENTRIES
    ensures TableFrame(s, RECURSIVE_ENTRY) == Ok(s.cr3)
    ensures TableFrame(s, i) == if HasTable(s, i) then Ok(TableOf(s, i)) else Panic
  {
    WindowIndex(i);
    WindowIndex(RECURSIVE_ENTRY);
    hide Pde, Pte, Window, At;
  }

  lemma PresentMeaning(s: Vm, v: nat)
    requires Recursive(s)
    ensures CheckPageTableExists(s, v) == Ok(HasTable(s, Pde(v)))
    ensures CheckPagePresent(s, v) == Ok(Translate(s, v).Some?)
  {
    WindowMeaning(s, Pde(v));
    hide TableFrame;
  }

  // ---- Writing to a table ----

  /** What a table entry means under its directory entry. */
  function Target(pde: Entry, e: Entry): Option<Page> {
    if e.present then Some(Page(e.frame, pde.writable && e.writable, pde.user && e.user)) else None
  }

  /** Writing entry j of table i changes the translation of that one page: in the current space, and in all
      of them when the page is the kernel's. */
  lemma WriteWalk(s: Vm, i: nat, j: nat, e: Entry, d: nat, v: nat)
    requires VmInv(s) && i < RECURSIVE_ENTRY && j < ENTRIES && HasTable(s, i) && d in s.spaces && Pde(v) < RECURSIVE_ENTRY
    ensures Walk(Write(s, TableOf(s, i), j, e).mem, d, v) ==
            if Pde(v) == i && Pte(v) == j && (d == s.cr3 || i >= KERNEL_PDE) then Target(At(s.mem, s.cr3)[i], e) else Walk(s.mem, d, v)
  {
    hide Pde, Pte, FramesRight;
    var t := TableOf(s, i);
    var m := Write(s, t, j, e).mem;
    assert At(s.mem, s.cr3)[i].present;
    assert SameTable(s, d, Pde(v), s.cr3, i) ==> Pde(v) == i && (d == s.cr3 || i >= KERNEL_PDE);
    assert i >= KERNEL_PDE ==> At(s.mem, d)[i] == At(s.mem, s.boot)[i] == At(s.mem, s.cr3)[i];
    assert At(m, d) == At(s.mem, d);
    assert At(m, t) == At(s.mem, t)[j := e];
  }

  lemma WriteInv(s: Vm, i: nat, j: nat, e: Entry)
    requires VmInv(s) && i < RECURSIVE_ENTRY && j < ENTRIES && HasTable(s, i)
    ensures VmInv(Write(s, TableOf(s, i), j, e))
  {
    var t := Write(s, TableOf(s, i), j, e);
    assert At(s.mem, s.cr3)[i].present;
    assert forall d :: d in s.spaces ==> At(t.mem, d) == At(s.mem, d);
    hide At;
    SameDirectories(s, t);
  }

  /** The invariant is about the directories and the sets of frames only. */
  lemma SameDirectories(s: Vm, t: Vm)
    requires VmInv(s) && t.spaces == s.spaces && t.boot == s.boot && t.cr3 in t.spaces && s.tables <= t.tables
    requires FramesRight(t) && forall d :: d in s.spaces ==> At(t.mem, d) == At(s.mem, d)
    ensures VmInv(t)
  {
    hide At, FramesRight, TablesApart, TablesOwned, KernelShared;
    SameApart(s, t);
    SameShared(s, t);
    SameOwned(s, t);
  }

  lemma SameShared(s: Vm, t: Vm)
    requires KernelShared(s) && s.boot in s.spaces && t.spaces == s.spaces && t.boot == s.boot
    requires forall d :: d in s.spaces ==> At(t.mem, d) == At(s.mem, d)
    ensures KernelShared(t)
  {
    hide At;
    forall d, i | d in t.spaces && KERNEL_PDE <= i < RECURSIVE_ENTRY
      ensures At(t.mem, d)[i] == At(t.mem, t.boot)[i] && At(t.mem, d)[i].present && !At(t.mem, d)[i].user
    {
      assert At(s.mem, d)[i] == At(s.mem, s.boot)[i] && At(s.mem, d)[i].present;
    }
  }

  lemma SameOwned(s: Vm, t: Vm)
    requires TablesOwned(s) && t.spaces == s.spaces && s.tables <= t.tables && forall d :: d in s.spaces ==> At(t.mem, d) == At(s.mem, d)
    ensures TablesOwned(t)
  {
    hide At;
    forall d, i | d in t.spaces && 0 <= i < RECURSIVE_ENTRY && At(t.mem, d)[i].present
      ensures At(t.mem, d)[i].frame in t.tables && At(t.mem, d)[i].frame !in t.spaces
    {
      assert At(s.mem, d)[i].present;
    }
  }

  lemma SameApart(s: Vm, t: Vm)
    requires TablesApart(s) && t.spaces == s.spaces && forall d :: d in s.spaces ==> At(t.mem, d) == At(s.mem, d)
    ensures TablesApart(t)
  {
    hide At;
    forall d, e, i: nat, j: nat | d in t.spaces && e in t.spaces && SameTable(t, d, i, e, j)
      ensures i == j && (d == e || i >= KERNEL_PDE)
    {
      assert SameTable(s, d, i, e, j);
    }
  }

  /** The directories of the other spaces are what they were. */
  ghost predicate OthersSame(s: Vm, t: Vm) {
    forall d :: d in s.spaces && d != s.cr3 ==> At(t.mem, d) == At(s.mem, d)
  }

  /** Writing to a table writes to no directory. */
  lemma WriteDirectories(s: Vm, i: nat, j: nat, e: Entry)
    requires VmInv(s) && i < RECURSIVE_ENTRY && j < ENTRIES && HasTable(s, i)
    ensures forall d :: d in s.spaces ==> At(Write(s, TableOf(s, i), j, e).mem, d) == At(s.mem, d)
  {
    hide TablesApart, KernelShared, FramesRight;
    assert At(s.mem, s.cr3)[i].present;
    assert TableOf(s, i) !in s.spaces;
  }

  lemma OthersTrans(s: Vm, t: Vm, u: Vm)
    requires OthersSame(s, t) && OthersSame(t, u) && t.spaces == s.spaces && t.cr3 == s.cr3
    ensures OthersSame(s, u)
  {
    hide At;
  }

  // ---- A new table ----

  /** The current directory with table g entered at i. */
  ghost function Entered(s: Vm, i: nat, g: nat): Vm
    requires i < ENTRIES
  {
    Write(s, s.cr3, i, Entry(true, true, true, g)).(tables := s.tables + {g})
  }

  lemma EnteredAt(s: Vm, i: nat, g: nat, d: nat)
    requires i < ENTRIES
    ensures At(Entered(s, i, g).mem, d) == if d == s.cr3 then At(s.mem, d)[i := Entry(true, true, true, g)] else At(s.mem, d)
  {
  }

  lemma EnteredApart(s: Vm, i: nat, g: nat)
    requires VmInv(s) && i < KERNEL_PDE && !HasTable(s, i) && g !in s.tables
    ensures TablesApart(Entered(s, i, g)) && TablesOwned(Entered(s, i, g))
  {
    var t := Entered(s, i, g);
    forall d | d in s.spaces
      ensures At(t.mem, d) == if d == s.cr3 then At(s.mem, d)[i := Entry(true, true, true, g)] else At(s.mem, d)
    {
      EnteredAt(s, i, g, d);
    }
    hide At;
    forall d, e, k: nat, j: nat | d in s.spaces && e in s.spaces && SameTable(t, d, k, e, j)
      ensures k == j && (d == e || k >= KERNEL_PDE)
    {
      if !(d == s.cr3 && k == i) && !(e == s.cr3 && j == i) {
        assert SameTable(s, d, k, e, j);
      }
    }
  }

  lemma EnteredInv(s: Vm, i: nat, g: nat)
    requires VmInv(s) && i < KERNEL_PDE && !HasTable(s, i) && g !in s.tables && g in s.used
    ensures VmInv(Entered(s, i, g))
  {
    hide TablesApart, TablesOwned, KernelShared, At;
    EnteredApart(s, i, g);
    var t := Entered(s, i, g);
    forall d | d in s.spaces
      ensures At(t.mem, d) == if d == s.cr3 then At(s.mem, d)[i := Entry(true, true, true, g)] else At(s.mem, d)
    {
      EnteredAt(s, i, g, d);
    }
    assert t.mem.Keys == s.mem.Keys + {s.cr3};
    assert FramesRight(t);
    EnteredShared(s, t, i);
  }

  lemma EnteredShared(s: Vm, t: Vm, i: nat)
    requires KernelShared(s) && s.boot in s.spaces && i < KERNEL_PDE && t.spaces == s.spaces && t.boot == s.boot
    requires forall d, j :: d in s.spaces && 0 <= j < ENTRIES && j != i ==> At(t.mem, d)[j] == At(s.mem, d)[j]
    ensures KernelShared(t)
  {
    hide At;
    forall d, j | d in t.spaces && KERNEL_PDE <= j < RECURSIVE_ENTRY
      ensures At(t.mem, d)[j] == At(t.mem, t.boot)[j] && At(t.mem, d)[j].present && !At(t.mem, d)[j].user
    {
      assert At(s.mem, d)[j] == At(s.mem, s.boot)[j] && At(s.mem, d)[j].present;
    }
  }

  /** A fresh table is empty, so entering it changes no translation. */
  lemma EnteredWalk(s: Vm, i: nat, g: nat, d: nat, v: nat)
    requires VmInv(s) && i < KERNEL_PDE && !HasTable(s, i) && g !in s.tables && d in s.spaces && Pde(v) < RECURSIVE_ENTRY
    ensures Walk(Entered(s, i, g).mem, d, v) == Walk(s.mem, d, v)
  {
    hide Pde, Pte, TablesApart, KernelShared;
    var m := Entered(s, i, g).mem;
    EnteredAt(s, i, g, d);
    assert At(m, g) == Empty();
    if At(s.mem, d)[Pde(v)].present {
      assert At(s.mem, d)[Pde(v)].frame !in s.spaces;
    }
  }

  // ---- Frames ----

  /** The free frames that a 16-bit frame number can name. */
  ghost function LowFree(used: set<nat>): set<nat> {
    Range(AVAILABLE_PAGES_START, TWO16 - AVAILABLE_PAGES_START) - used
  }

  lemma LowFreeLess(used: set<nat>, f: nat)
    requires f in LowFree(used)
    ensures |LowFree(used + {f})| == |LowFree(used)| - 1
  {
    assert LowFree(used + {f}) == LowFree(used) - {f};
  }

  /** While a low frame is free, the next frame is the lowest one. */
  lemma NextFrame(s: Vm)
    requires LowFree(s.used) != {}
    ensures AllocFrames(s, 1).Ok?
    ensures var r := AllocFrames(s, 1).value;
      r.1 in LowFree(s.used) && r.0 == s.(used := s.used + {r.1}, size := Wrapped(s.size, 1)) &&
      (forall g :: AVAILABLE_PAGES_START <= g < r.1 ==> g in s.used)
  {
    var low :| low in LowFree(s.used);
    assert FreeRun(s.used, low, 1);
    var f := AllocFrames(s, 1).value.1;
    assert f <= low && f !in s.used;
    forall g | AVAILABLE_PAGES_START <= g < f
      ensures g in s.used
    {
      assert !FreeRun(s.used, g, 1);
    }
    assert Range(f, 1) == {f};
  }

  lemma MoreUsed(s: Vm, f: nat, size: nat)
    requires VmInv(s) && f < FRAMES
    ensures VmInv(s.(used := s.used + {f}, size := size))
  {
    hide At;
    SameDirectories(s, s.(used := s.used + {f}, size := size));
  }

  lemma PageIndex(x: nat, v: nat)
    requires x < TOP && v < TOP
    ensures Pde(x) < RECURSIVE_ENTRY && Pde(x) == x / ENTRIES && (x == v <==> Pde(x) == Pde(v) && Pte(x) == Pte(v))
  {
  }

  // ---- One page ----

  /** t is s with page v mapped: nothing else is translated differently in any space. */
  ghost predicate OneMapped(s: Vm, t: Vm, v: nat, page: Page) {
    t.cr3 == s.cr3 && t.boot == s.boot && t.spaces == s.spaces &&
    forall d, x: nat :: d in s.spaces && x < TOP ==>
      Walk(t.mem, d, x) == if x == v && (d == s.cr3 || Pde(v) >= KERNEL_PDE) then Some(page) else Walk(s.mem, d, x)
  }

  lemma WriteMaps(s: Vm, v: nat, e: Entry)
    requires VmInv(s) && v < TOP && HasTable(s, Pde(v)) && e.present
    ensures OneMapped(s, Write(s, TableOf(s, Pde(v)), Pte(v), e), v, Target(At(s.mem, s.cr3)[Pde(v)], e).value)
  {
    hide VmInv;
    PageIndex(v, v);
    forall d, x: nat | d in s.spaces && x < TOP
      ensures Walk(Write(s, TableOf(s, Pde(v)), Pte(v), e).mem, d, x) ==
              if x == v && (d == s.cr3 || Pde(v) >= KERNEL_PDE) then Target(At(s.mem, s.cr3)[Pde(v)], e) else Walk(s.mem, d, x)
    {
      PageIndex(x, v);
      WriteWalk(s, Pde(v), Pte(v), e, d, x);
    }
  }

  /** What the directory entry allows for the pages under it; a table that has to be made allows everything. */
  ghost function PdeRights(s: Vm, i: nat): Flags
    requires i < ENTRIES
  {
    if HasTable(s, i) then Flags(At(s.mem, s.cr3)[i].writable, At(s.mem, s.cr3)[i].user) else Flags(true, true)
  }

  /** Frame f at page v with what was asked for, as far as the directory entry allows it. */
  ghost function Granted(s: Vm, v: nat, f: nat, flags: Flags): Page {
    var r := PdeRights(s, Pde(v));
    Page(f, r.writable && flags.writable, r.user && flags.user)
  }

  /** What map_pages leaves when the table is there. */
  ghost function Filled(s: Vm, v: nat, f: nat, flags: Flags): Vm {
    Write(s, TableOf(s, Pde(v)), Pte(v), Entry(true, flags.writable, flags.user, f))
  }

  lemma MapThere(s: Vm, v: nat, f: nat, flags: Flags, fuel: nat)
    requires VmInv(s) && v < TOP && HasTable(s, Pde(v)) && f < TWO16
    ensures MapPages(s, v, f, 1, flags, fuel) == Ok(Filled(s, v, f, flags))
    ensures VmInv(Filled(s, v, f, flags)) && OneMapped(s, Filled(s, v, f, flags), v, Granted(s, v, f, flags))
  {
    hide KernelShared, TablesOwned, TablesApart, FramesRight, TableFrame, OneMapped;
    PageIndex(v, v);
    PresentMeaning(s, v);
    WindowMeaning(s, Pde(v));
    assert MapPages(s, v, f, 0, flags, fuel) == Ok(s);
    var e := Entry(true, flags.writable, flags.user, f);
    WriteInv(s, Pde(v), Pte(v), e);
    WriteMaps(s, v, e);
  }

  // ---- A kernel page ----

  const KERNEL_FLAGS := Flags(true, false)

  ghost predicate KernelSpot(s: Vm, k: nat) {
    KERNEL_PAGE <= k < LAST_PAGE && Translate(s, k).None?
  }

  /** Some page of the kernel part is free. */
  ghost predicate KernelFree(s: Vm) { exists k :: KernelSpot(s, k) }

  lemma KernelIndex(k: nat)
    requires KERNEL_PAGE <= k < LAST_PAGE
    ensures k < TOP && KERNEL_PDE <= Pde(k) < RECURSIVE_ENTRY
  {
  }

  lemma KernelTable(s: Vm, i: nat)
    requires VmInv(s) && KERNEL_PDE <= i < RECURSIVE_ENTRY
    ensures HasTable(s, i)
  {
    hide At, TablesOwned, TablesApart, FramesRight;
    assert s.cr3 in s.spaces && At(s.mem, s.cr3)[i] == At(s.mem, s.boot)[i];
  }

  /** Looking for one kernel page finds the lowest free one. */
  lemma KernelPlace(s: Vm) returns (k: nat)
    requires Recursive(s) && KernelFree(s)
    ensures Place(s, None, 1, KERNEL_FLAGS) == Ok(Some(k)) && KernelSpot(s, k)
    ensures forall x :: KERNEL_PAGE <= x < k ==> Translate(s, x).Some?
  {
    hide Recursive, Translate, CheckPagePresent;
    var present := Presents(s, KERNEL_PAGE, LAST_PAGE);
    forall x: nat | KERNEL_PAGE <= x < LAST_PAGE
      ensures x in present <==> Translate(s, x).Some?
    {
      PresentMeaning(s, x);
    }
    var spot :| KernelSpot(s, spot);
    assert FreeRun(present, spot, 1);
    k := FirstFit(present, KERNEL_PAGE, LAST_PAGE, 1).value;
    forall x | KERNEL_PAGE <= x < k
      ensures Translate(s, x).Some?
    {
      assert !FreeRun(present, x, 1);
    }
  }

  /** The state after a kernel page k got frame f. */
  ghost function KernelFilled(s: Vm, k: nat, f: nat): Vm {
    Filled(s.(used := s.used + {f}, size := Wrapped(s.size, 1)), k, f, KERNEL_FLAGS)
  }

  lemma KernelAlloc(s: Vm, fuel: nat) returns (k: nat, f: nat)
    requires VmInv(s) && LowFree(s.used) != {} && KernelFree(s)
    ensures Alloc(s, None, 1, KERNEL_FLAGS, false, fuel) == Ok((KernelFilled(s, k, f), Some(k)))
    ensures KernelSpot(s, k) && f in LowFree(s.used)
    ensures Place(s, None, 1, KERNEL_FLAGS) == Ok(Some(k)) && AllocFrames(s, 1).Ok? && AllocFrames(s, 1).value.1 == f
    ensures VmInv(KernelFilled(s, k, f)) && OneMapped(s, KernelFilled(s, k, f), k, Granted(s, k, f, KERNEL_FLAGS))
    ensures HasTable(s, Pde(k))
  {
    hide LowFree, KernelFree, AllocFrames, Place, TablesOwned, TablesApart, FramesRight, OneMapped, At;
    k := KernelPlace(s);
    KernelIndex(k);
    NextFrame(s);
    var r := AllocFrames(s, 1).value;
    f := r.1;
    LowFrame(s.used, f);
    MoreUsed(s, f, Wrapped(s.size, 1));
    KernelTable(s, Pde(k));
    assert HasTable(r.0, Pde(k));
    MapThere(r.0, k, f, KERNEL_FLAGS, fuel);
    hide MapPages;
    assert MapFresh(s, k, 0, KERNEL_FLAGS, fuel) == Ok(s);
    OneMappedSame(s, r.0, KernelFilled(s, k, f), k, Granted(s, k, f, KERNEL_FLAGS));
  }

  lemma LowFrame(used: set<nat>, f: nat)
    requires f in LowFree(used)
    ensures AVAILABLE_PAGES_START <= f < TWO16 && f !in used && f < FRAMES
  {
  }

  lemma OneMappedSame(s: Vm, r: Vm, t: Vm, k: nat, page: Page)
    requires OneMapped(r, t, k, page) && r.mem == s.mem && r.cr3 == s.cr3 && r.boot == s.boot && r.spaces == s.spaces
    ensures OneMapped(s, t, k, page)
  {
  }

  // ---- A missing table ----

  /** What unmapping leaves: the frame stays in the entry. */
  ghost function Emptied(s: Vm, k: nat): Vm {
    Write(s, TableOf(s, Pde(k)), Pte(k), At(s.mem, TableOf(s, Pde(k)))[Pte(k)].(present := false))
  }

  /** Taking a page away changes the translation of that page only. */
  ghost predicate OneUnmapped(s: Vm, t: Vm, v: nat) {
    t.cr3 == s.cr3 && t.boot == s.boot && t.spaces == s.spaces &&
    forall d, x: nat :: d in s.spaces && x < TOP ==>
      Walk(t.mem, d, x) == if x == v && (d == s.cr3 || Pde(v) >= KERNEL_PDE) then None else Walk(s.mem, d, x)
  }

  lemma UnmapThere(s: Vm, v: nat)
    requires VmInv(s) && v < TOP && HasTable(s, Pde(v))
    ensures UnmapPage(s, v) == Ok(Emptied(s, v)) && VmInv(Emptied(s, v)) && OneUnmapped(s, Emptied(s, v), v)
    ensures GetPhysicalPage(s, v) == Ok(At(s.mem, TableOf(s, Pde(v)))[Pte(v)].frame)
  {
    hide KernelShared, TablesOwned, TablesApart, FramesRight, TableFrame;
    PageIndex(v, v);
    WindowMeaning(s, Pde(v));
    var e := At(s.mem, TableOf(s, Pde(v)))[Pte(v)].(present := false);
    WriteInv(s, Pde(v), Pte(v), e);
    forall d, x: nat | d in s.spaces && x < TOP
      ensures Walk(Emptied(s, v).mem, d, x) ==
              if x == v && (d == s.cr3 || Pde(v) >= KERNEL_PDE) then None else Walk(s.mem, d, x)
    {
      PageIndex(x, v);
      WriteWalk(s, Pde(v), Pte(v), e, d, x);
    }
  }

  /** All translations of s and t agree, in every space. */
  ghost predicate SameWalks(s: Vm, t: Vm) {
    t.cr3 == s.cr3 && t.boot == s.boot && t.spaces == s.spaces &&
    forall d, x: nat :: d in s.spaces && x < TOP ==> Walk(t.mem, d, x) == Walk(s.mem, d, x)
  }

  lemma MapUnmap(s: Vm, t: Vm, u: Vm, v: nat, page: Page)
    requires OneMapped(s, t, v, page) && OneUnmapped(t, u, v) && v < TOP && Pde(v) >= KERNEL_PDE
    requires VmInv(s) && Translate(s, v).None?
    ensures SameWalks(s, u)
  {
    hide Pde, Pte, At, TablesApart, TablesOwned, FramesRight, Walk;
    PageIndex(v, v);
    forall d | d in s.spaces
      ensures Walk(s.mem, d, v) == None
    {
      KernelSame(s, d, s.cr3, v);
    }
  }

  /** A kernel page means the same in every space. */
  lemma KernelSame(s: Vm, d: nat, e: nat, v: nat)
    requires VmInv(s) && d in s.spaces && e in s.spaces && KERNEL_PDE <= Pde(v) < RECURSIVE_ENTRY
    ensures Walk(s.mem, d, v) == Walk(s.mem, e, v)
  {
    hide Pde, Pte, At, TablesApart, TablesOwned, FramesRight;
    assert At(s.mem, d)[Pde(v)] == At(s.mem, s.boot)[Pde(v)] == At(s.mem, e)[Pde(v)];
  }

  /** How a missing table comes to be: kernel page k gets frame g, is unmapped, and g is entered. */
  ghost function TableMade(s: Vm, v: nat, k: nat, g: nat): Vm {
    Entered(Emptied(KernelFilled(s, k, g), k), Pde(v), g)
  }

  lemma MadeTable(s: Vm, v: nat, fuel: nat) returns (k: nat, g: nat)
    requires VmInv(s) && v < TOP && !HasTable(s, Pde(v)) && fuel > 0 && LowFree(s.used) != {} && KernelFree(s)
    ensures g in LowFree(s.used) && EnsureTable(s, v, fuel) == Ok(TableMade(s, v, k, g))
    ensures VmInv(TableMade(s, v, k, g)) && SameWalks(s, TableMade(s, v, k, g))
    ensures TableMade(s, v, k, g).used == s.used + {g} && TableMade(s, v, k, g).size == Wrapped(s.size, 1)
    ensures TablesAdded(s, TableMade(s, v, k, g), Pde(v))
    ensures TableMade(s, v, k, g).tables == s.tables + {g} && OthersSame(s, TableMade(s, v, k, g))
  {
    hide VmInv, LowFree, KernelFree, OneMapped, SameWalks, OneUnmapped, Alloc, Pde, Pte, Filled, Place, AllocFrames;
    InvRecursive(s);
    PageIndex(v, v);
    MissingIsUser(s, Pde(v));
    k, g := KernelAlloc(s, fuel - 1);
    LowFrame(s.used, g);
    KernelIndex(k);
    var t := KernelFilled(s, k, g);
    FilledFacts(s, k, g);
    UnmapThere(t, k);
    var u := Emptied(t, k);
    EmptiedFacts(t, k);
    KernelTable(u, Pde(k));
    InvRecursive(u);
    MapUnmap(s, t, u, k, Granted(s, k, g, KERNEL_FLAGS));
    UnmapThere(u, k);
    WindowMeaning(u, RECURSIVE_ENTRY);
    PresentMeaning(s, v);
    assert Short(g) == g;
    hide TableFrame, UnmapPage, GetPhysicalPage, CheckPageTableExists, KernelFilled, Emptied;
    EnteredInv(u, Pde(v), g);
    EnteredSame(s, u, Pde(v), g);
    EnteredTables(u, Pde(v), g);
    OthersMade(s, t, u, k, Pde(v), g);
  }

  lemma OthersMade(s: Vm, t: Vm, u: Vm, k: nat, i: nat, g: nat)
    requires VmInv(s) && VmInv(t) && k < TOP && HasTable(s, Pde(k)) && HasTable(t, Pde(k)) && i < ENTRIES
    requires t == KernelFilled(s, k, g) && u == Emptied(t, k)
    ensures OthersSame(s, Entered(u, i, g))
  {
    hide VmInv, HasTable, Pde, Pte, At;
    PageIndex(k, k);
    var r := s.(used := s.used + {g}, size := Wrapped(s.size, 1));
    WriteDirectories(s, Pde(k), Pte(k), Entry(true, true, false, g));
    assert t.mem == Write(s, TableOf(s, Pde(k)), Pte(k), Entry(true, true, false, g)).mem;
    WriteDirectories(t, Pde(k), Pte(k), At(t.mem, TableOf(t, Pde(k)))[Pte(k)].(present := false));
    forall d | d in s.spaces && d != s.cr3
      ensures At(Entered(u, i, g).mem, d) == At(s.mem, d)
    {
      EnteredAt(u, i, g, d);
    }
  }

  lemma InvRecursive(s: Vm)
    requires VmInv(s)
    ensures Recursive(s) && s.tables <= s.used
  {
    hide At;
  }

  lemma MissingIsUser(s: Vm, i: nat)
    requires VmInv(s) && i < RECURSIVE_ENTRY && !HasTable(s, i)
    ensures i < KERNEL_PDE
  {
    if i >= KERNEL_PDE {
      KernelTable(s, i);
    }
  }

  lemma FilledFacts(s: Vm, k: nat, g: nat)
    requires VmInv(s) && k < TOP && HasTable(s, Pde(k))
    ensures var t := KernelFilled(s, k, g);
      t.used == s.used + {g} && t.size == Wrapped(s.size, 1) && t.tables == s.tables && TableOf(t, Pde(k)) == TableOf(s, Pde(k)) &&
      At(t.mem, TableOf(t, Pde(k)))[Pte(k)].frame == g &&
      forall i: nat :: i < ENTRIES ==> (HasTable(t, i) <==> HasTable(s, i)) && PdeRights(t, i) == PdeRights(s, i)
  {
    hide TablesApart, KernelShared, FramesRight, Pte;
    PageIndex(k, k);
    assert TableOf(s, Pde(k)) !in s.spaces;
  }

  lemma EmptiedFacts(t: Vm, k: nat)
    requires VmInv(t) && k < TOP && HasTable(t, Pde(k))
    ensures var u := Emptied(t, k);
      u.used == t.used && u.size == t.size && u.tables == t.tables && TableOf(u, Pde(k)) == TableOf(t, Pde(k)) &&
      At(u.mem, TableOf(u, Pde(k)))[Pte(k)].frame == At(t.mem, TableOf(t, Pde(k)))[Pte(k)].frame &&
      forall i: nat :: i < ENTRIES ==> (HasTable(u, i) <==> HasTable(t, i)) && PdeRights(u, i) == PdeRights(t, i)
  {
    hide TablesApart, KernelShared, FramesRight, Pte;
    PageIndex(k, k);
    assert TableOf(t, Pde(k)) !in t.spaces;
  }

  lemma EnteredSame(s: Vm, u: Vm, i: nat, g: nat)
    requires SameWalks(s, u) && VmInv(u) && i < KERNEL_PDE && !HasTable(u, i) && g !in u.tables
    ensures SameWalks(s, Entered(u, i, g))
  {
    hide VmInv, Pde, Pte, Walk;
    forall d, x: nat | d in s.spaces && x < TOP
      ensures Walk(Entered(u, i, g).mem, d, x) == Walk(s.mem, d, x)
    {
      PageIndex(x, x);
      EnteredWalk(u, i, g, d, x);
    }
  }

  lemma EnteredTables(u: Vm, i: nat, g: nat)
    requires i < ENTRIES
    ensures Entered(u, i, g).used == u.used && Entered(u, i, g).size == u.size
    ensures !HasTable(u, i) ==> TablesAdded(u, Entered(u, i, g), i)
  {
    EnteredAt(u, i, g, u.cr3);
  }

  // ---- One page, with or without its table ----

  /** The byte counter says how many frames are in use. */
  ghost predicate Counted(s: Vm) { s.size == Wrapped(0, |s.used|) }

  lemma WrappedTwice(n: int, m: int)
    ensures Wrapped(Wrapped(0, n), m) == Wrapped(0, n + m)
  {
    assert n * PAGE_SIZE + m * PAGE_SIZE == (n + m) * PAGE_SIZE;
  }

  /** Frame f is taken on the way from s to t, both before and after counted right. */
  lemma TakeFrame(s: Vm, f: nat)
    requires f in LowFree(s.used)
    ensures var t := s.(used := s.used + {f}, size := Wrapped(s.size, 1));
      |t.used| == |s.used| + 1 && |LowFree(t.used)| == |LowFree(s.used)| - 1 && (Counted(s) ==> Counted(t))
  {
    LowFrame(s.used, f);
    LowFreeLess(s.used, f);
    WrappedTwice(|s.used|, 1);
    hide Wrapped, LowFree;
  }

  /** The current directory has one more table at most, and allows under each entry what it did. */
  ghost predicate TablesAdded(s: Vm, t: Vm, i: nat) {
    forall j: nat :: j < ENTRIES ==> (HasTable(t, j) <==> HasTable(s, j) || j == i) && PdeRights(t, j) == PdeRights(s, j)
  }

  lemma FilledTables(s: Vm, v: nat, f: nat, flags: Flags)
    requires VmInv(s) && v < TOP && HasTable(s, Pde(v))
    ensures var t := Filled(s, v, f, flags);
      t.used == s.used && t.size == s.size && t.tables == s.tables && TablesAdded(s, t, Pde(v)) && OthersSame(s, t)
  {
    hide TablesApart, KernelShared, FramesRight, Pte;
    PageIndex(v, v);
    assert TableOf(s, Pde(v)) !in s.spaces;
  }

  /** map_pages for one page whose table is missing. */
  lemma MapMissing(s: Vm, v: nat, f: nat, flags: Flags, fuel: nat) returns (t: Vm, g: nat)
    requires VmInv(s) && v < TOP && !HasTable(s, Pde(v)) && fuel > 0 && LowFree(s.used) != {} && KernelFree(s) && f < TWO16
    ensures MapPages(s, v, f, 1, flags, fuel) == Ok(t) && VmInv(t) && OneMapped(s, t, v, Granted(s, v, f, flags))
    ensures g in LowFree(s.used) && t.used == s.used + {g} && t.size == Wrapped(s.size, 1) && TablesAdded(s, t, Pde(v))
    ensures t.tables == s.tables + {g} && OthersSame(s, t)
  {
    hide VmInv, LowFree, KernelFree, OneMapped, EnsureTable, TableMade, Pde, Pte, Filled, OthersSame, Walk;
    var k;
    k, g := MadeTable(s, v, fuel);
    var u := TableMade(s, v, k, g);
    assert MapPages(s, v, f, 0, flags, fuel) == Ok(s);
    MapThere(u, v, f, flags, 0);
    MapPageThere(u, v, f, flags);
    FilledTables(u, v, f, flags);
    t := Filled(u, v, f, flags);
    hide MapPage;
    SameThenMapped(s, u, t, v, Granted(s, v, f, flags));
    OthersTrans(s, u, t);
  }

  lemma MapPageThere(u: Vm, v: nat, f: nat, flags: Flags)
    requires VmInv(u) && v < TOP && HasTable(u, Pde(v)) && f < TWO16
    ensures MapPage(u, v, f, flags) == Ok(Filled(u, v, f, flags))
  {
    hide KernelShared, TablesOwned, TablesApart, FramesRight, TableFrame;
    PageIndex(v, v);
    WindowMeaning(u, Pde(v));
  }

  lemma SameThenMapped(s: Vm, u: Vm, t: Vm, v: nat, page: Page)
    requires SameWalks(s, u) && OneMapped(u, t, v, page)
    ensures OneMapped(s, t, v, page)
  {
    hide Walk, Pde;
  }

  /** Frames that became tables were not in use, and are none of the frames fs; the other directories are as before. */
  ghost predicate Kept(s: Vm, t: Vm, fs: seq<nat>) {
    OthersSame(s, t) && forall g :: g in t.tables ==> g in s.tables || (g !in s.used && g !in fs)
  }

  /** The room one more page needs. */
  ghost predicate RoomForOne(s: Vm, v: nat, fuel: nat) {
    if HasTable(s, Pde(v)) then |LowFree(s.used)| >= 1
    else |LowFree(s.used)| >= 2 && KernelFree(s) && fuel > 0
  }

  ghost function Extra(s: Vm, v: nat): nat { if HasTable(s, Pde(v)) then 0 else 1 }

  /** One turn of the allocation loop. */
  lemma MapOne(s: Vm, v: nat, flags: Flags, fuel: nat) returns (t: Vm, f: nat)
    requires VmInv(s) && v < TOP && RoomForOne(s, v, fuel)
    ensures AllocFrames(s, 1).Ok? && AllocFrames(s, 1).value.1 == f
    ensures MapPages(AllocFrames(s, 1).value.0, v, f, 1, flags, fuel) == Ok(t)
    ensures VmInv(t) && OneMapped(s, t, v, Granted(s, v, f, flags)) && f !in s.used && f in t.used && s.used <= t.used
    ensures |t.used| == |s.used| + 1 + Extra(s, v) && |LowFree(t.used)| == |LowFree(s.used)| - 1 - Extra(s, v)
    ensures TablesAdded(s, t, Pde(v)) && (Counted(s) ==> Counted(t))
    ensures forall g :: AVAILABLE_PAGES_START <= g < f ==> g in s.used
    ensures Kept(s, t, [f])
  {
    hide VmInv, LowFree, KernelFree, OneMapped, AllocFrames, MapPages, Pde, Pte, Counted, Filled, Wrapped, HasTable, TablesAdded, OthersSame;
    NextFrame(s);
    var r := AllocFrames(s, 1).value.0;
    f := AllocFrames(s, 1).value.1;
    LowFrame(s.used, f);
    TakeFrame(s, f);
    MoreUsed(s, f, Wrapped(s.size, 1));
    SameMem(s, r);
    if HasTable(s, Pde(v)) {
      MapThere(r, v, f, flags, fuel);
      FilledTables(r, v, f, flags);
      t := Filled(r, v, f, flags);
      CountedSame(r, t);
    } else {
      var g;
      t, g := MapMissing(r, v, f, flags, fuel);
      LowFrame(r.used, g);
      TakeFrame(r, g);
      CountedSame(r.(used := r.used + {g}, size := Wrapped(r.size, 1)), t);
    }
    OneMappedSame(s, r, t, v, Granted(s, v, f, flags));
    TablesAddedSame(s, r, t, Pde(v));
    OthersFrom(s, r, t);
    InvRecursive(s);
  }

  lemma OthersFrom(s: Vm, r: Vm, t: Vm)
    requires OthersSame(r, t) && r.mem == s.mem && r.cr3 == s.cr3 && r.spaces == s.spaces
    ensures OthersSame(s, t)
  {
  }

  lemma SameMem(s: Vm, r: Vm)
    requires r.mem == s.mem && r.cr3 == s.cr3
    ensures forall i: nat :: i < ENTRIES ==> HasTable(r, i) == HasTable(s, i) && PdeRights(r, i) == PdeRights(s, i)
    ensures KernelFree(r) == KernelFree(s)
  {
    hide At;
    assert forall k :: KernelSpot(r, k) <==> KernelSpot(s, k);
  }

  lemma CountedSame(s: Vm, t: Vm)
    requires t.used == s.used && t.size == s.size
    ensures Counted(s) == Counted(t)
  {
  }

  lemma TablesAddedSame(s: Vm, r: Vm, t: Vm, i: nat)
    requires TablesAdded(r, t, i) && r.mem == s.mem && r.cr3 == s.cr3
    ensures TablesAdded(s, t, i)
  {
  }
}
