/** Contiguous mappings, freeing, and whether freeing undoes allocating. */
module MemoryRegions {
  import opened Common
  import opened PageRuns
  import opened PhysicalMemories
  import opened Paging
  import opened VirtualMemories
  import opened MemoryTheorems

  /** n consecutive frames. */
  ghost function Row(f: nat, n: nat): (fs: seq<nat>)
    ensures |fs| == n && forall i :: 0 <= i < n ==> fs[i] == f + i
  {
    seq(n, i => f + i)
  }

  // ---- map_pages looks at the first page's table only ----

  /** Every page of the region has a table, or has the first page's, which map_pages makes. */
  ghost predicate Reaches(s: Vm, v: nat, n: nat) {
    forall x :: v <= x < v + n ==> Pde(x) == Pde(v) || HasTable(s, Pde(x))
  }

  ghost predicate TableRoom(s: Vm, v: nat, fuel: nat) {
    HasTable(s, Pde(v)) || (LowFree(s.used) != {} && KernelFree(s) && fuel > 0)
  }

  lemma MapFirst(s: Vm, v: nat, f: nat, flags: Flags, fuel: nat) returns (t: Vm)
    requires VmInv(s) && v < TOP && TableRoom(s, v, fuel) && f < TWO16
    ensures MapPages(s, v, f, 1, flags, fuel) == Ok(t) && VmInv(t) && OneMapped(s, t, v, Granted(s, v, f, flags)) && TablesAdded(s, t, Pde(v))
    ensures HasTable(s, Pde(v)) ==> t.used == s.used && t.size == s.size && t.tables == s.tables
    ensures s.used <= t.used && OthersSame(s, t)
  {
    hide VmInv, OneMapped, LowFree, KernelFree, MapPages, Pde, Filled, TablesAdded, OthersSame;
    if HasTable(s, Pde(v)) {
      MapThere(s, v, f, flags, fuel);
      FilledTables(s, v, f, flags);
      t := Filled(s, v, f, flags);
    } else {
      var g;
      t, g := MapMissing(s, v, f, flags, fuel);
    }
  }

  lemma {:induction false} MapPagesExact(s: Vm, v: nat, f: nat, n: nat, flags: Flags, fuel: nat) returns (t: Vm)
    requires VmInv(s) && n > 0 && v + n <= TOP && f + n <= TWO16 && Reaches(s, v, n) && TableRoom(s, v, fuel)
    ensures MapPages(s, v, f, n, flags, fuel) == Ok(t) && VmInv(t) && Mapped(s, t, v, Row(f, n), flags) && TablesAdded(s, t, Pde(v))
    ensures HasTable(s, Pde(v)) ==> t.used == s.used && t.size == s.size && t.tables == s.tables
    ensures s.used <= t.used && OthersSame(s, t)
  {
    hide VmInv, OneMapped, LowFree, KernelFree, MapPage, EnsureTable, Pde, Filled, HasTable, TablesAdded, Mapped, OthersSame;
    if n == 1 {
      t := MapFirst(s, v, f, flags, fuel);
      MappedNone(s, v, flags);
      MappedStep(s, s, t, v, [], flags, f);
      assert [] + [f] == Row(f, 1);
    } else {
      var t0 := MapPagesExact(s, v, f, n - 1, flags, fuel);
      TablesAddedHas(s, t0, Pde(v), Pde(v));
      TablesAddedHas(s, t0, Pde(v), Pde(v + n - 1));
      EnsureThere(t0, v, fuel);
      MapThere(t0, v + n - 1, f + n - 1, flags, fuel);
      MapPageThere(t0, v + n - 1, f + n - 1, flags);
      FilledTables(t0, v + n - 1, f + n - 1, flags);
      t := Filled(t0, v + n - 1, f + n - 1, flags);
      MappedStep(s, t0, t, v, Row(f, n - 1), flags, f + n - 1);
      assert Row(f, n - 1) + [f + n - 1] == Row(f, n);
      TablesAddedOn(s, t0, t, Pde(v), Pde(v + n - 1));
      MappedCr3(s, t0, v, Row(f, n - 1), flags);
      OthersTrans(s, t0, t);
    }
  }

  lemma MappedNone(s: Vm, v: nat, flags: Flags)
    ensures Mapped(s, s, v, [], flags)
  {
    hide Walk, Pde;
  }

  lemma TablesAddedHas(s: Vm, t: Vm, i: nat, j: nat)
    requires TablesAdded(s, t, i) && j < ENTRIES
    ensures (HasTable(t, j) <==> HasTable(s, j) || j == i) && PdeRights(t, j) == PdeRights(s, j)
  {
  }

  lemma TablesAddedOn(s: Vm, t: Vm, u: Vm, i: nat, j: nat)
    requires TablesAdded(s, t, i) && TablesAdded(t, u, j) && j < ENTRIES && HasTable(t, j)
    ensures TablesAdded(s, u, i)
  {
    hide HasTable;
  }

  lemma EnsureThere(s: Vm, v: nat, fuel: nat)
    requires VmInv(s) && HasTable(s, Pde(v))
    ensures EnsureTable(s, v, fuel) == Ok(s)
  {
    hide VmInv, Alloc;
    InvRecursive(s);
    PresentMeaning(s, v);
  }

  /** Mapping a region in one call faults exactly when a page after the first needs a table of its own. */
  lemma {:induction false} MapPagesFaults(s: Vm, v: nat, f: nat, n: nat, flags: Flags, fuel: nat)
    requires VmInv(s) && n > 0 && v + n <= TOP && f + n <= TWO16 && TableRoom(s, v, fuel)
    ensures MapPages(s, v, f, n, flags, fuel).Panic? <==> !Reaches(s, v, n)
  {
    hide VmInv, LowFree, KernelFree, MapPage, EnsureTable, Pde, HasTable, TablesAdded, Mapped;
    if Reaches(s, v, n) {
      var t := MapPagesExact(s, v, f, n, flags, fuel);
    } else if Reaches(s, v, n - 1) && n > 1 {
      var t0 := MapPagesExact(s, v, f, n - 1, flags, fuel);
      TablesAddedHas(s, t0, Pde(v), Pde(v));
      TablesAddedHas(s, t0, Pde(v), Pde(v + n - 1));
      EnsureThere(t0, v, fuel);
      MapPageFaults(t0, v + n - 1, f + n - 1, flags);
    } else if n > 1 {
      MapPagesFaults(s, v, f, n - 1, flags, fuel);
    }
  }

  /** Mapping a region goes one level deep, whether it succeeds or faults. */
  lemma {:induction false} MapPagesDepth(s: Vm, v: nat, f: nat, n: nat, flags: Flags, fuel: nat)
    requires VmInv(s) && v + n <= TOP && f + n <= TWO16 && TableRoom(s, v, 1) && fuel > 0
    ensures MapPages(s, v, f, n, flags, fuel) == MapPages(s, v, f, n, flags, 1)
  {
    hide VmInv, TableRoom, MapPage, EnsureTable, Reaches, Mapped, TablesAdded, OthersSame;
    if n > 0 {
      MapPagesDepth(s, v, f, n - 1, flags, fuel);
      if n == 1 {
        EnsureDepth(s, v, fuel);
      } else {
        MapPagesFaults(s, v, f, n - 1, flags, 1);
        if Reaches(s, v, n - 1) {
          var t := MapPagesExact(s, v, f, n - 1, flags, 1);
          EnsureDepth(t, v, fuel);
        }
      }
    }
  }

  /** However deep _alloc_no_lock is allowed to recurse, one level is all it uses, contiguous or not. */
  lemma AllocDepth(s: Vm, address: Option<nat>, n: nat, flags: Flags, contiguous: bool, fuel: nat)
    requires VmInv(s) && fuel > 0 && (address.Some? ==> address.value + n <= TOP)
    requires Place(s, address, n, flags).Ok? && Place(s, address, n, flags).value.Some? ==>
      var v := Place(s, address, n, flags).value.value;
      if contiguous then AllocFrames(s, n).Ok? ==> AllocFrames(s, n).value.1 + n <= TWO16 && TableRoom(AllocFrames(s, n).value.0, v, 1)
      else Room(s, v, n, 1)
    ensures Alloc(s, address, n, flags, contiguous, fuel) == Alloc(s, address, n, flags, contiguous, 1)
  {
    hide VmInv, Place, MapPages, MapFresh, TableRoom, Room, AllocFrames, Wrapped, Range;
    InvRecursive(s);
    var place := Place(s, address, n, flags);
    if place.Ok? && place.value.Some? {
      var v := place.value.value;
      PlacedFree(s, address, n, flags, v);
      if contiguous {
        if AllocFrames(s, n).Ok? {
          var r := AllocFrames(s, n).value;
          FramesTaken(s, n);
          MapPagesDepth(r.0, v, r.1, n, flags, fuel);
        }
      } else {
        DepthOne(s, v, n, flags, fuel);
      }
    }
  }

  lemma FramesTaken(s: Vm, n: nat)
    requires VmInv(s) && AllocFrames(s, n).Ok? && AllocFrames(s, n).value.1 + n <= TWO16
    ensures VmInv(AllocFrames(s, n).value.0)
  {
    hide VmInv;
    MoreUsedRange(s, AllocFrames(s, n).value.1, n, Wrapped(s.size, n));
  }

  lemma MapPageFaults(s: Vm, v: nat, f: nat, flags: Flags)
    requires VmInv(s) && !HasTable(s, Pde(v))
    ensures MapPage(s, v, f, flags).Panic?
  {
    hide VmInv, TableFrame;
    InvRecursive(s);
    WindowMeaning(s, Pde(v));
  }

  // ---- 16-bit frame numbers ----

  /** A page gets the frame it should exactly when the frame number fits 16 bits. */
  lemma FrameFits(s: Vm, v: nat, f: nat, flags: Flags)
    requires VmInv(s) && v < TOP && HasTable(s, Pde(v))
    ensures MapPage(s, v, f, flags).Ok?
    ensures Translate(MapPage(s, v, f, flags).value, v) == Some(Granted(s, v, f, flags)) <==> f < TWO16
  {
    hide VmInv, OneMapped, Pde, Walk, Filled;
    InvRecursive(s);
    WindowMeaning(s, Pde(v));
    MapPageThere(s, v, Short(f), flags);
    MapThere(s, v, Short(f), flags, 0);
    SameShort(s, v, f, flags);
    hide MapPage;
    MappedCurrent(s, Filled(s, v, Short(f), flags), v, Granted(s, v, Short(f), flags));
  }

  lemma SameShort(s: Vm, v: nat, f: nat, flags: Flags)
    ensures Short(f) < TWO16 && (Short(f) == f <==> f < TWO16)
    ensures MapPage(s, v, f, flags) == MapPage(s, v, Short(f), flags)
  {
    assert Short(Short(f)) == Short(f);
  }

  lemma MappedCurrent(s: Vm, t: Vm, v: nat, page: Page)
    requires OneMapped(s, t, v, page) && v < TOP && s.cr3 in s.spaces
    ensures Translate(t, v) == Some(page)
  {
    hide Walk;
  }

  // ---- Contiguous allocation ----

  /** Some n frames in a row are free below the 16-bit limit. */
  ghost predicate LowRun(used: set<nat>, n: nat) {
    exists p: nat :: AVAILABLE_PAGES_START <= p && p + n <= TWO16 && FreeRun(used, p, n)
  }

  lemma NextRun(s: Vm, n: nat)
    requires n > 0 && LowRun(s.used, n)
    ensures AllocFrames(s, n).Ok?
    ensures var r := AllocFrames(s, n).value;
      AVAILABLE_PAGES_START <= r.1 && r.1 + n <= TWO16 && Range(r.1, n) !! s.used &&
      r.0 == s.(used := s.used + Range(r.1, n), size := Wrapped(s.size, n)) &&
      IsFirstFit(s.used, AVAILABLE_PAGES_START, FRAMES, n, r.1)
  {
    var p: nat :| AVAILABLE_PAGES_START <= p && p + n <= TWO16 && FreeRun(s.used, p, n);
  }

  lemma MoreUsedRange(s: Vm, f: nat, n: nat, size: nat)
    requires VmInv(s) && f + n <= FRAMES
    ensures VmInv(s.(used := s.used + Range(f, n), size := size))
  {
    hide At;
    SameDirectories(s, s.(used := s.used + Range(f, n), size := size));
  }

  lemma CountedRange(s: Vm, f: nat, n: nat)
    requires Range(f, n) !! s.used
    ensures |s.used + Range(f, n)| == |s.used| + n
    ensures Counted(s) ==> Counted(s.(used := s.used + Range(f, n), size := Wrapped(s.size, n)))
  {
    WrappedTwice(|s.used|, n);
    hide Wrapped;
  }

  lemma ReachesSame(s: Vm, t: Vm, v: nat, n: nat)
    requires Reaches(s, v, n) && t.mem == s.mem && t.cr3 == s.cr3
    ensures Reaches(t, v, n)
  {
  }

  /** A contiguous allocation where the first page's table exists, as it always does in the kernel part: the
      frames are the lowest free run. */
  lemma AllocContiguousExact(s: Vm, address: Option<nat>, n: nat, flags: Flags, fuel: nat, v: nat) returns (t: Vm, f: nat)
    requires VmInv(s) && n > 0 && Place(s, address, n, flags) == Ok(Some(v)) && (address.Some? ==> address.value + n <= TOP)
    requires LowRun(s.used, n) && HasTable(s, Pde(v)) && Reaches(s, v, n)
    ensures Alloc(s, address, n, flags, true, fuel) == Ok((t, Some(v))) && VmInv(t)
    ensures IsFirstFit(s.used, AVAILABLE_PAGES_START, FRAMES, n, f) && Range(f, n) !! s.used && Mapped(s, t, v, Row(f, n), flags)
    ensures forall x :: v <= x < v + n ==> Translate(s, x).None?
    ensures t.used == s.used + Range(f, n) && t.size == Wrapped(s.size, n) && t.tables == s.tables
    ensures TablesAdded(s, t, Pde(v)) && OthersSame(s, t) && (Counted(s) ==> Counted(t))
  {
    hide VmInv, Place, LowRun, Mapped, MapPages, Reaches, Translate, TablesAdded, Counted, Wrapped, IsFirstFit, AllocFrames, HasTable, OthersSame;
    InvRecursive(s);
    PlacedFree(s, address, n, flags, v);
    NextRun(s, n);
    var r := AllocFrames(s, n).value.0;
    f := AllocFrames(s, n).value.1;
    MoreUsedRange(s, f, n, Wrapped(s.size, n));
    CountedRange(s, f, n);
    ReachesSame(s, r, v, n);
    SameMem(s, r);
    t := MapPagesExact(r, v, f, n, flags, fuel);
    CountedSame(r, t);
    MappedSame(s, r, t, v, Row(f, n), flags);
    TablesAddedSame(s, r, t, Pde(v));
    OthersFrom(s, r, t);
  }

  lemma MappedSame(s: Vm, r: Vm, t: Vm, v: nat, fs: seq<nat>, flags: Flags)
    requires Mapped(r, t, v, fs, flags) && r.mem == s.mem && r.cr3 == s.cr3 && r.boot == s.boot && r.spaces == s.spaces
    ensures Mapped(s, t, v, fs, flags)
  {
  }

  /** Every page of the kernel part has its table, in every space. */
  lemma KernelReaches(s: Vm, v: nat, n: nat)
    requires VmInv(s) && n > 0 && KERNEL_PDE * ENTRIES <= v && v + n <= TOP
    ensures HasTables(s, v, n)
  {
    hide VmInv, HasTable;
    forall x | v <= x < v + n
      ensures HasTable(s, Pde(x))
    {
      PageIndex(x, x);
      KernelTable(s, Pde(x));
    }
  }

  // ---- Freeing ----

  ghost predicate Unmapped(s: Vm, t: Vm, v: nat, n: nat) {
    t.cr3 == s.cr3 && t.boot == s.boot && t.spaces == s.spaces &&
    forall d, x: nat :: d in s.spaces && x < TOP ==>
      Walk(t.mem, d, x) == if v <= x < v + n && (d == s.cr3 || Pde(x) >= KERNEL_PDE) then None else Walk(s.mem, d, x)
  }

  ghost predicate SameTables(s: Vm, t: Vm) {
    forall j: nat :: j < ENTRIES ==> (HasTable(t, j) <==> HasTable(s, j))
  }

  ghost predicate DirectoriesSame(s: Vm, t: Vm) { forall d :: d in s.spaces ==> At(t.mem, d) == At(s.mem, d) }

  lemma EmptiedDirectories(s: Vm, t: Vm, k: nat)
    requires DirectoriesSame(s, t) && VmInv(t) && t.spaces == s.spaces && k < TOP && HasTable(t, Pde(k))
    ensures DirectoriesSame(s, Emptied(t, k))
  {
    hide VmInv, At, Pde, Pte, HasTable;
    PageIndex(k, k);
    WriteDirectories(t, Pde(k), Pte(k), At(t.mem, TableOf(t, Pde(k)))[Pte(k)].(present := false));
  }

  ghost predicate HasTables(s: Vm, v: nat, n: nat) {
    forall x :: v <= x < v + n ==> HasTable(s, Pde(x))
  }

  lemma HasTablesReaches(s: Vm, v: nat, n: nat)
    requires HasTables(s, v, n) && n > 0
    ensures Reaches(s, v, n) && HasTable(s, Pde(v))
  {
    hide HasTable, Pde;
    assert v <= v < v + n;
  }

  lemma {:induction false} UnmapPagesExact(s: Vm, v: nat, n: nat) returns (t: Vm)
    requires VmInv(s) && v + n <= TOP && HasTables(s, v, n)
    ensures UnmapPages(s, v, n) == Ok(t) && VmInv(t) && Unmapped(s, t, v, n) && SameTables(s, t)
    ensures t.used == s.used && t.size == s.size && t.tables == s.tables && DirectoriesSame(s, t)
  {
    hide VmInv, UnmapPage, Pde, HasTable, Emptied, OneUnmapped, Walk, At;
    if n == 0 {
      t := s;
    } else {
      var t0 := UnmapPagesExact(s, v, n - 1);
      assert HasTable(s, Pde(v + n - 1));
      UnmapThere(t0, v + n - 1);
      EmptiedFacts(t0, v + n - 1);
      t := Emptied(t0, v + n - 1);
      UnmappedStep(s, t0, t, v, n);
      EmptiedDirectories(s, t0, v + n - 1);
    }
  }

  lemma UnmappedStep(s: Vm, t: Vm, u: Vm, v: nat, n: nat)
    requires n > 0 && Unmapped(s, t, v, n - 1) && OneUnmapped(t, u, v + n - 1)
    ensures Unmapped(s, u, v, n)
  {
    hide Walk, Pde;
  }

  /** Page tables are edited the same way whatever the frame bitmap says. */
  lemma {:induction false} UnmapIgnoresUsed(s: Vm, v: nat, n: nat, used: set<nat>, size: nat)
    requires UnmapPages(s, v, n).Ok?
    ensures UnmapPages(s.(used := used, size := size), v, n) == Ok(UnmapPages(s, v, n).value.(used := used, size := size))
  {
    hide At, Walk, Pde, Pte;
    if n > 0 {
      UnmapIgnoresUsed(s, v, n - 1, used, size);
    }
  }

  /** The frame freed first is the first page's; the rest are the numbers after it. */
  lemma FreeExact(s: Vm, v: nat, n: nat, f: nat) returns (t: Vm)
    requires VmInv(s) && n > 0 && v + n <= TOP && HasTables(s, v, n) && Translate(s, v).Some? && Translate(s, v).value.frame == f
    ensures Free(s, v, n) == Ok(t) && Unmapped(s, t, v, n) && SameTables(s, t)
    ensures t.used == s.used - Range(f, n) && t.size == Wrapped(s.size, 0 - n) && t.tables == s.tables && DirectoriesSame(s, t)
    ensures Range(f, n) !! s.tables ==> VmInv(t)
  {
    var u := UnmapPagesExact(s, v, n);
    UnmapIgnoresUsed(s, v, n, s.used - Range(f, n), Wrapped(s.size, 0 - n));
    GetMapped(s, v, f);
    t := u.(used := s.used - Range(f, n), size := Wrapped(s.size, 0 - n));
    hide At, Walk, UnmapPages, GetPhysicalPage;
    SameTablesUsed(s, u, t);
    if Range(f, n) !! s.tables {
      SameDirectories(u, t);
    }
  }

  lemma SameTablesUsed(s: Vm, u: Vm, t: Vm)
    requires SameTables(s, u) && t.mem == u.mem && t.cr3 == u.cr3
    ensures SameTables(s, t)
  {
  }

  lemma GetMapped(s: Vm, v: nat, f: nat)
    requires VmInv(s) && Translate(s, v).Some? && Translate(s, v).value.frame == f
    ensures GetPhysicalPage(s, v) == Ok(f)
  {
    hide KernelShared, TablesOwned, TablesApart, FramesRight;
    WindowMeaning(s, Pde(v));
    hide TableFrame;
  }

  // ---- Requests that can be met ----

  /** The address is taken, or there is room for what is asked: the lowest fit of the range, frames below the 16-bit
      limit, and for contiguous regions their tables. */
  ghost predicate Request(s: Vm, address: Option<nat>, n: nat, flags: Flags, contiguous: bool, fuel: nat) {
    match Place(s, address, n, flags)
    case Panic => false
    case Ok(None) => true
    case Ok(Some(v)) =>
      (address.Some? ==> address.value + n <= TOP) &&
      if contiguous then n > 0 && LowRun(s.used, n) && HasTables(s, v, n) else Room(s, v, n, fuel)
  }

  lemma KernelRequest(s: Vm, fuel: nat)
    requires VmInv(s) && LowFree(s.used) != {} && KernelFree(s)
    ensures Request(s, None, 1, KERNEL_FLAGS, false, fuel)
  {
    hide VmInv, Place, KernelSpot, HasTable, Pde, LowFree;
    InvRecursive(s);
    var k := KernelPlace(s);
    SpotTable(s, k);
    assert Missing(s, k, 0) == 0;
    assert Missing(s, k, 1) == 0;
  }

  lemma SpotTable(s: Vm, k: nat)
    requires VmInv(s) && KernelSpot(s, k)
    ensures HasTable(s, Pde(k))
  {
    hide VmInv;
    KernelIndex(k);
    KernelTable(s, Pde(k));
  }

  lemma {:induction false} RoomPrefix(s: Vm, v: nat, n: nat, m: nat, fuel: nat)
    requires Room(s, v, n, fuel) && m <= n
    ensures Room(s, v, m, fuel)
    decreases n
  {
    hide Room;
    if m < n {
      RoomLess(s, v, n, fuel);
      RoomPrefix(s, v, n - 1, m, fuel);
    }
  }

  /** Once a frame is taken for page v, map_pages can go ahead. */
  lemma AfterFrame(s: Vm, v: nat, fuel: nat)
    requires VmInv(s) && RoomForOne(s, v, fuel)
    ensures AllocFrames(s, 1).Ok?
    ensures var r := AllocFrames(s, 1).value; VmInv(r.0) && r.1 < TWO16 && TableRoom(r.0, v, fuel)
  {
    hide VmInv, LowFree, KernelFree, AllocFrames, HasTable, Pde, Wrapped;
    assert LowFree(s.used) != {};
    NextFrame(s);
    var r := AllocFrames(s, 1).value;
    LowFrame(s.used, r.1);
    TakeFrame(s, r.1);
    MoreUsed(s, r.1, Wrapped(s.size, 1));
    SameMem(s, r.0);
  }

  /** The turn of the loop over fresh pages that comes after n pages. */
  lemma FreshTurn(s: Vm, t: Vm, v: nat, n: nat, i: nat, flags: Flags, fuel: nat)
    requires VmInv(s) && v + n <= TOP && Room(s, v, n, fuel) && i < n && MapFresh(s, v, i, flags, fuel) == Ok(t)
    ensures VmInv(t) && RoomForOne(t, v + i, fuel)
  {
    hide VmInv, Room, MapFresh, Mapped, Taken, TablesFor, Spent, RoomForOne, Pde, HasTable;
    RoomPrefix(s, v, n, i, fuel);
    RoomPrefix(s, v, n, i + 1, fuel);
    InvRecursive(s);
    var u, fs := MapFreshExact(s, v, i, flags, fuel);
    RoomStep(s, u, v, fs, flags, i + 1, fuel);
  }

  /** The turn of map_pages that comes after i pages. */
  lemma RegionTurn(s: Vm, t: Vm, v: nat, f: nat, n: nat, i: nat, flags: Flags, fuel: nat)
    requires VmInv(s) && v + n <= TOP && f + n <= TWO16 && Reaches(s, v, n) && TableRoom(s, v, fuel)
    requires i < n && MapPages(s, v, f, i, flags, fuel) == Ok(t)
    ensures VmInv(t) && TableRoom(t, v, fuel) && MapPages(s, v, f, i + 1, flags, fuel).Ok?
  {
    hide VmInv, MapPages, Mapped, TablesAdded, LowFree, KernelFree, Pde, HasTable;
    assert Reaches(s, v, i + 1) && Reaches(s, v, i);
    hide Reaches;
    var u := MapPagesExact(s, v, f, i + 1, flags, fuel);
    if i > 0 {
      var w := MapPagesExact(s, v, f, i, flags, fuel);
      TablesAddedHas(s, w, Pde(v), Pde(v));
    } else {
      MapNoPages(s, v, f, flags, fuel);
    }
  }

  lemma MapNoPages(s: Vm, v: nat, f: nat, flags: Flags, fuel: nat)
    ensures MapPages(s, v, f, 0, flags, fuel) == Ok(s)
  {
  }
}
