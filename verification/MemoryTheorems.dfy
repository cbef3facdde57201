/** Allocation and freeing of pages as a whole: translations, frames, the byte counter, and all address spaces. */
module MemoryTheorems {
  import opened Common
  import opened PageRuns
  import opened PhysicalMemories
  import opened Paging
  import opened VirtualMemories

  // ---- What an allocation of several pages needs and does ----

  /** How many page tables the pages v..v+n lack. */
  ghost function Missing(s: Vm, v: nat, n: nat): nat {
    if n == 0 then 0
    else Missing(s, v, n - 1) + if HasTable(s, Pde(v + n - 1)) || (n > 1 && Pde(v + n - 2) == Pde(v + n - 1)) then 0 else 1
  }

  /** Enough low frames, and a kernel page outside the region if a table has to be made. */
  ghost predicate Room(s: Vm, v: nat, n: nat, fuel: nat) {
    |LowFree(s.used)| >= n + Missing(s, v, n) &&
    (Missing(s, v, n) > 0 ==> fuel > 0 && exists k: nat :: KernelSpot(s, k) && !(v <= k < v + n))
  }

  /** t is s with the pages from v on given the frames fs and the rights asked for, in the current space, and in all
      of them for pages of the kernel; every other page of every space means what it meant before. */
  ghost predicate Mapped(s: Vm, t: Vm, v: nat, fs: seq<nat>, flags: Flags) {
    t.cr3 == s.cr3 && t.boot == s.boot && t.spaces == s.spaces &&
    forall d, x: nat :: d in s.spaces && x < TOP ==>
      Walk(t.mem, d, x) ==
      if v <= x < v + |fs| && (d == s.cr3 || Pde(x) >= KERNEL_PDE) then Some(Granted(s, x, fs[x - v], flags)) else Walk(s.mem, d, x)
  }

  /** The frames were free, are in use now, and are taken in rising order. */
  ghost predicate Taken(s: Vm, t: Vm, fs: seq<nat>) {
    s.used <= t.used && (forall i :: 0 <= i < |fs| ==> AVAILABLE_PAGES_START <= fs[i] && fs[i] !in s.used && fs[i] in t.used) &&
    (forall i, j :: 0 <= i < j < |fs| ==> fs[i] < fs[j]) &&
    (fs != [] ==> forall g :: AVAILABLE_PAGES_START <= g < fs[|fs| - 1] ==> g in t.used)
  }

  /** The tables of the region are there now, and no others were added. */
  ghost predicate TablesFor(s: Vm, t: Vm, v: nat, n: nat) {
    (forall j: nat :: j < ENTRIES ==> PdeRights(t, j) == PdeRights(s, j)) &&
    forall j: nat :: j < RECURSIVE_ENTRY ==> (HasTable(t, j) <==> HasTable(s, j) || (n > 0 && Pde(v) <= j <= Pde(v + n - 1)))
  }

  ghost predicate Spent(s: Vm, t: Vm, count: nat) {
    |t.used| == |s.used| + count && |LowFree(t.used)| == |LowFree(s.used)| - count && (Counted(s) ==> Counted(t))
  }

  lemma PdeOrder(x: nat, y: nat)
    requires x <= y < TOP
    ensures Pde(x) <= Pde(y) < RECURSIVE_ENTRY
  {
    PageIndex(x, y);
    PageIndex(y, y);
  }

  lemma RoomLess(s: Vm, v: nat, n: nat, fuel: nat)
    requires n > 0 && Room(s, v, n, fuel)
    ensures Room(s, v, n - 1, fuel)
  {
    hide HasTable, Pde, KernelSpot, LowFree;
  }

  /** The kernel page that was free is still free. */
  lemma StillKernelFree(s: Vm, t: Vm, v: nat, fs: seq<nat>, flags: Flags, n: nat)
    requires Mapped(s, t, v, fs, flags) && |fs| <= n && s.cr3 in s.spaces && exists k: nat :: KernelSpot(s, k) && !(v <= k < v + n)
    ensures KernelFree(t)
  {
    hide Walk, Pde;
    var k: nat :| KernelSpot(s, k) && !(v <= k < v + n);
    KernelIndex(k);
    assert KernelSpot(t, k);
  }

  lemma RoomStep(s: Vm, t: Vm, v: nat, fs: seq<nat>, flags: Flags, n: nat, fuel: nat)
    requires n > 0 && |fs| == n - 1 && v + n <= TOP && Room(s, v, n, fuel) && s.cr3 in s.spaces
    requires Mapped(s, t, v, fs, flags) && TablesFor(s, t, v, n - 1) && Spent(s, t, n - 1 + Missing(s, v, n - 1))
    ensures RoomForOne(t, v + n - 1, fuel)
    ensures Missing(s, v, n) == Missing(s, v, n - 1) + Extra(t, v + n - 1)
  {
    hide HasTable, Mapped, LowFree, KernelSpot, Pde, Counted, KernelFree;
    PdeOrder(v, v + n - 1);
    if n > 1 {
      PdeOrder(v, v + n - 2);
      PdeOrder(v + n - 2, v + n - 1);
    }
    if Missing(s, v, n) > 0 {
      StillKernelFree(s, t, v, fs, flags, n);
    }
  }

  lemma MappedStep(s: Vm, t: Vm, u: Vm, v: nat, fs: seq<nat>, flags: Flags, f: nat)
    requires Mapped(s, t, v, fs, flags) && OneMapped(t, u, v + |fs|, Granted(t, v + |fs|, f, flags))
    requires PdeRights(t, Pde(v + |fs|)) == PdeRights(s, Pde(v + |fs|))
    ensures Mapped(s, u, v, fs + [f], flags)
  {
    hide Walk, Pde, PdeRights;
  }

  lemma TakenStep(s: Vm, t: Vm, u: Vm, fs: seq<nat>, f: nat)
    requires Taken(s, t, fs) && f !in t.used && f in u.used && t.used <= u.used && AVAILABLE_PAGES_START <= f
    requires forall g :: AVAILABLE_PAGES_START <= g < f ==> g in t.used
    ensures Taken(s, u, fs + [f])
  {
    if fs != [] {
      assert fs[|fs| - 1] in t.used;
      assert fs[|fs| - 1] < f;
    }
  }

  lemma TablesStep(s: Vm, t: Vm, u: Vm, v: nat, n: nat)
    requires n > 0 && v + n <= TOP && TablesFor(s, t, v, n - 1) && TablesAdded(t, u, Pde(v + n - 1))
    ensures TablesFor(s, u, v, n)
  {
    hide HasTable, Pde;
    PdeOrder(v, v + n - 1);
    if n > 1 {
      PdeOrder(v, v + n - 2);
      PdeOrder(v + n - 2, v + n - 1);
      PdeNext(v + n - 2);
    }
  }

  lemma PdeNext(x: nat)
    requires x + 1 < TOP
    ensures Pde(x + 1) <= Pde(x) + 1
  {
    PageIndex(x, x + 1);
    PageIndex(x + 1, x);
  }

  lemma FreshNone(s: Vm, v: nat, flags: Flags, fuel: nat)
    requires VmInv(s)
    ensures MapFresh(s, v, 0, flags, fuel) == Ok(s) && Mapped(s, s, v, [], flags) && Taken(s, s, []) && TablesFor(s, s, v, 0) && Spent(s, s, 0)
    ensures Kept(s, s, [])
  {
    hide VmInv, Walk, Pde, LowFree, Counted, HasTable;
  }

  lemma SpentStep(s: Vm, t: Vm, u: Vm, m: nat, x: nat)
    requires Spent(s, t, m) && |u.used| == |t.used| + 1 + x && |LowFree(u.used)| == |LowFree(t.used)| - 1 - x && (Counted(t) ==> Counted(u))
    ensures Spent(s, u, m + 1 + x)
  {
    hide LowFree, Counted;
  }

  lemma TablesRights(s: Vm, t: Vm, v: nat, n: nat, j: nat)
    requires TablesFor(s, t, v, n) && j < ENTRIES
    ensures PdeRights(t, j) == PdeRights(s, j)
  {
    hide PdeRights, HasTable, Pde;
  }

  lemma FreshStep(s: Vm, t: Vm, v: nat, n: nat, fs: seq<nat>, flags: Flags, fuel: nat) returns (u: Vm, f: nat)
    requires VmInv(s) && n > 0 && v + n <= TOP && Room(s, v, n, fuel) && VmInv(t) && |fs| == n - 1
    requires MapFresh(s, v, n - 1, flags, fuel) == Ok(t)
    requires Mapped(s, t, v, fs, flags) && Taken(s, t, fs) && TablesFor(s, t, v, n - 1) && Spent(s, t, n - 1 + Missing(s, v, n - 1))
    requires Kept(s, t, fs)
    ensures MapFresh(s, v, n, flags, fuel) == Ok(u) && VmInv(u)
    ensures Mapped(s, u, v, fs + [f], flags) && Taken(s, u, fs + [f]) && TablesFor(s, u, v, n) && Spent(s, u, n + Missing(s, v, n))
    ensures Kept(s, u, fs + [f])
  {
    hide VmInv, OneMapped, LowFree, KernelFree, AllocFrames, MapPages, Pde, HasTable, Counted, TablesAdded, RoomForOne, Room, Mapped, Taken,
      TablesFor, Missing, Extra, Spent, Kept;
    InvRecursive(s);
    RoomStep(s, t, v, fs, flags, n, fuel);
    u, f := MapOne(t, v + n - 1, flags, fuel);
    TablesRights(s, t, v, n - 1, Pde(v + n - 1));
    MappedStep(s, t, u, v, fs, flags, f);
    FrameStart(t);
    TakenStep(s, t, u, fs, f);
    TablesStep(s, t, u, v, n);
    SpentStep(s, t, u, n - 1 + Missing(s, v, n - 1), Extra(t, v + n - 1));
    MappedCr3(s, t, v, fs, flags);
    InvRecursive(t);
    KeptStep(s, t, u, fs, f);
  }

  lemma MappedCr3(s: Vm, t: Vm, v: nat, fs: seq<nat>, flags: Flags)
    requires Mapped(s, t, v, fs, flags)
    ensures t.cr3 == s.cr3 && t.spaces == s.spaces && t.boot == s.boot
  {
  }

  lemma KeptStep(s: Vm, t: Vm, u: Vm, fs: seq<nat>, f: nat)
    requires Kept(s, t, fs) && Kept(t, u, [f]) && Taken(s, t, fs) && f !in t.used && t.tables <= t.used
    requires t.cr3 == s.cr3 && t.spaces == s.spaces
    ensures Kept(s, u, fs + [f])
  {
    hide OthersSame;
    OthersTrans(s, t, u);
  }

  /** The loop over the pages. */
  lemma {:induction false} MapFreshExact(s: Vm, v: nat, n: nat, flags: Flags, fuel: nat) returns (t: Vm, fs: seq<nat>)
    requires VmInv(s) && v + n <= TOP && Room(s, v, n, fuel)
    ensures MapFresh(s, v, n, flags, fuel) == Ok(t) && VmInv(t) && |fs| == n
    ensures Mapped(s, t, v, fs, flags) && Taken(s, t, fs) && TablesFor(s, t, v, n) && Spent(s, t, n + Missing(s, v, n))
    ensures Kept(s, t, fs)
  {
    hide VmInv, MapFresh, Room, Mapped, Taken, TablesFor, Spent, Kept;
    if n == 0 {
      FreshNone(s, v, flags, fuel);
      t, fs := s, [];
    } else {
      RoomLess(s, v, n, fuel);
      var t0, fs0 := MapFreshExact(s, v, n - 1, flags, fuel);
      var f;
      t, f := FreshStep(s, t0, v, n, fs0, flags, fuel);
      fs := fs0 + [f];
    }
  }

  lemma FrameStart(s: Vm)
    requires AllocFrames(s, 1).Ok?
    ensures AVAILABLE_PAGES_START <= AllocFrames(s, 1).value.1
  {
  }

  // ---- Where pages are placed ----

  lemma {:induction false} CheckFreeMeaning(s: Vm, v: nat, n: nat)
    requires Recursive(s)
    ensures CheckFreePages(s, v, n) == Ok(forall x :: v <= x < v + n ==> Translate(s, x).None?)
  {
    hide Recursive, Translate, CheckPagePresent;
    if n > 0 {
      CheckFreeMeaning(s, v, n - 1);
      PresentMeaning(s, v + n - 1);
    }
  }

  /** Where pages should go, said in terms of translations. */
  ghost function Placed(s: Vm, address: Option<nat>, n: nat, flags: Flags): Outcome<Option<nat>> {
    match address
    case Some(a) => Ok(if forall x :: a <= x < a + n ==> Translate(s, x).None? then address else None)
    case None =>
      var lo, hi := if flags.user then FIRST_PAGE else KERNEL_PAGE, if flags.user then KERNEL_PAGE else LAST_PAGE;
      match Search(PresentIn(s, flags.user), lo, hi, n)
      case None => Panic
      case Some(v) => Ok(Some(v))
  }

  lemma PlaceMeaning(s: Vm, address: Option<nat>, n: nat, flags: Flags)
    requires Recursive(s)
    ensures Place(s, address, n, flags) == Placed(s, address, n, flags)
  {
    match address
    case Some(a) => CheckFreeMeaning(s, a, n);
    case None =>
      var lo, hi := if flags.user then FIRST_PAGE else KERNEL_PAGE, if flags.user then KERNEL_PAGE else LAST_PAGE;
      forall x: nat | lo <= x < hi
        ensures CheckPagePresent(s, x) == Ok(Translate(s, x).Some?)
      {
        PresentMeaning(s, x);
      }
      hide CheckPagePresent, Translate;
      assert Presents(s, lo, hi) == PresentIn(s, flags.user);
  }

  /** The pages of the user part, or of the kernel part, that are present. */
  ghost function PresentIn(s: Vm, user: bool): set<nat> {
    set v: nat | (if user then FIRST_PAGE else KERNEL_PAGE) <= v < (if user then KERNEL_PAGE else LAST_PAGE) && Translate(s, v).Some?
  }

  /** None of the n pages from v on is present. */
  ghost predicate AllFree(s: Vm, v: nat, n: nat) { forall x :: v <= x < v + n ==> Translate(s, x).None? }

  /** v is the lowest place in lo..hi where n pages in a row are not present. */
  ghost predicate LowestFree(s: Vm, lo: nat, hi: nat, n: nat, v: nat) {
    lo <= v && v + n <= hi && AllFree(s, v, n) && forall w: nat :: lo <= w < v ==> !AllFree(s, w, n)
  }

  /** The address asked for is refused exactly when some page of it is present. Without an address user pages go to the
      lowest room between page 1 and 0xC0100, kernel pages to the lowest one from 0xC0100 to the last page below the
      recursive entry's, and no room, or no pages, is a panic. */
  lemma PlaceExact(s: Vm, address: Option<nat>, n: nat, flags: Flags)
    requires Recursive(s)
    ensures address.Some? ==> Place(s, address, n, flags) == Ok(if AllFree(s, address.value, n) then address else None)
    ensures address.None? ==>
      var lo, hi := if flags.user then 1 else 0xC0100, if flags.user then 0xC0100 else 0xFFBFF;
      (Place(s, address, n, flags).Panic? <==> n == 0 || forall w: nat :: lo <= w && w + n <= hi ==> !AllFree(s, w, n)) &&
      (Place(s, address, n, flags).Ok? ==> exists v: nat :: LowestFree(s, lo, hi, n, v) && Place(s, address, n, flags) == Ok(Some(v)))
  {
    hide Translate, Recursive;
    PlaceMeaning(s, address, n, flags);
    if address.None? {
      var lo, hi := if flags.user then 1 else 0xC0100, if flags.user then 0xC0100 else 0xFFBFF;
      var present := PresentIn(s, flags.user);
      forall w: nat | lo <= w && w + n <= hi
        ensures FreeRun(present, w, n) <==> AllFree(s, w, n)
      {
        FreePages(s, flags.user, w, n);
      }
      if Place(s, address, n, flags).Ok? {
        assert LowestFree(s, lo, hi, n, Place(s, address, n, flags).value.value);
      }
    }
  }

  lemma FreePages(s: Vm, user: bool, w: nat, n: nat)
    requires (if user then FIRST_PAGE else KERNEL_PAGE) <= w && w + n <= (if user then KERNEL_PAGE else LAST_PAGE)
    ensures FreeRun(PresentIn(s, user), w, n) <==> AllFree(s, w, n)
  {
    hide Translate;
    if FreeRun(PresentIn(s, user), w, n) {
      forall x | w <= x < w + n
        ensures Translate(s, x).None?
      {
        assert x !in PresentIn(s, user);
      }
    }
  }

  /** A refused allocation gives null and changes nothing; one without room panics. */
  lemma AllocRefused(s: Vm, address: Option<nat>, n: nat, flags: Flags, contiguous: bool, fuel: nat)
    requires Recursive(s)
    ensures address.Some? && !AllFree(s, address.value, n) ==> Alloc(s, address, n, flags, contiguous, fuel) == Ok((s, None))
    ensures address.None? && n == 0 ==> Alloc(s, address, n, flags, contiguous, fuel) == Panic
  {
    hide Place, AllFree, MapContiguous, MapFresh;
    PlaceExact(s, address, n, flags);
  }

  /** Pages that were placed were not present, and lie below the recursive entry's. */
  lemma PlacedFree(s: Vm, address: Option<nat>, n: nat, flags: Flags, v: nat)
    requires Recursive(s) && Place(s, address, n, flags) == Ok(Some(v)) && (address.Some? ==> address.value + n <= TOP)
    ensures v + n <= TOP && forall x :: v <= x < v + n ==> Translate(s, x).None?
  {
    hide Translate;
    PlaceMeaning(s, address, n, flags);
    if address.None? {
      var lo, hi := if flags.user then FIRST_PAGE else KERNEL_PAGE, if flags.user then KERNEL_PAGE else LAST_PAGE;
      assert IsFirstFit(PresentIn(s, flags.user), lo, hi, n, v);
      forall x | v <= x < v + n
        ensures Translate(s, x).None?
      {
        assert x !in PresentIn(s, flags.user);
      }
    }
  }

  // ---- The main theorems ----

  /** A non-contiguous allocation makes exactly the requested pages newly present, each with a frame of its own
      that was free before, and leaves every other translation of every space as it was, even when page tables
      have to be made on the way; the byte counter stays right. */
  lemma AllocExact(s: Vm, address: Option<nat>, n: nat, flags: Flags, fuel: nat, v: nat) returns (t: Vm, fs: seq<nat>)
    requires VmInv(s) && Place(s, address, n, flags) == Ok(Some(v)) && (address.Some? ==> address.value + n <= TOP)
    requires Room(s, v, n, fuel)
    ensures Alloc(s, address, n, flags, false, fuel) == Ok((t, Some(v))) && VmInv(t) && |fs| == n
    ensures forall x :: v <= x < v + n ==> Translate(s, x).None? && Translate(t, x) == Some(Granted(s, x, fs[x - v], flags))
    ensures Mapped(s, t, v, fs, flags) && Taken(s, t, fs) && TablesFor(s, t, v, n) && Spent(s, t, n + Missing(s, v, n))
    ensures Kept(s, t, fs) && forall i, j :: 0 <= i < j < n ==> fs[i] != fs[j]
  {
    hide VmInv, Place, Room, TablesFor, Spent, MapFresh, Walk, Pde, Kept;
    InvRecursive(s);
    PlacedFree(s, address, n, flags, v);
    t, fs := MapFreshExact(s, v, n, flags, fuel);
    assert s.cr3 in s.spaces;
  }

  // ---- The recursion is one level deep ----

  /** Allocating one kernel page makes no table, whether or not there is memory: the kernel's tables are always there. */
  lemma KernelAllocDepth(s: Vm, fuel: nat)
    requires VmInv(s)
    ensures Alloc(s, None, 1, KERNEL_FLAGS, false, fuel) == Alloc(s, None, 1, KERNEL_FLAGS, false, 0)
  {
    hide VmInv, Place, AllocFrames, MapPage, HasTable, Pde;
    InvRecursive(s);
    var place := Place(s, None, 1, KERNEL_FLAGS);
    if place.Ok? && place.value.Some? {
      var k := place.value.value;
      KernelPlaced(s, k);
      KernelIndex(k);
      KernelTable(s, Pde(k));
      assert MapFresh(s, k, 0, KERNEL_FLAGS, fuel) == Ok(s) == MapFresh(s, k, 0, KERNEL_FLAGS, 0);
      if AllocFrames(s, 1).Ok? {
        var r := AllocFrames(s, 1).value;
        FramesOnly(s, 1);
        SameMem(s, r.0);
        PresentMeaning(r.0, k);
        assert MapPages(r.0, k, r.1, 0, KERNEL_FLAGS, fuel) == Ok(r.0) == MapPages(r.0, k, r.1, 0, KERNEL_FLAGS, 0);
        assert EnsureTable(r.0, k, fuel) == Ok(r.0) == EnsureTable(r.0, k, 0);
        assert MapPages(r.0, k, r.1, 1, KERNEL_FLAGS, fuel) == MapPages(r.0, k, r.1, 1, KERNEL_FLAGS, 0);
        FreshOne(s, k, fuel);
        FreshOne(s, k, 0);
      }
      assert MapFresh(s, k, 1, KERNEL_FLAGS, fuel) == MapFresh(s, k, 1, KERNEL_FLAGS, 0);
    }
  }

  lemma FreshOne(s: Vm, k: nat, fuel: nat)
    requires AllocFrames(s, 1).Ok?
    ensures var r := AllocFrames(s, 1).value; MapFresh(s, k, 1, KERNEL_FLAGS, fuel) == MapPages(r.0, k, r.1, 1, KERNEL_FLAGS, fuel)
  {
    hide AllocFrames, MapPages;
    assert MapFresh(s, k, 0, KERNEL_FLAGS, fuel) == Ok(s);
  }

  lemma KernelPlaced(s: Vm, k: nat)
    requires Place(s, None, 1, KERNEL_FLAGS) == Ok(Some(k))
    ensures KERNEL_PAGE <= k < LAST_PAGE
  {
    hide Presents;
  }

  lemma FramesOnly(s: Vm, n: nat)
    requires AllocFrames(s, n).Ok?
    ensures var r := AllocFrames(s, n).value.0; r.mem == s.mem && r.cr3 == s.cr3 && r.spaces == s.spaces && (Recursive(s) ==> Recursive(r))
  {
    hide Search, Range;
  }

  /** Seeing to a table goes one level deep, whether or not there is memory. */
  lemma EnsureDepth(s: Vm, v: nat, fuel: nat)
    requires VmInv(s) && fuel > 0
    ensures EnsureTable(s, v, fuel) == EnsureTable(s, v, 1)
  {
    hide VmInv, Alloc, MapPageTable, UnmapPage;
    KernelAllocDepth(s, fuel - 1);
  }

  /** However deep allocation is allowed to recurse, one level is all it uses: making a table allocates a kernel
      page, and the kernel's tables are always there. */
  lemma {:induction false} DepthOne(s: Vm, v: nat, n: nat, flags: Flags, fuel: nat)
    requires VmInv(s) && v + n <= TOP && Room(s, v, n, 1) && fuel > 0
    ensures MapFresh(s, v, n, flags, fuel) == MapFresh(s, v, n, flags, 1)
  {
    hide VmInv, LowFree, KernelFree, AllocFrames, EnsureTable, Pde, HasTable, Mapped, Taken, TablesFor, Counted, MapPage, Room;
    if n > 0 {
      RoomLess(s, v, n, 1);
      DepthOne(s, v, n - 1, flags, fuel);
      var t, fs := MapFreshExact(s, v, n - 1, flags, 1);
      InvRecursive(s);
      RoomStep(s, t, v, fs, flags, n, 1);
      DepthStep(t, v + n - 1, flags, fuel);
    }
  }

  lemma DepthStep(t: Vm, v: nat, flags: Flags, fuel: nat)
    requires VmInv(t) && RoomForOne(t, v, 1) && fuel > 0
    ensures AllocFrames(t, 1).Ok?
    ensures var r := AllocFrames(t, 1).value; MapPages(r.0, v, r.1, 1, flags, fuel) == MapPages(r.0, v, r.1, 1, flags, 1)
  {
    hide VmInv, LowFree, KernelFree, AllocFrames, EnsureTable, MapPage, HasTable;
    assert LowFree(t.used) != {};
    NextFrame(t);
    var r := AllocFrames(t, 1).value;
    LowFrame(t.used, r.1);
    TakeFrame(t, r.1);
    MoreUsed(t, r.1, Wrapped(t.size, 1));
    SameMem(t, r.0);
    EnsureDepth(r.0, v, fuel);
    assert MapPages(r.0, v, r.1, 0, flags, fuel) == Ok(r.0) == MapPages(r.0, v, r.1, 0, flags, 1);
  }
}
