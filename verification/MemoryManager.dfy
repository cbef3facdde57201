/** The memory manager itself: tables written in place through the recursive entry, with the frame bitmap. */
module MemoryManagers {
  import opened Common
  import opened PageRuns
  import opened PhysicalMemories
  import opened Paging
  import opened VirtualMemories
  import opened MemoryTheorems
  import opened MemoryRegions
  import opened MemorySpaces

  class MemoryManager {
    var mem: map<nat, Table>
    var cr3: nat
    const boot: nat
    const physical: PhysicalMemory
    ghost var spaces: set<nat>
    ghost var tables: set<nat>

    ghost predicate Valid()
      reads this, physical
    {
      physical.Valid()
    }

    ghost function View(): Vm
      requires Valid()
      reads this, physical, physical.tracer
    {
      Vm(mem, cr3, physical.Used(), physical.size, boot, spaces, tables)
    }

    /** A directory as it is after start-up. */
    constructor (directory: nat, contents: map<nat, Table>, ghost frames: set<nat>)
      ensures Valid() && fresh(physical) && fresh(physical.tracer)
      ensures View() == Vm(contents, directory, {}, 0, directory, {directory}, frames)
    {
      mem, cr3, boot := contents, directory, directory;
      physical := new PhysicalMemory();
      spaces, tables := {directory}, frames;
    }

    /** Paging::map_page */
    method MapOnePage(v: nat, frame: nat, flags: Flags) returns (ok: bool)
      requires Valid()
      modifies `mem
      ensures Valid() && ok == old(MapPage(View(), v, frame, flags)).Ok?
      ensures ok ==> old(MapPage(View(), v, frame, flags)) == Ok(View())
    {
      hide At, Pde, Pte;
      var table := Walk(mem, cr3, Window(Pde(v)));
      if table.None? {
        return false;
      }
      var f := table.value.frame;
      mem := mem[f := At(mem, f)[Pte(v) := Entry(true, flags.writable, flags.user, Short(frame))]];
      return true;
    }

    /** Paging::unmap_page */
    method UnmapOnePage(v: nat) returns (ok: bool)
      requires Valid()
      modifies `mem
      ensures Valid() && ok == old(UnmapPage(View(), v)).Ok?
      ensures ok ==> old(UnmapPage(View(), v)) == Ok(View())
    {
      hide At, Pde, Pte;
      var table := Walk(mem, cr3, Window(Pde(v)));
      if table.None? {
        return false;
      }
      var f := table.value.frame;
      mem := mem[f := At(mem, f)[Pte(v) := At(mem, f)[Pte(v)].(present := false)]];
      return true;
    }

    /** Paging::check_page_present */
    method PagePresent(v: nat) returns (r: Outcome<bool>)
      requires Valid()
      ensures r == CheckPagePresent(View(), v)
    {
      hide At, Pde, Pte;
      var directory := Walk(mem, cr3, Window(RECURSIVE_ENTRY));
      if directory.None? {
        return Panic;
      }
      if !At(mem, directory.value.frame)[Pde(v)].present {
        return Ok(false);
      }
      var table := Walk(mem, cr3, Window(Pde(v)));
      if table.None? {
        return Panic;
      }
      return Ok(At(mem, table.value.frame)[Pte(v)].present);
    }

    /** VirtualMemory::find_pages: the lowest fit, or None for the panic. */
    method FindPages(lo: nat, hi: nat, n: nat) returns (r: Option<nat>)
      requires Valid() && Recursive(View()) && lo <= hi <= FRAMES && n < TWO32
      ensures r == Search(Presents(View(), lo, hi), lo, hi, n)
    {
      hide Progress, Recursive, CheckPagePresent, IsFirstFit;
      var first: nat, remaining: nat := 0, n;
      var v := lo;
      ghost var present := Presents(View(), lo, hi);
      ProgressStart(present, lo, n);
      while v < hi
        invariant lo <= v <= hi && Progress(present, lo, v, n, first, remaining)
      {
        PresentMeaning(View(), v);
        var p := PagePresent(v);
        if p == Ok(false) {
          ProgressFree(present, lo, v, hi, n, first, remaining);
          if remaining == n {
            first := v;
          }
          remaining := (remaining - 1) % TWO32;
          if remaining == 0 {
            FirstFitUnique(present, lo, hi, n, first);
            return Some(first);
          }
        } else {
          ProgressUsed(present, lo, v, n, first, remaining);
          remaining := n;
        }
        v := v + 1;
      }
      ProgressEnd(present, lo, v, hi, n, first, remaining);
      return None;
    }

    /** VirtualMemory::check_free_pages */
    method PagesFree(v: nat, n: nat) returns (free: bool)
      requires Valid() && Recursive(View())
      ensures free <==> forall x :: v <= x < v + n ==> Translate(View(), x).None?
    {
      hide Recursive, CheckPagePresent, Translate;
      var i: nat := 0;
      while i < n
        invariant i <= n && forall x :: v <= x < v + i ==> Translate(View(), x).None?
      {
        PresentMeaning(View(), v + i);
        var p := PagePresent(v + i);
        if p == Ok(true) {
          return false;
        }
        i := i + 1;
      }
      return true;
    }

    /** Paging::map_page_table, given the page at which the new table was last mapped */
    method EnterTable(v: nat, page: nat) returns (ok: bool)
      requires Valid()
      modifies `mem, `tables
      ensures Valid() && ok == old(MapPageTable(View(), v, page)).Ok?
      ensures ok ==> old(MapPageTable(View(), v, page)) == Ok(View())
    {
      hide At, Pde, Pte;
      var table := Walk(mem, cr3, Window(Pde(page)));
      var directory := Walk(mem, cr3, Window(RECURSIVE_ENTRY));
      if table.None? || directory.None? {
        return false;
      }
      var frame := At(mem, table.value.frame)[Pte(page)].frame;
      var d := directory.value.frame;
      mem := mem[d := At(mem, d)[Pde(v) := Entry(true, true, true, Short(frame))]];
      tables := tables + {Short(frame)};
      return true;
    }

    /** The part of VirtualMemory::map_pages that sees to the table, with create_page_table */
    method SeeToTable(v: nat, ghost fuel: nat)
      requires Valid() && VmInv(View()) && v < TOP && TableRoom(View(), v, fuel)
      modifies this, physical, physical.tracer
      ensures Valid() && old(EnsureTable(View(), v, fuel)) == Ok(View())
      decreases fuel, 1
    {
      hide VmInv, Alloc, Walk, KernelFree, LowFree, UnmapPage, MapPageTable, At, Request, Pde, TableMade;
      ghost var s := View();
      InvRecursive(s);
      PresentMeaning(s, v);
      WindowMeaning(s, RECURSIVE_ENTRY);
      var directory := Walk(mem, cr3, Window(RECURSIVE_ENTRY));
      if At(mem, directory.value.frame)[Pde(v)].present {
        return;
      }
      ghost var k, g := MadeTable(s, v, fuel);
      KernelRequest(s, fuel - 1);
      var page := AllocNoLock(None, 1, KERNEL_FLAGS, false, fuel - 1);
      var ok := UnmapOnePage(page.value);
      ok := EnterTable(v, page.value);
    }

    /** VirtualMemory::map_pages */
    method MapRegion(v: nat, frame: nat, n: nat, flags: Flags, ghost fuel: nat)
      requires Valid() && VmInv(View()) && v + n <= TOP && frame + n <= TWO16 && Reaches(View(), v, n) && TableRoom(View(), v, fuel)
      modifies this, physical, physical.tracer
      ensures Valid() && old(MapPages(View(), v, frame, n, flags, fuel)) == Ok(View())
      decreases fuel, 2, 0
    {
      hide VmInv, Reaches, TableRoom, EnsureTable, MapPage;
      ghost var s := View();
      var i: nat := 0;
      while i < n
        invariant i <= n && Valid() && MapPages(s, v, frame, i, flags, fuel) == Ok(View())
      {
        RegionTurn(s, View(), v, frame, n, i, flags, fuel);
        SeeToTable(v, fuel);
        var ok := MapOnePage(v + i, frame + i, flags);
        i := i + 1;
      }
    }

    method FillOne(v: nat, flags: Flags, ghost fuel: nat)
      requires Valid() && VmInv(View()) && v < TOP && RoomForOne(View(), v, fuel)
      modifies this, physical, physical.tracer
      ensures Valid() && old(AllocFrames(View(), 1)).Ok?
      ensures old(var r := AllocFrames(View(), 1).value; MapPages(r.0, v, r.1, 1, flags, fuel)) == Ok(View())
      decreases fuel, 2, 1
    {
      hide VmInv, TableRoom, RoomForOne, MapPages, Reaches, Wrapped;
      ghost var t := View();
      AfterFrame(t, v, fuel);
      var frame := physical.AllocPages(AVAILABLE_PAGES_START, 1);
      assert AllocFrames(t, 1) == Ok((View(), frame.value));
      ReachesOne(View(), v);
      MapRegion(v, frame.value, 1, flags, fuel);
    }

    /** The loop of _alloc_no_lock that takes one frame at a time */
    method FillFresh(v: nat, n: nat, flags: Flags, ghost fuel: nat)
      requires Valid() && VmInv(View()) && v + n <= TOP && Room(View(), v, n, fuel)
      modifies this, physical, physical.tracer
      ensures Valid() && old(MapFresh(View(), v, n, flags, fuel)) == Ok(View())
      decreases fuel, 3
    {
      hide VmInv, Room, RoomForOne, MapPages, AllocFrames;
      ghost var s := View();
      var i: nat := 0;
      while i < n
        invariant i <= n && Valid() && MapFresh(s, v, i, flags, fuel) == Ok(View())
      {
        FreshTurn(s, View(), v, n, i, flags, fuel);
        FillOne(v + i, flags, fuel);
        i := i + 1;
      }
    }

    /** The contiguous case of _alloc_no_lock */
    method FillContiguous(v: nat, n: nat, flags: Flags, ghost fuel: nat)
      requires Valid() && VmInv(View()) && v + n <= TOP && 0 < n < TWO32 && LowRun(View().used, n) && HasTables(View(), v, n)
      modifies this, physical, physical.tracer
      ensures Valid() && old(MapContiguous(View(), v, n, flags, fuel)) == Ok(View())
      decreases fuel, 3
    {
      hide VmInv, LowRun, MapPages, Reaches, HasTables, HasTable, Wrapped;
      ghost var s := View();
      NextRun(s, n);
      HasTablesReaches(s, v, n);
      ghost var r := AllocFrames(s, n).value;
      MoreUsedRange(s, r.1, n, Wrapped(s.size, n));
      ReachesSame(s, r.0, v, n);
      SameMem(s, r.0);
      var frame := physical.AllocPages(AVAILABLE_PAGES_START, n);
      assert View() == r.0;
      MapRegion(v, frame.value, n, flags, fuel);
    }

    /** Where _alloc_no_lock puts the pages */
    method Choose(address: Option<nat>, n: nat, flags: Flags) returns (r: Option<nat>)
      requires Valid() && Recursive(View()) && n < TWO32 && Place(View(), address, n, flags).Ok?
      ensures Place(View(), address, n, flags) == Ok(r)
    {
      hide Recursive, CheckFreePages, Presents, Search;
      if address.Some? {
        CheckFreeMeaning(View(), address.value, n);
        var free := PagesFree(address.value, n);
        return if free then address else None;
      }
      if flags.user {
        r := FindPages(FIRST_PAGE, KERNEL_PAGE, n);
      } else {
        r := FindPages(KERNEL_PAGE, LAST_PAGE, n);
      }
    }

    /** Memory::_alloc_no_lock; None is the null address */
    method AllocNoLock(address: Option<nat>, n: nat, flags: Flags, contiguous: bool, ghost fuel: nat) returns (r: Option<nat>)
      requires Valid() && VmInv(View()) && n < TWO32 && Request(View(), address, n, flags, contiguous, fuel)
      modifies this, physical, physical.tracer
      ensures Valid() && old(Alloc(View(), address, n, flags, contiguous, fuel)) == Ok((View(), r))
      decreases fuel, 4
    {
      hide VmInv, Place, Room, LowRun, HasTables, MapFresh, MapContiguous;
      InvRecursive(View());
      r := Choose(address, n, flags);
      if r.None? {
        return;
      }
      PlacedFree(View(), address, n, flags, r.value);
      if contiguous {
        FillContiguous(r.value, n, flags, fuel);
      } else {
        FillFresh(r.value, n, flags, fuel);
      }
    }

    /** Memory::_free_no_lock. The frame is read from the first page's table entry, present or not. */
    method FreeNoLock(v: nat, n: nat) returns (ok: bool)
      requires Valid() && (GetPhysicalPage(View(), v).Ok? ==> GetPhysicalPage(View(), v).value + n <= FRAMES)
      modifies this, physical, physical.tracer
      ensures Valid() && ok == old(Free(View(), v, n)).Ok?
      ensures ok ==> old(Free(View(), v, n)) == Ok(View())
    {
      hide At, Pde, Pte, Wrapped, UnmapPages, GetPhysicalPage;
      var frame := PhysicalPage(v);
      if frame.Panic? {
        return false;
      }
      physical.SetFreePages(frame.value, n);
      ok := UnmapRange(v, n);
    }

    /** Paging::map_kernel_pd_entries, written to the frame behind the page */
    method FillDirectory(at: nat, frame: nat)
      requires Valid()
      modifies `mem
      ensures Valid() && View() == old(View()).(mem := old(mem)[at := NewDirectory(old(View()), frame)])
    {
      hide At;
      var directory: Table := Empty();
      var i: nat := Pde(KERNEL_PAGE);
      while i < RECURSIVE_ENTRY
        invariant KERNEL_PDE <= i <= RECURSIVE_ENTRY
        invariant forall j :: 0 <= j < ENTRIES ==>
          directory[j] == if Pde(KERNEL_PAGE) <= j < i then At(mem, boot)[j] else NO_ENTRY
      {
        directory := directory[i := At(mem, boot)[i]];
        i := i + 1;
      }
      directory := directory[RECURSIVE_ENTRY := Entry(true, true, false, Short(frame))];
      assert directory == NewDirectory(View(), frame);
      mem := mem[at := directory];
    }

    /** Memory::create_new_virtual_space */
    method CreateNewVirtualSpace() returns (d: nat)
      requires Valid() && VmInv(View()) && LowFree(View().used) != {} && KernelFree(View())
      modifies this, physical, physical.tracer
      ensures Valid() && old(NewSpace(View(), 1)) == Ok((View(), d))
    {
      hide VmInv, LowFree, KernelFree, Alloc, Request, NewDirectory, At, Pde, Pte, UnmapPage, Walk;
      ghost var t, space := NewSpaceExact(View(), 1);
      KernelRequest(View(), 1);
      var page := AllocNoLock(None, 1, KERNEL_FLAGS, false, 1);
      var frame := PhysicalPage(page.value);
      var at := Walk(mem, cr3, page.value);
      FillDirectory(at.value.frame, frame.value);
      var ok := UnmapOnePage(page.value);
      frame := PhysicalPage(page.value);
      d := frame.value;
      spaces, tables := spaces + {d}, tables + {d};
    }

    /** Paging::get_physical_page */
    method PhysicalPage(v: nat) returns (r: Outcome<nat>)
      requires Valid()
      ensures r == GetPhysicalPage(View(), v)
    {
      hide At, Pde, Pte;
      var table := Walk(mem, cr3, Window(Pde(v)));
      if table.None? {
        return Panic;
      }
      return Ok(At(mem, table.value.frame)[Pte(v)].frame);
    }

    /** Paging::unmap_pages */
    method UnmapRange(v: nat, n: nat) returns (ok: bool)
      requires Valid()
      modifies `mem
      ensures Valid() && ok == old(UnmapPages(View(), v, n)).Ok?
      ensures ok ==> old(UnmapPages(View(), v, n)) == Ok(View())
    {
      hide UnmapPage;
      ghost var start := View();
      var i: nat := 0;
      while i < n
        invariant i <= n && Valid() && UnmapPages(start, v, i) == Ok(View())
      {
        ok := UnmapOnePage(v + i);
        i := i + 1;
        if !ok {
          UnmapFails(start, v, n, i);
          return;
        }
      }
      ok := true;
    }
  }

  lemma ReachesOne(s: Vm, v: nat)
    ensures Reaches(s, v, 1)
  {
  }

  lemma {:induction false} UnmapFails(s: Vm, v: nat, n: nat, m: nat)
    requires UnmapPages(s, v, m).Panic? && m <= n
    ensures UnmapPages(s, v, n).Panic?
    decreases n
  {
    hide UnmapPage;
    if m < n {
      UnmapFails(s, v, n - 1, m);
    }
  }
}
