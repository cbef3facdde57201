/** When freeing a region undoes allocating it. */
module MemoryRoundTrips {
  import opened Common
  import opened PageRuns
  import opened PhysicalMemories
  import opened Paging
  import opened VirtualMemories
  import opened MemoryTheorems
  import opened MemoryRegions

  lemma {:induction false} WholeTurns(a: nat, q: int)
    requires a < TWO32
    ensures (a + q * TWO32) % TWO32 == a
    decreases if q < 0 then -q else q
  {
    if q > 0 {
      WholeTurns(a, q - 1);
      assert a + q * TWO32 == (a + (q - 1) * TWO32) + TWO32;
    } else if q < 0 {
      WholeTurns(a, q + 1);
      assert a + q * TWO32 == (a + (q + 1) * TWO32) - TWO32;
    }
  }

  lemma WrappedBack(size: nat, n: nat)
    requires size < TWO32
    ensures Wrapped(Wrapped(size, n), 0 - n) == size
  {
    var a := size + n * PAGE_SIZE;
    var q := a / TWO32;
    assert Wrapped(size, n) == a - q * TWO32;
    assert Wrapped(size, n) + (0 - n) * PAGE_SIZE == size + (0 - q) * TWO32;
    WholeTurns(size, 0 - q);
  }

  /** Mapping pages that were free and then unmapping them leaves every translation of every space as it was. */
  lemma MappedUnmapped(s: Vm, t: Vm, u: Vm, v: nat, fs: seq<nat>, flags: Flags)
    requires VmInv(s) && Mapped(s, t, v, fs, flags) && Unmapped(t, u, v, |fs|) && v + |fs| <= TOP
    requires forall x :: v <= x < v + |fs| ==> Translate(s, x).None?
    ensures SameWalks(s, u)
  {
    InvRecursive(s);
    hide VmInv, Walk, Pde;
    forall d, x: nat | d in s.spaces && x < TOP
      ensures Walk(u.mem, d, x) == Walk(s.mem, d, x)
    {
      if v <= x < v + |fs| {
        assert Translate(s, x).None?;
        PageIndex(x, x);
        if Pde(x) >= KERNEL_PDE {
          KernelSame(s, d, s.cr3, x);
        }
      }
    }
  }

  lemma HasTablesAfter(s: Vm, t: Vm, v: nat, n: nat)
    requires HasTables(s, v, n) && (TablesAdded(s, t, Pde(v)) || TablesFor(s, t, v, n)) && v + n <= TOP
    ensures HasTables(t, v, n)
  {
    hide HasTable, Pde;
    forall x | v <= x < v + n
      ensures HasTable(t, Pde(x))
    {
      PageIndex(x, x);
    }
  }

  /** Allocating a contiguous region whose tables exist and freeing it restores the bitmap, the counter and the
      translations of all spaces. */
  lemma ContiguousRoundTrip(s: Vm, address: Option<nat>, n: nat, flags: Flags, fuel: nat, v: nat) returns (t: Vm, u: Vm)
    requires VmInv(s) && n > 0 && Place(s, address, n, flags) == Ok(Some(v)) && (address.Some? ==> address.value + n <= TOP)
    requires LowRun(s.used, n) && HasTables(s, v, n) && s.size < TWO32
    ensures Alloc(s, address, n, flags, true, fuel) == Ok((t, Some(v))) && Free(t, v, n) == Ok(u)
    ensures u.used == s.used && u.size == s.size && SameWalks(s, u) && VmInv(u)
  {
    hide VmInv, Place, LowRun, Mapped, Unmapped, HasTables, Translate, TablesAdded, Counted, Wrapped, Alloc, Free, SameWalks, HasTable, IsFirstFit, Reaches, SameTables;
    HasTablesReaches(s, v, n);
    InvRecursive(s);
    PlacedFree(s, address, n, flags, v);
    var f;
    t, f := AllocContiguousExact(s, address, n, flags, fuel, v);
    HasTablesAfter(s, t, v, n);
    FirstFrame(s, t, v, Row(f, n), flags);
    u := FreeExact(t, v, n, f);
    WrappedBack(s.size, n);
    assert s.used + Range(f, n) - Range(f, n) == s.used;
    MappedUnmapped(s, t, u, v, Row(f, n), flags);
  }

  /** In the kernel part the tables are always there: a contiguous allocation succeeds and can be undone. */
  lemma KernelContiguousRoundTrip(s: Vm, address: Option<nat>, n: nat, flags: Flags, fuel: nat, v: nat) returns (t: Vm, u: Vm)
    requires VmInv(s) && n > 0 && Place(s, address, n, flags) == Ok(Some(v)) && (address.Some? ==> address.value + n <= TOP)
    requires LowRun(s.used, n) && KERNEL_PDE * ENTRIES <= v && s.size < TWO32
    ensures Alloc(s, address, n, flags, true, fuel) == Ok((t, Some(v))) && Free(t, v, n) == Ok(u)
    ensures u.used == s.used && u.size == s.size && SameWalks(s, u) && VmInv(u)
    ensures forall d, x :: d in s.spaces && v <= x < v + n ==>
      Walk(s.mem, d, x).None? && Walk(t.mem, d, x).Some? && Walk(t.mem, d, x) == Walk(t.mem, s.cr3, x)
  {
    hide VmInv, Place, LowRun, Mapped, HasTables, Alloc, Free, SameWalks, Walk, Reaches, HasTable, Pde, TablesAdded, Counted, Wrapped, IsFirstFit, OthersSame;
    InvRecursive(s);
    PlacedFree(s, address, n, flags, v);
    KernelReaches(s, v, n);
    t, u := ContiguousRoundTrip(s, address, n, flags, fuel, v);
    HasTablesReaches(s, v, n);
    var t', f := AllocContiguousExact(s, address, n, flags, fuel, v);
    forall d, x | d in s.spaces && v <= x < v + n
      ensures Walk(s.mem, d, x).None? && Walk(t.mem, d, x).Some? && Walk(t.mem, d, x) == Walk(t.mem, s.cr3, x)
    {
      KernelWalks(s, t, v, Row(f, n), flags, d, x);
    }
  }

  lemma KernelWalks(s: Vm, t: Vm, v: nat, fs: seq<nat>, flags: Flags, d: nat, x: nat)
    requires VmInv(s) && Mapped(s, t, v, fs, flags) && KERNEL_PDE * ENTRIES <= v <= x < v + |fs| <= TOP && d in s.spaces
    requires Translate(s, x).None?
    ensures Walk(s.mem, d, x).None? && Walk(t.mem, d, x).Some? && Walk(t.mem, d, x) == Walk(t.mem, s.cr3, x)
  {
    hide VmInv, Walk;
    InvRecursive(s);
    PageIndex(x, x);
    KernelSame(s, d, s.cr3, x);
  }

  lemma FirstFrame(s: Vm, t: Vm, v: nat, fs: seq<nat>, flags: Flags)
    requires Mapped(s, t, v, fs, flags) && s.cr3 in s.spaces && |fs| > 0 && v < TOP
    ensures Translate(t, v).Some? && Translate(t, v).value.frame == fs[0]
  {
    hide Walk;
  }

  // ---- Regions whose pages got one frame at a time ----

  ghost function Members(fs: seq<nat>): set<nat> { set f | f in fs }

  ghost predicate Rising(fs: seq<nat>) { forall i, j :: 0 <= i < j < |fs| ==> fs[i] < fs[j] }

  lemma {:induction false} RisingSize(fs: seq<nat>)
    requires Rising(fs)
    ensures |Members(fs)| == |fs|
  {
    if fs == [] {
      assert Members(fs) == {};
    } else {
      var init, last := fs[..|fs| - 1], fs[|fs| - 1];
      RisingSize(init);
      assert fs == init + [last];
      assert Members(fs) == Members(init) + {last} && last !in Members(init);
    }
  }

  lemma {:induction false} RisingBound(fs: seq<nat>, i: nat)
    requires Rising(fs) && i < |fs|
    ensures fs[0] + i <= fs[i]
  {
    if i > 0 {
      RisingBound(fs, i - 1);
    }
  }

  /** With no tables to make, the frames taken are the only new ones. */
  lemma OnlyTaken(s: Vm, t: Vm, fs: seq<nat>)
    requires Taken(s, t, fs) && Spent(s, t, |fs|)
    ensures t.used == s.used + Members(fs) && Members(fs) !! s.used && |Members(fs)| == |fs|
  {
    hide LowFree, Counted;
    RisingSize(fs);
    var both := s.used + Members(fs);
    assert |both| == |s.used| + |fs|;
    SubsetSize(both, t.used);
  }

  /** The frames are consecutive exactly when the run from the first of them was free. */
  lemma ConsecutiveIff(s: Vm, t: Vm, fs: seq<nat>)
    requires Taken(s, t, fs) && Spent(s, t, |fs|) && fs != []
    ensures Members(fs) == Range(fs[0], |fs|) <==> FreeRun(s.used, fs[0], |fs|)
  {
    hide LowFree, Counted;
    OnlyTaken(s, t, fs);
    var n := |fs|;
    RisingBound(fs, n - 1);
    if FreeRun(s.used, fs[0], n) {
      forall g | g in Range(fs[0], n)
        ensures g in Members(fs)
      {
        assert g <= fs[n - 1] && fs[n - 1] in t.used;
        assert g in t.used;
      }
      SubsetSize(Range(fs[0], n), Members(fs));
    } else {
      var g :| fs[0] <= g < fs[0] + n && g in s.used;
      assert g in Range(fs[0], n) && g !in Members(fs);
    }
  }

  /** Giving back a row of frames from the first one on undoes the taking exactly when the row is what was taken. */
  lemma RestoredIff(used: set<nat>, taken: set<nat>, row: set<nat>)
    requires taken !! used && |taken| == |row|
    ensures used + taken - row == used <==> taken == row
  {
    if used + taken - row == used {
      assert taken <= row;
      SubsetSize(taken, row);
    }
  }

  lemma {:induction false} NoneMissing(s: Vm, v: nat, n: nat)
    requires HasTables(s, v, n)
    ensures Missing(s, v, n) == 0
  {
    hide HasTable, Pde;
    if n > 0 {
      NoneMissing(s, v, n - 1);
      assert v <= v + n - 1 < v + n;
    }
  }

  /** Freeing a region that was allocated one frame at a time restores the translations, and it restores the
      frame bitmap exactly when the lowest free frame had n - 1 free ones behind it: always for one page. */
  lemma FreshRoundTrip(s: Vm, address: Option<nat>, n: nat, flags: Flags, fuel: nat, v: nat) returns (t: Vm, u: Vm, f: nat)
    requires VmInv(s) && n > 0 && Place(s, address, n, flags) == Ok(Some(v)) && (address.Some? ==> address.value + n <= TOP)
    requires |LowFree(s.used)| >= n && HasTables(s, v, n)
    ensures Alloc(s, address, n, flags, false, fuel) == Ok((t, Some(v))) && Free(t, v, n) == Ok(u) && SameWalks(s, u)
    ensures IsFirstFit(s.used, AVAILABLE_PAGES_START, FRAMES, 1, f)
    ensures u.used == s.used <==> FreeRun(s.used, f, n)
    ensures u.used == s.used && s.size < TWO32 && Counted(s) ==> u.size == s.size
  {
    hide VmInv, Place, Mapped, Unmapped, HasTables, Translate, Wrapped, Alloc, Free, SameWalks, HasTable, TablesFor, Taken, LowFree, Pde, Counted, KernelSpot, SameTables;
    InvRecursive(s);
    PlacedFree(s, address, n, flags, v);
    NoneMissing(s, v, n);
    var fs;
    t, fs := AllocExact(s, address, n, flags, fuel, v);
    f := fs[0];
    HasTablesAfter(s, t, v, n);
    FirstFrame(s, t, v, fs, flags);
    u := FreeExact(t, v, n, f);
    MappedUnmapped(s, t, u, v, fs, flags);
    OnlyTaken(s, t, fs);
    LowestTaken(s, t, fs);
    ConsecutiveIff(s, t, fs);
    RestoredIff(s.used, Members(fs), Range(f, n));
    if Counted(s) && s.size < TWO32 {
      CounterBack(s, t, n);
    }
  }

  /** The first frame taken was the lowest free one. */
  lemma LowestTaken(s: Vm, t: Vm, fs: seq<nat>)
    requires Taken(s, t, fs) && t.used == s.used + Members(fs) && fs != [] && VmInv(t)
    ensures IsFirstFit(s.used, AVAILABLE_PAGES_START, FRAMES, 1, fs[0])
  {
    hide Recursive, KernelShared, TablesOwned, TablesApart;
    assert fs[0] in t.used;
    forall q: nat | AVAILABLE_PAGES_START <= q < fs[0]
      ensures !FreeRun(s.used, q, 1)
    {
      assert q in t.used && q !in Members(fs);
    }
  }

  lemma CounterBack(s: Vm, t: Vm, n: nat)
    requires Counted(s) && Counted(t) && |t.used| == |s.used| + n && s.size < TWO32
    ensures Wrapped(t.size, 0 - n) == s.size
  {
    WrappedTwice(|s.used|, n);
    WrappedBack(s.size, n);
    hide Wrapped;
  }
}
