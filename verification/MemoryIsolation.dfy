/** Isolation: over every run no frame is reached from two places, and user code reaches what it was given. */
module MemoryIsolation {
  import opened Common
  import opened PageRuns
  import opened PhysicalMemories
  import opened Paging
  import opened VirtualMemories
  import opened MemoryTheorems
  import opened MemoryRegions
  import opened MemorySpaces
  import opened MemoryRuns

  // ---- Frames reached from one place only ----

  /** The frames of the kernel image, which start-up maps twice, tables included. */
  predicate OfImage(im: Image, f: nat) { AVAILABLE_PAGES_START <= f < AVAILABLE_PAGES_START + im.pages }

  /** Page x of space d and page y of space e have the same frame. */
  predicate Share(s: Vm, d: nat, x: nat, e: nat, y: nat) {
    Walk(s.mem, d, x).Some? && Walk(s.mem, e, y).Some? && Walk(s.mem, d, x).value.frame == Walk(s.mem, e, y).value.frame
  }

  /** What is translated is in use, and outside the image it is no directory and no table. */
  ghost predicate Owned(im: Image, s: Vm) {
    forall d, x: nat :: d in s.spaces && x < TOP && Walk(s.mem, d, x).Some? ==>
      var f := Walk(s.mem, d, x).value.frame; f in s.used && (OfImage(im, f) || f !in s.tables)
  }

  /** Outside the image a frame belongs to one page of one space, or to one page of the kernel part of all spaces. */
  ghost predicate Alone(im: Image, s: Vm) {
    forall d, e, x: nat, y: nat :: d in s.spaces && e in s.spaces && x < TOP && y < TOP && Share(s, d, x, e, y) ==>
      OfImage(im, Walk(s.mem, d, x).value.frame) || (x == y && (d == e || Pde(x) >= KERNEL_PDE))
  }

  ghost predicate Isolated(im: Image, s: Vm) { Owned(im, s) && Alone(im, s) }

  lemma BootIsolated(im: Image)
    requires ImageRight(im)
    ensures Isolated(im, Boot(im))
  {
    hide Boot, Walk, ImageRight, Pde;
    BootSpaces(im);
    BootStart(im);
    var s := Boot(im);
    forall d, x: nat | d in s.spaces && x < TOP && Walk(s.mem, d, x).Some?
      ensures var f := Walk(s.mem, d, x).value.frame; OfImage(im, f) && f in s.used
    {
      BootTranslate(im, x);
    }
  }

  lemma BootSpaces(im: Image)
    ensures Boot(im).spaces == {im.directory} && Boot(im).used == Range(AVAILABLE_PAGES_START, im.pages)
  {
  }

  /** Pages that get frames of their own leave everything apart. */
  lemma MappedOwned(im: Image, s: Vm, t: Vm, v: nat, fs: seq<nat>, flags: Flags)
    requires Owned(im, s) && Mapped(s, t, v, fs, flags) && s.used <= t.used
    requires forall i :: 0 <= i < |fs| ==> fs[i] in t.used && fs[i] !in t.tables
    requires forall g :: g in t.tables ==> g in s.tables || g !in s.used
    ensures Owned(im, t)
  {
    hide Walk, Pde, OfImage;
    forall d, x: nat | d in t.spaces && x < TOP && Walk(t.mem, d, x).Some?
      ensures var f := Walk(t.mem, d, x).value.frame; f in t.used && (OfImage(im, f) || f !in t.tables)
    {
      if !(v <= x < v + |fs| && (d == s.cr3 || Pde(x) >= KERNEL_PDE)) {
        assert Walk(t.mem, d, x) == Walk(s.mem, d, x);
      }
    }
  }

  ghost predicate Fresh(s: Vm, fs: seq<nat>) {
    (forall i :: 0 <= i < |fs| ==> fs[i] !in s.used) && forall i, j :: 0 <= i < j < |fs| ==> fs[i] != fs[j]
  }

  ghost predicate NewPage(s: Vm, v: nat, n: nat, d: nat, x: nat) { v <= x < v + n && (d == s.cr3 || Pde(x) >= KERNEL_PDE) }

  lemma MappedFrame(s: Vm, t: Vm, v: nat, fs: seq<nat>, flags: Flags, d: nat, x: nat)
    requires Mapped(s, t, v, fs, flags) && d in s.spaces && x < TOP
    ensures NewPage(s, v, |fs|, d, x) ==> Walk(t.mem, d, x).Some? && Walk(t.mem, d, x).value.frame == fs[x - v]
    ensures !NewPage(s, v, |fs|, d, x) ==> Walk(t.mem, d, x) == Walk(s.mem, d, x)
  {
    hide Walk, Pde;
  }

  lemma MappedAlone(im: Image, s: Vm, t: Vm, v: nat, fs: seq<nat>, flags: Flags)
    requires Isolated(im, s) && Mapped(s, t, v, fs, flags) && Fresh(s, fs)
    ensures Alone(im, t)
  {
    MappedCr3(s, t, v, fs, flags);
    hide Walk, Pde, OfImage, Mapped;
    forall d, e, x: nat, y: nat | d in t.spaces && e in t.spaces && x < TOP && y < TOP && Share(t, d, x, e, y)
      ensures OfImage(im, Walk(t.mem, d, x).value.frame) || (x == y && (d == e || Pde(x) >= KERNEL_PDE))
    {
      MappedFrame(s, t, v, fs, flags, d, x);
      MappedFrame(s, t, v, fs, flags, e, y);
      if !NewPage(s, v, |fs|, d, x) && !NewPage(s, v, |fs|, e, y) {
        assert Share(s, d, x, e, y);
      }
    }
  }

  lemma AllocIsolated(im: Image, s: Vm, a: Option<nat>, n: nat, flags: Flags, c: bool)
    requires VmInv(s) && Isolated(im, s) && Request(s, a, n, flags, c, 1)
    ensures Alloc(s, a, n, flags, c, 1).Ok? && Isolated(im, Alloc(s, a, n, flags, c, 1).value.0)
  {
    hide VmInv, Place, Room, LowRun, HasTables, Mapped, TablesFor, TablesAdded, MapFresh, MapContiguous, Reaches, HasTable, Owned, Alone,
      OthersSame, Spent, Counted, IsFirstFit;
    InvRecursive(s);
    var place := Place(s, a, n, flags).value;
    if place.Some? {
      var v := place.value;
      if c {
        HasTablesReaches(s, v, n);
        var t, f := AllocContiguousExact(s, a, n, flags, 1, v);
        MappedOwned(im, s, t, v, Row(f, n), flags);
        MappedAlone(im, s, t, v, Row(f, n), flags);
      } else {
        var t, fs := AllocExact(s, a, n, flags, 1, v);
        KeptFrames(s, t, fs);
        MappedOwned(im, s, t, v, fs, flags);
        MappedAlone(im, s, t, v, fs, flags);
      }
    }
  }

  lemma KeptFrames(s: Vm, t: Vm, fs: seq<nat>)
    requires Kept(s, t, fs) && Taken(s, t, fs) && s.tables <= s.used
    ensures s.used <= t.used && (forall i :: 0 <= i < |fs| ==> fs[i] in t.used && fs[i] !in t.tables)
    ensures forall g :: g in t.tables ==> g in s.tables || g !in s.used
  {
    hide OthersSame;
  }

  // ---- Freeing ----

  /** No page but the ones that are unmapped has one of the frames that are given back. */
  ghost predicate SafeFree(s: Vm, v: nat, n: nat)
    requires Translate(s, v).Some?
  {
    forall d, x: nat :: d in s.spaces && x < TOP && Walk(s.mem, d, x).Some? && !NewPage(s, v, n, d, x) ==>
      Walk(s.mem, d, x).value.frame !in Range(Translate(s, v).value.frame, n)
  }

  /** A free keeps spaces isolated exactly when it is safe: the frames given back are the numbers after the first
      page's frame, whoever has them. */
  lemma FreeIsolated(im: Image, s: Vm, v: nat, n: nat)
    requires VmInv(s) && Isolated(im, s) && FreeEnabled(s, v, n)
    ensures Free(s, v, n).Ok? && (Isolated(im, Free(s, v, n).value) <==> SafeFree(s, v, n))
  {
    hide VmInv, Walk, HasTables, Free, SameTables, Wrapped, Pde, OfImage, Owned, Alone, Unmapped, DirectoriesSame, SafeFree;
    var f := Translate(s, v).value.frame;
    var t := FreeExact(s, v, n, f);
    UnmappedAlone(im, s, t, v, n);
    UnmappedOwned(im, s, t, v, n);
  }

  lemma UnmappedPage(s: Vm, t: Vm, v: nat, n: nat, d: nat, x: nat)
    requires Unmapped(s, t, v, n) && d in s.spaces && x < TOP
    ensures Walk(t.mem, d, x) == if NewPage(s, v, n, d, x) then None else Walk(s.mem, d, x)
  {
    hide Walk, Pde;
  }

  lemma UnmappedAlone(im: Image, s: Vm, t: Vm, v: nat, n: nat)
    requires Alone(im, s) && Unmapped(s, t, v, n)
    ensures Alone(im, t)
  {
    hide Walk, Pde, OfImage;
    forall d, e, x: nat, y: nat | d in t.spaces && e in t.spaces && x < TOP && y < TOP && Share(t, d, x, e, y)
      ensures OfImage(im, Walk(t.mem, d, x).value.frame) || (x == y && (d == e || Pde(x) >= KERNEL_PDE))
    {
      assert Share(s, d, x, e, y);
    }
  }

  lemma UnmappedOwned(im: Image, s: Vm, t: Vm, v: nat, n: nat)
    requires Owned(im, s) && Unmapped(s, t, v, n) && Translate(s, v).Some?
    requires t.used == s.used - Range(Translate(s, v).value.frame, n) && t.tables == s.tables
    ensures Owned(im, t) <==> SafeFree(s, v, n)
  {
    hide Walk, Pde, OfImage, NewPage;
    if SafeFree(s, v, n) {
      forall d, x: nat | d in t.spaces && x < TOP && Walk(t.mem, d, x).Some?
        ensures var f := Walk(t.mem, d, x).value.frame; f in t.used && (OfImage(im, f) || f !in t.tables)
      {
        UnmappedPage(s, t, v, n, d, x);
      }
    } else {
      var d, x: nat :| d in s.spaces && x < TOP && Walk(s.mem, d, x).Some? && !NewPage(s, v, n, d, x) &&
        Walk(s.mem, d, x).value.frame in Range(Translate(s, v).value.frame, n);
      UnmappedPage(s, t, v, n, d, x);
    }
  }

  /** The pages have consecutive frames, none of them the image's. */
  ghost predicate Consecutive(im: Image, s: Vm, v: nat, n: nat) {
    n > 0 && v + n <= TOP && Translate(s, v).Some? &&
    forall x :: v <= x < v + n ==>
      Translate(s, x).Some? && Translate(s, x).value.frame == Translate(s, v).value.frame + x - v && !OfImage(im, Translate(s, x).value.frame)
  }

  /** Freeing a region with consecutive frames, which is what a contiguous or a one-page allocation makes, is safe. */
  lemma ConsecutiveSafe(im: Image, s: Vm, v: nat, n: nat)
    requires VmInv(s) && Isolated(im, s) && Consecutive(im, s, v, n)
    ensures FreeEnabled(s, v, n) && SafeFree(s, v, n)
  {
    hide VmInv, Walk, Pde, OfImage, HasTable;
    InvRecursive(s);
    var f := Translate(s, v).value.frame;
    forall x | v <= x < v + n
      ensures HasTable(s, Pde(x))
    {
      TranslatedTable(s, x);
    }
    forall g | g in Range(f, n)
      ensures g in s.used && g !in s.tables
    {
      assert Translate(s, v + g - f).Some? && Translate(s, v + g - f).value.frame == g;
    }
    forall d, x: nat | d in s.spaces && x < TOP && Walk(s.mem, d, x).Some? && Walk(s.mem, d, x).value.frame in Range(f, n)
      ensures NewPage(s, v, n, d, x)
    {
      var g := Walk(s.mem, d, x).value.frame;
      assert Translate(s, v + g - f).Some?;
      assert Share(s, d, x, s.cr3, v + g - f);
    }
  }

  /** A contiguous or a one-page allocation leaves pages that can be freed safely. */
  lemma AllocFreeable(im: Image, s: Vm, a: Option<nat>, n: nat, flags: Flags, c: bool, v: nat)
    requires VmInv(s) && Isolated(im, s) && (forall g :: OfImage(im, g) ==> g in s.used)
    requires Request(s, a, n, flags, c, 1) && Place(s, a, n, flags) == Ok(Some(v)) && n > 0 && (c || n == 1)
    ensures Alloc(s, a, n, flags, c, 1).Ok?
    ensures var t := Alloc(s, a, n, flags, c, 1).value.0; FreeEnabled(t, v, n) && SafeFree(t, v, n)
  {
    hide VmInv, Place, Room, LowRun, HasTables, TablesFor, TablesAdded, MapFresh, MapContiguous, Reaches, HasTable, OthersSame, Spent, Counted,
      IsFirstFit, Isolated, OfImage, Walk, Pde, FreeEnabled, SafeFree, PdeRights;
    InvRecursive(s);
    PlacedFree(s, a, n, flags, v);
    AllocIsolated(im, s, a, n, flags, c);
    if c {
      HasTablesReaches(s, v, n);
      var t, f := AllocContiguousExact(s, a, n, flags, 1, v);
      MappedConsecutive(im, s, t, v, Row(f, n), flags);
      ConsecutiveSafe(im, t, v, n);
    } else {
      var t, fs := AllocExact(s, a, n, flags, 1, v);
      MappedConsecutive(im, s, t, v, fs, flags);
      ConsecutiveSafe(im, t, v, n);
    }
  }

  lemma MappedConsecutive(im: Image, s: Vm, t: Vm, v: nat, fs: seq<nat>, flags: Flags)
    requires Mapped(s, t, v, fs, flags) && fs != [] && v + |fs| <= TOP && s.cr3 in s.spaces
    requires forall i :: 0 <= i < |fs| ==> fs[i] == fs[0] + i && fs[i] !in s.used
    requires forall g :: OfImage(im, g) ==> g in s.used
    ensures Consecutive(im, t, v, |fs|)
  {
    hide Walk, Pde, OfImage;
  }

  lemma TranslatedTable(s: Vm, x: nat)
    requires Translate(s, x).Some?
    ensures HasTable(s, Pde(x))
  {
  }

  // ---- New spaces ----

  lemma SpaceOwned(im: Image, s: Vm, t: Vm, d: nat)
    requires Owned(im, s) && s.boot in s.spaces && t.spaces == s.spaces + {d} && d !in s.used && t.used == s.used + {d} && t.tables == s.tables + {d}
    requires forall e, x: nat :: e in s.spaces && x < TOP ==> Walk(t.mem, e, x) == Walk(s.mem, e, x)
    requires forall x: nat :: x < TOP ==> Walk(t.mem, d, x) == if Pde(x) >= KERNEL_PDE then Walk(s.mem, s.boot, x) else None
    ensures Owned(im, t)
  {
    hide Walk, Pde, OfImage;
  }

  lemma SpaceAlone(im: Image, s: Vm, t: Vm, d: nat)
    requires Alone(im, s) && s.boot in s.spaces && t.spaces == s.spaces + {d}
    requires forall e, x: nat :: e in s.spaces && x < TOP ==> Walk(t.mem, e, x) == Walk(s.mem, e, x)
    requires forall x: nat :: x < TOP ==> Walk(t.mem, d, x) == if Pde(x) >= KERNEL_PDE then Walk(s.mem, s.boot, x) else None
    ensures Alone(im, t)
  {
    hide Walk, Pde, OfImage;
    forall e, g, x: nat, y: nat | e in t.spaces && g in t.spaces && x < TOP && y < TOP && Share(t, e, x, g, y)
      ensures OfImage(im, Walk(t.mem, e, x).value.frame) || (x == y && (e == g || Pde(x) >= KERNEL_PDE))
    {
      var e', g' := if e == d then s.boot else e, if g == d then s.boot else g;
      assert Share(s, e', x, g', y);
    }
  }

  lemma SpaceIsolated(im: Image, s: Vm)
    requires VmInv(s) && Isolated(im, s) && LowFree(s.used) != {} && KernelFree(s)
    ensures NewSpace(s, 1).Ok? && Isolated(im, NewSpace(s, 1).value.0)
  {
    hide VmInv, LowFree, KernelFree, Owned, Alone, Walk, Pde, NewSpace, DirectoriesSame, At, Counted;
    InvRecursive(s);
    var t, d := NewSpaceExact(s, 1);
    SpaceOwned(im, s, t, d);
    SpaceAlone(im, s, t, d);
  }

  // ---- What user code can reach ----

  /** What a directory entry lets through; an entry that is still to be made will let user code through. */
  predicate Open(e: Entry) { !e.present || e.user }

  /** Below the kernel part every entry of every directory is open, but for the two start-up tables'. */
  ghost predicate Opens(s: Vm) {
    forall d, i :: d in s.spaces && 0 <= i < KERNEL_PDE ==> (Open(At(s.mem, d)[i]) <==> !(d == s.boot && i < BOOT_TABLES))
  }

  lemma BootOpens(im: Image)
    ensures Opens(Boot(im))
  {
    hide BootDirectory, BootFrames, At, BootFrame;
    BootDirectoryAt(im);
    var s := Boot(im);
    assert s.spaces == {im.directory} && s.boot == im.directory;
  }

  lemma RightsOpen(s: Vm, t: Vm)
    requires Opens(s) && OthersSame(s, t) && t.spaces == s.spaces && t.boot == s.boot && t.cr3 == s.cr3
    requires forall j: nat :: j < KERNEL_PDE ==> PdeRights(t, j) == PdeRights(s, j)
    ensures Opens(t)
  {
    hide At;
    forall d, i | d in t.spaces && 0 <= i < KERNEL_PDE
      ensures Open(At(t.mem, d)[i]) <==> !(d == t.boot && i < BOOT_TABLES)
    {
      if d == s.cr3 {
        assert PdeRights(t, i) == PdeRights(s, i);
      }
    }
  }

  lemma AllocOpens(s: Vm, a: Option<nat>, n: nat, flags: Flags, c: bool)
    requires VmInv(s) && Opens(s) && Request(s, a, n, flags, c, 1)
    ensures Alloc(s, a, n, flags, c, 1).Ok? && Opens(Alloc(s, a, n, flags, c, 1).value.0)
  {
    hide VmInv, Place, Room, LowRun, HasTables, Mapped, MapFresh, MapContiguous, Reaches, HasTable, PdeRights, Opens, OthersSame, Spent,
      Counted, IsFirstFit, Taken, Walk;
    var place := Place(s, a, n, flags).value;
    if place.Some? {
      var v := place.value;
      if c {
        HasTablesReaches(s, v, n);
        var t, f := AllocContiguousExact(s, a, n, flags, 1, v);
        MappedCr3(s, t, v, Row(f, n), flags);
        RightsOpen(s, t);
      } else {
        var t, fs := AllocExact(s, a, n, flags, 1, v);
        MappedCr3(s, t, v, fs, flags);
        RightsOpen(s, t);
      }
    }
  }

  lemma FreeOpens(s: Vm, v: nat, n: nat)
    requires VmInv(s) && Opens(s) && FreeEnabled(s, v, n)
    ensures Free(s, v, n).Ok? && Opens(Free(s, v, n).value)
  {
    hide VmInv, Walk, HasTables, Free, SameTables, Wrapped, At;
    var t := FreeExact(s, v, n, Translate(s, v).value.frame);
  }

  lemma SpaceOpens(s: Vm)
    requires VmInv(s) && Opens(s) && LowFree(s.used) != {} && KernelFree(s)
    ensures NewSpace(s, 1).Ok? && Opens(NewSpace(s, 1).value.0)
  {
    hide VmInv, LowFree, KernelFree, Walk, NewSpace, At, Counted;
    InvRecursive(s);
    var t, d := NewSpaceExact(s, 1);
    assert d != s.boot;
  }

  lemma SwitchKeepsBoth(im: Image, s: Vm, d: nat)
    requires Opens(s)
    ensures Opens(Switch(s, d)) && (Isolated(im, s) ==> Isolated(im, Switch(s, d)))
  {
    hide At, Walk, OfImage;
    assert forall e, x, g, y :: Share(Switch(s, d), e, x, g, y) == Share(s, e, x, g, y);
  }

  // ---- Over every run ----

  lemma StepOpens(s: Vm, e: Event)
    requires VmInv(s) && Opens(s) && Enabled(s, e)
    ensures Step(s, e).Ok? && Opens(Step(s, e).value)
  {
    hide VmInv, Opens, Request, FreeEnabled, Alloc, Free, NewSpace, LowFree, KernelFree;
    match e
    case DoAlloc(a, n, flags, c) => AllocOpens(s, a, n, flags, c);
    case DoFree(v, n) => FreeOpens(s, v, n);
    case DoNewSpace => SpaceOpens(s);
    case DoSwitch(d) => SwitchKeepsBoth(Image(0, 0, 0, 0), s, d);
  }

  lemma {:induction false} RunOpens(im: Image, ss: seq<Vm>, es: seq<Event>, i: nat)
    requires ImageRight(im) && IsRun(im, ss, es) && i < |ss|
    ensures Opens(ss[i])
  {
    hide VmInv, Counted, Enabled, Step, ImageRight, Boot, Opens;
    if i == 0 {
      BootOpens(im);
    } else {
      RunKeeps(im, ss, es, i - 1);
      RunOpens(im, ss, es, i - 1);
      StepOpens(ss[i - 1], es[i - 1]);
    }
  }

  /** Every free of the run is safe where it happens. */
  ghost predicate SafeRun(ss: seq<Vm>, es: seq<Event>)
    requires |ss| == |es| + 1
  {
    forall i :: 0 <= i < |es| && es[i].DoFree? ==> Translate(ss[i], es[i].v).Some? && SafeFree(ss[i], es[i].v, es[i].n)
  }

  lemma StepIsolated(im: Image, s: Vm, e: Event)
    requires VmInv(s) && Isolated(im, s) && Opens(s) && Enabled(s, e)
    requires e.DoFree? ==> Translate(s, e.v).Some? && SafeFree(s, e.v, e.n)
    ensures Step(s, e).Ok? && Isolated(im, Step(s, e).value)
  {
    hide VmInv, Isolated, Opens, Request, FreeEnabled, Alloc, Free, NewSpace, LowFree, KernelFree, SafeFree, Walk;
    match e
    case DoAlloc(a, n, flags, c) => AllocIsolated(im, s, a, n, flags, c);
    case DoFree(v, n) => FreeIsolated(im, s, v, n);
    case DoNewSpace => SpaceIsolated(im, s);
    case DoSwitch(d) => SwitchKeepsBoth(im, s, d);
  }

  /** Over every run whose frees are safe: each translated frame is in use; outside the kernel image none is a
      directory or table, and none is reached from two pages, except for the kernel's pages, which all spaces share. */
  lemma {:induction false} RunIsolated(im: Image, ss: seq<Vm>, es: seq<Event>, i: nat)
    requires ImageRight(im) && IsRun(im, ss, es) && SafeRun(ss, es) && i < |ss|
    ensures Isolated(im, ss[i])
  {
    hide VmInv, Counted, Enabled, Step, ImageRight, Boot, Opens, Isolated, SafeFree, Walk;
    if i == 0 {
      BootIsolated(im);
    } else {
      RunKeeps(im, ss, es, i - 1);
      RunOpens(im, ss, es, i - 1);
      RunIsolated(im, ss, es, i - 1);
      StepIsolated(im, ss[i - 1], es[i - 1]);
    }
  }

  /** Where pages of an allocation went. */
  ghost predicate Went(s: Vm, e: Event, v: nat) {
    e.DoAlloc? && Place(s, e.address, e.n, e.flags) == Ok(Some(v)) && v + e.n <= TOP
  }

  /** In every reachable state: a page allocated for user code is open to user code exactly when it lies below the
      kernel part, and not under the start-up directory's first two tables. */
  lemma UserPages(im: Image, ss: seq<Vm>, es: seq<Event>, i: nat, v: nat, x: nat)
    requires ImageRight(im) && IsRun(im, ss, es) && i < |es| && Went(ss[i], es[i], v) && es[i].flags.user && v <= x < v + es[i].n
    ensures Translate(ss[i + 1], x).Some?
    ensures Translate(ss[i + 1], x).value.user <==>
      x < KERNEL_PDE * ENTRIES && !(ss[i].cr3 == ss[i].boot && x < BOOT_TABLES * ENTRIES)
  {
    hide VmInv, Counted, Enabled, Step, ImageRight, Boot, Opens, Walk, Place;
    RunKeeps(im, ss, es, i);
    RunOpens(im, ss, es, i);
    assert Enabled(ss[i], es[i]) && Step(ss[i], es[i]) == Ok(ss[i + 1]);
    var e := es[i];
    StepOfAlloc(ss[i], e);
    UserPage(ss[i], e.address, e.n, e.flags, e.contiguous, v, x);
  }

  lemma StepOfAlloc(s: Vm, e: Event)
    requires e.DoAlloc?
    ensures Enabled(s, e) <==> Request(s, e.address, e.n, e.flags, e.contiguous, 1)
    ensures Step(s, e).Ok? <==> Alloc(s, e.address, e.n, e.flags, e.contiguous, 1).Ok?
    ensures Step(s, e).Ok? ==> Step(s, e).value == Alloc(s, e.address, e.n, e.flags, e.contiguous, 1).value.0
  {
    hide Alloc, Request;
  }

  lemma UserPage(s: Vm, a: Option<nat>, n: nat, flags: Flags, c: bool, v: nat, x: nat)
    requires VmInv(s) && Opens(s) && Request(s, a, n, flags, c, 1) && Place(s, a, n, flags) == Ok(Some(v)) && flags.user
    requires v <= x < v + n <= TOP
    ensures Alloc(s, a, n, flags, c, 1).Ok?
    ensures var t := Alloc(s, a, n, flags, c, 1).value.0;
      Translate(t, x).Some? &&
      (Translate(t, x).value.user <==> x < KERNEL_PDE * ENTRIES && !(s.cr3 == s.boot && x < BOOT_TABLES * ENTRIES))
  {
    hide VmInv, Opens, Place, Room, LowRun, HasTables, MapFresh, MapContiguous, Reaches, HasTable, PdeRights, OthersSame, Spent, Counted,
      IsFirstFit, Taken, Walk, TablesFor, TablesAdded, Pde;
    InvRecursive(s);
    OpenRights(s, x);
    if c {
      HasTablesReaches(s, v, n);
      var t, f := AllocContiguousExact(s, a, n, flags, 1, v);
    } else {
      var t, fs := AllocExact(s, a, n, flags, 1, v);
    }
  }

  lemma OpenRights(s: Vm, x: nat)
    requires VmInv(s) && Opens(s) && x < TOP
    ensures PdeRights(s, Pde(x)).user <==> x < KERNEL_PDE * ENTRIES && !(s.cr3 == s.boot && x < BOOT_TABLES * ENTRIES)
  {
    hide At, TablesApart, TablesOwned, FramesRight;
    PageIndex(x, x);
    var i := Pde(x);
    if i < KERNEL_PDE {
      assert Open(At(s.mem, s.cr3)[i]) <==> !(s.cr3 == s.boot && i < BOOT_TABLES);
    } else {
      assert At(s.mem, s.cr3)[i] == At(s.mem, s.boot)[i];
    }
  }
}
