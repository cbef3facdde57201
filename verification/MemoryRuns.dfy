/** Memory from start-up on: allocating, freeing, new spaces and switching between them, in any order. */
module MemoryRuns {
  import opened Common
  import opened PageRuns
  import opened PhysicalMemories
  import opened Paging
  import opened VirtualMemories
  import opened MemoryTheorems
  import opened MemoryRegions
  import opened MemorySpaces

  // ---- Start-up ----

  const KERNEL_TABLES: nat := ENTRIES - KERNEL_PDE
  const BOOT_TABLES: nat := 2

  /** The kernel image: its size in pages, and the frames of the directory and of the two arrays of tables in it. */
  datatype Image = Image(pages: nat, directory: nat, kernelTables: nat, bootTables: nat)

  predicate InImage(im: Image, f: nat, n: nat) {
    AVAILABLE_PAGES_START <= f && f + n <= AVAILABLE_PAGES_START + im.pages
  }

  /** The image fits the memory the two start-up tables can map, and its parts do not overlap. */
  predicate ImageRight(im: Image) {
    AVAILABLE_PAGES_START + im.pages <= BOOT_TABLES * ENTRIES &&
    InImage(im, im.directory, 1) && InImage(im, im.kernelTables, KERNEL_TABLES) && InImage(im, im.bootTables, BOOT_TABLES) &&
    !(im.kernelTables <= im.directory < im.kernelTables + KERNEL_TABLES) &&
    !(im.bootTables <= im.directory < im.bootTables + BOOT_TABLES) &&
    (im.bootTables + BOOT_TABLES <= im.kernelTables || im.kernelTables + KERNEL_TABLES <= im.bootTables)
  }

  /** setup_page_tables */
  function BootDirectoryEntry(im: Image, i: nat): Entry {
    if i == RECURSIVE_ENTRY then Entry(true, true, false, im.directory)
    else if KERNEL_PDE <= i < RECURSIVE_ENTRY then Entry(true, true, false, im.kernelTables + i - KERNEL_PDE)
    else if i < BOOT_TABLES then Entry(true, true, false, im.bootTables + i)
    else NO_ENTRY
  }

  /** The two calls of map_boot_pages: the image where it is, and from KERNEL_PAGE on. */
  function BootPage(im: Image, v: nat): Entry {
    if AVAILABLE_PAGES_START <= v < AVAILABLE_PAGES_START + im.pages then Entry(true, true, false, v)
    else if KERNEL_PAGE <= v < KERNEL_PAGE + im.pages then Entry(true, true, false, v - KERNEL_PAGE + AVAILABLE_PAGES_START)
    else NO_ENTRY
  }

  function BootDirectory(im: Image): (t: Table)
    ensures forall i :: 0 <= i < ENTRIES ==> t[i] == BootDirectoryEntry(im, i)
  {
    seq(ENTRIES, i requires 0 <= i < ENTRIES => BootDirectoryEntry(im, i))
  }

  function BootTableEntry(im: Image, pde: nat, i: nat): Entry { BootPage(im, pde * ENTRIES + i) }

  function BootTable(im: Image, pde: nat): (t: Table)
    ensures forall i :: 0 <= i < ENTRIES ==> t[i] == BootTableEntry(im, pde, i)
  {
    seq(ENTRIES, i requires 0 <= i < ENTRIES => BootTableEntry(im, pde, i))
  }

  ghost function BootFrames(im: Image): set<nat> {
    {im.directory} + Range(im.kernelTables, KERNEL_TABLES) + Range(im.bootTables, BOOT_TABLES)
  }

  function BootFrame(im: Image, f: nat): Table {
    if f == im.directory then BootDirectory(im)
    else if im.kernelTables <= f < im.kernelTables + KERNEL_TABLES then BootTable(im, KERNEL_PDE + f - im.kernelTables)
    else if im.bootTables <= f then BootTable(im, f - im.bootTables)
    else Empty()
  }

  /** Memory::setup */
  ghost function Boot(im: Image): Vm {
    Vm(map f | f in BootFrames(im) :: BootFrame(im, f), im.directory, Range(AVAILABLE_PAGES_START, im.pages),
       Wrapped(0, im.pages), im.directory, {im.directory}, BootFrames(im))
  }

  lemma BootEntry(im: Image, i: nat)
    requires ImageRight(im) && i < RECURSIVE_ENTRY && BootDirectoryEntry(im, i).present
    ensures BootDirectoryEntry(im, i).frame in BootFrames(im) && BootDirectoryEntry(im, i).frame != im.directory
  {
  }

  lemma BootEntriesDiffer(im: Image, i: nat, j: nat)
    requires ImageRight(im) && i < RECURSIVE_ENTRY && j < RECURSIVE_ENTRY
    requires BootDirectoryEntry(im, i).present && BootDirectoryEntry(im, j).present
    requires BootDirectoryEntry(im, i).frame == BootDirectoryEntry(im, j).frame
    ensures i == j
  {
  }

  lemma BootApart(im: Image)
    requires ImageRight(im)
    ensures TablesApart(Boot(im)) && TablesOwned(Boot(im))
  {
    var s := Boot(im);
    assert s.spaces == {im.directory} && s.tables == BootFrames(im);
    hide Boot, BootDirectory, BootDirectoryEntry, BootFrames, At, ImageRight;
    BootDirectoryAt(im);
    forall d, e, i: nat, j: nat | d in s.spaces && e in s.spaces && SameTable(s, d, i, e, j)
      ensures i == j && d == e
    {
      BootEntriesDiffer(im, i, j);
    }
    forall i: nat | i < RECURSIVE_ENTRY && At(s.mem, im.directory)[i].present
      ensures At(s.mem, im.directory)[i].frame in s.tables && At(s.mem, im.directory)[i].frame !in s.spaces
    {
      BootEntry(im, i);
    }
  }

  lemma BootFramesRight(im: Image)
    requires ImageRight(im)
    ensures FramesRight(Boot(im)) && Counted(Boot(im))
  {
    hide BootFrame, Wrapped;
    assert BootFrames(im) <= Range(AVAILABLE_PAGES_START, im.pages);
  }

  lemma BootShared(im: Image)
    ensures Recursive(Boot(im)) && KernelShared(Boot(im))
  {
    BootDirectoryAt(im);
    var s := Boot(im);
    assert s.spaces == {im.directory} && s.cr3 == s.boot == im.directory && im.directory in s.tables;
    hide BootDirectory, At, BootFrames, BootFrame;
  }

  lemma BootInv(im: Image)
    requires ImageRight(im)
    ensures VmInv(Boot(im)) && Counted(Boot(im))
  {
    hide Boot, ImageRight, TablesApart, TablesOwned, FramesRight, Counted, Recursive, KernelShared;
    BootApart(im);
    BootFramesRight(im);
    BootShared(im);
  }

  lemma BootTableAt(im: Image, i: nat)
    requires ImageRight(im) && i < RECURSIVE_ENTRY && BootDirectoryEntry(im, i).present
    ensures At(Boot(im).mem, BootDirectoryEntry(im, i).frame) == BootTable(im, i)
  {
    hide BootTable, BootDirectory;
    BootEntry(im, i);
    BootFrameIs(im, i);
    hide BootFrame, BootFrames, BootDirectoryEntry;
  }

  lemma BootFrameIs(im: Image, i: nat)
    requires ImageRight(im) && i < RECURSIVE_ENTRY && BootDirectoryEntry(im, i).present
    ensures BootFrame(im, BootDirectoryEntry(im, i).frame) == BootTable(im, i)
  {
    hide BootTable, BootDirectory, BootFrames;
  }

  lemma BootUntouched(im: Image, v: nat)
    requires ImageRight(im) && v < TOP && !BootDirectoryEntry(im, v / ENTRIES).present
    ensures BootPage(im, v) == NO_ENTRY
  {
  }

  lemma BootDirectoryAt(im: Image)
    ensures At(Boot(im).mem, im.directory) == BootDirectory(im)
  {
    hide BootDirectory;
    assert im.directory in BootFrames(im);
  }

  /** After start-up the i-th page of the image is found where it is and i pages after KERNEL_PAGE, writable and closed
      to user code, and nothing else is. */
  lemma BootTranslate(im: Image, v: nat)
    requires ImageRight(im) && v < TOP
    ensures Translate(Boot(im), v) ==
      if 0x100 <= v < 0x100 + im.pages then Some(Page(v, true, false))
      else if 0xC0100 <= v < 0xC0100 + im.pages then Some(Page(0x100 + (v - 0xC0100), true, false))
      else None
  {
    hide Boot, ImageRight, BootPage, BootDirectoryEntry;
    BootTarget(im, v);
    BootTargetExact(im, v);
  }

  lemma BootTargetExact(im: Image, v: nat)
    requires ImageRight(im) && v < TOP
    ensures Target(BootDirectoryEntry(im, Pde(v)), BootPage(im, v)) ==
      if 0x100 <= v < 0x100 + im.pages then Some(Page(v, true, false))
      else if 0xC0100 <= v < 0xC0100 + im.pages then Some(Page(0x100 + (v - 0xC0100), true, false))
      else None
  {
    PageIndex(v, v);
  }

  lemma BootTarget(im: Image, v: nat)
    requires ImageRight(im) && v < TOP
    ensures Translate(Boot(im), v) == Target(BootDirectoryEntry(im, Pde(v)), BootPage(im, v))
  {
    hide Boot, BootDirectory, BootTable, BootPage, BootDirectoryEntry, At, ImageRight;
    PageIndex(v, v);
    BootDirectoryAt(im);
    BootStart(im);
    assert v == Pde(v) * ENTRIES + Pte(v);
    assert BootTableEntry(im, Pde(v), Pte(v)) == BootPage(im, v);
    hide Pde, Pte, BootTableEntry;
    if BootDirectoryEntry(im, Pde(v)).present {
      BootTableAt(im, Pde(v));
    } else {
      BootUntouched(im, v);
    }
  }

  lemma BootStart(im: Image)
    ensures Boot(im).cr3 == im.directory
  {
  }

  // ---- Runs ----

  datatype Event =
    | DoAlloc(address: Option<nat>, n: nat, flags: Flags, contiguous: bool)
    | DoFree(v: nat, n: nat)
    | DoNewSpace
    | DoSwitch(d: nat)

  /** The pages have tables, the first one is present, and the frames that will be given back are in use and hold no
      tables. Nothing says that they are the frames of these pages. */
  ghost predicate FreeEnabled(s: Vm, v: nat, n: nat) {
    n > 0 && v + n <= TOP && HasTables(s, v, n) && Translate(s, v).Some? &&
    Range(Translate(s, v).value.frame, n) <= s.used && Range(Translate(s, v).value.frame, n) !! s.tables
  }

  ghost predicate Enabled(s: Vm, e: Event) {
    match e
    case DoAlloc(a, n, flags, c) => Request(s, a, n, flags, c, 1)
    case DoFree(v, n) => FreeEnabled(s, v, n)
    case DoNewSpace => LowFree(s.used) != {} && KernelFree(s)
    case DoSwitch(d) => d in s.spaces
  }

  ghost function Step(s: Vm, e: Event): Outcome<Vm> {
    match e
    case DoAlloc(a, n, flags, c) =>
      var r :- Alloc(s, a, n, flags, c, 1);
      Ok(r.0)
    case DoFree(v, n) => Free(s, v, n)
    case DoNewSpace =>
      var r :- NewSpace(s, 1);
      Ok(r.0)
    case DoSwitch(d) => Ok(Switch(s, d))
  }

  lemma AllocKeeps(s: Vm, a: Option<nat>, n: nat, flags: Flags, c: bool)
    requires VmInv(s) && Counted(s) && Request(s, a, n, flags, c, 1)
    ensures Alloc(s, a, n, flags, c, 1).Ok? && VmInv(Alloc(s, a, n, flags, c, 1).value.0) && Counted(Alloc(s, a, n, flags, c, 1).value.0)
  {
    hide VmInv, Counted, Place, Room, LowRun, HasTables, Mapped, Taken, TablesFor, TablesAdded, MapFresh, MapContiguous, Reaches, HasTable;
    var place := Place(s, a, n, flags).value;
    if place.Some? {
      var v := place.value;
      if c {
        HasTablesReaches(s, v, n);
        var t, f := AllocContiguousExact(s, a, n, flags, 1, v);
      } else {
        var t, fs := AllocExact(s, a, n, flags, 1, v);
      }
    }
  }

  lemma FreeKeeps(s: Vm, v: nat, n: nat)
    requires VmInv(s) && Counted(s) && FreeEnabled(s, v, n)
    ensures Free(s, v, n).Ok? && VmInv(Free(s, v, n).value) && Counted(Free(s, v, n).value)
  {
    hide VmInv, HasTables, Translate, Free, Unmapped, SameTables, Wrapped;
    var f := Translate(s, v).value.frame;
    var t := FreeExact(s, v, n, f);
    FewerUsed(s.used, Range(f, n));
    WrappedTwice(|s.used|, 0 - n);
  }

  lemma FewerUsed(used: set<nat>, gone: set<nat>)
    requires gone <= used
    ensures |used - gone| == |used| - |gone|
  {
    assert used == (used - gone) + gone;
  }

  lemma SwitchKeeps(s: Vm, d: nat)
    requires VmInv(s) && d in s.spaces
    ensures VmInv(Switch(s, d)) && Counted(Switch(s, d)) == Counted(s)
    ensures forall v: nat :: Translate(Switch(s, d), v) == Walk(s.mem, d, v)
  {
    hide At;
    SameDirectories(s, Switch(s, d));
  }

  lemma StepKeeps(s: Vm, e: Event)
    requires VmInv(s) && Counted(s) && Enabled(s, e)
    ensures Step(s, e).Ok? && VmInv(Step(s, e).value) && Counted(Step(s, e).value)
  {
    hide VmInv, Counted, Request, FreeEnabled, Alloc, Free, NewSpace, LowFree, KernelFree, Walk, Pde;
    match e
    case DoAlloc(a, n, flags, c) => AllocKeeps(s, a, n, flags, c);
    case DoFree(v, n) => FreeKeeps(s, v, n);
    case DoNewSpace => var t, d := NewSpaceExact(s, 1);
    case DoSwitch(d) => SwitchKeeps(s, d);
  }

  ghost predicate IsRun(im: Image, ss: seq<Vm>, es: seq<Event>) {
    |ss| == |es| + 1 && ss[0] == Boot(im) &&
    forall i :: 0 <= i < |es| ==> Enabled(ss[i], es[i]) && Step(ss[i], es[i]) == Ok(ss[i + 1])
  }

  lemma {:induction false} RunKeeps(im: Image, ss: seq<Vm>, es: seq<Event>, i: nat)
    requires ImageRight(im) && IsRun(im, ss, es) && i < |ss|
    ensures VmInv(ss[i]) && Counted(ss[i])
  {
    hide VmInv, Counted, Enabled, Step, ImageRight, Boot;
    if i == 0 {
      BootInv(im);
    } else {
      RunKeeps(im, ss, es, i - 1);
      StepKeeps(ss[i - 1], es[i - 1]);
    }
  }

  /** In every reachable state the directory entries from the kernel base up to the recursive one are present and
      the same in all spaces, so a kernel page has one meaning, and never one that lets user code in; neither do the
      pages through which the kernel sees its page tables; and the counter is the frames in use. */
  lemma SpacesAgree(im: Image, ss: seq<Vm>, es: seq<Event>, i: nat, d: nat, e: nat)
    requires ImageRight(im) && IsRun(im, ss, es) && i < |ss| && d in ss[i].spaces && e in ss[i].spaces
    ensures forall j :: KERNEL_PDE <= j < RECURSIVE_ENTRY ==>
      At(ss[i].mem, d)[j].present && At(ss[i].mem, d)[j] == At(ss[i].mem, e)[j]
    ensures forall v: nat :: KERNEL_PDE * ENTRIES <= v < TOP ==>
      Walk(ss[i].mem, d, v) == Walk(ss[i].mem, e, v) && (Walk(ss[i].mem, d, v).Some? ==> !Walk(ss[i].mem, d, v).value.user)
    ensures forall v: nat :: TOP <= v < 0x10_0000 ==> Walk(ss[i].mem, d, v).Some? ==> !Walk(ss[i].mem, d, v).value.user
    ensures ss[i].size == PAGE_SIZE * |ss[i].used| % TWO32
  {
    hide IsRun, ImageRight, VmInv, Walk, At, Boot;
    RunKeeps(im, ss, es, i);
    EntriesAgree(ss[i], d, e);
    forall v: nat | KERNEL_PDE * ENTRIES <= v < TOP
      ensures Walk(ss[i].mem, d, v) == Walk(ss[i].mem, e, v) && (Walk(ss[i].mem, d, v).Some? ==> !Walk(ss[i].mem, d, v).value.user)
    {
      PageIndex(v, v);
      KernelSame(ss[i], d, e, v);
      KernelClosed(ss[i], d, v);
    }
    forall v: nat | TOP <= v < 0x10_0000
      ensures Walk(ss[i].mem, d, v).Some? ==> !Walk(ss[i].mem, d, v).value.user
    {
      WindowClosed(ss[i], d, v);
    }
  }

  lemma WindowClosed(s: Vm, d: nat, v: nat)
    requires VmInv(s) && d in s.spaces && TOP <= v < 0x10_0000
    ensures Walk(s.mem, d, v).Some? ==> !Walk(s.mem, d, v).value.user
  {
    hide At, TablesOwned, TablesApart, FramesRight, KernelShared;
    assert Pde(v) == RECURSIVE_ENTRY;
  }

  lemma KernelClosed(s: Vm, d: nat, v: nat)
    requires VmInv(s) && d in s.spaces && KERNEL_PDE <= Pde(v) < RECURSIVE_ENTRY
    ensures Walk(s.mem, d, v).Some? ==> !Walk(s.mem, d, v).value.user
  {
    hide At, Pde, Pte, TablesOwned, TablesApart, FramesRight, Recursive;
    assert At(s.mem, d)[Pde(v)] == At(s.mem, s.boot)[Pde(v)] && !At(s.mem, d)[Pde(v)].user;
  }

  lemma EntriesAgree(s: Vm, d: nat, e: nat)
    requires VmInv(s) && d in s.spaces && e in s.spaces
    ensures forall j :: KERNEL_PDE <= j < RECURSIVE_ENTRY ==> At(s.mem, d)[j].present && At(s.mem, d)[j] == At(s.mem, e)[j]
  {
    hide At, TablesOwned, TablesApart, FramesRight, Recursive;
    forall j | KERNEL_PDE <= j < RECURSIVE_ENTRY
      ensures At(s.mem, d)[j].present && At(s.mem, d)[j] == At(s.mem, e)[j]
    {
      assert At(s.mem, d)[j] == At(s.mem, s.boot)[j] == At(s.mem, e)[j];
    }
  }
}
