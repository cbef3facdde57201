/** Two-level page tables in physical memory, seen through the recursive directory entry, and the allocation
    of pages and page tables. Addresses are written as page numbers and physical addresses as frame numbers. */
module Paging {
  import opened Common
  import opened PageRuns
  import opened PhysicalMemories

  const ENTRIES: nat := 1024
  const RECURSIVE_ENTRY: nat := 1023
  const KERNEL_PDE: nat := 768
  const FIRST_PAGE: nat := 1
  const KERNEL_PAGE: nat := 0xC0100
  const LAST_PAGE: nat := 1022 * ENTRIES + 1023
  const AVAILABLE_PAGES_START: nat := 0x100

  /** A directory or table entry. Clearing `present` leaves the frame in place. */
  datatype Entry = Entry(present: bool, writable: bool, user: bool, frame: nat)

  const NO_ENTRY := Entry(false, false, false, 0)

  type Table = t: seq<Entry> | |t| == ENTRIES witness seq(ENTRIES, _ => NO_ENTRY)

  /** A frame full of zeros. */
  function Empty(): (t: Table)
    ensures forall i :: 0 <= i < ENTRIES ==> t[i] == NO_ENTRY
  {
    seq(ENTRIES, _ => NO_ENTRY)
  }

  datatype Flags = Flags(writable: bool, user: bool)

  /** `mem` holds what was written to frames used as directories or tables: any other frame reads as zero.
      `used` and `size` are the frame bitmap and the byte counter, `boot` the directory built at start-up.
      `spaces` and `tables` name the directories, and all frames that hold directories or tables. */
  datatype Vm = Vm(mem: map<nat, Table>, cr3: nat, used: set<nat>, size: nat, boot: nat, spaces: set<nat>, tables: set<nat>)

  function At(mem: map<nat, Table>, frame: nat): Table {
    if frame in mem then mem[frame] else Empty()
  }

  function Pde(v: nat): (i: nat)
    ensures i < ENTRIES
  {
    v / ENTRIES % ENTRIES
  }

  function Pte(v: nat): (i: nat)
    ensures i < ENTRIES
  {
    v % ENTRIES
  }

  /** What a page means to the processor: its frame, and what directory and table entry both allow. */
  datatype Page = Page(frame: nat, writable: bool, user: bool)

  /** The translation the processor makes with directory d. */
  function Walk(mem: map<nat, Table>, d: nat, v: nat): Option<Page> {
    var e := At(mem, d)[Pde(v)];
    if !e.present then None
    else
      var p := At(mem, e.frame)[Pte(v)];
      if p.present then Some(Page(p.frame, e.writable && p.writable, e.user && p.user)) else None
  }

  function Translate(s: Vm, v: nat): Option<Page> { Walk(s.mem, s.cr3, v) }

  // ---- Tables are reached through the recursive entry ----

  /** The page at which table i of the current directory can be read and written. */
  function Window(i: nat): nat { RECURSIVE_ENTRY * ENTRIES + i }

  /** The frame behind a page; without one the access is a page fault, which panics. */
  function Access(s: Vm, v: nat): Outcome<nat> {
    match Translate(s, v)
    case None => Panic
    case Some(p) => Ok(p.frame)
  }

  function TableFrame(s: Vm, i: nat): Outcome<nat> { Access(s, Window(i)) }

  function CheckPageTableExists(s: Vm, v: nat): Outcome<bool> {
    var d :- TableFrame(s, RECURSIVE_ENTRY);
    Ok(At(s.mem, d)[Pde(v)].present)
  }

  function CheckPagePresent(s: Vm, v: nat): Outcome<bool> {
    var exists_ :- CheckPageTableExists(s, v);
    if !exists_ then Ok(false)
    else
      var t :- TableFrame(s, Pde(v));
      Ok(At(s.mem, t)[Pte(v)].present)
  }

  function GetPhysicalPage(s: Vm, v: nat): Outcome<nat> {
    var t :- TableFrame(s, Pde(v));
    Ok(At(s.mem, t)[Pte(v)].frame)
  }

  function Write(s: Vm, frame: nat, i: nat, e: Entry): Vm
    requires i < ENTRIES
  {
    s.(mem := s.mem[frame := At(s.mem, frame)[i := e]])
  }

  /** The frame number is passed as a 16-bit value. */
  function Short(frame: nat): nat { frame % TWO16 }

  function MapPage(s: Vm, v: nat, frame: nat, flags: Flags): Outcome<Vm> {
    var t :- TableFrame(s, Pde(v));
    Ok(Write(s, t, Pte(v), Entry(true, flags.writable, flags.user, Short(frame))))
  }

  function UnmapPage(s: Vm, v: nat): Outcome<Vm> {
    var t :- TableFrame(s, Pde(v));
    Ok(Write(s, t, Pte(v), At(s.mem, t)[Pte(v)].(present := false)))
  }

  function UnmapPages(s: Vm, v: nat, n: nat): Outcome<Vm>
    decreases n
  {
    if n == 0 then Ok(s)
    else
      var s1 :- UnmapPages(s, v, n - 1);
      UnmapPage(s1, v + n - 1)
  }

  /** map_page_table, given the page at which the new table was last mapped. */
  function MapPageTable(s: Vm, v: nat, page: nat): Outcome<Vm> {
    var f :- GetPhysicalPage(s, page);
    var d :- TableFrame(s, RECURSIVE_ENTRY);
    Ok(Write(s, d, Pde(v), Entry(true, true, true, Short(f))).(tables := s.tables + {Short(f)}))
  }

  // ---- Allocation ----

  ghost function AllocFrames(s: Vm, n: nat): Outcome<(Vm, nat)> {
    match Search(s.used, AVAILABLE_PAGES_START, FRAMES, n)
    case None => Panic
    case Some(f) => Ok((s.(used := s.used + Range(f, n), size := Wrapped(s.size, n)), f))
  }

  ghost function Presents(s: Vm, lo: nat, hi: nat): set<nat> {
    set v: nat | lo <= v < hi && CheckPagePresent(s, v) == Ok(true)
  }

  /** check_free_pages */
  function CheckFreePages(s: Vm, v: nat, n: nat): Outcome<bool>
    decreases n
  {
    if n == 0 then Ok(true)
    else
      var rest :- CheckFreePages(s, v, n - 1);
      if !rest then Ok(false)
      else
        var p :- CheckPagePresent(s, v + n - 1);
        Ok(!p)
  }

  /** Where the pages go: at the address asked for if all of it is free, else nowhere; without an address, at
      the lowest fit of the user or the kernel part. */
  ghost function Place(s: Vm, address: Option<nat>, n: nat, flags: Flags): Outcome<Option<nat>> {
    match address
    case Some(a) =>
      var free :- CheckFreePages(s, a, n);
      Ok(if free then Some(a) else None)
    case None =>
      var lo, hi := if flags.user then FIRST_PAGE else KERNEL_PAGE, if flags.user then KERNEL_PAGE else LAST_PAGE;
      match Search(Presents(s, lo, hi), lo, hi, n)
      case None => Panic
      case Some(v) => Ok(Some(v))
  }

  /** _alloc_no_lock. `fuel` bounds how deep allocating a page may go on to allocate page tables. */
  ghost function Alloc(s: Vm, address: Option<nat>, n: nat, flags: Flags, contiguous: bool, fuel: nat): Outcome<(Vm, Option<nat>)>
    decreases fuel, 4, 0
  {
    var place :- Place(s, address, n, flags);
    match place
    case None => Ok((s, None))
    case Some(v) =>
      var t :- if contiguous then MapContiguous(s, v, n, flags, fuel) else MapFresh(s, v, n, flags, fuel);
      Ok((t, Some(v)))
  }

  ghost function MapContiguous(s: Vm, v: nat, n: nat, flags: Flags, fuel: nat): Outcome<Vm>
    decreases fuel, 3, n
  {
    var r :- AllocFrames(s, n);
    MapPages(r.0, v, r.1, n, flags, fuel)
  }

  /** The loop that gives each page a frame of its own. */
  ghost function MapFresh(s: Vm, v: nat, n: nat, flags: Flags, fuel: nat): Outcome<Vm>
    decreases fuel, 3, n
  {
    if n == 0 then Ok(s)
    else
      var s1 :- MapFresh(s, v, n - 1, flags, fuel);
      var r :- AllocFrames(s1, 1);
      MapPages(r.0, v + n - 1, r.1, 1, flags, fuel)
  }

  /** VirtualMemory::map_pages: every turn looks at the table of the first page only. */
  ghost function MapPages(s: Vm, v: nat, frame: nat, n: nat, flags: Flags, fuel: nat): Outcome<Vm>
    decreases fuel, 2, n
  {
    if n == 0 then Ok(s)
    else
      var s1 :- MapPages(s, v, frame, n - 1, flags, fuel);
      var s2 :- EnsureTable(s1, v, fuel);
      MapPage(s2, v + n - 1, frame + n - 1, flags)
  }

  /** A missing table is allocated as a kernel page, unmapped again, and entered into the directory. */
  ghost function EnsureTable(s: Vm, v: nat, fuel: nat): Outcome<Vm>
    decreases fuel, 1, 0
  {
    var there :- CheckPageTableExists(s, v);
    if there then Ok(s)
    else if fuel == 0 then Panic
    else
      var r :- Alloc(s, None, 1, Flags(true, false), false, fuel - 1);
      if r.1.None? then Panic
      else
        var s1 :- UnmapPage(r.0, r.1.value);
        MapPageTable(s1, v, r.1.value)
  }

  /** _free_no_lock: the frames given back are the ones that follow the first page's frame. */
  ghost function Free(s: Vm, v: nat, n: nat): Outcome<Vm> {
    var f :- GetPhysicalPage(s, v);
    UnmapPages(s.(used := s.used - Range(f, n), size := Wrapped(s.size, 0 - n)), v, n)
  }

  /** The directory entries map_kernel_pd_entries writes: the kernel's from the start-up directory, and itself. */
  function NewEntry(s: Vm, frame: nat, i: nat): Entry
    requires i < ENTRIES
  {
    if i == RECURSIVE_ENTRY then Entry(true, true, false, Short(frame))
    else if Pde(KERNEL_PAGE) <= i then At(s.mem, s.boot)[i]
    else NO_ENTRY
  }

  function NewDirectory(s: Vm, frame: nat): (t: Table)
    ensures forall i :: 0 <= i < ENTRIES ==> t[i] == NewEntry(s, frame, i)
  {
    seq(ENTRIES, i requires 0 <= i < ENTRIES => NewEntry(s, frame, i))
  }

  /** create_new_virtual_space */
  ghost function NewSpace(s: Vm, fuel: nat): Outcome<(Vm, nat)> {
    var r :- Alloc(s, None, 1, Flags(true, false), false, fuel);
    if r.1.None? then Panic
    else
      var page := r.1.value;
      var f :- GetPhysicalPage(r.0, page);
      var at :- Access(r.0, page);
      var s1 := r.0.(mem := r.0.mem[at := NewDirectory(r.0, f)]);
      var s2 :- UnmapPage(s1, page);
      var g :- GetPhysicalPage(s2, page);
      Ok((s2.(spaces := s2.spaces + {g}, tables := s2.tables + {g}), g))
  }

  ghost function Switch(s: Vm, d: nat): Vm { s.(cr3 := d) }
}
