/** Processes, the handles through which processes refer to each other, and when a process is freed. */
module Processes {
  import opened Common
  import Bitmaps

  /** A process description: the handle number it was opened under and the process it refers to. */
  datatype Description = Description(handle: nat, target: nat)

  datatype HandleType = Invalid | FileDescription | ProcessDescription

  /** A process object; `table` is the process description table of its handles manager. */
  datatype Process = Process(pid: nat, zombie: bool, refs: nat, handles: seq<HandleType>, table: seq<Description>)

  /** `procs` are the process objects in memory, under names that are never reused; `list` is the list of
      processes and `pids` the id bitmap. `freed` records the destroyed processes in order. */
  datatype State = State(procs: map<nat, Process>, list: seq<nat>, pids: set<nat>, next: nat, freed: seq<nat>)

  // ---- Destruction ----

  /** descriptor_dereferenced, run by the destructor of a process description. */
  function Dereference(s: State, q: nat): (r: Outcome<State>)
    ensures r.Ok? ==> |r.value.procs| <= |s.procs|
    decreases |s.procs|, 0, 1
  {
    if q !in s.procs || s.procs[q].refs == 0 then Panic
    else
      var p := s.procs[q];
      var s1 := s.(procs := s.procs[q := p.(refs := p.refs - 1)]);
      assert s1.procs.Keys == s.procs.Keys;
      if p.zombie && p.refs == 1 then Cleanup(s1, q) else Ok(s1)
  }

  /** The memory after q left the list and gave its id back, with its descriptions still to be destroyed. */
  function Detached(s: State, q: nat): (r: State)
    requires q in s.procs && q in s.list
    ensures |r.procs| < |s.procs|
  {
    assert (s.procs - {q}).Keys == s.procs.Keys - {q};
    State(s.procs - {q}, Without(s.list, q), s.pids - {s.procs[q].pid}, s.next, s.freed + [q])
  }

  /** cleanup: the process leaves the list and is destroyed, and so are its descriptions, in table order. */
  function Cleanup(s: State, q: nat): (r: Outcome<State>)
    requires q in s.procs
    ensures r.Ok? ==> |r.value.procs| <= |s.procs|
    decreases |s.procs|, 0, 0
  {
    if q !in s.list || s.procs[q].pid !in s.pids then Panic
    else DropAll(Detached(s, q), s.procs[q].table)
  }

  function DropAll(s: State, ds: seq<Description>): (r: Outcome<State>)
    ensures r.Ok? ==> |r.value.procs| <= |s.procs|
    decreases |s.procs|, |ds| + 1, 0
  {
    if ds == [] then Ok(s)
    else
      var s1 :- Dereference(s, ds[0].target);
      DropAll(s1, ds[1..])
  }

  // ---- What the system calls do ----

  const ID_COUNT: nat := Bitmaps.ID_COUNT

  /** The lowest id from i on that no process has. */
  function LowestFree(pids: set<nat>, i: nat): (r: nat)
    requires i <= ID_COUNT
    ensures i <= r <= ID_COUNT && (forall j :: i <= j < r ==> j in pids) && (r < ID_COUNT ==> r !in pids)
    decreases ID_COUNT - i
  {
    if i == ID_COUNT || i !in pids then i else LowestFree(pids, i + 1)
  }

  function Create(s: State): State {
    var pid := LowestFree(s.pids, 0);
    State(s.procs[s.next := Process(pid, false, 0, [], [])], s.list + [s.next], s.pids + {pid}, s.next + 1, s.freed)
  }

  /** get_process_from_pid: the first process of the list with that id. */
  function Lookup(procs: map<nat, Process>, list: seq<nat>, pid: nat): (r: Option<nat>)
    ensures r.Some? ==> r.value in list && r.value in procs && procs[r.value].pid == pid
    ensures r.None? ==> forall q :: q in list && q in procs ==> procs[q].pid != pid
  {
    if list == [] then None
    else if list[0] in procs && procs[list[0]].pid == pid then Some(list[0])
    else Lookup(procs, list[1..], pid)
  }

  /** Process `p` gets a handle of the given type; a process description also goes to its table. */
  function AddHandle(p: Process, target: Option<nat>): Process {
    match target
    case None => p.(handles := p.handles + [FileDescription])
    case Some(q) =>
      p.(handles := p.handles + [ProcessDescription], table := p.table + [Description(|p.handles|, q)])
  }

  /** descriptor_referenced, run by the constructor of a process description. */
  function Referenced(s: State, q: nat): State
    requires q in s.procs
  {
    s.(procs := s.procs[q := s.procs[q].(refs := s.procs[q].refs + 1)])
  }

  function Handed(s: State, p: nat, target: Option<nat>): State
    requires p in s.procs
  {
    s.(procs := s.procs[p := AddHandle(s.procs[p], target)])
  }

  function CheckHandle(p: Process, handle: nat): HandleType {
    if handle >= |p.handles| then Invalid else p.handles[handle]
  }

  /** The table without the description opened under the handle. */
  function Dropped(table: seq<Description>, handle: nat): seq<Description> {
    if table == [] then []
    else if table[0].handle == handle then Dropped(table[1..], handle)
    else [table[0]] + Dropped(table[1..], handle)
  }

  function Picked(table: seq<Description>, handle: nat): seq<Description> {
    if table == [] then []
    else if table[0].handle == handle then [table[0]] + Picked(table[1..], handle)
    else Picked(table[1..], handle)
  }

  /** CloseHandle on a handle in use: the description leaves the table and is destroyed, then the entry is invalid. */
  function Close(s: State, p: nat, handle: nat): Outcome<State>
    requires p in s.procs && CheckHandle(s.procs[p], handle) != Invalid
  {
    var was := s.procs[p];
    var s1 :- if was.handles[handle].FileDescription? then Ok(s)
              else DropAll(s.(procs := s.procs[p := was.(table := Dropped(was.table, handle))]), Picked(was.table, handle));
    if p !in s1.procs || |s1.procs[p].handles| <= handle then Panic
    else Ok(s1.(procs := s1.procs[p := s1.procs[p].(handles := s1.procs[p].handles[handle := Invalid])]))
  }

  function Terminate(s: State, p: nat): Outcome<State>
    requires p in s.procs
  {
    if s.procs[p].zombie then Panic
    else
      var s1 := s.(procs := s.procs[p := s.procs[p].(zombie := true)]);
      if s.procs[p].refs == 0 then Cleanup(s1, p) else Ok(s1)
  }

  datatype Event =
    | DoCreate
    | DoOpen(opener: nat, pid: nat)
    | DoOpenFile(opener: nat)
    | DoClose(closer: nat, handle: nat)
    | DoTerminate(victim: nat)

  /** System calls come from processes that have not ended; new processes while fewer than 65535 exist. */
  predicate Enabled(s: State, e: Event) {
    match e
    case DoCreate => LowestFree(s.pids, 0) < ID_COUNT
    case DoOpen(p, _) => p in s.procs && !s.procs[p].zombie
    case DoOpenFile(p) => p in s.procs && !s.procs[p].zombie
    case DoClose(p, _) => p in s.procs && !s.procs[p].zombie
    case DoTerminate(p) => p in s.procs
  }

  function Step(s: State, e: Event): Outcome<State>
    requires Enabled(s, e)
  {
    match e
    case DoCreate => Ok(Create(s))
    case DoOpen(p, pid) =>
      (match Lookup(s.procs, s.list, pid)
       case None => Ok(s)
       case Some(q) => Ok(Handed(Referenced(s, q), p, Some(q))))
    case DoOpenFile(p) => Ok(Handed(s, p, None))
    case DoClose(p, h) => if CheckHandle(s.procs[p], h) == Invalid then Ok(s) else Close(s, p, h)
    case DoTerminate(p) => Terminate(s, p)
  }
}
