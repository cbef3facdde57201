/** What each system call does to processes, handles and counts, told field by field, at every step of every run. */
module ProcessEffects {
  import opened Common
  import opened Processes
  import opened ProcessLifetime
  import opened ProcessTheorems

  // ---- Creating and opening ----

  ghost predicate IdTaken(s: State, id: nat) { exists r :: r in s.procs && s.procs[r].pid == id }

  /** A new process goes to the end of the list, with the lowest id that no process has and with no handles. */
  lemma CreateExact(ss: seq<State>, es: seq<Event>, i: nat)
    requires IsRun(ss, es) && i < |es| && es[i].DoCreate?
    ensures var s, t := ss[i], ss[i + 1];
      s.next !in s.procs && t.procs.Keys == s.procs.Keys + {s.next} && (forall r :: r in s.procs ==> t.procs[r] == s.procs[r]) &&
      t.list == s.list + [s.next] && t.next == s.next + 1 && t.freed == s.freed &&
      var p := t.procs[s.next];
      !p.zombie && p.refs == 0 && p.handles == [] && p.table == [] && t.pids == s.pids + {p.pid} && p.pid < 0xFFFF &&
      !IdTaken(s, p.pid) && forall id: nat :: id < p.pid ==> IdTaken(s, id)
  {
    hide Good, LowestFree;
    var s := ss[i];
    RunGood(ss, es, i);
    assert Step(s, DoCreate) == Ok(ss[i + 1]);
    GoodIds(s);
  }

  lemma GoodIds(s: State)
    requires Good(s)
    ensures s.next !in s.procs
    ensures forall r :: r in s.procs ==> s.procs[r].pid in s.pids
    ensures forall id :: id in s.pids ==> IdTaken(s, id)
    ensures forall p, q :: p in s.procs && q in s.procs && s.procs[p].pid == s.procs[q].pid ==> p == q
    ensures forall q :: q in s.list <==> q in s.procs
  {
    hide CountsRight, NoneDue, TablesRight, Backed, NoDup;
  }

  /** Nothing but one process's handles and table, and one count, is different. */
  ghost predicate HandleAdded(s: State, t: State, p: nat, kind: HandleType, more: seq<Description>, counted: set<nat>) {
    t == s.(procs := t.procs) && t.procs.Keys == s.procs.Keys &&
    forall r :: r in s.procs ==>
      t.procs[r].pid == s.procs[r].pid && t.procs[r].zombie == s.procs[r].zombie &&
      t.procs[r].refs == s.procs[r].refs + (if r in counted then 1 else 0) &&
      t.procs[r].handles == (if r == p then s.procs[r].handles + [kind] else s.procs[r].handles) &&
      t.procs[r].table == (if r == p then s.procs[r].table + more else s.procs[r].table)
  }

  /** Opening a process by its id gives the caller a new handle of process type, whose description refers to the process
      with that id; that process's count goes up by one; nothing else changes. With no such process nothing changes. */
  lemma OpenExact(ss: seq<State>, es: seq<Event>, i: nat)
    requires IsRun(ss, es) && i < |es| && es[i].DoOpen?
    ensures var s, t, p := ss[i], ss[i + 1], es[i].opener;
      p in s.procs &&
      (forall q :: q in s.procs && s.procs[q].pid == es[i].pid ==>
        q in s.list && HandleAdded(s, t, p, ProcessDescription, [Description(|s.procs[p].handles|, q)], {q})) &&
      ((forall q :: q in s.procs ==> s.procs[q].pid != es[i].pid) ==> t == s)
  {
    hide Good, HandleAdded, Handed, Referenced, Lookup;
    var s, t, p, pid := ss[i], ss[i + 1], es[i].opener, es[i].pid;
    RunGood(ss, es, i);
    assert Step(s, DoOpen(p, pid)) == Ok(t);
    GoodIds(s);
    forall q | q in s.procs && s.procs[q].pid == pid
      ensures HandleAdded(s, t, p, ProcessDescription, [Description(|s.procs[p].handles|, q)], {q})
    {
      assert q in s.list;
      assert Lookup(s.procs, s.list, pid) == Some(q);
      OpenedIs(s, p, q);
    }
  }

  lemma OpenedIs(s: State, p: nat, q: nat)
    requires p in s.procs && q in s.procs
    ensures HandleAdded(s, Handed(Referenced(s, q), p, Some(q)), p, ProcessDescription, [Description(|s.procs[p].handles|, q)], {q})
  {
    assert Referenced(s, q).procs.Keys == s.procs.Keys;
  }

  /** Opening a file gives the caller a new handle of file type, and nothing else changes. */
  lemma OpenFileExact(ss: seq<State>, es: seq<Event>, i: nat)
    requires IsRun(ss, es) && i < |es| && es[i].DoOpenFile?
    ensures HandleAdded(ss[i], ss[i + 1], es[i].opener, FileDescription, [], {})
  {
    var s, p := ss[i], es[i].opener;
    assert Step(s, DoOpenFile(p)) == Ok(ss[i + 1]);
    assert s.procs[p].table + [] == s.procs[p].table;
  }

  // ---- Closing ----

  /** The table without its k-th entry, which is the one of handle h. */
  ghost predicate LosesEntry(was: seq<Description>, now: seq<Description>, h: nat, k: nat) {
    k < |was| && was[k].handle == h && now == was[..k] + was[k + 1..]
  }

  lemma {:induction false} DroppedAt(table: seq<Description>, h: nat, k: nat)
    requires k < |table| && table[k].handle == h && forall j :: 0 <= j < |table| && j != k ==> table[j].handle != h
    ensures Dropped(table, h) == table[..k] + table[k + 1..]
  {
    var rest := table[1..];
    assert forall j :: 0 <= j < |rest| ==> rest[j] == table[j + 1];
    if k == 0 {
      DroppedNone(rest, h);
    } else {
      DroppedAt(rest, h, k - 1);
    }
  }

  lemma {:induction false} DroppedNone(table: seq<Description>, h: nat)
    requires forall j :: 0 <= j < |table| ==> table[j].handle != h
    ensures Dropped(table, h) == table
  {
    if table != [] {
      var rest := table[1..];
      assert forall j :: 0 <= j < |rest| ==> rest[j] == table[j + 1];
      DroppedNone(rest, h);
    }
  }

  lemma EntryOfHandle(p: Process, h: nat) returns (k: nat)
    requires TableRight(p) && Backed(p) && h < |p.handles| && p.handles[h].ProcessDescription?
    ensures LosesEntry(p.table, Dropped(p.table, h), h, k)
  {
    var d :| d in p.table && d.handle == h;
    k :| 0 <= k < |p.table| && p.table[k] == d;
    DroppedAt(p.table, h, k);
  }

  /** The processes that a step leaves keep id, state, handles and descriptions, but for what the step does to p. */
  ghost predicate Left(s: State, t: State, p: nat, zombie: bool, handles: seq<HandleType>, table: seq<Description>) {
    t.procs.Keys <= s.procs.Keys && t.next == s.next &&
    forall r :: r in t.procs ==>
      t.procs[r].pid == s.procs[r].pid &&
      t.procs[r].zombie == (if r == p then zombie else s.procs[r].zombie) &&
      t.procs[r].handles == (if r == p then handles else s.procs[r].handles) &&
      t.procs[r].table == (if r == p then table else s.procs[r].table)
  }

  /** Closing an invalid handle changes nothing. A file handle becomes invalid, and nothing else changes. A process
      handle becomes invalid and its description leaves the table; the closer stays, and all processes that are not
      freed by it keep their ids, handles and descriptions. */
  lemma CloseExact(ss: seq<State>, es: seq<Event>, i: nat)
    requires IsRun(ss, es) && i < |es| && es[i].DoClose?
    ensures var s, t, p, h := ss[i], ss[i + 1], es[i].closer, es[i].handle;
      p in s.procs &&
      if h >= |s.procs[p].handles| || s.procs[p].handles[h] == Invalid then t == s
      else if s.procs[p].handles[h] == FileDescription then
        t == s.(procs := s.procs[p := s.procs[p].(handles := s.procs[p].handles[h := Invalid])])
      else
        p in t.procs &&
        exists k: nat, table :: LosesEntry(s.procs[p].table, table, h, k) && Left(s, t, p, false, s.procs[p].handles[h := Invalid], table)
  {
    hide Good, DropAll, Dropped, Picked, Survives;
    var s, t, p, h := ss[i], ss[i + 1], es[i].closer, es[i].handle;
    RunGood(ss, es, i);
    assert Step(s, DoClose(p, h)) == Ok(t);
    if CheckHandle(s.procs[p], h).FileDescription? {
      CloseFileKeeps(s, p, h);
    } else if CheckHandle(s.procs[p], h).ProcessDescription? {
      GoodTable(s, p);
      var k := EntryOfHandle(s.procs[p], h);
      DestroyKeeps(s, p, h);
      CloseLeaves(s, p, h);
      assert LosesEntry(s.procs[p].table, Dropped(s.procs[p].table, h), h, k) &&
        Left(s, t, p, false, s.procs[p].handles[h := Invalid], Dropped(s.procs[p].table, h));
    }
  }

  lemma GoodTable(s: State, p: nat)
    requires Good(s) && p in s.procs
    ensures TableRight(s.procs[p]) && Backed(s.procs[p])
  {
    hide CountsRight, NoneDue, Listed, PidsRight, TableRight, Backed;
  }

  lemma CloseLeaves(s: State, p: nat, h: nat)
    requires Good(s) && p in s.procs && !s.procs[p].zombie && CheckHandle(s.procs[p], h).ProcessDescription?
    ensures Close(s, p, h).Ok? && p in Close(s, p, h).value.procs
    ensures Left(s, Close(s, p, h).value, p, false, s.procs[p].handles[h := Invalid], Dropped(s.procs[p].table, h))
  {
    hide Good, Inv, DropAll, Dropped, Picked, Close, Survives, Marked, Left;
    DestroyKeeps(s, p, h);
    var u := DropAll(Pulled(s, p, h), Picked(s.procs[p].table, h)).value;
    MarkedIsClose(s, p, h);
    PulledLeft(s, u, p, h);
    MarkedLeft(s, u, p, h, Dropped(s.procs[p].table, h));
  }

  lemma PulledLeft(s: State, u: State, p: nat, h: nat)
    requires p in s.procs && !s.procs[p].zombie && Survives(Pulled(s, p, h), u)
    ensures Left(s, u, p, false, s.procs[p].handles, Dropped(s.procs[p].table, h))
  {
    hide Dropped;
    assert Pulled(s, p, h).procs.Keys == s.procs.Keys;
  }

  lemma MarkedLeft(s: State, u: State, p: nat, h: nat, table: seq<Description>)
    requires p in s.procs && h < |s.procs[p].handles| && p in u.procs && Left(s, u, p, false, s.procs[p].handles, table)
    ensures Left(s, Marked(u, p, h), p, false, s.procs[p].handles[h := Invalid], table) && p in Marked(u, p, h).procs
  {
    assert Marked(u, p, h).procs.Keys == u.procs.Keys;
  }

  // ---- Ending ----

  /** Ending a process marks it as ended and frees it exactly when nobody refers to it. All processes that are not freed
      keep their ids, handles and descriptions; while somebody refers to it nothing else changes at all. */
  lemma TerminateExact(ss: seq<State>, es: seq<Event>, i: nat)
    requires IsRun(ss, es) && i < |es| && es[i].DoTerminate?
    ensures var s, t, p := ss[i], ss[i + 1], es[i].victim;
      p in s.procs && !s.procs[p].zombie && Left(s, t, p, true, s.procs[p].handles, s.procs[p].table) &&
      (p in t.procs <==> s.procs[p].refs > 0) &&
      (s.procs[p].refs > 0 ==> t == s.(procs := s.procs[p := s.procs[p].(zombie := true)]))
  {
    hide Good, Cleanup;
    var s, t, p := ss[i], ss[i + 1], es[i].victim;
    RunGood(ss, es, i);
    assert Step(s, DoTerminate(p)) == Ok(t);
    TerminateKeeps(s, p);
    assert Ended(s, p).procs.Keys == s.procs.Keys;
    if s.procs[p].refs == 0 {
      FreedAtOnce(s, p);
    }
  }

  lemma FreedAtOnce(s: State, p: nat)
    requires Good(s) && p in s.procs && !s.procs[p].zombie && s.procs[p].refs == 0 && Terminate(s, p).Ok?
    ensures p !in Terminate(s, p).value.procs
  {
    hide Inv, Backed, DropAll;
    var b := Ended(s, p);
    EndedKeeps(s, p);
    DetachedKeeps(b, {}, p);
    TableDies(b, {}, p);
    var d, table := Detached(b, p), b.procs[p].table;
    DropAllKeeps(d, {} + Of(p, table), p, table);
  }
}
