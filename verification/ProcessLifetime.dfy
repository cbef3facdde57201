/** What every step keeps about processes and handles, and which processes a step frees. */
module ProcessLifetime {
  import opened Common
  import opened Processes

  /** A description together with the process whose table it is in. */
  type Reference = (nat, Description)

  ghost function Held(s: State): set<Reference> {
    set p, d | p in s.procs && d in s.procs[p].table :: (p, d)
  }

  ghost function Targeting(ds: set<Reference>, q: nat): set<Reference> {
    set x | x in ds && x.1.target == q
  }

  ghost function Of(p: nat, table: seq<Description>): set<Reference> {
    set d | d in table :: (p, d)
  }

  /** Counts are right: `dying` are descriptions already out of every table but not yet destroyed. */
  ghost predicate CountsRight(s: State, dying: set<Reference>) {
    Held(s) !! dying &&
    (forall x :: x in Held(s) + dying ==> x.1.target in s.procs) &&
    (forall q :: q in s.procs ==> s.procs[q].refs == |Targeting(Held(s) + dying, q)|)
  }

  /** A process is due to be freed when it has ended and nobody refers to it. */
  predicate Due(p: Process) { p.zombie && p.refs == 0 }

  ghost predicate NoneDue(s: State, except: set<nat>) {
    forall q :: q in s.procs && q !in except ==> !Due(s.procs[q])
  }

  /** The list holds exactly the processes in memory, once each; destroyed ones never come back. */
  ghost predicate Listed(s: State) {
    NoDup(s.list) && (forall q :: q in s.list <==> q in s.procs) &&
    NoDup(s.freed) && (forall q :: q in s.freed ==> q !in s.procs) &&
    (forall q: nat :: q < s.next <==> q in s.procs || q in s.freed)
  }

  /** Ids are distinct and the bitmap has exactly those in use. */
  ghost predicate PidsRight(s: State) {
    (forall q :: q in s.procs ==> s.procs[q].pid in s.pids) &&
    (forall i :: i in s.pids ==> i < ID_COUNT && exists q :: q in s.procs && s.procs[q].pid == i) &&
    (forall p, q :: p in s.procs && q in s.procs && s.procs[p].pid == s.procs[q].pid ==> p == q)
  }

  /** Each description in the table was opened under its own handle, which is of process type. */
  ghost predicate TableRight(p: Process) {
    NoDup(p.table) &&
    (forall d :: d in p.table ==> d.handle < |p.handles| && p.handles[d.handle].ProcessDescription?) &&
    (forall d, e :: d in p.table && e in p.table && d.handle == e.handle ==> d == e)
  }

  /** And every handle of process type has its description in the table. */
  ghost predicate Backed(p: Process) {
    forall h :: 0 <= h < |p.handles| && p.handles[h].ProcessDescription? ==> exists d :: d in p.table && d.handle == h
  }

  ghost predicate TablesRight(s: State) {
    forall q :: q in s.procs ==> TableRight(s.procs[q])
  }

  ghost predicate Inv(s: State, dying: set<Reference>, except: set<nat>) {
    CountsRight(s, dying) && NoneDue(s, except) && Listed(s) && PidsRight(s) && TablesRight(s)
  }

  // ---- The cascade ----

  lemma {:induction false} RemoveOne<T>(a: set<T>, x: T)
    requires x in a
    ensures |a - {x}| == |a| - 1
  {
  }

  /** One reference less. */
  function Released(s: State, q: nat): State
    requires q in s.procs && s.procs[q].refs > 0
  {
    s.(procs := s.procs[q := s.procs[q].(refs := s.procs[q].refs - 1)])
  }

  lemma ReleasedCounts(s: State, dying: set<Reference>, x: Reference)
    requires CountsRight(s, dying) && x in dying
    ensures x.1.target in s.procs && s.procs[x.1.target].refs > 0
    ensures CountsRight(Released(s, x.1.target), dying - {x})
  {
    var q := x.1.target;
    var all := Held(s) + dying;
    assert x in all && x in Targeting(all, q);
    RemoveOne(Targeting(all, q), x);
    var s1 := Released(s, q);
    assert Held(s1) == Held(s);
    assert Held(s) + (dying - {x}) == all - {x};
    forall r | r in s1.procs
      ensures s1.procs[r].refs == |Targeting(all - {x}, r)|
    {
      assert Targeting(all - {x}, r) == if r == q then Targeting(all, r) - {x} else Targeting(all, r);
    }
  }

  lemma ReleasedPids(s: State, t: State)
    requires PidsRight(s) && t.pids == s.pids && t.procs.Keys == s.procs.Keys
    requires forall q :: q in s.procs ==> t.procs[q].pid == s.procs[q].pid
    ensures PidsRight(t)
  {
    forall i | i in t.pids
      ensures i < ID_COUNT && exists q :: q in t.procs && t.procs[q].pid == i
    {
      var q :| q in s.procs && s.procs[q].pid == i;
      assert q in t.procs && t.procs[q].pid == i;
    }
  }

  lemma ReleasedRest(s: State, q: nat)
    requires NoneDue(s, {}) && Listed(s) && TablesRight(s) && q in s.procs && s.procs[q].refs > 0
    ensures var t := Released(s, q); NoneDue(t, {q}) && Listed(t) && TablesRight(t)
  {
    hide NoDup;
    assert Released(s, q).procs.Keys == s.procs.Keys;
  }

  lemma ReleasedKeeps(s: State, dying: set<Reference>, x: Reference)
    requires Inv(s, dying, {}) && x in dying
    ensures x.1.target in s.procs && s.procs[x.1.target].refs > 0
    ensures Inv(Released(s, x.1.target), dying - {x}, {x.1.target})
  {
    hide CountsRight, NoneDue, Listed, TablesRight, PidsRight;
    ReleasedCounts(s, dying, x);
    ReleasedRest(s, x.1.target);
    ReleasedPids(s, Released(s, x.1.target));
  }

  lemma DetachedCounts(s: State, dying: set<Reference>, q: nat)
    requires CountsRight(s, dying) && q in s.procs && q in s.list && s.procs[q].refs == 0
    ensures Of(q, s.procs[q].table) <= Held(s)
    ensures CountsRight(Detached(s, q), dying + Of(q, s.procs[q].table))
  {
    var t, more := Detached(s, q), Of(q, s.procs[q].table);
    assert Held(t) == Held(s) - more;
    assert Held(t) + (dying + more) == Held(s) + dying;
    assert forall x :: x in Held(s) + dying && x.1.target == q ==> x in Targeting(Held(s) + dying, q);
  }

  lemma DetachedPids(s: State, q: nat)
    requires PidsRight(s) && q in s.procs && q in s.list
    ensures PidsRight(Detached(s, q))
  {
    var t := Detached(s, q);
    forall i | i in t.pids
      ensures i < ID_COUNT && exists r :: r in t.procs && t.procs[r].pid == i
    {
      var r :| r in s.procs && s.procs[r].pid == i;
      assert r in t.procs && t.procs[r].pid == i;
    }
  }

  lemma DetachedListed(s: State, q: nat)
    requires Listed(s) && q in s.procs
    ensures q in s.list && Listed(Detached(s, q))
  {
    hide Without, NoDup;
    WithoutMembers(s.list, q);
    NoDupSnoc(s.freed, q);
  }

  lemma NoDupSnoc<T>(xs: seq<T>, x: T)
    requires NoDup(xs) && x !in xs
    ensures NoDup(xs + [x])
  {
  }

  lemma DetachedRest(s: State, q: nat)
    requires NoneDue(s, {q}) && TablesRight(s) && q in s.procs && q in s.list
    ensures NoneDue(Detached(s, q), {}) && TablesRight(Detached(s, q))
  {
    hide Without, NoDup;
  }

  lemma DetachedKeeps(s: State, dying: set<Reference>, q: nat)
    requires Inv(s, dying, {q}) && q in s.procs && s.procs[q].refs == 0
    ensures q in s.list && s.procs[q].pid in s.pids
    ensures Inv(Detached(s, q), dying + Of(q, s.procs[q].table), {})
  {
    hide CountsRight, NoneDue, Listed, TablesRight, Detached;
    DetachedListed(s, q);
    DetachedCounts(s, dying, q);
    DetachedPids(s, q);
    DetachedRest(s, q);
  }

  // ---- The cascade as a whole ----

  /** What a stretch of destruction does: some processes are freed, the others keep all but their counts, and
      exactly the given descriptions are gone from the dying ones. */
  ghost predicate Survives(s: State, t: State) {
    t.procs.Keys <= s.procs.Keys && s.freed <= t.freed && t.next == s.next &&
    (forall q :: q in t.procs ==> t.procs[q] == s.procs[q].(refs := t.procs[q].refs)) &&
    (forall q :: q in s.procs ==> (q in t.procs <==> q !in t.freed)) &&
    (forall q :: q in t.freed ==> q in s.freed || (q in s.procs && s.procs[q].zombie))
  }

  lemma DereferenceKeeps(s: State, dying: set<Reference>, x: Reference)
    requires Inv(s, dying, {}) && x in dying
    ensures Dereference(s, x.1.target).Ok?
    ensures Inv(Dereference(s, x.1.target).value, dying - {x}, {})
    ensures Survives(s, Dereference(s, x.1.target).value)
    decreases |s.procs|, 0, 1
  {
    hide Inv, Survives, Cleanup, Listed;
    InvListed(s, dying, {});
    var q := x.1.target;
    ReleasedKeeps(s, dying, x);
    var s1 := Released(s, q);
    ReleasedSurvives(s, q);
    assert s1.procs.Keys == s.procs.Keys;
    if s.procs[q].zombie && s.procs[q].refs == 1 {
      CleanupKeeps(s1, dying - {x}, q);
      SurvivesTransitive(s, s1, Cleanup(s1, q).value);
    } else {
      NotDue(s1, dying - {x}, q);
    }
  }

  lemma InvListed(s: State, dying: set<Reference>, except: set<nat>)
    requires Inv(s, dying, except)
    ensures Listed(s)
  {
    hide CountsRight, NoneDue, Listed, TablesRight, PidsRight;
  }

  lemma NotDue(s: State, dying: set<Reference>, q: nat)
    requires Inv(s, dying, {q}) && q in s.procs && !Due(s.procs[q])
    ensures Inv(s, dying, {})
  {
    hide CountsRight, Listed, TablesRight, PidsRight;
  }

  lemma ReleasedSurvives(s: State, q: nat)
    requires q in s.procs && s.procs[q].refs > 0 && Listed(s)
    ensures Survives(s, Released(s, q))
  {
    hide NoDup;
  }

  lemma SurvivesSame(s: State)
    requires Listed(s)
    ensures Survives(s, s)
  {
    hide NoDup;
  }

  lemma DetachedSurvives(s: State, q: nat)
    requires q in s.procs && s.procs[q].zombie && Listed(s)
    ensures q in s.list && Survives(s, Detached(s, q))
  {
    hide NoDup, Without;
  }

  lemma TableDies(s: State, dying: set<Reference>, q: nat)
    requires Inv(s, dying, {q}) && q in s.procs
    ensures Of(q, s.procs[q].table) !! dying && NoDup(s.procs[q].table)
  {
    hide NoneDue, Listed, PidsRight, NoDup;
    assert TableRight(s.procs[q]);
    assert Of(q, s.procs[q].table) <= Held(s);
  }

  lemma SurvivesTransitive(s: State, t: State, u: State)
    requires Survives(s, t) && Survives(t, u)
    ensures Survives(s, u)
  {
  }

  lemma CleanupKeeps(s: State, dying: set<Reference>, q: nat)
    requires Inv(s, dying, {q}) && q in s.procs && Due(s.procs[q])
    ensures Cleanup(s, q).Ok?
    ensures Inv(Cleanup(s, q).value, dying, {})
    ensures Survives(s, Cleanup(s, q).value)
    decreases |s.procs|, 0, 0
  {
    hide Inv, Survives, Detached, DropAll, Listed, NoDup;
    InvListed(s, dying, {q});
    DetachedKeeps(s, dying, q);
    DetachedSurvives(s, q);
    TableDies(s, dying, q);
    var t, table := Detached(s, q), s.procs[q].table;
    DropAllKeeps(t, dying + Of(q, table), q, table);
    assert dying + Of(q, table) - Of(q, table) == dying;
    SurvivesTransitive(s, t, Cleanup(s, q).value);
  }

  lemma DropAllKeeps(s: State, dying: set<Reference>, p: nat, ds: seq<Description>)
    requires Inv(s, dying, {}) && Of(p, ds) <= dying && NoDup(ds)
    ensures DropAll(s, ds).Ok?
    ensures Inv(DropAll(s, ds).value, dying - Of(p, ds), {})
    ensures Survives(s, DropAll(s, ds).value)
    decreases |s.procs|, |ds| + 1, 0
  {
    hide Inv, Survives, Dereference, Listed;
    InvListed(s, dying, {});
    if ds == [] {
      SurvivesSame(s);
      assert dying - Of(p, ds) == dying;
    } else {
      var x := (p, ds[0]);
      assert x in Of(p, ds);
      DereferenceKeeps(s, dying, x);
      var s1 := Dereference(s, ds[0].target).value;
      assert Of(p, ds[1..]) <= dying - {x};
      DropAllKeeps(s1, dying - {x}, p, ds[1..]);
      assert dying - {x} - Of(p, ds[1..]) == dying - Of(p, ds);
      SurvivesTransitive(s, s1, DropAll(s, ds).value);
    }
  }

  // ---- Every system call ----

  ghost predicate Good(s: State) {
    Inv(s, {}, {}) && forall q :: q in s.procs ==> Backed(s.procs[q])
  }

  const START := State(map[], [], {}, 0, [])

  lemma StartGood()
    ensures Good(START)
  {
  }

  // Creation

  lemma CreateCounts(s: State)
    requires CountsRight(s, {}) && s.next !in s.procs
    ensures CountsRight(Create(s), {})
  {
    var t := Create(s);
    assert Held(t) == Held(s);
    assert Targeting(Held(s) + {}, s.next) == {};
  }

  lemma CreatePids(s: State)
    requires PidsRight(s) && s.next !in s.procs && LowestFree(s.pids, 0) < ID_COUNT
    ensures PidsRight(Create(s))
  {
    var t, pid := Create(s), LowestFree(s.pids, 0);
    assert t.procs[s.next].pid == pid;
    forall i | i in t.pids
      ensures i < ID_COUNT && exists q :: q in t.procs && t.procs[q].pid == i
    {
      if i != pid {
        var q :| q in s.procs && s.procs[q].pid == i;
        assert q in t.procs && t.procs[q].pid == i;
      }
    }
  }

  lemma CreateRest(s: State)
    requires NoneDue(s, {}) && Listed(s) && TablesRight(s)
    ensures s.next !in s.procs
    ensures NoneDue(Create(s), {}) && Listed(Create(s)) && TablesRight(Create(s))
  {
    hide LowestFree;
  }

  lemma CreateKeeps(s: State)
    requires Good(s) && LowestFree(s.pids, 0) < ID_COUNT
    ensures Good(Create(s))
  {
    hide CountsRight, NoneDue, Listed, TablesRight, PidsRight;
    CreateRest(s);
    CreateCounts(s);
    CreatePids(s);
  }

  // Opening

  /** The description process p is about to open on q. */
  function Opening(s: State, p: nat, q: nat): Reference
    requires p in s.procs
  {
    (p, Description(|s.procs[p].handles|, q))
  }

  lemma OpeningFresh(s: State, p: nat, q: nat)
    requires TablesRight(s) && p in s.procs
    ensures Opening(s, p, q) !in Held(s)
  {
    hide NoDup;
    assert TableRight(s.procs[p]);
  }

  lemma ReferencedCounts(s: State, x: Reference)
    requires CountsRight(s, {}) && x !in Held(s) && x.1.target in s.procs
    ensures CountsRight(Referenced(s, x.1.target), {x})
  {
    var t, q, held := Referenced(s, x.1.target), x.1.target, Held(s);
    assert Held(t) == held && held + {} == held;
    hide Held, Targeting;
    forall r | r in t.procs
      ensures t.procs[r].refs == |Targeting(held + {x}, r)|
    {
      TargetingMore(held, x, r);
    }
  }

  lemma TargetingMore(ds: set<Reference>, x: Reference, r: nat)
    requires x !in ds
    ensures |Targeting(ds + {x}, r)| == |Targeting(ds, r)| + if x.1.target == r then 1 else 0
  {
    assert Targeting(ds + {x}, r) == Targeting(ds, r) + if x.1.target == r then {x} else {};
  }

  lemma HandedHeld(s: State, p: nat, target: Option<nat>)
    requires p in s.procs
    ensures Held(Handed(s, p, target)) == if target.Some? then Held(s) + {Opening(s, p, target.value)} else Held(s)
  {
    var t := Handed(s, p, target);
    assert t.procs.Keys == s.procs.Keys;
    assert forall r :: r in s.procs && r != p ==> t.procs[r] == s.procs[r];
    if target.Some? {
      assert t.procs[p].table == s.procs[p].table + [Opening(s, p, target.value).1];
    }
  }

  lemma HandedCounts(s: State, p: nat, target: Option<nat>)
    requires p in s.procs && CountsRight(s, if target.Some? then {Opening(s, p, target.value)} else {})
    ensures CountsRight(Handed(s, p, target), {})
  {
    HandedHeld(s, p, target);
    var t := Handed(s, p, target);
    assert Held(t) + {} == Held(s) + if target.Some? then {Opening(s, p, target.value)} else {};
    assert t.procs.Keys == s.procs.Keys && forall r :: r in s.procs ==> t.procs[r].refs == s.procs[r].refs;
    hide Held, Targeting, Handed;
  }

  lemma AddHandleRight(p: Process, target: Option<nat>)
    requires TableRight(p) && Backed(p)
    ensures TableRight(AddHandle(p, target)) && Backed(AddHandle(p, target))
  {
    var r := AddHandle(p, target);
    assert target.Some? ==> Description(|p.handles|, target.value) in r.table;
    forall h | 0 <= h < |r.handles| && r.handles[h].ProcessDescription?
      ensures exists d :: d in r.table && d.handle == h
    {
      if h < |p.handles| {
        var d :| d in p.table && d.handle == h;
        assert d in r.table;
      }
    }
  }

  lemma OpenRest(s: State, t: State)
    requires NoneDue(s, {}) && Listed(s) && t.procs.Keys == s.procs.Keys && t.list == s.list && t.next == s.next && t.freed == s.freed
    requires forall r :: r in s.procs ==> t.procs[r].zombie == s.procs[r].zombie && t.procs[r].refs >= s.procs[r].refs
    ensures NoneDue(t, {}) && Listed(t)
  {
    hide NoDup;
  }

  lemma HandedTables(s: State, p: nat, target: Option<nat>)
    requires TablesRight(s) && (forall r :: r in s.procs ==> Backed(s.procs[r])) && p in s.procs
    ensures var t := Handed(s, p, target); TablesRight(t) && forall r :: r in t.procs ==> Backed(t.procs[r])
  {
    hide TableRight, Backed;
    assert TableRight(s.procs[p]);
    AddHandleRight(s.procs[p], target);
    hide AddHandle;
  }

  lemma HandedKeeps(s: State, p: nat, target: Option<nat>)
    requires p in s.procs && Inv(s, if target.Some? then {Opening(s, p, target.value)} else {}, {})
    requires forall r :: r in s.procs ==> Backed(s.procs[r])
    ensures Good(Handed(s, p, target))
  {
    hide CountsRight, NoneDue, Listed, PidsRight, TablesRight, Backed;
    var t := Handed(s, p, target);
    assert t.procs.Keys == s.procs.Keys;
    HandedCounts(s, p, target);
    HandedTables(s, p, target);
    OpenRest(s, t);
    ReleasedPids(s, t);
  }

  lemma ReferencedTables(s: State, q: nat)
    requires TablesRight(s) && (forall r :: r in s.procs ==> Backed(s.procs[r])) && q in s.procs
    ensures var t := Referenced(s, q); TablesRight(t) && forall r :: r in t.procs ==> Backed(t.procs[r])
  {
    var one := s.procs[q].(refs := s.procs[q].refs + 1);
    assert TableRight(s.procs[q]) && TableRight(one) && Backed(one);
    hide TableRight, Backed;
  }

  lemma OpenKeeps(s: State, p: nat, q: nat)
    requires Good(s) && p in s.procs && q in s.procs
    ensures Good(Handed(Referenced(s, q), p, Some(q)))
  {
    hide CountsRight, NoneDue, Listed, PidsRight, TablesRight, Backed, Held;
    OpeningFresh(s, p, q);
    ReferencedCounts(s, Opening(s, p, q));
    ReferencedTables(s, q);
    var t := Referenced(s, q);
    assert t.procs.Keys == s.procs.Keys;
    OpenRest(s, t);
    ReleasedPids(s, t);
    assert Opening(t, p, q) == Opening(s, p, q);
    HandedKeeps(t, p, Some(q));
  }

  // Closing

  lemma PickedDropped(table: seq<Description>, h: nat)
    ensures forall d :: d in Picked(table, h) <==> d in table && d.handle == h
    ensures forall d :: d in Dropped(table, h) <==> d in table && d.handle != h
    ensures NoDup(table) ==> NoDup(Picked(table, h)) && NoDup(Dropped(table, h))
  {
    if table != [] {
      PickedDropped(table[1..], h);
      assert table == [table[0]] + table[1..];
    }
  }

  /** The description of a handle, taken out of the table but not yet destroyed. */
  function Pulled(s: State, p: nat, h: nat): State
    requires p in s.procs
  {
    s.(procs := s.procs[p := s.procs[p].(table := Dropped(s.procs[p].table, h))])
  }

  lemma PulledCounts(s: State, p: nat, h: nat)
    requires CountsRight(s, {}) && p in s.procs
    ensures CountsRight(Pulled(s, p, h), Of(p, Picked(s.procs[p].table, h)))
  {
    var t, gone := Pulled(s, p, h), Of(p, Picked(s.procs[p].table, h));
    PickedDropped(s.procs[p].table, h);
    assert t.procs.Keys == s.procs.Keys;
    assert Held(t) == Held(s) - gone && gone <= Held(s);
    assert Held(t) + gone == Held(s) + {};
  }

  lemma PulledTables(s: State, p: nat, h: nat)
    requires TablesRight(s) && p in s.procs
    ensures TablesRight(Pulled(s, p, h))
  {
    PickedDropped(s.procs[p].table, h);
    var one := s.procs[p].(table := Dropped(s.procs[p].table, h));
    assert TableRight(s.procs[p]) && TableRight(one);
    hide TableRight;
  }

  lemma PulledKeeps(s: State, p: nat, h: nat)
    requires Inv(s, {}, {}) && p in s.procs
    ensures Inv(Pulled(s, p, h), Of(p, Picked(s.procs[p].table, h)), {})
  {
    hide CountsRight, NoneDue, Listed, PidsRight, TablesRight;
    PulledCounts(s, p, h);
    PulledTables(s, p, h);
    var t := Pulled(s, p, h);
    assert t.procs.Keys == s.procs.Keys;
    OpenRest(s, t);
    ReleasedPids(s, t);
  }

  /** The last step of closing: the entry is marked invalid. */
  function Marked(s: State, p: nat, h: nat): State
    requires p in s.procs && h < |s.procs[p].handles|
  {
    s.(procs := s.procs[p := s.procs[p].(handles := s.procs[p].handles[h := Invalid])])
  }

  lemma MarkedProcess(p: Process, h: nat)
    requires TableRight(p) && h < |p.handles| && (forall d :: d in p.table ==> d.handle != h)
    requires forall k :: 0 <= k < |p.handles| && k != h && p.handles[k].ProcessDescription? ==>
      exists d :: d in p.table && d.handle == k
    ensures var m := p.(handles := p.handles[h := Invalid]); TableRight(m) && Backed(m)
  {
  }

  lemma MarkedKeeps(s: State, p: nat, h: nat)
    requires Inv(s, {}, {}) && p in s.procs && h < |s.procs[p].handles| && (forall d :: d in s.procs[p].table ==> d.handle != h)
    requires forall k :: 0 <= k < |s.procs[p].handles| && k != h && s.procs[p].handles[k].ProcessDescription? ==>
      exists d :: d in s.procs[p].table && d.handle == k
    requires forall r :: r in s.procs && r != p ==> Backed(s.procs[r])
    ensures Good(Marked(s, p, h))
  {
    hide NoneDue, Listed, PidsRight, CountsRight, TableRight;
    assert TableRight(s.procs[p]);
    MarkedProcess(s.procs[p], h);
    var t := Marked(s, p, h);
    MarkedCounts(s, p, h);
    hide Backed;
    assert t.procs.Keys == s.procs.Keys;
    OpenRest(s, t);
    ReleasedPids(s, t);
  }

  lemma MarkedCounts(s: State, p: nat, h: nat)
    requires p in s.procs && h < |s.procs[p].handles| && CountsRight(s, {})
    ensures CountsRight(Marked(s, p, h), {})
  {
    var t := Marked(s, p, h);
    assert t.procs.Keys == s.procs.Keys;
    assert Held(t) == Held(s);
    hide Held, Targeting;
  }

  /** The dropped description is the only one of its handle, so all other handles stay backed. */
  lemma PulledBacked(p: Process, h: nat, k: nat)
    requires Backed(p) && k < |p.handles| && k != h && p.handles[k].ProcessDescription?
    ensures exists d :: d in Dropped(p.table, h) && d.handle == k
  {
    PickedDropped(p.table, h);
    var d :| d in p.table && d.handle == k;
    assert d in Dropped(p.table, h);
  }

  lemma CloseFileKeeps(s: State, p: nat, h: nat)
    requires Good(s) && p in s.procs && CheckHandle(s.procs[p], h).FileDescription?
    ensures Close(s, p, h) == Ok(Marked(s, p, h)) && Good(Marked(s, p, h))
  {
    hide Inv, Backed;
    FileHandleUnused(s, p, h);
    forall k | 0 <= k < |s.procs[p].handles| && k != h && s.procs[p].handles[k].ProcessDescription?
      ensures exists d :: d in s.procs[p].table && d.handle == k
    {
      HandleBacked(s.procs[p], k);
    }
    MarkedKeeps(s, p, h);
  }

  /** Destroying the description of a process handle, with everything that frees. */
  lemma DestroyKeeps(s: State, p: nat, h: nat)
    requires Good(s) && p in s.procs && !s.procs[p].zombie
    ensures var r := DropAll(Pulled(s, p, h), Picked(s.procs[p].table, h));
      r.Ok? && Inv(r.value, {}, {}) && Survives(Pulled(s, p, h), r.value) && p in r.value.procs &&
      forall q :: q in r.value.procs ==>
        q in s.procs && r.value.procs[q].handles == s.procs[q].handles &&
        r.value.procs[q].table == if q == p then Dropped(s.procs[p].table, h) else s.procs[q].table
  {
    hide Inv, Backed, Survives, TableRight, Listed;
    var t, picked := Pulled(s, p, h), Picked(s.procs[p].table, h);
    PulledKeeps(s, p, h);
    PickedOnce(s, p, h);
    DropAllKeeps(t, Of(p, picked), p, picked);
    assert Of(p, picked) - Of(p, picked) == {};
    InvListed(t, Of(p, picked), {});
    hide DropAll, Picked;
    SurvivesFacts(t, DropAll(t, picked).value, p);
  }

  lemma CloseProcessKeeps(s: State, p: nat, h: nat)
    requires Good(s) && p in s.procs && !s.procs[p].zombie && CheckHandle(s.procs[p], h).ProcessDescription?
    ensures Close(s, p, h).Ok? && Good(Close(s, p, h).value)
  {
    hide Inv, Backed, Survives, DropAll, Dropped, Picked;
    DestroyKeeps(s, p, h);
    PickedDropped(s.procs[p].table, h);
    var u := DropAll(Pulled(s, p, h), Picked(s.procs[p].table, h)).value;
    forall k | 0 <= k < |u.procs[p].handles| && k != h && u.procs[p].handles[k].ProcessDescription?
      ensures exists d :: d in u.procs[p].table && d.handle == k
    {
      PulledBacked(s.procs[p], h, k);
    }
    forall r | r in u.procs && r != p
      ensures Backed(u.procs[r])
    {
      SameBacked(s.procs[r], u.procs[r]);
    }
    MarkedKeeps(u, p, h);
  }

  lemma HandleBacked(p: Process, k: nat)
    requires Backed(p) && k < |p.handles| && p.handles[k].ProcessDescription?
    ensures exists d :: d in p.table && d.handle == k
  {
  }

  lemma SameBacked(p: Process, r: Process)
    requires Backed(p) && r.handles == p.handles && r.table == p.table
    ensures Backed(r)
  {
  }

  lemma SurvivesFacts(t: State, u: State, p: nat)
    requires Survives(t, u) && p in t.procs && !t.procs[p].zombie && Listed(t)
    ensures p in u.procs
    ensures forall r :: r in u.procs ==> r in t.procs && u.procs[r].handles == t.procs[r].handles && u.procs[r].table == t.procs[r].table
  {
    hide NoDup;
  }

  lemma FileHandleUnused(s: State, p: nat, h: nat)
    requires Inv(s, {}, {}) && p in s.procs && CheckHandle(s.procs[p], h).FileDescription?
    ensures forall d :: d in s.procs[p].table ==> d.handle != h
  {
    hide NoneDue, Listed, PidsRight, CountsRight, NoDup;
    assert TableRight(s.procs[p]);
  }

  lemma PickedOnce(s: State, p: nat, h: nat)
    requires Inv(s, {}, {}) && p in s.procs
    ensures NoDup(Picked(s.procs[p].table, h))
  {
    hide NoneDue, Listed, PidsRight, CountsRight, NoDup;
    assert TableRight(s.procs[p]);
    PickedDropped(s.procs[p].table, h);
  }

  // Termination

  /** The process has ended but its count is not looked at yet. */
  function Ended(s: State, p: nat): State
    requires p in s.procs
  {
    s.(procs := s.procs[p := s.procs[p].(zombie := true)])
  }

  lemma EndedKeeps(s: State, p: nat)
    requires Inv(s, {}, {}) && p in s.procs
    ensures Inv(Ended(s, p), {}, {p})
  {
    hide CountsRight, NoneDue, Listed, PidsRight, TablesRight;
    EndedCounts(s, p);
    EndedRest(s, p);
    var t := Ended(s, p);
    assert t.procs.Keys == s.procs.Keys;
    ReleasedPids(s, t);
  }

  lemma EndedCounts(s: State, p: nat)
    requires CountsRight(s, {}) && p in s.procs
    ensures CountsRight(Ended(s, p), {})
  {
    var t := Ended(s, p);
    assert t.procs.Keys == s.procs.Keys;
    assert Held(t) == Held(s);
    hide Held, Targeting;
  }

  lemma EndedRest(s: State, p: nat)
    requires NoneDue(s, {}) && Listed(s) && TablesRight(s) && p in s.procs
    ensures NoneDue(Ended(s, p), {p}) && Listed(Ended(s, p)) && TablesRight(Ended(s, p))
  {
    hide NoDup;
    assert Ended(s, p).procs.Keys == s.procs.Keys;
  }

  lemma SurvivorsBacked(s: State, t: State)
    requires Survives(s, t) && forall q :: q in s.procs ==> Backed(s.procs[q])
    ensures forall q :: q in t.procs ==> Backed(t.procs[q])
  {
    hide Backed;
    forall q | q in t.procs
      ensures Backed(t.procs[q])
    {
      SameBacked(s.procs[q], t.procs[q]);
    }
  }

  lemma EndedBacked(s: State, p: nat)
    requires p in s.procs && forall q :: q in s.procs ==> Backed(s.procs[q])
    ensures forall q :: q in Ended(s, p).procs ==> Backed(Ended(s, p).procs[q])
  {
    hide Backed;
    SameBacked(s.procs[p], Ended(s, p).procs[p]);
  }

  lemma TerminateKeeps(s: State, p: nat)
    requires Good(s) && p in s.procs
    ensures Terminate(s, p).Panic? <==> s.procs[p].zombie
    ensures Terminate(s, p).Ok? ==> Good(Terminate(s, p).value) && Survives(Ended(s, p), Terminate(s, p).value)
  {
    hide Inv, Backed, Survives, Cleanup, Listed;
    var t := Ended(s, p);
    EndedKeeps(s, p);
    EndedBacked(s, p);
    InvListed(t, {}, {p});
    if !s.procs[p].zombie {
      if s.procs[p].refs == 0 {
        CleanupKeeps(t, {}, p);
        SurvivorsBacked(t, Cleanup(t, p).value);
      } else {
        NotDue(t, {}, p);
        SurvivesSame(t);
      }
    }
  }

  // ---- Runs ----

  lemma GoodListed(s: State)
    requires Good(s)
    ensures Listed(s)
  {
    hide Inv, Backed, Listed;
    InvListed(s, {}, {});
  }

  /** Every system call keeps the invariant, and the only assertion that can fail is the one against ending
      a process twice. */
  lemma StepKeeps(s: State, e: Event)
    requires Good(s) && Enabled(s, e)
    ensures Step(s, e).Panic? <==> e.DoTerminate? && s.procs[e.victim].zombie
    ensures Step(s, e).Ok? ==> Good(Step(s, e).value)
  {
    hide Good, LowestFree, Close, Terminate, Create, Handed, Referenced, NoDup;
    match e
    case DoCreate => CreateKeeps(s);
    case DoOpen(p, pid) =>
      var q := Lookup(s.procs, s.list, pid);
      if q.Some? {
        OpenKeeps(s, p, q.value);
      }
    case DoOpenFile(p) => OpenFileKeeps(s, p);
    case DoClose(p, h) =>
      if CheckHandle(s.procs[p], h).FileDescription? {
        CloseFileKeeps(s, p, h);
      } else if CheckHandle(s.procs[p], h).ProcessDescription? {
        CloseProcessKeeps(s, p, h);
      }
    case DoTerminate(p) => TerminateKeeps(s, p);
  }

  lemma OpenFileKeeps(s: State, p: nat)
    requires Good(s) && p in s.procs
    ensures Good(Handed(s, p, None))
  {
    hide Inv, Backed;
    HandedKeeps(s, p, None);
  }

  ghost predicate IsRun(ss: seq<State>, es: seq<Event>) {
    |ss| == |es| + 1 && ss[0] == START &&
    forall i :: 0 <= i < |es| ==> Enabled(ss[i], es[i]) && Step(ss[i], es[i]) == Ok(ss[i + 1])
  }

  lemma {:induction false} RunGood(ss: seq<State>, es: seq<Event>, i: nat)
    requires IsRun(ss, es) && i < |ss|
    ensures Good(ss[i])
  {
    hide Good, Step;
    if i == 0 {
      StartGood();
    } else {
      RunGood(ss, es, i - 1);
      StepKeeps(ss[i - 1], es[i - 1]);
    }
  }
}
