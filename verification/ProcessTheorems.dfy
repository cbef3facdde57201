/** Which processes a step frees, and what holds over every run of creating, opening, closing and ending. */
module ProcessTheorems {
  import opened Common
  import opened Processes
  import opened ProcessLifetime

  // ---- A cascade frees exactly the least set that is closed under losing all references ----

  /** With the processes of C gone, no ended process outside C would be left without references. */
  ghost predicate Closed(b: State, C: set<nat>) {
    forall q :: q in b.procs && b.procs[q].zombie && (forall x :: x in Targeting(Held(b), q) ==> x.0 in C) ==> q in C
  }

  ghost function FreedBy(b: State, t: State): set<nat> {
    b.procs.Keys - t.procs.Keys
  }

  /** So far only members of C were freed and only their descriptions were destroyed. */
  ghost predicate Within(s: State, dying: set<Reference>, b: State, C: set<nat>) {
    s.procs.Keys <= b.procs.Keys &&
    (forall q :: q in s.procs ==> s.procs[q].zombie == b.procs[q].zombie) &&
    (forall q :: q in b.procs && q !in s.procs ==> q in C) &&
    (forall y :: y in Held(b) ==> y.0 in C || y in Held(s) + dying)
  }

  lemma DueInClosed(s: State, dying: set<Reference>, b: State, C: set<nat>, q: nat)
    requires CountsRight(s, dying) && Within(s, dying, b, C) && Closed(b, C) && q in s.procs && Due(s.procs[q])
    ensures q in C
  {
    assert Targeting(Held(s) + dying, q) == {};
    assert forall x :: x in Held(s) + dying && x.1.target == q ==> x in Targeting(Held(s) + dying, q);
    assert forall x :: x in Targeting(Held(b), q) ==> x in Held(b) && x.1.target == q;
  }

  lemma ReleasedWithin(s: State, dying: set<Reference>, b: State, C: set<nat>, x: Reference)
    requires Within(s, dying, b, C) && (x.0 in C || x !in Held(b)) && x.1.target in s.procs && s.procs[x.1.target].refs > 0
    ensures Within(Released(s, x.1.target), dying - {x}, b, C)
  {
    var t := Released(s, x.1.target);
    assert t.procs.Keys == s.procs.Keys && Held(t) == Held(s);
    hide Held;
  }

  lemma DetachedWithin(s: State, dying: set<Reference>, b: State, C: set<nat>, q: nat)
    requires Within(s, dying, b, C) && q in C && q in s.procs && q in s.list
    ensures Within(Detached(s, q), dying + Of(q, s.procs[q].table), b, C)
  {
    var t, more := Detached(s, q), Of(q, s.procs[q].table);
    assert t.procs.Keys == s.procs.Keys - {q};
    assert Held(s) <= Held(t) + more;
    hide Held, Of;
  }

  lemma DereferenceWithin(s: State, dying: set<Reference>, b: State, C: set<nat>, x: Reference)
    requires Inv(s, dying, {}) && x in dying && Within(s, dying, b, C) && Closed(b, C) && (x.0 in C || x !in Held(b))
    ensures Dereference(s, x.1.target).Ok? && Within(Dereference(s, x.1.target).value, dying - {x}, b, C)
    decreases |s.procs|, 0, 1
  {
    hide Inv, Within, Cleanup, Closed, Held;
    var q := x.1.target;
    ReleasedKeeps(s, dying, x);
    ReleasedWithin(s, dying, b, C, x);
    var s1 := Released(s, q);
    assert s1.procs.Keys == s.procs.Keys;
    if s.procs[q].zombie && s.procs[q].refs == 1 {
      CleanupWithin(s1, dying - {x}, b, C, q);
    }
  }

  lemma CleanupWithin(s: State, dying: set<Reference>, b: State, C: set<nat>, q: nat)
    requires Inv(s, dying, {q}) && q in s.procs && Due(s.procs[q]) && Within(s, dying, b, C) && Closed(b, C)
    ensures Cleanup(s, q).Ok? && Within(Cleanup(s, q).value, dying, b, C)
    decreases |s.procs|, 0, 0
  {
    hide Inv, Within, Closed, Held, DropAll, Detached, NoDup;
    InvCounts(s, dying, {q});
    DueInClosed(s, dying, b, C, q);
    DetachedKeeps(s, dying, q);
    DetachedWithin(s, dying, b, C, q);
    TableDies(s, dying, q);
    var table := s.procs[q].table;
    DropAllWithin(Detached(s, q), dying + Of(q, table), b, C, q, table);
    assert dying + Of(q, table) - Of(q, table) == dying;
  }

  lemma InvCounts(s: State, dying: set<Reference>, except: set<nat>)
    requires Inv(s, dying, except)
    ensures CountsRight(s, dying)
  {
    hide CountsRight, NoneDue, Listed, PidsRight, TablesRight;
  }

  lemma DropAllWithin(s: State, dying: set<Reference>, b: State, C: set<nat>, p: nat, ds: seq<Description>)
    requires Inv(s, dying, {}) && Of(p, ds) <= dying && NoDup(ds) && Within(s, dying, b, C) && Closed(b, C)
    requires p in C || Of(p, ds) !! Held(b)
    ensures DropAll(s, ds).Ok? && Within(DropAll(s, ds).value, dying - Of(p, ds), b, C)
    decreases |s.procs|, |ds| + 1, 0
  {
    hide Inv, Within, Dereference, Closed, Held;
    if ds == [] {
      assert dying - Of(p, ds) == dying;
    } else {
      var x := (p, ds[0]);
      assert x in Of(p, ds) && Of(p, ds[1..]) <= Of(p, ds) - {x};
      DereferenceKeeps(s, dying, x);
      DereferenceWithin(s, dying, b, C, x);
      var s1 := Dereference(s, ds[0].target).value;
      DropAllWithin(s1, dying - {x}, b, C, p, ds[1..]);
      assert dying - {x} - Of(p, ds[1..]) == dying - Of(p, ds);
    }
  }

  lemma WithinSelf(b: State, dying: set<Reference>, C: set<nat>)
    ensures Within(b, dying, b, C)
  {
  }

  lemma WithinFreed(t: State, dying: set<Reference>, b: State, C: set<nat>)
    requires Within(t, dying, b, C)
    ensures FreedBy(b, t) <= C
  {
  }

  /** The freed set is closed: no ended process is left whose references all came from freed processes. */
  lemma FreedClosed(b: State, t: State)
    requires Survives(b, t) && CountsRight(t, {}) && NoneDue(t, {})
    ensures Closed(b, FreedBy(b, t))
  {
    forall q | q in t.procs && t.procs[q].zombie
      ensures exists x :: x in Targeting(Held(b), q) && x.0 !in FreedBy(b, t)
    {
      assert t.procs[q].refs > 0 && Targeting(Held(t) + {}, q) != {};
      var x :| x in Targeting(Held(t) + {}, q);
      assert x in Targeting(Held(b), q);
    }
  }

  /** Ending a process frees exactly the least closed set of what is then in memory. */
  lemma TerminateFreesLeast(s: State, p: nat, C: set<nat>)
    requires Good(s) && p in s.procs && !s.procs[p].zombie
    ensures Terminate(s, p).Ok?
    ensures Closed(Ended(s, p), FreedBy(Ended(s, p), Terminate(s, p).value))
    ensures Closed(Ended(s, p), C) ==> FreedBy(Ended(s, p), Terminate(s, p).value) <= C
  {
    hide Good, Inv, Within, Closed, Held, Cleanup, Survives, FreedBy, CountsRight, NoneDue;
    var b := Ended(s, p);
    TerminateKeeps(s, p);
    var t := Terminate(s, p).value;
    GoodParts(t);
    FreedClosed(b, t);
    if Closed(b, C) {
      WithinSelf(b, {}, C);
      if s.procs[p].refs == 0 {
        GoodInv(s);
        EndedKeeps(s, p);
        CleanupWithin(b, {}, b, C, p);
      }
      WithinFreed(t, {}, b, C);
    }
  }

  lemma GoodInv(s: State)
    requires Good(s)
    ensures Inv(s, {}, {})
  {
    hide Inv, Backed;
  }

  lemma GoodParts(s: State)
    requires Good(s)
    ensures CountsRight(s, {}) && NoneDue(s, {}) && Listed(s) && PidsRight(s)
  {
    hide Backed, CountsRight, NoneDue, Listed, PidsRight, TablesRight;
  }

  /** Closing a process handle frees exactly the least closed set of what is then in memory. */
  lemma CloseFreesLeast(s: State, p: nat, h: nat, C: set<nat>)
    requires Good(s) && p in s.procs && !s.procs[p].zombie && CheckHandle(s.procs[p], h).ProcessDescription?
    ensures Close(s, p, h).Ok?
    ensures Closed(Pulled(s, p, h), FreedBy(Pulled(s, p, h), Close(s, p, h).value))
    ensures Closed(Pulled(s, p, h), C) ==> FreedBy(Pulled(s, p, h), Close(s, p, h).value) <= C
  {
    hide Good, Inv, Within, Closed, Held, DropAll, Picked, Dropped, Survives, FreedBy, CountsRight, NoneDue, NoDup;
    var b, picked := Pulled(s, p, h), Picked(s.procs[p].table, h);
    DestroyKeeps(s, p, h);
    var u := DropAll(b, picked).value;
    InvParts(u);
    FreedClosed(b, u);
    MarkedSameProcs(b, u, p, h);
    if Closed(b, C) {
      GoodInv(s);
      PulledKeeps(s, p, h);
      PickedOnce(s, p, h);
      PulledGone(s, p, h);
      WithinSelf(b, Of(p, picked), C);
      DropAllWithin(b, Of(p, picked), b, C, p, picked);
      WithinFreed(u, Of(p, picked) - Of(p, picked), b, C);
    }
  }

  lemma InvParts(s: State)
    requires Inv(s, {}, {})
    ensures CountsRight(s, {}) && NoneDue(s, {})
  {
    hide CountsRight, NoneDue, Listed, PidsRight, TablesRight;
  }

  lemma MarkedSameProcs(b: State, u: State, p: nat, h: nat)
    requires p in u.procs && h < |u.procs[p].handles|
    ensures FreedBy(b, Marked(u, p, h)) == FreedBy(b, u)
  {
    assert Marked(u, p, h).procs.Keys == u.procs.Keys;
  }

  lemma PulledGone(s: State, p: nat, h: nat)
    requires p in s.procs
    ensures Of(p, Picked(s.procs[p].table, h)) !! Held(Pulled(s, p, h))
  {
    PickedDropped(s.procs[p].table, h);
    hide Picked, Dropped;
  }

  // ---- Over every run ----

  /** The reference count is the number of live descriptions; a process is listed from its creation until it
      has ended and nobody refers to it; it is freed at most once; ids in use are distinct. */
  lemma Lifetime(ss: seq<State>, es: seq<Event>, i: nat)
    requires IsRun(ss, es) && i < |ss|
    ensures var s := ss[i];
      (forall q :: q in s.procs ==> s.procs[q].refs == |Targeting(Held(s), q)|) &&
      NoDup(s.list) && NoDup(s.freed) &&
      (forall q: nat :: q < s.next ==> (q in s.list <==> q !in s.freed)) &&
      (forall q :: q in s.list ==> q in s.procs && !(s.procs[q].zombie && Targeting(Held(s), q) == {})) &&
      (forall p, q :: p in s.list && q in s.list && p in s.procs && q in s.procs && s.procs[p].pid == s.procs[q].pid ==> p == q)
  {
    RunGood(ss, es, i);
    GoodParts(ss[i]);
    var s := ss[i];
    assert Held(s) + {} == Held(s);
    hide Held;
  }

  /** Handle tables only grow, and entries only ever become invalid. */
  ghost predicate HandlesGrow(p: Process, r: Process) {
    |p.handles| <= |r.handles| &&
    forall h :: 0 <= h < |p.handles| ==> r.handles[h] == p.handles[h] || r.handles[h] == Invalid
  }

  ghost predicate StaysInvalid(p: Process, r: Process) {
    forall h: nat :: h < |p.handles| && CheckHandle(p, h) == Invalid ==> CheckHandle(r, h) == Invalid
  }

  ghost predicate Onward(s: State, t: State) {
    s.next <= t.next && (forall q :: q in s.freed ==> q in t.freed) &&
    forall q :: q in s.procs && q in t.procs ==> HandlesGrow(s.procs[q], t.procs[q])
  }

  lemma SurvivesOnward(s: State, t: State)
    requires Survives(s, t)
    ensures Onward(s, t)
  {
  }

  lemma CloseOnward(s: State, p: nat, h: nat)
    requires Good(s) && p in s.procs && !s.procs[p].zombie && CheckHandle(s.procs[p], h) != Invalid
    ensures Close(s, p, h).Ok? && Onward(s, Close(s, p, h).value)
  {
    hide Good, Inv, Survives, DropAll, Picked, Dropped, Marked;
    if CheckHandle(s.procs[p], h).FileDescription? {
      CloseFileKeeps(s, p, h);
      MarkedOnward(s, s, p, h);
    } else {
      DestroyKeeps(s, p, h);
      var u := DropAll(Pulled(s, p, h), Picked(s.procs[p].table, h)).value;
      SurvivesOnward(Pulled(s, p, h), u);
      MarkedIsClose(s, p, h);
      MarkedOnward(s, u, p, h);
    }
  }

  lemma MarkedIsClose(s: State, p: nat, h: nat)
    requires p in s.procs && CheckHandle(s.procs[p], h).ProcessDescription?
    requires DropAll(Pulled(s, p, h), Picked(s.procs[p].table, h)).Ok?
    requires var u := DropAll(Pulled(s, p, h), Picked(s.procs[p].table, h)).value; p in u.procs && h < |u.procs[p].handles|
    ensures Close(s, p, h) == Ok(Marked(DropAll(Pulled(s, p, h), Picked(s.procs[p].table, h)).value, p, h))
  {
    hide DropAll, Picked, Dropped;
  }

  lemma MarkedOnward(s: State, u: State, p: nat, h: nat)
    requires s.next <= u.next && (forall q :: q in s.freed ==> q in u.freed) && p in u.procs && h < |u.procs[p].handles|
    requires forall q :: q in s.procs && q in u.procs ==> s.procs[q].handles == u.procs[q].handles
    ensures Onward(s, Marked(u, p, h))
  {
  }

  lemma StepOnward(s: State, e: Event)
    requires Good(s) && Enabled(s, e) && Step(s, e).Ok?
    ensures Onward(s, Step(s, e).value)
  {
    hide Good, Close, Terminate, LowestFree, Survives;
    match e
    case DoCreate =>
      GoodListed(s);
      assert s.next !in s.procs;
    case DoOpen(p, pid) =>
      var q := Lookup(s.procs, s.list, pid);
      if q.Some? {
        assert Referenced(s, q.value).procs.Keys == s.procs.Keys;
      }
    case DoOpenFile(p) =>
    case DoClose(p, h) =>
      if CheckHandle(s.procs[p], h) != Invalid {
        CloseOnward(s, p, h);
      }
    case DoTerminate(p) =>
      TerminateKeeps(s, p);
      SurvivesOnward(Ended(s, p), Terminate(s, p).value);
  }

  /** A closed handle number is never valid again, for as long as its process exists; a freed process never
      comes back. */
  lemma {:induction false} ClosedForGood(ss: seq<State>, es: seq<Event>, i: nat, j: nat, p: nat)
    requires IsRun(ss, es) && i <= j < |ss|
    ensures p in ss[i].freed ==> p in ss[j].freed && p !in ss[j].procs
    ensures p in ss[i].procs && p in ss[j].procs ==> HandlesGrow(ss[i].procs[p], ss[j].procs[p])
    ensures p in ss[i].procs && p in ss[j].procs ==> StaysInvalid(ss[i].procs[p], ss[j].procs[p])
  {
    hide Good, Step;
    RunGood(ss, es, i);
    RunGood(ss, es, j);
    GoodListed(ss[i]);
    GoodListed(ss[j]);
    if i < j {
      ClosedForGood(ss, es, i, j - 1, p);
      RunGood(ss, es, j - 1);
      GoodListed(ss[j - 1]);
      StepOnward(ss[j - 1], es[j - 1]);
      NextGrows(ss, es, i, j - 1);
    }
  }

  lemma {:induction false} NextGrows(ss: seq<State>, es: seq<Event>, i: nat, j: nat)
    requires IsRun(ss, es) && i <= j < |ss|
    ensures ss[i].next <= ss[j].next
  {
    hide Good, Step;
    if i < j {
      NextGrows(ss, es, i, j - 1);
      RunGood(ss, es, j - 1);
      assert Step(ss[j - 1], es[j - 1]) == Ok(ss[j]);
      StepOnward(ss[j - 1], es[j - 1]);
    }
  }
}
