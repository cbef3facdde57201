/** The results about threads, wait queues and semaphores, stated over runs that start at boot. */
module TaskingTheorems {
  import opened Common
  import opened Tasking
  import opened TaskingLists
  import opened TaskingQueues
  import opened TaskingSemaphores
  import opened TaskingRuns

  ghost predicate KernelRun(ss: seq<State>, es: seq<Event>) {
    IsRun(ss, es) && exists t :: ss[0] == Boot(t)
  }

  lemma Reachable(ss: seq<State>, es: seq<Event>, i: nat)
    requires KernelRun(ss, es) && i < |ss|
    ensures Inv(ss[i])
  {
    hide Inv;
    var t :| ss[0] == Boot(t);
    BootInv(t);
    RunKeeps(ss, es, i);
  }

  /** In every reachable state a live thread is on exactly one list, once, the list its state and its
      owner field name, and it has a blocker exactly when that list is one of the two blocked lists. */
  lemma ThreadPlacement(ss: seq<State>, es: seq<Event>, i: nat, t: Tid)
    requires KernelRun(ss, es) && i < |ss| && t in ss[i].threads
    ensures var s, home := ss[i], HomeOf(ss[i].threads[t].state);
            (forall l :: t in s.lists.At(l) <==> l == home) && NoDup(s.lists.At(home)) &&
            s.threads[t].owner == Some(home) &&
            (s.threads[t].blocker.Some? <==> home == BlockedList || home == TimedList)
  {
    Reachable(ss, es, i);
    var s := ss[i];
    ExactlyOneList(s, t);
    assert ListOk(s.lists.At(HomeOf(s.threads[t].state)), HomeOf(s.threads[t].state), s.threads);
  }

  /** In every reachable state a thread blocked on a queue owns exactly one entry there and none in any
      other queue; and a Blocked entry belongs to a thread that is blocked on that very queue. Inside
      `wait` the two are equivalent. */
  lemma QueueOwnership(ss: seq<State>, es: seq<Event>, i: nat, q: QueueId, t: Tid)
    requires KernelRun(ss, es) && i < |ss| && t in ss[i].threads
    ensures var s := ss[i];
            (s.threads[t].blocker == Some(q) ==>
               q in s.queues && HasEntry(s.queues[q], t) &&
               forall p, j :: p in s.queues && 0 <= j < |s.queues[p]| && s.queues[p][j].thread == t ==>
                                p == q && j == EntryOf(s.queues[q], t)) &&
            (q in s.queues && Entry(t, Blocked) in s.queues[q] ==> s.threads[t].blocker == Some(q)) &&
            (s.threads[t].blocker == Some(q) && t in s.pc && InWait(s.pc[t]) ==> Entry(t, Blocked) in s.queues[q])
  {
    hide ListsInv, QueuesInv, SemWaiters, SemCounts;
    Reachable(ss, es, i);
    var s := ss[i];
    Fields(s, t);
    if s.threads[t].blocker == Some(q) {
      forall p, j | p in s.queues && 0 <= j < |s.queues[p]| && s.queues[p][j].thread == t
        ensures p == q && j == EntryOf(s.queues[q], t)
      {
        EntryFields(s, p, j);
        Distinct(s, p);
        EntryOfUnique(s.queues[p], j);
      }
      EntryFields(s, q, EntryOf(s.queues[q], t));
    }
    if q in s.queues && Entry(t, Blocked) in s.queues[q] {
      var j :| 0 <= j < |s.queues[q]| && s.queues[q][j] == Entry(t, Blocked);
      EntryFields(s, q, j);
    }
  }

  lemma Distinct(s: State, q: QueueId)
    requires Inv(s) && q in s.queues
    ensures DistinctOwners(s.queues[q])
  {
    assert EntriesOk(s.queues[q], q, s.pc, s.threads);
  }

  /** No assertion of the tasking code fires on a reachable state, except the two whose conditions the
      source leaves to its callers: something must be ready when the scheduler runs, and a queue must have an
      entry that is marked blocked when wake_up is called on it. */
  lemma AssertionsHold(ss: seq<State>, es: seq<Event>, i: nat, e: Event)
    requires KernelRun(ss, es) && i < |ss| && Enabled(ss[i], e)
    ensures Step(ss[i], e).Panic? <==> Fails(ss[i], e)
  {
    hide Inv, Step, Fails;
    Reachable(ss, es, i);
    StepKeeps(ss[i], e);
  }

  // ---- Semaphores ----

  function Acquires(es: seq<Event>, q: QueueId): nat {
    if es == [] then 0 else Acquires(es[..|es| - 1], q) + (if es[|es| - 1] == Acquire(q) then 1 else 0)
  }

  function Releases(es: seq<Event>, q: QueueId): nat {
    if es == [] then 0 else Releases(es[..|es| - 1], q) + (if es[|es| - 1] == Release(q) then 1 else 0)
  }

  /** The threads that found the semaphore taken, in the order in which they came. */
  ghost function Arrivals(ss: seq<State>, es: seq<Event>, q: QueueId): seq<Tid>
    requires |ss| == |es| + 1
    decreases |es|
  {
    if es == [] then []
    else
      var k := |es| - 1;
      Arrivals(ss[..|es|], es[..k], q) +
      if es[k] == Acquire(q) && q in ss[k].counts && ss[k].counts[q] <= 0 then [ss[k].current] else []
  }

  /** The threads that a release of the semaphore put on the ready list, in that order. */
  ghost function Served(ss: seq<State>, es: seq<Event>, q: QueueId): seq<Tid>
    requires |ss| == |es| + 1
    decreases |es|
  {
    if es == [] then []
    else
      var k := |es| - 1;
      Served(ss[..|es|], es[..k], q) +
      if es[k] == Release(q) && |ss[k].lists.ready| < |ss[k + 1].lists.ready|
      then ss[k + 1].lists.ready[|ss[k].lists.ready|..] else []
  }

  /** The value the semaphore was created with. */
  function Initial(es: seq<Event>, q: QueueId): int {
    if es == [] then 0
    else
      var e := es[|es| - 1];
      if e.CreateSemaphore? && e.q == q then e.initial else Initial(es[..|es| - 1], q)
  }

  /** Who holds the semaphore: those that found it free, and those that a release made ready, until they release it. */
  ghost function Holders(ss: seq<State>, es: seq<Event>, q: QueueId): multiset<Tid>
    requires |ss| == |es| + 1
    decreases |es|
  {
    if es == [] then multiset{}
    else
      var k := |es| - 1;
      var before := Holders(ss[..|es|], es[..k], q);
      if es[k] == Acquire(q) && q in ss[k].counts && ss[k].counts[q] > 0 then before + multiset{ss[k].current}
      else if es[k] == Release(q) then
        before - multiset{ss[k].current} +
        multiset(if |ss[k].lists.ready| < |ss[k + 1].lists.ready| then ss[k + 1].lists.ready[|ss[k].lists.ready|..] else [])
      else before
  }

  /** How many releases came from threads that did not hold the semaphore. */
  ghost function Foreign(ss: seq<State>, es: seq<Event>, q: QueueId): nat
    requires |ss| == |es| + 1
    decreases |es|
  {
    if es == [] then 0
    else
      var k := |es| - 1;
      Foreign(ss[..|es|], es[..k], q) + if es[k] == Release(q) && ss[k].current !in Holders(ss[..|es|], es[..k], q) then 1 else 0
  }

  /** The history of a semaphore, as the events of the run tell it. */
  ghost function Told(ss: seq<State>, es: seq<Event>, q: QueueId): SemLog
    requires |ss| == |es| + 1
  {
    SemLog(Initial(es, q), Acquires(es, q), Releases(es, q), Arrivals(ss, es, q), Served(ss, es, q), Holders(ss, es, q), Foreign(ss, es, q))
  }

  predicate Quiet(e: Event, q: QueueId) { e != Acquire(q) && e != Release(q) && !(e.CreateSemaphore? && e.q == q) }

  /** Events at other semaphores and queues leave this semaphore's count and history alone. */
  lemma OtherEvents(s: State, e: Event, q: QueueId)
    requires Inv(s) && Enabled(s, e) && Step(s, e).Ok? && Quiet(e, q)
    ensures var s' := Step(s, e).value;
            (q in s'.counts <==> q in s.counts) &&
            (q in s.counts ==> q in s.logs && q in s'.logs && s'.counts[q] == s.counts[q] && s'.logs[q] == s.logs[q])
  {
    hide ListsInv, QueuesInv, SemWaiters, SemCounts, WakeAllFrom, WakeOne, WakeExpired, WakeThread, BlockThread, SleepThread, Moved;
    match e {
      case Tick => WakeExpiredKeeps(s);
      case Sleep(ms) => SleepForm(s, s.current, ms);
      case WaitEnter(p, ms) => BlockForm(s, s.current, p, ms);
      case EventEnter(p, ms) => BlockForm(s, s.current, p, ms);
      case EventRecheck(again, ms) => BlockForm(s, s.current, s.pc[s.current].queue, ms);
      case WakeUp(p) => WakeOneKeeps(s, p);
      case WakeUpAll(p) => WakeAllKeeps(s, p, 0);
      case Acquire(p) =>
        BlockForm(s.(counts := s.counts[p := s.counts[p] - 1],
                     logs := s.logs[p := LogAcquire(s.logs[p], s.current, s.counts[p] - 1 < 0)]), s.current, p, 0);
      case Release(p) => ReleaseLog(s, p);
      case Terminate(t) => RemoveForm(s, t);
      case _ =>
    }
  }

  lemma ReleaseLog(s: State, q: QueueId)
    requires Inv(s) && SemaphoreQueue(s, q)
    ensures ReleaseSemaphore(s, q).Ok?
    ensures var s', log := ReleaseSemaphore(s, q).value, LogRelease(s.logs[q], s.current);
            s'.counts == s.counts[q := s.counts[q] + 1] &&
            (s.counts[q] < 0 ==> BlockedOwners(s.queues[q]) != []) &&
            s'.logs == s.logs[q := if s.counts[q] < 0 then LogHandOff(log, BlockedOwners(s.queues[q])[0]) else log] &&
            s'.lists.ready == s.lists.ready + (if s.counts[q] < 0 then [BlockedOwners(s.queues[q])[0]] else [])
  {
    hide ListsInv, QueuesInv, SemWaiters, SemCounts, WakeEntry;
    ReleaseKeeps(s, q);
    if s.counts[q] < 0 {
      NoneBlocked(s.queues[q]);
      WakeEntryKeeps(s, q, FirstBlocked(s.queues[q]));
      ServeFirst(s.queues[q], WokenUpNormally);
    }
  }

  lemma AcquireLog(s: State, q: QueueId)
    requires Inv(s) && Enabled(s, Acquire(q))
    ensures AcquireSemaphore(s, q).Ok?
    ensures var s' := AcquireSemaphore(s, q).value;
            s'.counts == s.counts[q := s.counts[q] - 1] &&
            s'.logs == s.logs[q := LogAcquire(s.logs[q], s.current, s.counts[q] <= 0)]
  {
    hide ListsInv, QueuesInv, SemWaiters, SemCounts, BlockThread, Moved;
    BlockForm(s.(counts := s.counts[q := s.counts[q] - 1],
                 logs := s.logs[q := LogAcquire(s.logs[q], s.current, s.counts[q] - 1 < 0)]), s.current, q, 0);
  }

  /** The log of q is this history; a semaphore that is not there has none. */
  ghost predicate LogIs(s: State, q: QueueId, h: SemLog) {
    if q in s.counts then q in s.logs && s.logs[q] == h else h == SemLog(0, 0, 0, [], [], multiset{}, 0)
  }

  /** The threads the step put on the ready list. */
  ghost function Woken(s: State, s': State): seq<Tid> {
    if |s.lists.ready| < |s'.lists.ready| then s'.lists.ready[|s.lists.ready|..] else []
  }

  lemma HistoryStep(ss: seq<State>, es: seq<Event>, q: QueueId)
    requires |ss| == |es| + 1 && es != []
    ensures var k := |es| - 1; var s, s', e, h, h' := ss[k], ss[k + 1], es[k], Told(ss[..|es|], es[..k], q), Told(ss, es, q);
      h'.initial == (if e.CreateSemaphore? && e.q == q then e.initial else h.initial) &&
      h'.acquires == h.acquires + (if e == Acquire(q) then 1 else 0) && h'.releases == h.releases + (if e == Release(q) then 1 else 0) &&
      h'.arrivals == h.arrivals + (if e == Acquire(q) && q in s.counts && s.counts[q] <= 0 then [s.current] else []) &&
      h'.served == h.served + (if e == Release(q) then Woken(s, s') else []) &&
      h'.foreign == h.foreign + (if e == Release(q) && s.current !in h.holders then 1 else 0) &&
      h'.holders == (if e == Acquire(q) && q in s.counts && s.counts[q] > 0 then h.holders + multiset{s.current}
                     else if e == Release(q) then h.holders - multiset{s.current} + multiset(Woken(s, s')) else h.holders)
  {
  }

  lemma LogAcquires(s: State, s': State, q: QueueId, h: SemLog)
    requires Inv(s) && Enabled(s, Acquire(q)) && Step(s, Acquire(q)) == Ok(s') && LogIs(s, q, h)
    ensures q in s.counts && LogIs(s', q, LogAcquire(h, s.current, s.counts[q] <= 0))
  {
    hide Inv, Step;
    StepIsAcquire(s, q);
    AcquireLog(s, q);
  }

  /** A history with one release more, which made these threads ready. */
  function Released(h: SemLog, who: Tid, woken: seq<Tid>): SemLog {
    h.(releases := h.releases + 1, served := h.served + woken, foreign := h.foreign + if who in h.holders then 0 else 1,
       holders := h.holders - multiset{who} + multiset(woken))
  }

  lemma ReleasedLog(h: SemLog, who: Tid, t: Tid)
    ensures LogRelease(h, who) == Released(h, who, []) && LogHandOff(LogRelease(h, who), t) == Released(h, who, [t])
  {
    assert h.served + [] == h.served && multiset([t]) == multiset{t};
    assert who !in h.holders ==> h.holders - multiset{who} == h.holders;
    assert h.holders - multiset{who} + multiset{} == h.holders - multiset{who};
  }

  lemma LogReleases(s: State, s': State, q: QueueId, h: SemLog)
    requires Inv(s) && Enabled(s, Release(q)) && Step(s, Release(q)) == Ok(s') && LogIs(s, q, h)
    ensures LogIs(s', q, Released(h, s.current, Woken(s, s')))
  {
    hide Inv, Step, BlockedOwners, LogRelease, LogHandOff, Released, ReleaseSemaphore;
    StepIsRelease(s, q);
    ReleaseLog(s, q);
    ReleasedLog(h, s.current, 0);
    if s.counts[q] < 0 {
      ReleasedLog(h, s.current, BlockedOwners(s.queues[q])[0]);
    }
  }

  lemma LogOthers(s: State, s': State, e: Event, q: QueueId, h: SemLog)
    requires Inv(s) && Enabled(s, e) && Step(s, e) == Ok(s') && e != Acquire(q) && e != Release(q) && LogIs(s, q, h)
    ensures LogIs(s', q, if e.CreateSemaphore? && e.q == q then h.(initial := e.initial) else h)
  {
    hide Inv, Step;
    if Quiet(e, q) {
      OtherEvents(s, e, q);
    } else {
      StepIsCreate(s, e);
      CreatedAnew(s, e);
    }
  }

  lemma CreatedAnew(s: State, e: Event)
    requires Inv(s) && Enabled(s, e) && e.CreateSemaphore?
    ensures e.q !in s.counts
  {
    hide PcInv, ListsInv, QueuesInv, SemWaiters, SemCounts;
  }

  lemma RunStep(ss: seq<State>, es: seq<Event>, k: nat)
    requires IsRun(ss, es) && k < |es|
    ensures |ss| == |es| + 1 && Enabled(ss[k], es[k]) && Step(ss[k], es[k]) == Ok(ss[k + 1])
  {
    hide Step, Enabled;
  }

  lemma LogStep(ss: seq<State>, es: seq<Event>, q: QueueId)
    requires IsRun(ss, es) && es != [] && |ss| == |es| + 1 && Inv(ss[|es| - 1])
    requires LogIs(ss[|es| - 1], q, Told(ss[..|es|], es[..|es| - 1], q))
    ensures LogIs(ss[|es|], q, Told(ss, es, q))
  {
    hide Inv, Step, Told, IsRun, Enabled, LogIs, Woken;
    HistoryStep(ss, es, q);
    var k := |es| - 1;
    RunStep(ss, es, k);
    var s, s', e := ss[k], ss[k + 1], es[k];
    var h, h' := Told(ss[..|es|], es[..k], q), Told(ss, es, q);
    assert h.arrivals + [] == h.arrivals && h.served + [] == h.served;
    if e == Acquire(q) {
      LogAcquires(s, s', q, h);
      assert h' == LogAcquire(h, s.current, s.counts[q] <= 0);
    } else if e == Release(q) {
      LogReleases(s, s', q, h);
    } else {
      LogOthers(s, s', e, q, h);
      assert h' == if e.CreateSemaphore? && e.q == q then h.(initial := e.initial) else h;
    }
  }

  lemma StepIsAcquire(s: State, q: QueueId)
    requires Enabled(s, Acquire(q))
    ensures Step(s, Acquire(q)) == AcquireSemaphore(s, q)
  {
  }

  lemma StepIsRelease(s: State, q: QueueId)
    requires Enabled(s, Release(q))
    ensures Step(s, Release(q)) == ReleaseSemaphore(s, q)
  {
  }

  lemma StepIsCreate(s: State, e: Event)
    requires Enabled(s, e) && e.CreateSemaphore?
    ensures Step(s, e).Ok? && Step(s, e).value.counts == s.counts[e.q := e.initial]
    ensures Step(s, e).value.logs == s.logs[e.q := SemLog(e.initial, 0, 0, [], [], multiset{}, 0)]
  {
  }

  /** The log fields are the history the events tell: creation, acquires, releases, arrivals, served, holders, and
      releases by others. */
  lemma {:induction false} LogsTellHistory(ss: seq<State>, es: seq<Event>, q: QueueId)
    requires KernelRun(ss, es)
    ensures LogIs(ss[|es|], q, Told(ss, es, q))
    decreases |es|
  {
    hide Inv, Step;
    if es != [] {
      var k := |es| - 1;
      var t :| ss[0] == Boot(t);
      assert ss[..|es|][0] == Boot(t);
      LogsTellHistory(ss[..|es|], es[..k], q);
      Reachable(ss, es, k);
      LogStep(ss, es, q);
    }
  }

  /** At every point of every run: the count is the initial value plus releases minus acquires; the
      threads blocked on the semaphore are as many as the count is below zero; and they are exactly the
      arrivals not yet served, in order, so waiters are served first-in first-out. */
  lemma SemaphoreSafety(ss: seq<State>, es: seq<Event>, q: QueueId)
    requires KernelRun(ss, es) && q in ss[|es|].counts
    ensures var s := ss[|es|];
            q in s.queues &&
            var line := BlockedOwners(s.queues[q]);
            s.counts[q] == Initial(es, q) + Releases(es, q) - Acquires(es, q) &&
            |line| == Pos(-s.counts[q]) && NoDup(line) &&
            (forall t :: t in line <==> t in s.threads && s.threads[t].blocker == Some(q)) &&
            Arrivals(ss, es, q) == Served(ss, es, q) + line
  {
    hide ListsInv, QueuesInv, SemWaiters, SemCounts;
    var s := ss[|es|];
    Reachable(ss, es, |es|);
    LogsTellHistory(ss, es, q);
    SemFields(s, q);
    var line := BlockedOwners(s.queues[q]);
    Distinct(s, q);
    BlockedOwnersDistinct(s.queues[q]);
    forall t
      ensures t in line <==> t in s.threads && s.threads[t].blocker == Some(q)
    {
      BlockedOwnersMember(s.queues[q], t);
      if Entry(t, Blocked) in s.queues[q] {
        var j :| 0 <= j < |s.queues[q]| && s.queues[q][j] == Entry(t, Blocked);
        EntryFields(s, q, j);
      }
      if t in s.threads && s.threads[t].blocker == Some(q) {
        QueueOwnership(ss, es, |es|, q, t);
        Fields(s, t);
      }
    }
  }

  /** Every release of the semaphore came from a thread that held it. */
  ghost predicate HoldersRelease(ss: seq<State>, es: seq<Event>, q: QueueId)
    requires |ss| == |es| + 1
  {
    forall i :: 0 <= i < |es| && es[i] == Release(q) ==> ss[i].current in Holders(ss[..i + 1], es[..i], q)
  }

  lemma {:induction false} NoForeignReleases(ss: seq<State>, es: seq<Event>, q: QueueId)
    requires |ss| == |es| + 1 && HoldersRelease(ss, es, q)
    ensures Foreign(ss, es, q) == 0
    decreases |es|
  {
    hide Holders;
    if es != [] {
      var k := |es| - 1;
      var ss', es' := ss[..|es|], es[..k];
      forall i | 0 <= i < |es'| && es'[i] == Release(q)
        ensures ss'[i].current in Holders(ss'[..i + 1], es'[..i], q)
      {
        assert ss'[..i + 1] == ss[..i + 1] && es'[..i] == es[..i];
      }
      NoForeignReleases(ss', es', q);
      assert ss[..k + 1] == ss';
    }
  }

  /** Mutual exclusion: a semaphore created with value n that only holders release never has more than n holders; a
      mutex, with n = 1, never has two. */
  lemma MutualExclusion(ss: seq<State>, es: seq<Event>, q: QueueId)
    requires KernelRun(ss, es) && q in ss[|es|].counts && HoldersRelease(ss, es, q)
    ensures |Holders(ss, es, q)| <= Initial(es, q)
  {
    hide ListsInv, QueuesInv, SemWaiters, SemCounts, Holders, Initial;
    NoForeignReleases(ss, es, q);
    Reachable(ss, es, |es|);
    LogsTellHistory(ss, es, q);
    SemFields(ss[|es|], q);
  }
}
