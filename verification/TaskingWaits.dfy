/** How a wait begins and ends, over whole runs. */
module TaskingWaits {
  import opened Common
  import opened Tasking
  import opened TaskingLists
  import opened TaskingQueues
  import opened TaskingSemaphores
  import opened TaskingRuns

  /** The state of t's entry in a queue. */
  function EntryView(es: seq<Entry>, t: Tid): Option<EntryState> {
    if HasEntry(es, t) then Some(es[EntryOf(es, t)].state) else None
  }

  lemma ViewSettled(es: seq<Entry>, i: nat, state: EntryState, t: Tid)
    requires DistinctOwners(es) && i < |es|
    ensures EntryView(es[i := Entry(es[i].thread, state)], t) == if es[i].thread == t then Some(state) else EntryView(es, t)
  {
    var es' := es[i := Entry(es[i].thread, state)];
    if HasEntry(es, t) {
      assert es'[EntryOf(es, t)].thread == t;
      EntryOfUnique(es', EntryOf(es, t));
      EntryOfUnique(es, i);
    }
    if HasEntry(es', t) {
      assert es[EntryOf(es', t)].thread == t;
    }
  }

  lemma ViewAppended(es: seq<Entry>, u: Tid, t: Tid)
    requires u != t
    ensures EntryView(es + [Entry(u, Blocked)], t) == EntryView(es, t)
  {
    var es' := es + [Entry(u, Blocked)];
    if HasEntry(es, t) {
      assert es'[EntryOf(es, t)].thread == t;
      assert forall j :: 0 <= j < EntryOf(es, t) ==> es'[j] == es[j];
    }
    if HasEntry(es', t) {
      assert es[EntryOf(es', t)].thread == t;
    }
  }

  lemma ViewDropped(es: seq<Entry>, i: nat, t: Tid)
    requires DistinctOwners(es) && i < |es| && es[i].thread != t
    ensures EntryView(es[..i] + es[i + 1..], t) == EntryView(es, t)
  {
    var es' := es[..i] + es[i + 1..];
    if HasEntry(es, t) {
      var k := EntryOf(es, t);
      assert es'[if k < i then k else k - 1] == es[k];
      EntryOfUnique(es', if k < i then k else k - 1);
    }
    if HasEntry(es', t) {
      var k := EntryOf(es', t);
      assert es[if k < i then k else k + 1].thread == t;
    }
  }

  lemma ViewUnlisted(es: seq<Entry>, u: Tid, t: Tid)
    requires DistinctOwners(es) && u != t
    ensures EntryView(DropEntries(es, u), t) == EntryView(es, t)
  {
    var es' := DropEntries(es, u);
    DropEntriesDistinct(es, u);
    if HasEntry(es, t) {
      var e := es[EntryOf(es, t)];
      assert e in es';
      var k :| 0 <= k < |es'| && es'[k] == e;
      EntryOfUnique(es', k);
    }
    if HasEntry(es', t) {
      assert es'[EntryOf(es', t)] in es;
      var k :| 0 <= k < |es| && es[k] == es'[EntryOf(es', t)];
      assert es[k].thread == t;
    }
  }

  lemma QueueDistinct(s: State, q: QueueId)
    requires Inv(s) && q in s.queues
    ensures DistinctOwners(s.queues[q])
  {
    assert EntriesOk(s.queues[q], q, s.pc, s.threads);
  }

  /** t is inside `wait` on q. */
  predicate WaitsOn(s: State, t: Tid, q: QueueId) {
    t in s.pc && InWait(s.pc[t]) && s.pc[t].queue == q
  }

  function View(s: State, q: QueueId, t: Tid): Option<EntryState> {
    if q in s.queues then EntryView(s.queues[q], t) else None
  }

  /** Inside `wait`, the entry is there, and it is Blocked exactly when the thread is blocked on q. */
  lemma WaitView(s: State, t: Tid, q: QueueId)
    requires Inv(s) && WaitsOn(s, t, q)
    ensures q in s.queues && HasEntry(s.queues[q], t) && t in s.threads
    ensures View(s, q, t) == Some(Blocked) <==> s.threads[t].blocker == Some(q)
    ensures s.threads[t].blocker == None || s.threads[t].blocker == Some(q)
  {
    hide ListsInv, QueuesInv, SemWaiters, SemCounts;
    Fields(s, t);
    EntryFields(s, q, EntryOf(s.queues[q], t));
  }

  lemma WakeEntryView(s: State, p: QueueId, i: nat, q: QueueId, t: Tid)
    requires Inv(s) && p in s.queues && i < |s.queues[p]| && s.queues[p][i].state == Blocked && WaitsOn(s, t, q)
    ensures WakeEntry(s, p, i).Ok?
    ensures View(WakeEntry(s, p, i).value, q, t) ==
            if p == q && s.queues[p][i].thread == t then Some(WokenUpNormally) else View(s, q, t)
  {
    hide ListsInv, QueuesInv, SemWaiters, SemCounts, WakeEntry;
    WakeEntryKeeps(s, p, i);
    QueueDistinct(s, p);
    ViewSettled(s.queues[p], i, WokenUpNormally, t);
  }

  lemma {:induction false} WakeAllView(s: State, p: QueueId, i: nat, q: QueueId, t: Tid)
    requires Inv(s) && PlainQueue(s, p) && i <= |s.queues[p]| && WaitsOn(s, t, q)
    ensures WakeAllFrom(s, p, i).Ok?
    ensures View(WakeAllFrom(s, p, i).value, q, t) == View(s, q, t) ||
            (p == q && View(s, q, t) == Some(Blocked) && View(WakeAllFrom(s, p, i).value, q, t) == Some(WokenUpNormally))
    decreases |s.queues[p]| - i
  {
    hide Inv, WakeEntry;
    WakeAllKeeps(s, p, i);
    if i < |s.queues[p]| {
      if s.queues[p][i].state != Blocked {
        WakeAllView(s, p, i + 1, q, t);
      } else {
        WakePlain(s, p, i);
        WakeEntryView(s, p, i, q, t);
        QueueDistinct(s, p);
        EntryOfUnique(s.queues[p], i);
        WakeAllView(WakeEntry(s, p, i).value, p, i + 1, q, t);
      }
    }
  }

  lemma {:induction false} WakeTimedView(s: State, ts: seq<Tid>, q: QueueId, t: Tid)
    requires Inv(s) && AllIn(ts, s.threads, BlockedQueueTimed) && WaitsOn(s, t, q)
    ensures WakeTimed(s, ts).Ok?
    ensures View(WakeTimed(s, ts).value, q, t) == View(s, q, t) ||
            (View(s, q, t) == Some(Blocked) && View(WakeTimed(s, ts).value, q, t) == Some(Timeout))
    decreases |ts|
  {
    hide Inv, AllIn, ExpireOne;
    WakeTimedKeeps(s, ts);
    if ts != [] {
      AllInTail(ts, s.threads, BlockedQueueTimed, s.ticks);
      if s.threads[ts[0]].sleepTicks > s.ticks {
        WakeTimedView(s, ts[1..], q, t);
      } else {
        ExpireKeeps(s, ts[0]);
        ExpireView(s, ts[0], q, t);
        WakeTimedView(ExpireOne(s, ts[0]).value, ts[1..], q, t);
      }
    }
  }

  lemma ExpireView(s: State, u: Tid, q: QueueId, t: Tid)
    requires Inv(s) && u in s.threads && s.threads[u].state == BlockedQueueTimed && WaitsOn(s, t, q)
    ensures ExpireOne(s, u).Ok?
    ensures View(ExpireOne(s, u).value, q, t) == if u == t then Some(Timeout) else View(s, q, t)
    ensures u == t ==> View(s, q, t) == Some(Blocked)
  {
    hide ListsInv, QueuesInv, SemWaiters, SemCounts, ExpireOne;
    ExpireKeeps(s, u);
    Fields(s, u);
    var p := s.threads[u].blocker.value;
    QueueDistinct(s, p);
    ViewSettled(s.queues[p], EntryOf(s.queues[p], u), Timeout, t);
    WaitView(s, t, q);
  }

  lemma TickView(s: State, q: QueueId, t: Tid)
    requires Inv(s) && WaitsOn(s, t, q) && Step(s, Tick).Ok?
    ensures View(Step(s, Tick).value, q, t) == View(s, q, t) ||
            (View(s, q, t) == Some(Blocked) && View(Step(s, Tick).value, q, t) == Some(Timeout))
  {
    hide Inv, WakeSleepers, WakeTimed;
    ListMembers(s, BlockedSleep);
    WakeSleepersKeeps(s, s.lists.sleeping);
    var s1 := WakeSleepers(s, s.lists.sleeping).value;
    ListMembers(s1, BlockedQueueTimed);
    WakeTimedView(s1, s1.lists.timed, q, t);
  }

  /** What the current thread does to its own entries leaves t's entry alone. */
  lemma OwnStepView(s: State, e: Event, q: QueueId, t: Tid)
    requires Inv(s) && Enabled(s, e) && Step(s, e).Ok? && WaitsOn(s, t, q) && WaitsOn(Step(s, e).value, t, q)
    requires e.Sleep? || e.WaitEnter? || e.EventEnter? || e.WaitLeave? || e.EventRecheck? || e.Acquire?
    ensures View(Step(s, e).value, q, t) == View(s, q, t)
  {
    hide ListsInv, QueuesInv, SemWaiters, SemCounts, BlockThread, SleepThread, Moved;
    match e {
      case Sleep(ms) => SleepForm(s, s.current, ms);
      case WaitLeave =>
        LeaveView(s, s.pc[s.current].queue, q, t);
      case EventRecheck(again, ms) =>
        BlockForm(s, s.current, s.pc[s.current].queue, ms);
        LeaveView(s, s.pc[s.current].queue, q, t);
      case Acquire(p) =>
        BlockForm(s.(counts := s.counts[p := s.counts[p] - 1],
                     logs := s.logs[p := LogAcquire(s.logs[p], s.current, s.counts[p] - 1 < 0)]), s.current, p, 0);
        ViewAppended(s.queues[p], s.current, t);
      case WaitEnter(p, ms) =>
        BlockForm(s, s.current, p, ms);
        ViewAppended(s.queues[p], s.current, t);
      case EventEnter(p, ms) =>
        BlockForm(s, s.current, p, ms);
        ViewAppended(s.queues[p], s.current, t);
    }
  }

  /** Waking the first Blocked entry of queue p. */
  lemma WakeFirstView(s: State, p: QueueId, q: QueueId, t: Tid)
    requires Inv(s) && p in s.queues && FirstBlocked(s.queues[p]) < |s.queues[p]| && WaitsOn(s, t, q)
    ensures WakeEntry(s, p, FirstBlocked(s.queues[p])).Ok?
    ensures var s' := WakeEntry(s, p, FirstBlocked(s.queues[p])).value;
            View(s', q, t) == View(s, q, t) ||
            (p == q && View(s, q, t) == Some(Blocked) && View(s', q, t) == Some(WokenUpNormally))
  {
    hide Inv, WakeEntry;
    WakeEntryView(s, p, FirstBlocked(s.queues[p]), q, t);
    QueueDistinct(s, p);
    EntryOfUnique(s.queues[p], FirstBlocked(s.queues[p]));
  }

  /** One step changes the entry of a thread inside `wait` only from Blocked, and only a wake-up of its
      queue or a timer tick does. */
  lemma EntryEvolves(s: State, e: Event, q: QueueId, t: Tid)
    requires Inv(s) && Enabled(s, e) && Step(s, e).Ok? && WaitsOn(s, t, q) && WaitsOn(Step(s, e).value, t, q)
    ensures var v, v' := View(s, q, t), View(Step(s, e).value, q, t);
            v' == v ||
            (v == Some(Blocked) && v' == Some(Timeout) && e.Tick?) ||
            (v == Some(Blocked) && v' == Some(WokenUpNormally) && (e.WakeUp? || e.WakeUpAll? || e.Release?) && e.q == q)
  {
    hide ListsInv, QueuesInv, SemWaiters, SemCounts, WakeThread, WakeAllFrom, WakeEntry, TimerTick, RemoveThread;
    match e {
      case Tick => TickView(s, q, t);
      case Yield =>
      case WakeUp(p) => WakeFirstView(s, p, q, t);
      case WakeUpAll(p) => WakeAllView(s, p, 0, q, t);
      case Release(p) =>
        if s.counts[p] < 0 {
          SemFields(s, p);
          NoneBlocked(s.queues[p]);
          WakeFirstView(s, p, q, t);
        }
      case Terminate(u) =>
        TerminateKeeps(s, u);
        TerminateView(s, u, q, t);
      case CreateThread(_) =>
      case CreateQueue(_) =>
      case CreateSemaphore(_, _) =>
      case _ => OwnStepView(s, e, q, t);
    }
  }

  lemma LeaveView(s: State, p: QueueId, q: QueueId, t: Tid)
    requires Inv(s) && p in s.queues && s.pc[s.current].Waits(p) && s.threads[s.current].state == Ready && WaitsOn(s, t, q)
    requires s.current != t
    ensures LeaveWait(s, p).Ok? && View(LeaveWait(s, p).value, q, t) == View(s, q, t)
  {
    hide ListsInv, QueuesInv, SemWaiters, SemCounts;
    LeaveKeeps(s, p);
    QueueDistinct(s, p);
    ViewDropped(s.queues[p], EntryOf(s.queues[p], s.current), t);
  }

  lemma TerminateView(s: State, u: Tid, q: QueueId, t: Tid)
    requires Inv(s) && Enabled(s, Terminate(u)) && WaitsOn(s, t, q) && u != t
    ensures RemoveThread(s, u).Ok? && View(RemoveThread(s, u).value, q, t) == View(s, q, t)
  {
    hide ListsInv, QueuesInv, SemWaiters, SemCounts;
    TerminateKeeps(s, u);
    RemoveForm(s, u);
    Fields(s, u);
    if s.threads[u].blocker.Some? {
      QueueDistinct(s, s.threads[u].blocker.value);
      ViewUnlisted(s.queues[s.threads[u].blocker.value], u, t);
    }
  }

  /** From entering `wait` to leaving it, the entry is Blocked up to one step and has its final state
      after it: each wait ends by exactly one wake-up or one timeout, and returns which. */
  lemma WaitEndsOnce(ss: seq<State>, es: seq<Event>, i: nat, j: nat, q: QueueId, t: Tid)
    requires IsRun(ss, es) && Inv(ss[0]) && i < j < |es|
    requires ss[i].current == t && t in ss[i].pc && ss[i].pc[t] == Running && WaitsOn(ss[i + 1], t, q)
    requires forall m :: i < m <= j ==> WaitsOn(ss[m], t, q)
    requires es[j] == WaitLeave && ss[j].current == t
    ensures q in ss[j].queues && HasEntry(ss[j].queues[q], t)
    ensures var result := WaitResult(ss[j], q);
            result != Blocked &&
            exists k :: i < k < j && SettlesAt(es[k], q, result) &&
              (forall m :: i < m <= k ==> View(ss[m], q, t) == Some(Blocked)) &&
              (forall m :: k < m <= j ==> View(ss[m], q, t) == Some(result))
  {
    hide Inv, Step;
    RunKeeps(ss, es, i);
    RunKeeps(ss, es, j);
    EntersBlocked(ss[i], es[i], q, t);
    WaitView(ss[j], t, q);
    LeavesSettled(ss[j], q);
    var k := LastBlocked(ss, es, i + 1, j, q, t);
    RunKeeps(ss, es, k);
    assert Step(ss[k], es[k]) == Ok(ss[k + 1]);
    EntryEvolves(ss[k], es[k], q, t);
    assert SettlesAt(es[k], q, WaitResult(ss[j], q));
  }

  predicate SettlesAt(e: Event, q: QueueId, result: EntryState) {
    if result == Timeout then e.Tick? else (e.WakeUp? || e.WakeUpAll? || e.Release?) && e.q == q
  }

  lemma EntersBlocked(s: State, e: Event, q: QueueId, t: Tid)
    requires Inv(s) && Enabled(s, e) && Step(s, e).Ok? && t in s.pc && s.pc[t] == Running
    requires WaitsOn(Step(s, e).value, t, q)
    ensures View(Step(s, e).value, q, t) == Some(Blocked)
  {
    hide ListsInv, QueuesInv, SemWaiters, SemCounts, WakeThread, WakeEntry, Moved, WakeExpired, WakeAllFrom, WakeOne;
    StepKeeps(s, e);
    var s' := Step(s, e).value;
    WaitView(s', t, q);
    match e {
      case WaitEnter(p, ms) => BlockForm(s, t, p, ms);
      case Acquire(p) =>
        BlockForm(s.(counts := s.counts[p := s.counts[p] - 1],
                     logs := s.logs[p := LogAcquire(s.logs[p], t, s.counts[p] - 1 < 0)]), t, p, 0);
      case _ => SamePc(s, e, t);
    }
  }

  /** Only the thread itself enters a wait. */
  lemma SamePc(s: State, e: Event, t: Tid)
    requires Inv(s) && Enabled(s, e) && Step(s, e).Ok? && t in s.pc && s.pc[t] == Running
    requires !e.WaitEnter? && !e.Acquire? && t in Step(s, e).value.pc
    ensures !InWait(Step(s, e).value.pc[t])
  {
    hide ListsInv, QueuesInv, SemWaiters, SemCounts, BlockThread, SleepThread, WakeAllFrom, WakeOne, WakeEntry,
         WakeExpired, RemoveThread, AddThread, ReleaseSemaphore, Moved;
    match e {
      case Tick => WakeExpiredKeeps(s);
      case Sleep(ms) => SleepForm(s, s.current, ms);
      case EventEnter(q, ms) => BlockForm(s, s.current, q, ms);
      case EventRecheck(again, ms) => BlockForm(s, s.current, s.pc[s.current].queue, ms);
      case WakeUp(q) => WakeOneKeeps(s, q);
      case WakeUpAll(q) => WakeAllKeeps(s, q, 0);
      case Release(q) => ReleaseKeeps(s, q);
      case Terminate(u) => TerminateKeeps(s, u);
      case CreateThread(u) => AddForm(s, u);
      case _ =>
    }
  }

  lemma LeavesSettled(s: State, q: QueueId)
    requires Inv(s) && Enabled(s, WaitLeave) && WaitsOn(s, s.current, q)
    ensures q in s.queues && HasEntry(s.queues[q], s.current) && WaitResult(s, q) != Blocked
    ensures View(s, q, s.current) == Some(WaitResult(s, q))
  {
    LeaveKeeps(s, q);
  }

  /** The last state of a stretch of waiting in which the entry is still Blocked. */
  lemma {:induction false} LastBlocked(ss: seq<State>, es: seq<Event>, i: nat, j: nat, q: QueueId, t: Tid) returns (k: nat)
    requires IsRun(ss, es) && Inv(ss[0]) && i < j < |ss|
    requires forall m :: i <= m <= j ==> WaitsOn(ss[m], t, q)
    requires View(ss[i], q, t) == Some(Blocked) && View(ss[j], q, t) != Some(Blocked)
    ensures i <= k < j
    ensures forall m :: i <= m <= k ==> View(ss[m], q, t) == Some(Blocked)
    ensures forall m :: k < m <= j ==> View(ss[m], q, t) == View(ss[j], q, t)
    decreases j - i
  {
    hide Inv, Step, View;
    RunKeeps(ss, es, j - 1);
    EntryEvolves(ss[j - 1], es[j - 1], q, t);
    if View(ss[j - 1], q, t) == Some(Blocked) {
      k := j - 1;
      if i < k {
        StillBlocked(ss, es, i, k, q, t);
      }
    } else {
      k := LastBlocked(ss, es, i, j - 1, q, t);
    }
  }

  /** An entry that is Blocked now has been Blocked since the wait began. */
  lemma {:induction false} StillBlocked(ss: seq<State>, es: seq<Event>, i: nat, j: nat, q: QueueId, t: Tid)
    requires IsRun(ss, es) && Inv(ss[0]) && i <= j < |ss|
    requires forall m :: i <= m <= j ==> WaitsOn(ss[m], t, q)
    requires View(ss[j], q, t) == Some(Blocked)
    ensures forall m :: i <= m <= j ==> View(ss[m], q, t) == Some(Blocked)
    decreases j - i
  {
    hide Inv, Step, View;
    if i < j {
      RunKeeps(ss, es, j - 1);
      EntryEvolves(ss[j - 1], es[j - 1], q, t);
      StillBlocked(ss, es, i, j - 1, q, t);
    }
  }

  // ---- What wake_up_all reaches ----

  lemma {:induction false} WakeAllFromReaches(s: State, q: QueueId, i: nat, t: Tid)
    requires Inv(s) && PlainQueue(s, q) && i <= |s.queues[q]| && t in s.threads && HasEntry(s.queues[q], t)
    ensures WakeAllFrom(s, q, i).Ok? && t in WakeAllFrom(s, q, i).value.threads
    ensures var s' := WakeAllFrom(s, q, i).value;
            if i <= EntryOf(s.queues[q], t) && EntryView(s.queues[q], t) == Some(Blocked)
            then s'.threads[t].state == Ready else s'.threads[t] == s.threads[t]
    decreases |s.queues[q]| - i
  {
    hide Inv, WakeEntry;
    WakeAllKeeps(s, q, i);
    if i < |s.queues[q]| {
      if s.queues[q][i].state != Blocked {
        WakeAllFromReaches(s, q, i + 1, t);
      } else {
        var es := s.queues[q];
        WakePlain(s, q, i);
        WakeEntryKeeps(s, q, i);
        var s1 := WakeEntry(s, q, i).value;
        QueueDistinct(s, q);
        QueueDistinct(s1, q);
        var k := EntryOf(es, t);
        assert s1.queues[q][k].thread == t;
        EntryOfUnique(s1.queues[q], k);
        WakeAllFromReaches(s1, q, i + 1, t);
      }
    }
  }

  /** Of the threads blocked on a queue, wake_up_all readies exactly those whose entry is Blocked: every
      thread inside `wait`, but no wait_on_event waiter that has been woken once and blocked again. */
  lemma WakeAllReaches(s: State, q: QueueId, t: Tid)
    requires Inv(s) && PlainQueue(s, q) && t in s.threads && s.threads[t].blocker == Some(q)
    ensures WakeAllFrom(s, q, 0).Ok? && t in WakeAllFrom(s, q, 0).value.threads
    ensures WakeAllFrom(s, q, 0).value.threads[t].state == Ready <==> View(s, q, t) == Some(Blocked)
    ensures WaitsOn(s, t, q) ==> View(s, q, t) == Some(Blocked)
  {
    hide ListsInv, QueuesInv, SemWaiters, SemCounts, WakeAllFrom;
    Fields(s, t);
    WakeAllFromReaches(s, q, 0, t);
    if WaitsOn(s, t, q) {
      WaitView(s, t, q);
    }
  }

  const READY := Thread(Ready, Some(ReadyList), None, 0)
  const HELD := Thread(BlockedQueue, Some(BlockedList), Some(7), 0)

  function Scene(blocked: bool, current: Tid, es: seq<Entry>, at: Pc): State {
    State(if blocked then Lists([1], [], [0], []) else Lists([1, 0], [], [], []),
          map[0 := if blocked then HELD else READY, 1 := READY], current, 0,
          map[7 := es], map[], map[0 := at, 1 := Running], map[])
  }

  function TwoThreads(queues: map<QueueId, seq<Entry>>): State {
    State(Lists([0, 1], [], [], []), map[0 := READY, 1 := READY], 0, 0, queues, map[], map[0 := Running, 1 := Running], map[])
  }

  lemma Creation()
    ensures Enabled(Boot(0), CreateThread(1)) && Step(Boot(0), CreateThread(1)) == Ok(TwoThreads(map[]))
    ensures Step(TwoThreads(map[]), CreateQueue(7)) == Ok(TwoThreads(map[7 := []]))
  {
    assert map[0 := READY][1 := Thread(Ready, None, None, 0)][1 := READY] == map[0 := READY, 1 := READY];
    assert map[0 := Running][1 := Running] == map[0 := Running, 1 := Running];
    assert [0] + [1] == [0, 1];
  }

  lemma FirstWait()
    ensures Enabled(TwoThreads(map[7 := []]), EventEnter(7, 0))
    ensures Step(TwoThreads(map[7 := []]), EventEnter(7, 0)) == Ok(Scene(true, 0, [Entry(0, Blocked)], EventYield(7)))
  {
    assert [] + [0] == [0] && [] + [Entry(0, Blocked)] == [Entry(0, Blocked)];
    var m := map[0 := READY, 1 := READY];
    assert IndexOf([0, 1], 0) == 0;
    assert Without([0, 1], 0) == [1];
    assert m[0 := READY.(owner := None)][0 := READY.(owner := Some(BlockedList))][0 := HELD] == map[0 := HELD, 1 := READY];
    assert map[0 := Running, 1 := Running][0 := EventYield(7)] == map[0 := EventYield(7), 1 := Running];
    var none: seq<Entry> := [];
    assert map[7 := none][7 := [Entry(0, Blocked)]] == map[7 := [Entry(0, Blocked)]];
  }

  lemma SecondWait()
    ensures var held := Scene(true, 0, [Entry(0, Blocked)], EventYield(7));
            Enabled(held, Yield) && Step(held, Yield) == Ok(Scene(true, 1, [Entry(0, Blocked)], EventResume(7)))
    ensures var woken := [Entry(0, WokenUpNormally)];
            var s := Scene(false, 0, woken, EventResume(7));
            Enabled(s, EventRecheck(true, 0)) && Step(s, EventRecheck(true, 0)) == Ok(Scene(true, 0, woken, EventYield(7)))
  {
    assert map[0 := EventYield(7), 1 := Running][0 := EventResume(7)] == map[0 := EventResume(7), 1 := Running];
    assert map[0 := EventResume(7), 1 := Running][0 := EventYield(7)] == map[0 := EventYield(7), 1 := Running];
    assert [] + [0] == [0];
    assert IndexOf([1, 0], 0) == 1;
    assert Without([1, 0], 0) == [1];
    assert EntryOf([Entry(0, WokenUpNormally)], 0) == 0;
    var m := map[0 := READY, 1 := READY];
    assert m[0 := READY.(owner := None)][0 := READY.(owner := Some(BlockedList))][0 := HELD] == map[0 := HELD, 1 := READY];
  }

  lemma FirstWaking()
    ensures Step(Scene(true, 1, [Entry(0, Blocked)], EventResume(7)), WakeUpAll(7)) ==
            Ok(Scene(false, 1, [Entry(0, WokenUpNormally)], EventResume(7)))
  {
    var m := map[0 := HELD, 1 := READY];
    assert [1] + [0] == [1, 0];
    assert IndexOf([0], 0) == 0;
    assert Without([0], 0) == [];
    assert [Entry(0, Blocked)][0 := Entry(0, WokenUpNormally)] == [Entry(0, WokenUpNormally)];
    assert m[0 := HELD.(owner := None)][0 := HELD.(owner := Some(ReadyList))][0 := READY] == map[0 := READY, 1 := READY];
    assert map[7 := [Entry(0, Blocked)]][7 := [Entry(0, WokenUpNormally)]] == map[7 := [Entry(0, WokenUpNormally)]];
  }

  lemma SecondWaking()
    ensures var woken := [Entry(0, WokenUpNormally)];
            Step(Scene(false, 1, woken, EventResume(7)), Yield) == Ok(Scene(false, 0, woken, EventResume(7))) &&
            Step(Scene(true, 0, woken, EventYield(7)), Yield) == Ok(Scene(true, 1, woken, EventResume(7))) &&
            Step(Scene(true, 1, woken, EventResume(7)), WakeUpAll(7)) == Ok(Scene(true, 1, woken, EventResume(7)))
  {
    assert IndexOf([1, 0], 1) == 0;
    assert map[0 := EventYield(7), 1 := Running][0 := EventResume(7)] == map[0 := EventResume(7), 1 := Running];
    assert map[0 := EventResume(7), 1 := Running][1 := Running] == map[0 := EventResume(7), 1 := Running];
  }

  /** Such a waiter exists: thread 0 waits on an event, is woken, finds its condition still unmet, blocks
      again, and the next wake_up_all passes it by. */
  lemma LostWakeUp() returns (ss: seq<State>, es: seq<Event>)
    ensures IsRun(ss, es) && ss[0] == Boot(0) && |es| == 9 && es[8] == WakeUpAll(7)
    ensures 0 in ss[9].threads && ss[9].threads[0].state == BlockedQueue && ss[9].threads[0].blocker == Some(7)
    ensures ss[9] == Scene(true, 1, [Entry(0, WokenUpNormally)], EventResume(7))
  {
    hide Step;
    Creation();
    FirstWait();
    FirstWaking();
    SecondWait();
    SecondWaking();
    var blocked, woken := [Entry(0, Blocked)], [Entry(0, WokenUpNormally)];
    es := [CreateThread(1), CreateQueue(7), EventEnter(7, 0), Yield, WakeUpAll(7), Yield, EventRecheck(true, 0),
           Yield, WakeUpAll(7)];
    ss := [Boot(0), TwoThreads(map[]), TwoThreads(map[7 := []]), Scene(true, 0, blocked, EventYield(7)),
           Scene(true, 1, blocked, EventResume(7)), Scene(false, 1, woken, EventResume(7)),
           Scene(false, 0, woken, EventResume(7)), Scene(true, 0, woken, EventYield(7)),
           Scene(true, 1, woken, EventResume(7)), Scene(true, 1, woken, EventResume(7))];
  }

  /** wake_up asserts that an entry is marked blocked, not that nobody waits: after that run thread 0 is blocked on
      queue 7, and wake_up on the queue fails its assertion. */
  lemma WakeUpFailsOnBlocked() returns (ss: seq<State>, es: seq<Event>)
    ensures IsRun(ss, es) && ss[0] == Boot(0) && |es| == 9 && Enabled(ss[9], WakeUp(7)) && Step(ss[9], WakeUp(7)).Panic?
    ensures 0 in ss[9].threads && ss[9].threads[0].state == BlockedQueue && ss[9].threads[0].blocker == Some(7)
  {
    ss, es := LostWakeUp();
    assert FirstBlocked([Entry(0, WokenUpNormally)]) == 1;
  }
}
