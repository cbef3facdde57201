/** What each step does, told as a relation between the state before and the state after: who is on which list, which
    fields and entries are different, and that nothing else is. Every step of every run satisfies it. */
module TaskingEffects {
  import opened Common
  import opened Tasking
  import opened TaskingLists
  import opened TaskingQueues
  import opened TaskingSemaphores
  import opened TaskingRuns
  import opened TaskingTheorems

  // ---- Vocabulary ----

  /** `now` is `was` without its k-th member. */
  predicate LessOne<T(==)>(was: seq<T>, now: seq<T>, k: nat) { k < |was| && now == was[..k] + was[k + 1..] }

  /** t goes from one list to the end of another; the other lists stay. */
  ghost predicate Moves(a: Lists, b: Lists, t: Tid, from: ListName, to: ListName) {
    (exists k: nat :: LessOne(a.At(from), b.At(from), k) && a.At(from)[k] == t) && b.At(to) == a.At(to) + [t] &&
    forall l :: l != from && l != to ==> b.At(l) == a.At(l)
  }

  /** The k-th entry is t's, and t's only one. */
  ghost predicate OwnEntry(es: seq<Entry>, t: Tid, k: nat) {
    k < |es| && es[k].thread == t && forall j :: 0 <= j < |es| && j != k ==> es[j].thread != t
  }

  /** The member of the ready list after the k-th, round the end. */
  function After(ready: seq<Tid>, k: nat): Tid
    requires ready != []
  {
    ready[(k + 1) % |ready|]
  }

  /** Round robin: who runs after `was`. */
  ghost predicate NextUp(ready: seq<Tid>, was: Tid, next: Tid) {
    ready != [] && if was in ready then exists k :: 0 <= k < |ready| && ready[k] == was && next == After(ready, k) else next == ready[0]
  }

  /** The current thread blocks on q, for at most ms ticks if ms is not 0. */
  ghost predicate GoesToWait(s: State, t: State, q: QueueId, ms: nat, at: Pc) {
    s.current in s.threads &&
    Moves(s.lists, t.lists, s.current, ReadyList, if ms == 0 then BlockedList else TimedList) && t.pc == s.pc[s.current := at] &&
    t.threads == s.threads[s.current :=
      if ms == 0 then Thread(BlockedQueue, Some(BlockedList), Some(q), s.threads[s.current].sleepTicks)
      else Thread(BlockedQueueTimed, Some(TimedList), Some(q), (s.ticks + ms) % 0x1_0000_0000)]
  }

  /** The current thread blocks on q with a new entry at the end. */
  ghost predicate EntersQueue(s: State, t: State, q: QueueId, ms: nat, at: Pc) {
    q in s.queues && GoesToWait(s, t, q, ms, at) && t.queues == s.queues[q := s.queues[q] + [Entry(s.current, Blocked)]]
  }

  /** The current thread's entry leaves q, and the thread goes on. */
  ghost predicate LeavesQueue(s: State, t: State, q: QueueId) {
    q in s.queues &&
    exists k: nat :: OwnEntry(s.queues[q], s.current, k) &&
      t == s.(queues := s.queues[q := s.queues[q][..k] + s.queues[q][k + 1..]], pc := s.pc[s.current := Running])
  }

  function MadeReady(th: Thread): Thread { th.(state := Ready, owner := Some(ReadyList), blocker := None) }

  /** The k-th entry of q is the first that is Blocked; it is settled and its thread goes to the end of the ready list. */
  ghost predicate WakesFirst(s: State, t: State, q: QueueId, k: nat) {
    q in s.queues && k < |s.queues[q]| && s.queues[q][k].state == Blocked && (forall j :: 0 <= j < k ==> s.queues[q][j].state != Blocked) &&
    var u := s.queues[q][k].thread;
    u in s.threads && t.queues == s.queues[q := s.queues[q][k := Entry(u, WokenUpNormally)]] &&
    t.threads == s.threads[u := MadeReady(s.threads[u])] && Moves(s.lists, t.lists, u, HomeOf(s.threads[u].state), ReadyList)
  }

  // ---- Blocking ----

  lemma MovedMoves(lists: Lists, t: Tid, from: ListName, to: ListName)
    requires t in lists.At(from) && from != to
    ensures Moves(lists, Moved(lists, t, from, to), t, from, to)
  {
    var k := IndexOf(lists.At(from), t);
    assert LessOne(lists.At(from), Moved(lists, t, from, to).At(from), k);
  }

  lemma BlocksExact(s: State, q: QueueId, ms: nat, at: Pc)
    requires ListsInv(s.lists, s.threads) && s.current in s.threads && s.threads[s.current].state == Ready
    ensures BlockThread(s, s.current, q, ms).Ok?
    ensures var t := BlockThread(s, s.current, q, ms).value;
      GoesToWait(s, GotoPc(t, s.current, at), q, ms, at) && t == s.(lists := t.lists, threads := t.threads)
  {
    hide ListsInv, BlockThread, Moved, Moves;
    BlockForm(s, s.current, q, ms);
    MovedMoves(s.lists, s.current, ReadyList, if ms == 0 then BlockedList else TimedList);
  }

  lemma RunningReady(s: State)
    requires Inv(s) && s.current in s.pc && (s.pc[s.current].Running? || s.pc[s.current].WaitResume? || s.pc[s.current].EventResume?)
    ensures s.current in s.threads && s.threads[s.current].state == Ready && ListsInv(s.lists, s.threads)
  {
    hide ListsInv, QueuesInv, SemWaiters, SemCounts;
    Fields(s, s.current);
  }

  lemma EntersExact(s: State, q: QueueId, ms: nat, at: Pc)
    requires ListsInv(s.lists, s.threads) && s.current in s.threads && s.threads[s.current].state == Ready && q in s.queues
    ensures EnterWait(s, q, ms, at).Ok?
    ensures var t := EnterWait(s, q, ms, at).value;
      EntersQueue(s, t, q, ms, at) && t == s.(lists := t.lists, threads := t.threads, pc := t.pc, queues := t.queues)
  {
    hide ListsInv, BlockThread, Moves;
    BlocksExact(s, q, ms, at);
  }

  lemma OwnEntryOf(s: State, q: QueueId)
    requires Inv(s) && q in s.queues && s.current in s.pc && s.pc[s.current].Waits(q)
    ensures OwnEntry(s.queues[q], s.current, EntryOf(s.queues[q], s.current))
  {
    hide ListsInv, SemWaiters, SemCounts;
    Fields(s, s.current);
    assert EntriesOk(s.queues[q], q, s.pc, s.threads);
  }

  /** A step of wait_on_event's loop, at every point of every run: the waiter leaves exactly when its condition is met
      or its entry timed out. Leaving takes its entry out and touches nothing else; otherwise it blocks on the queue
      again, with its entry as it was. */
  lemma RecheckExact(ss: seq<State>, es: seq<Event>, i: nat)
    requires KernelRun(ss, es) && i < |es| && es[i].EventRecheck?
    ensures |ss| == |es| + 1
    ensures var s, t, c := ss[i], ss[i + 1], ss[i].current;
      c in s.pc && s.pc[c].EventResume? && s.pc[c].queue in s.queues &&
      var q := s.pc[c].queue;
      exists k: nat :: OwnEntry(s.queues[q], c, k) &&
        if !es[i].again || s.queues[q][k].state == Timeout then LeavesQueue(s, t, q)
        else GoesToWait(s, t, q, es[i].ms, EventYield(q)) && t == s.(lists := t.lists, threads := t.threads, pc := t.pc)
  {
    hide Inv, Step, GoesToWait, LeavesQueue;
    Reachable(ss, es, i);
    RunStep(ss, es, i);
    RecheckEffect(ss[i], es[i]);
  }

  lemma RecheckEffect(s: State, e: Event)
    requires Inv(s) && Enabled(s, e) && e.EventRecheck? && Step(s, e).Ok?
    ensures var t, c := Step(s, e).value, s.current;
      c in s.pc && s.pc[c].EventResume? && s.pc[c].queue in s.queues &&
      var q := s.pc[c].queue;
      exists k: nat :: OwnEntry(s.queues[q], c, k) &&
        if !e.again || s.queues[q][k].state == Timeout then LeavesQueue(s, t, q)
        else GoesToWait(s, t, q, e.ms, EventYield(q)) && t == s.(lists := t.lists, threads := t.threads, pc := t.pc)
  {
    hide Inv, ListsInv, BlockThread, GoesToWait;
    var q := s.pc[s.current].queue;
    OwnEntryOf(s, q);
    RunningReady(s);
    BlocksExact(s, q, e.ms, EventYield(q));
    assert OwnEntry(s.queues[q], s.current, EntryOf(s.queues[q], s.current));
  }

  // ---- Waking ----

  lemma WakesExact(s: State, q: QueueId, k: nat)
    requires Inv(s) && q in s.queues && k < |s.queues[q]| && s.queues[q][k].state == Blocked
    requires forall j :: 0 <= j < k ==> s.queues[q][j].state != Blocked
    ensures WakeEntry(s, q, k).Ok?
    ensures var t := WakeEntry(s, q, k).value;
      WakesFirst(s, t, q, k) && t == s.(lists := t.lists, threads := t.threads, queues := t.queues)
  {
    hide ListsInv, QueuesInv, SemWaiters, SemCounts, WakeThread, Moved, Moves;
    var u := s.queues[q][k].thread;
    EntryFields(s, q, k);
    WakeForm(WithQueue(s, q, s.queues[q][k := s.queues[q][k].(state := WokenUpNormally)]), u);
    MovedMoves(s.lists, u, HomeOf(s.threads[u].state), ReadyList);
  }

  /** An entry of q after wake_up_all from the i-th entry on. */
  function SettledFrom(es: seq<Entry>, i: nat, k: nat): Entry
    requires k < |es|
  {
    if k >= i && es[k].state == Blocked then Entry(es[k].thread, WokenUpNormally) else es[k]
  }

  /** u has a Blocked entry from the i-th on. */
  ghost predicate BlockedFrom(es: seq<Entry>, i: nat, u: Tid) { exists k :: i <= k < |es| && es[k] == Entry(u, Blocked) }

  /** Every Blocked entry of q from the i-th on is settled, and exactly the threads of these entries become ready, in
      that order. */
  ghost predicate WakesFrom(s: State, t: State, q: QueueId, i: nat)
    requires q in s.queues && i <= |s.queues[q]|
  {
    var es := s.queues[q];
    t == s.(lists := t.lists, threads := t.threads, queues := t.queues) && t.threads.Keys == s.threads.Keys &&
    t.queues.Keys == s.queues.Keys && (forall p :: p in s.queues && p != q ==> t.queues[p] == s.queues[p]) &&
    |t.queues[q]| == |es| && (forall k :: 0 <= k < |es| ==> t.queues[q][k] == SettledFrom(es, i, k)) &&
    (forall u :: u in s.threads ==> t.threads[u] == if BlockedFrom(es, i, u) then MadeReady(s.threads[u]) else s.threads[u]) &&
    t.lists.ready == s.lists.ready + BlockedOwners(es[i..]) && t.lists.sleeping == s.lists.sleeping
  }

  lemma WakesFromNone(s: State, q: QueueId)
    requires q in s.queues
    ensures WakesFrom(s, s, q, |s.queues[q]|)
  {
    assert s.lists.ready + [] == s.lists.ready;
  }

  lemma WakesFromSkip(s: State, t: State, q: QueueId, i: nat)
    requires q in s.queues && i < |s.queues[q]| && s.queues[q][i].state != Blocked && WakesFrom(s, t, q, i + 1)
    ensures WakesFrom(s, t, q, i)
  {
    var es := s.queues[q];
    assert es[i..] == [es[i]] + es[i + 1..];
    assert forall u :: BlockedFrom(es, i, u) <==> BlockedFrom(es, i + 1, u);
  }

  lemma WakesFromStep(s: State, r: State, t: State, q: QueueId, i: nat)
    requires q in s.queues && i < |s.queues[q]| && s.queues[q][i].state == Blocked && DistinctOwners(s.queues[q])
    requires var u := s.queues[q][i].thread;
      u in s.threads && r == s.(lists := r.lists, threads := s.threads[u := MadeReady(s.threads[u])],
                                queues := s.queues[q := s.queues[q][i := Entry(u, WokenUpNormally)]]) &&
      r.lists.ready == s.lists.ready + [u] && r.lists.sleeping == s.lists.sleeping
    requires WakesFrom(r, t, q, i + 1)
    ensures WakesFrom(s, t, q, i)
  {
    var es, rs, u := s.queues[q], r.queues[q], s.queues[q][i].thread;
    assert es[i..] == [es[i]] + es[i + 1..] && rs[i + 1..] == es[i + 1..];
    assert r.threads.Keys == s.threads.Keys;
    forall v
      ensures BlockedFrom(es, i, v) <==> v == u || BlockedFrom(rs, i + 1, v)
      ensures BlockedFrom(rs, i + 1, v) ==> v != u
    {
      if BlockedFrom(es, i, v) && v != u {
        var k :| i <= k < |es| && es[k] == Entry(v, Blocked);
        assert rs[k] == Entry(v, Blocked);
      }
      if BlockedFrom(rs, i + 1, v) {
        var k :| i + 1 <= k < |rs| && rs[k] == Entry(v, Blocked);
        assert es[k] == Entry(v, Blocked);
      }
      assert es[i] == Entry(u, Blocked);
    }
  }

  lemma {:induction false} WakeAllExact(s: State, q: QueueId, i: nat)
    requires Inv(s) && PlainQueue(s, q) && i <= |s.queues[q]|
    ensures WakeAllFrom(s, q, i).Ok? && WakesFrom(s, WakeAllFrom(s, q, i).value, q, i)
    decreases |s.queues[q]| - i
  {
    hide Inv, WakeEntry, WakesFrom;
    if i == |s.queues[q]| {
      WakesFromNone(s, q);
    } else if s.queues[q][i].state != Blocked {
      WakeAllExact(s, q, i + 1);
      WakesFromSkip(s, WakeAllFrom(s, q, i).value, q, i);
    } else {
      WakePlain(s, q, i);
      WakeOneEntry(s, q, i);
      var r := WakeEntry(s, q, i).value;
      WakeAllExact(r, q, i + 1);
      WakesFromStep(s, r, WakeAllFrom(s, q, i).value, q, i);
    }
  }

  lemma WakeOneEntry(s: State, q: QueueId, i: nat)
    requires Inv(s) && q in s.queues && i < |s.queues[q]| && s.queues[q][i].state == Blocked
    ensures WakeEntry(s, q, i).Ok? && DistinctOwners(s.queues[q])
    ensures var r, u := WakeEntry(s, q, i).value, s.queues[q][i].thread;
      u in s.threads && r == s.(lists := r.lists, threads := s.threads[u := MadeReady(s.threads[u])],
                                queues := s.queues[q := s.queues[q][i := Entry(u, WokenUpNormally)]]) &&
      r.lists.ready == s.lists.ready + [u] && r.lists.sleeping == s.lists.sleeping
  {
    hide ListsInv, SemWaiters, SemCounts, WakeThread, Moved;
    EntryFields(s, q, i);
    assert EntriesOk(s.queues[q], q, s.pc, s.threads);
    var e := s.queues[q][i];
    var s0 := WithQueue(s, q, s.queues[q][i := e.(state := WokenUpNormally)]);
    WakeForm(s0, e.thread);
    assert WakeThread(s0, e.thread).value.lists.At(SleepingList) == s.lists.At(SleepingList);
  }

  // ---- The timer ----

  /** The thread's sleep or timed wait is over. */
  predicate Due(s: State, u: Tid) {
    u in s.threads && (s.threads[u].state == BlockedSleep || s.threads[u].state == BlockedQueueTimed) && s.threads[u].sleepTicks <= s.ticks
  }

  /** An entry of q when the threads of ts have been looked at. */
  function TimedOut(s: State, ts: seq<Tid>, q: QueueId, e: Entry): Entry {
    if e.thread in ts && Due(s, e.thread) && s.threads[e.thread].blocker == Some(q) then Entry(e.thread, Timeout) else e
  }

  ghost predicate Expires(s: State, t: State, ts: seq<Tid>) {
    t == s.(lists := t.lists, threads := t.threads, queues := t.queues) && t.threads.Keys == s.threads.Keys &&
    (forall u :: u in s.threads ==>
      t.threads[u] == if u in ts && Due(s, u) then Thread(Ready, Some(ReadyList), None, 0) else s.threads[u]) &&
    t.queues.Keys == s.queues.Keys && forall q :: q in s.queues ==> EntriesExpire(s, ts, q, s.queues[q], t.queues[q])
  }

  ghost predicate EntriesExpire(s: State, ts: seq<Tid>, q: QueueId, was: seq<Entry>, now: seq<Entry>) {
    |now| == |was| && forall k :: 0 <= k < |was| ==> now[k] == TimedOut(s, ts, q, was[k])
  }

  lemma {:induction false} SleepersExpire(s: State, ts: seq<Tid>)
    requires Inv(s) && AllIn(ts, s.threads, BlockedSleep)
    ensures WakeSleepers(s, ts).Ok? && Expires(s, WakeSleepers(s, ts).value, ts)
    decreases |ts|
  {
    hide Inv, AllIn, WakeThread, Expires;
    WakeSleepersKeeps(s, ts);
    if ts == [] {
      ExpiresNone(s);
    } else {
      var u, rest := ts[0], ts[1..];
      assert ts == [u] + rest;
      AllInTail(ts, s.threads, BlockedSleep, s.ticks);
      if s.threads[u].sleepTicks > s.ticks {
        SleepersExpire(s, rest);
        ExpiresSkip(s, WakeSleepers(s, ts).value, ts);
      } else {
        WakeSleeperKeeps(s, u);
        var s0 := s.(threads := s.threads[u := s.threads[u].(sleepTicks := 0)]);
        var r := WakeThread(s0, u).value;
        WakeFrame(s0, u);
        SleeperBlocker(s, u);
        SleepersExpire(r, rest);
        ExpiresStep(s, r, WakeSleepers(s, ts).value, ts, r.queues);
      }
    }
  }

  lemma SleeperBlocker(s: State, u: Tid)
    requires Inv(s) && u in s.threads && s.threads[u].state == BlockedSleep
    ensures s.threads[u].blocker == None
  {
    hide QueuesInv, SemWaiters, SemCounts;
    Fields(s, u);
  }

  lemma WakeFrame(s: State, u: Tid)
    requires WakeThread(s, u).Ok?
    ensures var r := WakeThread(s, u).value; r == s.(lists := r.lists, threads := r.threads)
  {
  }

  lemma ExpiresNone(s: State)
    ensures Expires(s, s, [])
  {
  }

  lemma ExpiresSkip(s: State, t: State, ts: seq<Tid>)
    requires ts != [] && !Due(s, ts[0]) && Expires(s, t, ts[1..])
    ensures Expires(s, t, ts)
  {
    assert ts == [ts[0]] + ts[1..];
    assert forall u :: u in ts && Due(s, u) <==> u in ts[1..] && Due(s, u);
  }

  /** The first thread of ts has expired, and then the rest are looked at. */
  lemma ExpiresStep(s: State, r: State, t: State, ts: seq<Tid>, queues: map<QueueId, seq<Entry>>)
    requires ts != [] && ts[0] !in ts[1..] && Due(s, ts[0]) && Expires(r, t, ts[1..])
    requires r == s.(lists := r.lists, threads := s.threads[ts[0] := Awake(s.threads[ts[0]])], queues := queues) && queues.Keys == s.queues.Keys
    requires forall q :: q in s.queues ==> EntriesExpire(s, [ts[0]], q, s.queues[q], queues[q])
    ensures Expires(s, t, ts)
  {
    hide EntriesExpire;
    var u, rest := ts[0], ts[1..];
    assert ts == [u] + rest;
    assert r.threads.Keys == s.threads.Keys;
    forall v | v != u
      ensures Due(r, v) == Due(s, v)
    {
    }
    forall q | q in s.queues
      ensures EntriesExpire(s, ts, q, s.queues[q], t.queues[q])
    {
      assert EntriesExpire(r, rest, q, queues[q], t.queues[q]);
      EntriesStep(s, r, ts, q, s.queues[q], queues[q], t.queues[q]);
    }
  }

  lemma EntriesStep(s: State, r: State, ts: seq<Tid>, q: QueueId, was: seq<Entry>, mid: seq<Entry>, now: seq<Entry>)
    requires ts != [] && ts[0] !in ts[1..] && EntriesExpire(s, [ts[0]], q, was, mid) && EntriesExpire(r, ts[1..], q, mid, now)
    requires forall v :: v != ts[0] ==> Due(r, v) == Due(s, v) && (v in s.threads ==> v in r.threads && r.threads[v] == s.threads[v])
    ensures EntriesExpire(s, ts, q, was, now)
  {
    hide Due;
    assert ts == [ts[0]] + ts[1..];
    forall k | 0 <= k < |was|
      ensures now[k] == TimedOut(s, ts, q, was[k])
    {
      assert mid[k] == TimedOut(s, [ts[0]], q, was[k]) && now[k] == TimedOut(r, ts[1..], q, mid[k]);
      DueThere(s, was[k].thread);
    }
  }

  lemma DueThere(s: State, u: Tid)
    ensures Due(s, u) ==> u in s.threads
  {
  }

  lemma ExpireFrame(s: State, u: Tid)
    requires ExpireOne(s, u).Ok?
    ensures var r := ExpireOne(s, u).value; r == s.(lists := r.lists, threads := r.threads, queues := r.queues)
  {
  }

  lemma ExpireEntries(s: State, u: Tid)
    requires Inv(s) && u in s.threads && s.threads[u].state == BlockedQueueTimed && s.threads[u].sleepTicks <= s.ticks
    ensures ExpireOne(s, u).Ok? && ExpireOne(s, u).value.queues.Keys == s.queues.Keys
    ensures forall q :: q in s.queues ==> EntriesExpire(s, [u], q, s.queues[q], ExpireOne(s, u).value.queues[q])
  {
    hide ListsInv, SemWaiters, SemCounts, ExpireOne;
    ExpireKeeps(s, u);
    var q := s.threads[u].blocker.value;
    assert EntriesExpire(s, [u], q, s.queues[q], ExpireOne(s, u).value.queues[q]) by {
      assert EntriesOk(s.queues[q], q, s.pc, s.threads);
    }
  }

  lemma {:induction false} TimedExpire(s: State, ts: seq<Tid>)
    requires Inv(s) && AllIn(ts, s.threads, BlockedQueueTimed)
    ensures WakeTimed(s, ts).Ok? && Expires(s, WakeTimed(s, ts).value, ts)
    decreases |ts|
  {
    hide Inv, AllIn, ExpireOne, Expires;
    WakeTimedKeeps(s, ts);
    if ts == [] {
      ExpiresNone(s);
    } else {
      var u, rest := ts[0], ts[1..];
      assert ts == [u] + rest;
      AllInTail(ts, s.threads, BlockedQueueTimed, s.ticks);
      if s.threads[u].sleepTicks > s.ticks {
        TimedExpire(s, rest);
        ExpiresSkip(s, WakeTimed(s, ts).value, ts);
      } else {
        ExpireKeeps(s, u);
        ExpireFrame(s, u);
        ExpireEntries(s, u);
        var r := ExpireOne(s, u).value;
        TimedExpire(r, rest);
        ExpiresStep(s, r, WakeTimed(s, ts).value, ts, r.queues);
      }
    }
  }

  /** Everybody whose time has come is made ready, sleepers first, each list in its order; the entries of timed waiters
      among them become Timeout; the next thread runs and time goes on. */
  ghost predicate TimerRuns(s: State, t: State) {
    t == s.(lists := t.lists, threads := t.threads, queues := t.queues, current := t.current, ticks := (s.ticks + 1) % 0x1_0000_0000) &&
    t.lists.ready == s.lists.ready + TimerWakes(s) && NextUp(t.lists.ready, s.current, t.current) && t.threads.Keys == s.threads.Keys &&
    (forall u :: u in s.threads ==> t.threads[u] == if Due(s, u) then Thread(Ready, Some(ReadyList), None, 0) else s.threads[u]) &&
    t.queues.Keys == s.queues.Keys && forall q :: q in s.queues ==> QueueTicks(s, q, s.queues[q], t.queues[q])
  }

  ghost predicate QueueTicks(s: State, q: QueueId, was: seq<Entry>, now: seq<Entry>) {
    |now| == |was| &&
    forall k :: 0 <= k < |was| ==>
      now[k] == if Due(s, was[k].thread) && s.threads[was[k].thread].blocker == Some(q) then Entry(was[k].thread, Timeout) else was[k]
  }

  lemma SelectNextUp(s: State)
    requires ListsInv(s.lists, s.threads) && SelectNext(s).Ok?
    ensures NextUp(s.lists.ready, s.current, SelectNext(s).value)
  {
    var ready := s.lists.ready;
    assert ListOk(s.lists.At(ReadyList), ReadyList, s.threads);
    if s.current in ready {
      var k := IndexOf(ready, s.current);
      AfterIs(ready, k);
      assert ready[k] == s.current && SelectNext(s).value == After(ready, k);
    }
  }

  lemma AfterIs(ready: seq<Tid>, k: nat)
    requires k < |ready|
    ensures After(ready, k) == if k + 1 == |ready| then ready[0] else ready[k + 1]
  {
    if k + 1 < |ready| {
      Small(k + 1, |ready|);
    }
  }

  lemma Small(x: nat, n: nat)
    requires x < n
    ensures x % n == x
  {
  }

  lemma HomeLists(s: State)
    requires Inv(s)
    ensures forall u :: u in s.threads ==> (u in s.lists.sleeping <==> s.threads[u].state == BlockedSleep)
    ensures forall u :: u in s.threads ==> (u in s.lists.timed <==> s.threads[u].state == BlockedQueueTimed)
    ensures forall u :: u in s.threads && s.threads[u].state == BlockedSleep ==> s.threads[u].blocker == None
  {
    hide QueuesInv, SemWaiters, SemCounts, ListsInv;
    forall u | u in s.threads
      ensures u in s.lists.sleeping <==> s.threads[u].state == BlockedSleep
      ensures u in s.lists.timed <==> s.threads[u].state == BlockedQueueTimed
      ensures s.threads[u].state == BlockedSleep ==> s.threads[u].blocker == None
    {
      InvLists(s);
      ExactlyOneList(s, u);
      if s.threads[u].state == BlockedSleep {
        SleeperBlocker(s, u);
      }
      assert u in s.lists.At(SleepingList) <==> SleepingList == HomeOf(s.threads[u].state);
      assert u in s.lists.At(TimedList) <==> TimedList == HomeOf(s.threads[u].state);
    }
  }

  lemma TwoExpire(s: State, r: State, t: State)
    requires Expires(s, r, s.lists.sleeping) && Expires(r, t, s.lists.timed)
    requires forall u :: u in s.threads ==> (u in s.lists.sleeping <==> s.threads[u].state == BlockedSleep)
    requires forall u :: u in s.threads ==> (u in s.lists.timed <==> s.threads[u].state == BlockedQueueTimed)
    requires forall u :: u in s.threads && s.threads[u].state == BlockedSleep ==> s.threads[u].blocker == None
    ensures t.threads.Keys == s.threads.Keys && t.queues.Keys == s.queues.Keys
    ensures forall u :: u in s.threads ==> t.threads[u] == if Due(s, u) then Thread(Ready, Some(ReadyList), None, 0) else s.threads[u]
    ensures forall q :: q in s.queues ==> QueueTicks(s, q, s.queues[q], t.queues[q])
  {
    forall u | u in s.threads && u in s.lists.timed
      ensures Due(r, u) == Due(s, u) && r.threads[u] == s.threads[u]
    {
    }
    forall q | q in s.queues
      ensures QueueTicks(s, q, s.queues[q], t.queues[q])
    {
      assert EntriesExpire(s, s.lists.sleeping, q, s.queues[q], r.queues[q]);
      assert EntriesExpire(r, s.lists.timed, q, r.queues[q], t.queues[q]);
      EntriesTwice(s, r, q, s.queues[q], r.queues[q], t.queues[q]);
    }
  }

  lemma EntriesTwice(s: State, r: State, q: QueueId, was: seq<Entry>, mid: seq<Entry>, now: seq<Entry>)
    requires EntriesExpire(s, s.lists.sleeping, q, was, mid) && EntriesExpire(r, s.lists.timed, q, mid, now)
    requires forall u :: u in s.threads && u in s.lists.sleeping ==> s.threads[u].blocker == None
    requires forall u :: Due(s, u) ==> u in s.threads && (u in s.lists.sleeping || u in s.lists.timed)
    requires forall u :: u in s.lists.timed && Due(r, u) ==> u in s.threads
    requires forall u :: u in s.threads && u in s.lists.timed ==> u in r.threads && Due(r, u) == Due(s, u) && r.threads[u] == s.threads[u]
    ensures QueueTicks(s, q, was, now)
  {
    hide Due;
    forall k | 0 <= k < |was|
      ensures now[k] == if Due(s, was[k].thread) && s.threads[was[k].thread].blocker == Some(q) then Entry(was[k].thread, Timeout) else was[k]
    {
      assert mid[k] == was[k];
    }
  }

  lemma TickExact(s: State)
    requires Inv(s) && Enabled(s, Tick) && Step(s, Tick).Ok?
    ensures TimerRuns(s, Step(s, Tick).value)
  {
    hide Inv, WakeSleepers, WakeTimed, Expires, TimerWakes, NextUp, QueueTicks, SelectNext, Due;
    ListMembers(s, BlockedSleep);
    WakeSleepersKeeps(s, s.lists.sleeping);
    SleepersExpire(s, s.lists.sleeping);
    var r := WakeSleepers(s, s.lists.sleeping).value;
    ListMembers(r, BlockedQueueTimed);
    TimedExpire(r, r.lists.timed);
    var w := WakeTimed(r, r.lists.timed).value;
    HomeLists(s);
    TwoExpire(s, r, w);
    WakeExpiredKeeps(s);
    ExpiresFrame(s, r, s.lists.sleeping);
    ExpiresFrame(r, w, r.lists.timed);
    InvLists(w);
    SelectNextUp(w);
  }

  lemma ExpiresFrame(s: State, t: State, ts: seq<Tid>)
    requires Expires(s, t, ts)
    ensures t == s.(lists := t.lists, threads := t.threads, queues := t.queues)
  {
  }

  lemma InvLists(s: State)
    requires Inv(s)
    ensures ListsInv(s.lists, s.threads)
  {
    hide ListsInv, QueuesInv, SemWaiters, SemCounts;
  }

  // ---- Ending a thread ----

  /** Thread u is gone: from its list, from the queue it was blocked on, and from the tables. */
  ghost predicate Ends(s: State, t: State, u: Tid) {
    u in s.threads && t == s.(lists := t.lists, threads := s.threads - {u}, pc := s.pc - {u}, queues := t.queues) &&
    var home, blocker := HomeOf(s.threads[u].state), s.threads[u].blocker;
    (exists k: nat :: LessOne(s.lists.At(home), t.lists.At(home), k) && s.lists.At(home)[k] == u) &&
    (forall l :: l != home ==> t.lists.At(l) == s.lists.At(l)) &&
    if blocker.None? then t.queues == s.queues
    else
      blocker.value in s.queues &&
      exists k: nat :: OwnEntry(s.queues[blocker.value], u, k) &&
        t.queues == s.queues[blocker.value := s.queues[blocker.value][..k] + s.queues[blocker.value][k + 1..]]
  }

  lemma {:induction false} DropOwn(es: seq<Entry>, t: Tid, k: nat)
    requires OwnEntry(es, t, k)
    ensures DropEntries(es, t) == es[..k] + es[k + 1..]
  {
    var rest := es[1..];
    assert forall j :: 0 <= j < |rest| ==> rest[j] == es[j + 1];
    if k == 0 {
      DropAbsent(rest, t);
    } else {
      DropOwn(rest, t, k - 1);
    }
  }

  lemma {:induction false} DropAbsent(es: seq<Entry>, t: Tid)
    requires forall j :: 0 <= j < |es| ==> es[j].thread != t
    ensures DropEntries(es, t) == es
  {
    if es != [] {
      var rest := es[1..];
      assert forall j :: 0 <= j < |rest| ==> rest[j] == es[j + 1];
      DropAbsent(rest, t);
    }
  }

  lemma EndsLists(s: State, u: Tid)
    requires Inv(s) && Enabled(s, Terminate(u))
    ensures RemoveThread(s, u).Ok?
    ensures var t := RemoveThread(s, u).value;
      t == s.(lists := t.lists, threads := s.threads - {u}, pc := s.pc - {u}, queues := t.queues) &&
      u in s.lists.At(HomeOf(s.threads[u].state)) &&
      t.lists == s.lists.With(HomeOf(s.threads[u].state), Without(s.lists.At(HomeOf(s.threads[u].state)), u))
  {
    hide ListsInv, QueuesInv, SemWaiters, SemCounts, HandleTerminated;
    TerminateKeeps(s, u);
    RemoveForm(s, u);
    var th := s.threads[u];
    assert s.threads[u := th.(owner := None)] - {u} == s.threads - {u};
    HandleFrame(RemoveFrom(s, HomeOf(th.state), u).value, u);
  }

  lemma HandleFrame(s: State, u: Tid)
    ensures forall q :: HandleTerminated(s, q, u).Ok? ==> HandleTerminated(s, q, u).value == s.(queues := HandleTerminated(s, q, u).value.queues)
  {
    hide DropEntries;
  }

  lemma EndsQueues(s: State, u: Tid)
    requires Inv(s) && Enabled(s, Terminate(u)) && RemoveThread(s, u).Ok?
    ensures var t, blocker := RemoveThread(s, u).value, s.threads[u].blocker;
      if blocker.None? then t.queues == s.queues
      else
        blocker.value in s.queues &&
        OwnEntry(s.queues[blocker.value], u, EntryOf(s.queues[blocker.value], u)) &&
        t.queues == s.queues[blocker.value := DropEntries(s.queues[blocker.value], u)]
  {
    hide ListsInv, SemWaiters, SemCounts, DropEntries;
    Fields(s, u);
    var th := s.threads[u];
    if th.blocker.Some? {
      assert EntriesOk(s.queues[th.blocker.value], th.blocker.value, s.pc, s.threads);
    }
  }

  lemma EndsExact(s: State, u: Tid)
    requires Inv(s) && Enabled(s, Terminate(u))
    ensures RemoveThread(s, u).Ok? && Ends(s, RemoveThread(s, u).value, u)
  {
    hide Inv, RemoveThread, DropEntries, OwnEntry;
    EndsLists(s, u);
    EndsQueues(s, u);
    var t, home, blocker := RemoveThread(s, u).value, HomeOf(s.threads[u].state), s.threads[u].blocker;
    assert LessOne(s.lists.At(home), t.lists.At(home), IndexOf(s.lists.At(home), u));
    if blocker.Some? {
      DropOwn(s.queues[blocker.value], u, EntryOf(s.queues[blocker.value], u));
    }
  }

  // ---- Every step ----

  /** What step e may make of s. Logs are told by LogsTellHistory. */
  ghost predicate Effect(s: State, e: Event, t: State) {
    var c := s.current;
    match e
    case Tick => TimerRuns(s, t)
    case Yield =>
      c in s.pc && NextUp(s.lists.ready, c, t.current) &&
      t == s.(current := t.current, pc := s.pc[c :=
        match s.pc[c]
        case WaitYield(q) => WaitResume(q)
        case EventYield(q) => EventResume(q)
        case SleepYield => Running
        case at => at])
    case Sleep(ms) =>
      Moves(s.lists, t.lists, c, ReadyList, SleepingList) &&
      t == s.(lists := t.lists, pc := s.pc[c := SleepYield],
              threads := s.threads[c := Thread(BlockedSleep, Some(SleepingList), None, (s.ticks + ms) % 0x1_0000_0000)])
    case WaitEnter(q, ms) =>
      EntersQueue(s, t, q, ms, WaitYield(q)) && t == s.(lists := t.lists, threads := t.threads, pc := t.pc, queues := t.queues)
    case EventEnter(q, ms) =>
      EntersQueue(s, t, q, ms, EventYield(q)) && t == s.(lists := t.lists, threads := t.threads, pc := t.pc, queues := t.queues)
    case WaitLeave => c in s.pc && s.pc[c].WaitResume? && LeavesQueue(s, t, s.pc[c].queue)
    case EventRecheck(again, ms) =>
      c in s.pc && s.pc[c].EventResume? && s.pc[c].queue in s.queues &&
      var q := s.pc[c].queue;
      exists k: nat :: OwnEntry(s.queues[q], c, k) &&
        if !again || s.queues[q][k].state == Timeout then LeavesQueue(s, t, q)
        else GoesToWait(s, t, q, ms, EventYield(q)) && t == s.(lists := t.lists, threads := t.threads, pc := t.pc)
    case WakeUp(q) =>
      (exists k: nat :: WakesFirst(s, t, q, k)) && t == s.(lists := t.lists, threads := t.threads, queues := t.queues)
    case WakeUpAll(q) => q in s.queues && WakesFrom(s, t, q, 0)
    case Acquire(q) =>
      q in s.counts &&
      if s.counts[q] > 0 then t == s.(counts := s.counts[q := s.counts[q] - 1], logs := t.logs)
      else
        EntersQueue(s, t, q, 0, WaitYield(q)) &&
        t == s.(lists := t.lists, threads := t.threads, pc := t.pc, queues := t.queues, counts := s.counts[q := s.counts[q] - 1], logs := t.logs)
    case Release(q) =>
      q in s.counts &&
      if s.counts[q] >= 0 then t == s.(counts := s.counts[q := s.counts[q] + 1], logs := t.logs)
      else
        (exists k: nat :: WakesFirst(s, t, q, k)) &&
        t == s.(lists := t.lists, threads := t.threads, queues := t.queues, counts := s.counts[q := s.counts[q] + 1], logs := t.logs)
    case CreateThread(u) =>
      t == s.(lists := s.lists.(ready := s.lists.ready + [u]), pc := s.pc[u := Running],
              threads := s.threads[u := Thread(Ready, Some(ReadyList), None, 0)])
    case Terminate(u) => Ends(s, t, u)
    case CreateQueue(q) => t == s.(queues := s.queues[q := []])
    case CreateSemaphore(q, initial) => t == s.(queues := s.queues[q := []], counts := s.counts[q := initial], logs := t.logs)
  }

  lemma SleepEffect(s: State, ms: nat)
    requires Inv(s) && Enabled(s, Sleep(ms)) && Step(s, Sleep(ms)).Ok?
    ensures Effect(s, Sleep(ms), Step(s, Sleep(ms)).value)
  {
    hide Inv, ListsInv, SleepThread, Moved, Moves;
    RunningReady(s);
    SleepForm(s, s.current, ms);
    MovedMoves(s.lists, s.current, ReadyList, SleepingList);
  }

  lemma YieldEffect(s: State)
    requires Inv(s) && Enabled(s, Yield) && Step(s, Yield).Ok?
    ensures Effect(s, Yield, Step(s, Yield).value)
  {
    hide Inv, ListsInv, SelectNext, NextUp;
    InvLists(s);
    SelectNextUp(PassYield(s));
  }

  lemma LeaveEffect(s: State)
    requires Inv(s) && Enabled(s, WaitLeave) && Step(s, WaitLeave).Ok?
    ensures Effect(s, WaitLeave, Step(s, WaitLeave).value)
  {
    hide Inv;
    OwnEntryOf(s, s.pc[s.current].queue);
  }

  lemma WakeEffect(s: State, q: QueueId)
    requires Inv(s) && Enabled(s, WakeUp(q)) && Step(s, WakeUp(q)).Ok?
    ensures Effect(s, WakeUp(q), Step(s, WakeUp(q)).value)
  {
    hide Inv, WakeEntry, WakesFirst;
    WakesExact(s, q, FirstBlocked(s.queues[q]));
    assert WakesFirst(s, Step(s, WakeUp(q)).value, q, FirstBlocked(s.queues[q]));
  }

  lemma AcquireEffect(s: State, q: QueueId)
    requires Inv(s) && Enabled(s, Acquire(q)) && Step(s, Acquire(q)).Ok?
    ensures Effect(s, Acquire(q), Step(s, Acquire(q)).value)
  {
    hide Inv, ListsInv, EnterWait, Moves;
    RunningReady(s);
    var count := s.counts[q] - 1;
    var s1 := s.(counts := s.counts[q := count], logs := s.logs[q := LogAcquire(s.logs[q], s.current, count < 0)]);
    EntersExact(s1, q, 0, WaitYield(q));
  }

  lemma ReleaseEffect(s: State, q: QueueId)
    requires Inv(s) && Enabled(s, Release(q)) && Step(s, Release(q)).Ok?
    ensures Effect(s, Release(q), Step(s, Release(q)).value)
  {
    hide Inv, WakeEntry, Moves;
    if s.counts[q] < 0 {
      SemFields(s, q);
      NoneBlocked(s.queues[q]);
      WakesExact(s, q, FirstBlocked(s.queues[q]));
      assert WakesFirst(s, Step(s, Release(q)).value, q, FirstBlocked(s.queues[q]));
    }
  }

  lemma StepEffect(s: State, e: Event)
    requires Inv(s) && Enabled(s, e) && Step(s, e).Ok?
    ensures Effect(s, e, Step(s, e).value)
  {
    hide Inv, ListsInv, EnterWait, GoesToWait, TimerRuns, WakesFrom, Ends, TimerTick, WakeAllFrom, RemoveThread, AddThread;
    match e
    case Tick => TickExact(s);
    case Yield => YieldEffect(s);
    case Sleep(ms) => SleepEffect(s, ms);
    case WaitEnter(q, ms) =>
      RunningReady(s);
      EntersExact(s, q, ms, WaitYield(q));
    case EventEnter(q, ms) =>
      RunningReady(s);
      EntersExact(s, q, ms, EventYield(q));
    case WaitLeave => LeaveEffect(s);
    case EventRecheck(_, _) => RecheckEffect(s, e);
    case WakeUp(q) => WakeEffect(s, q);
    case WakeUpAll(q) => WakeAllExact(s, q, 0);
    case Acquire(q) => AcquireEffect(s, q);
    case Release(q) => ReleaseEffect(s, q);
    case CreateThread(u) =>
      InvLists(s);
      AddForm(s, u);
    case Terminate(u) => EndsExact(s, u);
    case CreateQueue(_) =>
    case CreateSemaphore(_, _) =>
  }

  /** Every step of every run does what Effect says, and nothing else. */
  lemma StepExact(ss: seq<State>, es: seq<Event>, i: nat)
    requires KernelRun(ss, es) && i < |es|
    ensures |ss| == |es| + 1 && Effect(ss[i], es[i], ss[i + 1])
  {
    hide Inv, Step, Effect;
    Reachable(ss, es, i);
    RunStep(ss, es, i);
    StepEffect(ss[i], es[i]);
  }
}
