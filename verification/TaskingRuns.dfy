/** What every step of the tasking code keeps, and what therefore holds over whole runs. */
module TaskingRuns {
  import opened Common
  import opened Tasking
  import opened TaskingLists
  import opened TaskingQueues
  import opened TaskingSemaphores

  /** A thread that is executing its own code, rather than about to yield, is on the ready list. */
  predicate PcInv(s: State) {
    s.current in s.threads && s.current in s.pc &&
    (!s.pc[s.current].AboutToYield() ==> s.threads[s.current].state == Ready)
  }

  ghost predicate Inv(s: State) {
    s.pc.Keys == s.threads.Keys && s.counts.Keys == s.logs.Keys && s.counts.Keys <= s.queues.Keys &&
    PcInv(s) &&
    ListsInv(s.lists, s.threads) &&
    QueuesInv(s.queues, s.pc, s.threads) &&
    SemWaiters(s.counts, s.pc, s.threads) &&
    SemCounts(s.queues, s.counts, s.logs)
  }

  lemma BootInv(t: Tid)
    ensures Inv(Boot(t))
  {
    var s := Boot(t);
    forall l
      ensures ListOk(s.lists.At(l), l, s.threads)
    {
      match l
      case ReadyList =>
      case SleepingList =>
      case BlockedList =>
      case TimedList =>
    }
  }

  lemma Fields(s: State, t: Tid)
    requires Inv(s) && t in s.threads
    ensures ThreadOk(s.threads[t]) && WaiterOk(t, s.queues, s.pc, s.threads)
    ensures SemWaiterOk(t, s.counts, s.pc, s.threads)
  {
  }

  lemma EntryFields(s: State, q: QueueId, i: nat)
    requires Inv(s) && q in s.queues && i < |s.queues[q]|
    ensures EntryOk(s.queues[q][i], q, s.pc, s.threads) && ThreadOk(s.threads[s.queues[q][i].thread])
  {
    assert EntriesOk(s.queues[q], q, s.pc, s.threads);
  }

  /** What waking threads leaves alone: nothing leaves the ready list, threads only become Ready. */
  ghost predicate OnlyWakes(s: State, s': State) {
    s'.current == s.current && s'.ticks == s.ticks && s'.pc == s.pc && s'.counts == s.counts && s'.logs == s.logs &&
    s'.threads.Keys == s.threads.Keys && s'.queues.Keys == s.queues.Keys &&
    s.lists.ready <= s'.lists.ready
  }

  // ---- Wake-up ----

  /** The thread whose Blocked entry is woken really was blocked, so no list assertion fires. */
  lemma WakeEntryKeeps(s: State, q: QueueId, i: nat)
    requires Inv(s)
    requires q in s.queues && i < |s.queues[q]| && s.queues[q][i].state == Blocked
    ensures WakeEntry(s, q, i).Ok?
    ensures var s' := WakeEntry(s, q, i).value;
            var t := s.queues[q][i].thread;
            t in s.threads && s'.lists.ready == s.lists.ready + [t] && OnlyWakes(s, s') &&
            s'.queues == s.queues[q := s.queues[q][i := Entry(t, WokenUpNormally)]] &&
            s'.threads == s.threads[t := s.threads[t].(state := Ready, owner := Some(ReadyList), blocker := None)] &&
            PcInv(s') && ListsInv(s'.lists, s'.threads) && QueuesInv(s'.queues, s'.pc, s'.threads) &&
            SemWaiters(s'.counts, s'.pc, s'.threads)
  {
    hide ListsInv, QueuesInv, SemWaiters, SemCounts, WakeThread, BlockThread, SleepThread, Moved;
    EntryFields(s, q, i);
    var e := s.queues[q][i];
    var th := s.threads[e.thread].(state := Ready, owner := Some(ReadyList), blocker := None);
    WakeForm(WithQueue(s, q, s.queues[q][i := e.(state := WokenUpNormally)]), e.thread);
    SettleEntry(s.queues, s.pc, s.threads, q, i, WokenUpNormally, th);
    Fields(s, e.thread);
    UpdateWaiter(s.counts, s.pc, s.threads, e.thread, s.pc[e.thread], th);
    assert s.pc[e.thread := s.pc[e.thread]] == s.pc;
  }

  lemma WakePlain(s: State, q: QueueId, i: nat)
    requires Inv(s) && PlainQueue(s, q) && i < |s.queues[q]| && s.queues[q][i].state == Blocked
    ensures WakeEntry(s, q, i).Ok? && Inv(WakeEntry(s, q, i).value) && OnlyWakes(s, WakeEntry(s, q, i).value)
    ensures |WakeEntry(s, q, i).value.queues[q]| == |s.queues[q]|
  {
    hide ListsInv, QueuesInv, SemWaiters, SemCounts, WakeThread, BlockThread, SleepThread, Moved;
    WakeEntryKeeps(s, q, i);
    UpdateQueue(s.queues, s.counts, s.logs, q, s.queues[q][i := Entry(s.queues[q][i].thread, WokenUpNormally)]);
  }

  lemma WakeOneKeeps(s: State, q: QueueId)
    requires Inv(s) && PlainQueue(s, q)
    ensures WakeOne(s, q).Panic? <==> FirstBlocked(s.queues[q]) == |s.queues[q]|
    ensures WakeOne(s, q).Ok? ==> Inv(WakeOne(s, q).value) && OnlyWakes(s, WakeOne(s, q).value)
  {
    hide Inv;
    var i := FirstBlocked(s.queues[q]);
    if i < |s.queues[q]| {
      WakePlain(s, q, i);
    }
  }

  lemma {:induction false} WakeAllKeeps(s: State, q: QueueId, i: nat)
    requires Inv(s) && PlainQueue(s, q) && i <= |s.queues[q]|
    ensures WakeAllFrom(s, q, i).Ok?
    ensures Inv(WakeAllFrom(s, q, i).value) && OnlyWakes(s, WakeAllFrom(s, q, i).value)
    decreases |s.queues[q]| - i
  {
    hide Inv;
    if i < |s.queues[q]| {
      if s.queues[q][i].state != Blocked {
        WakeAllKeeps(s, q, i + 1);
      } else {
        WakePlain(s, q, i);
        WakeAllKeeps(WakeEntry(s, q, i).value, q, i + 1);
      }
    }
  }

  // ---- Timer ----

  /** The threads among ts whose deadline has come, in order. */
  function Expired(ts: seq<Tid>, threads: map<Tid, Thread>, ticks: nat): seq<Tid> {
    if ts == [] then []
    else (if ts[0] in threads && threads[ts[0]].sleepTicks <= ticks then [ts[0]] else []) + Expired(ts[1..], threads, ticks)
  }

  ghost predicate AllIn(ts: seq<Tid>, threads: map<Tid, Thread>, state: ThreadState) {
    NoDup(ts) && forall i :: 0 <= i < |ts| ==> ts[i] in threads && threads[ts[i]].state == state
  }

  lemma {:induction false} ExpiredFrame(ts: seq<Tid>, threads: map<Tid, Thread>, threads': map<Tid, Thread>, ticks: nat)
    requires forall i :: 0 <= i < |ts| ==> ts[i] in threads && ts[i] in threads' && threads[ts[i]] == threads'[ts[i]]
    ensures Expired(ts, threads, ticks) == Expired(ts, threads', ticks)
  {
    if ts != [] {
      ExpiredFrame(ts[1..], threads, threads', ticks);
    }
  }

  function Awake(th: Thread): Thread {
    th.(state := Ready, owner := Some(ReadyList), blocker := None, sleepTicks := 0)
  }

  lemma AllInTail(ts: seq<Tid>, threads: map<Tid, Thread>, state: ThreadState, ticks: nat)
    requires AllIn(ts, threads, state) && ts != []
    ensures ts[0] in threads && threads[ts[0]].state == state && ts[0] !in ts[1..]
    ensures AllIn(ts[1..], threads, state)
    ensures var threads' := threads[ts[0] := Awake(threads[ts[0]])];
            AllIn(ts[1..], threads', state) && Expired(ts[1..], threads', ticks) == Expired(ts[1..], threads, ticks)
  {
    assert forall i :: 0 <= i < |ts[1..]| ==> ts[1..][i] == ts[i + 1] != ts[0];
    ExpiredFrame(ts[1..], threads, threads[ts[0] := Awake(threads[ts[0]])], ticks);
  }

  /** Clearing the deadline changes nothing the lists depend on. */
  lemma ClearDeadline(s: State, t: Tid)
    requires ListsInv(s.lists, s.threads) && t in s.threads
    ensures ListsInv(s.lists, s.threads[t := s.threads[t].(sleepTicks := 0)])
  {
    assert forall l :: ListOk(s.lists.At(l), l, s.threads) ==>
                         ListOk(s.lists.At(l), l, s.threads[t := s.threads[t].(sleepTicks := 0)]);
  }

  lemma WakeSleeperKeeps(s: State, t: Tid)
    requires Inv(s) && t in s.threads && s.threads[t].state == BlockedSleep
    ensures var s0 := s.(threads := s.threads[t := s.threads[t].(sleepTicks := 0)]);
            WakeThread(s0, t).Ok? &&
            var s1 := WakeThread(s0, t).value;
            Inv(s1) && OnlyWakes(s, s1) && s1.queues == s.queues &&
            s1.lists.ready == s.lists.ready + [t] && s1.lists.timed == s.lists.timed &&
            s1.threads == s.threads[t := Awake(s.threads[t])]
  {
    hide ListsInv, QueuesInv, SemWaiters, SemCounts, WakeThread, BlockThread, SleepThread, Moved;
    Fields(s, t);
    ClearDeadline(s, t);
    var s0 := s.(threads := s.threads[t := s.threads[t].(sleepTicks := 0)]);
    WakeForm(s0, t);
    var s1 := WakeThread(s0, t).value;
    assert s1.threads == s.threads[t := Awake(s.threads[t])];
    assert s1.lists.At(TimedList) == s.lists.At(TimedList);
    SameBlocker(s.queues, s.pc, s.threads, t, Awake(s.threads[t]));
    UpdateWaiter(s.counts, s.pc, s.threads, t, s.pc[t], Awake(s.threads[t]));
    assert s.pc[t := s.pc[t]] == s.pc;
  }

  lemma {:induction false} WakeSleepersKeeps(s: State, ts: seq<Tid>)
    requires Inv(s) && AllIn(ts, s.threads, BlockedSleep)
    ensures WakeSleepers(s, ts).Ok?
    ensures var s' := WakeSleepers(s, ts).value;
            Inv(s') && OnlyWakes(s, s') && s'.lists.timed == s.lists.timed && s'.queues == s.queues &&
            s'.lists.ready == s.lists.ready + Expired(ts, s.threads, s.ticks) &&
            forall t :: t in s.threads && t !in ts ==> s'.threads[t] == s.threads[t]
    decreases |ts|
  {
    hide Inv, AllIn, WakeThread, ExpireOne;
    if ts != [] {
      var t, rest := ts[0], ts[1..];
      assert ts == [t] + rest;
      AllInTail(ts, s.threads, BlockedSleep, s.ticks);
      if s.threads[t].sleepTicks > s.ticks {
        WakeSleepersKeeps(s, rest);
      } else {
        WakeSleeperKeeps(s, t);
        WakeSleepersKeeps(WakeThread(s.(threads := s.threads[t := s.threads[t].(sleepTicks := 0)]), t).value, rest);
      }
    }
  }

  /** A thread that timed out finds its own entry, so the queue assertion holds. */
  lemma ExpireKeeps(s: State, t: Tid)
    requires Inv(s) && t in s.threads && s.threads[t].state == BlockedQueueTimed
    ensures ExpireOne(s, t).Ok?
    ensures var s1 := ExpireOne(s, t).value;
            Inv(s1) && OnlyWakes(s, s1) && s1.lists.ready == s.lists.ready + [t] &&
            s1.threads == s.threads[t := Awake(s.threads[t])]
    ensures s.threads[t].blocker.Some? && s.threads[t].blocker.value in s.queues
    ensures var q := s.threads[t].blocker.value;
            HasEntry(s.queues[q], t) &&
            ExpireOne(s, t).value.queues == s.queues[q := s.queues[q][EntryOf(s.queues[q], t) := Entry(t, Timeout)]]
  {
    hide ListsInv, QueuesInv, SemWaiters, SemCounts, WakeThread, BlockThread, SleepThread, Moved;
    Fields(s, t);
    var q := s.threads[t].blocker.value;
    var es := s.queues[q];
    var i := EntryOf(es, t);
    var s0 := s.(threads := s.threads[t := s.threads[t].(sleepTicks := 0)]);
    var s1 := HandleTimeout(s0, q, t).value;
    ClearDeadline(s, t);
    WakeForm(s1, t);
    assert WakeThread(s1, t).value.threads == s.threads[t := Awake(s.threads[t])];
    SettleEntry(s.queues, s.pc, s.threads, q, i, Timeout, Awake(s.threads[t]));
    UpdateQueue(s.queues, s.counts, s.logs, q, es[i := Entry(t, Timeout)]);
    UpdateWaiter(s.counts, s.pc, s.threads, t, s.pc[t], Awake(s.threads[t]));
    assert s.pc[t := s.pc[t]] == s.pc;
  }

  lemma {:induction false} WakeTimedKeeps(s: State, ts: seq<Tid>)
    requires Inv(s) && AllIn(ts, s.threads, BlockedQueueTimed)
    ensures WakeTimed(s, ts).Ok?
    ensures var s' := WakeTimed(s, ts).value;
            Inv(s') && OnlyWakes(s, s') &&
            s'.lists.ready == s.lists.ready + Expired(ts, s.threads, s.ticks) &&
            forall t :: t in s.threads && t !in ts ==> s'.threads[t] == s.threads[t]
    decreases |ts|
  {
    hide Inv, AllIn, WakeThread, ExpireOne;
    if ts != [] {
      var t, rest := ts[0], ts[1..];
      assert ts == [t] + rest;
      AllInTail(ts, s.threads, BlockedQueueTimed, s.ticks);
      if s.threads[t].sleepTicks > s.ticks {
        WakeTimedKeeps(s, rest);
      } else {
        ExpireKeeps(s, t);
        WakeTimedKeeps(ExpireOne(s, t).value, rest);
      }
    }
  }

  lemma ListMembers(s: State, state: ThreadState)
    requires Inv(s)
    ensures AllIn(s.lists.At(HomeOf(state)), s.threads, state)
  {
    var l := HomeOf(state);
    assert ListOk(s.lists.At(l), l, s.threads);
    forall i | 0 <= i < |s.lists.At(l)|
      ensures s.lists.At(l)[i] in s.threads && s.threads[s.lists.At(l)[i]].state == state
    {
      assert s.lists.At(l)[i] in s.lists.At(l);
      assert ThreadOk(s.threads[s.lists.At(l)[i]]);
    }
  }

  /** The threads a timer interrupt makes ready: the expired sleepers, then the expired timed waiters. */
  function TimerWakes(s: State): seq<Tid> {
    Expired(s.lists.sleeping, s.threads, s.ticks) + Expired(s.lists.timed, s.threads, s.ticks)
  }

  lemma WakeExpiredKeeps(s: State)
    requires Inv(s)
    ensures WakeExpired(s).Ok?
    ensures Inv(WakeExpired(s).value) && OnlyWakes(s, WakeExpired(s).value)
    ensures WakeExpired(s).value.lists.ready == s.lists.ready + TimerWakes(s)
  {
    hide Inv, WakeSleepers, WakeTimed, Expired;
    ListMembers(s, BlockedSleep);
    ListMembers(s, BlockedQueueTimed);
    WakeSleepersKeeps(s, s.lists.sleeping);
    var s1 := WakeSleepers(s, s.lists.sleeping).value;
    ListMembers(s1, BlockedQueueTimed);
    ExpiredFrame(s.lists.timed, s.threads, s1.threads, s.ticks);
    WakeTimedKeeps(s1, s1.lists.timed);
  }

  // ---- Every step ----

  lemma SelectKeeps(s: State)
    requires ListsInv(s.lists, s.threads) && s.lists.ready != []
    ensures SelectNext(s).Ok? && SelectNext(s).value in s.lists.ready
    ensures SelectNext(s).value in s.threads && s.threads[SelectNext(s).value].state == Ready
  {
    assert ListOk(s.lists.At(ReadyList), ReadyList, s.threads);
    assert SelectNext(s).value in s.lists.ready;
    assert ThreadOk(s.threads[SelectNext(s).value]);
  }

  lemma YieldKeeps(s: State)
    requires Inv(s) && Enabled(s, Yield)
    ensures Step(s, Yield).Panic? <==> s.lists.ready == []
    ensures Step(s, Yield).Ok? ==> Inv(Step(s, Yield).value)
  {
    hide ListsInv, QueuesInv, SemWaiters, SemCounts, WakeThread, BlockThread, SleepThread, Moved;
    var at := s.pc[s.current].AfterYield();
    Fields(s, s.current);
    MovePc(s.queues, s.pc, s.threads, s.current, at);
    UpdateWaiter(s.counts, s.pc, s.threads, s.current, at, s.threads[s.current]);
    assert s.threads[s.current := s.threads[s.current]] == s.threads;
    if s.lists.ready != [] {
      SelectKeeps(PassYield(s));
    }
  }

  lemma TickKeeps(s: State)
    requires Inv(s)
    ensures Step(s, Tick).Panic? <==> s.lists.ready + TimerWakes(s) == []
    ensures Step(s, Tick).Ok? ==> Inv(Step(s, Tick).value)
  {
    hide ListsInv, QueuesInv, SemWaiters, SemCounts, WakeThread, BlockThread, SleepThread, Moved;
    WakeExpiredKeeps(s);
    var s1 := WakeExpired(s).value;
    if s1.lists.ready != [] {
      SelectKeeps(s1);
    }
  }

  lemma SleepKeeps(s: State, ms: nat)
    requires Inv(s) && Enabled(s, Sleep(ms))
    ensures Step(s, Sleep(ms)).Ok? && Inv(Step(s, Sleep(ms)).value)
  {
    hide ListsInv, QueuesInv, SemWaiters, SemCounts, WakeThread, BlockThread, SleepThread, Moved;
    Fields(s, s.current);
    SleepForm(s, s.current, ms);
    var th := Thread(BlockedSleep, Some(SleepingList), None, Deadline(s, ms));
    SameBlocker(s.queues, s.pc, s.threads, s.current, th);
    MovePc(s.queues, s.pc, s.threads[s.current := th], s.current, SleepYield);
    UpdateWaiter(s.counts, s.pc, s.threads, s.current, SleepYield, th);
  }

  lemma EnterKeeps(s: State, q: QueueId, ms: nat, at: Pc)
    requires Inv(s) && CurrentAt(s, Running) && PlainQueue(s, q)
    requires at == WaitYield(q) || at == EventYield(q)
    ensures EnterWait(s, q, ms, at).Ok? && Inv(EnterWait(s, q, ms, at).value)
  {
    hide ListsInv, QueuesInv, SemWaiters, SemCounts, WakeThread, BlockThread, SleepThread, Moved;
    var th := BlockedThread(s, s.current, q, ms);
    BlockForm(s, s.current, q, ms);
    AddEntry(s.queues, s.pc, s.threads, q, s.current, th, at);
    UpdateQueue(s.queues, s.counts, s.logs, q, s.queues[q] + [Entry(s.current, Blocked)]);
    UpdateWaiter(s.counts, s.pc, s.threads, s.current, at, th);
  }

  /** A resumed waiter finds its entry, and the entry says how the wait ended: not Blocked. */
  lemma LeaveKeeps(s: State, q: QueueId)
    requires Inv(s) && s.pc[s.current].Waits(q) && q in s.queues && s.threads[s.current].state == Ready
    ensures LeaveWait(s, q).Ok? && Inv(LeaveWait(s, q).value)
    ensures HasEntry(s.queues[q], s.current) && WaitResult(s, q) != Blocked
  {
    hide ListsInv, QueuesInv, SemWaiters, SemCounts, WakeThread, BlockThread, SleepThread, Moved;
    Fields(s, s.current);
    DropEntry(s.queues, s.pc, s.threads, q, s.current);
    var es := s.queues[q];
    var i := EntryOf(es, s.current);
    EntryFields(s, q, i);
    DropSettled(es, i);
    UpdateQueue(s.queues, s.counts, s.logs, q, es[..i] + es[i + 1..]);
    UpdateWaiter(s.counts, s.pc, s.threads, s.current, Running, s.threads[s.current]);
    assert s.threads[s.current := s.threads[s.current]] == s.threads;
  }

  lemma RecheckKeeps(s: State, q: QueueId, again: bool, ms: nat)
    requires Inv(s) && s.pc[s.current] == EventResume(q) && q in s.queues
    ensures Recheck(s, q, again, ms).Ok? && Inv(Recheck(s, q, again, ms).value)
  {
    hide ListsInv, QueuesInv, SemWaiters, SemCounts, WakeThread, BlockThread, SleepThread, Moved;
    Fields(s, s.current);
    if again && WaitResult(s, q) != Timeout {
      var th := BlockedThread(s, s.current, q, ms);
      BlockForm(s, s.current, q, ms);
      Reblock(s.queues, s.pc, s.threads, q, s.current, th);
      UpdateWaiter(s.counts, s.pc, s.threads, s.current, EventYield(q), th);
    } else {
      LeaveKeeps(s, q);
    }
  }

  lemma SemFields(s: State, q: QueueId)
    requires Inv(s) && q in s.counts
    ensures q in s.queues && q in s.logs && SemOk(s.queues[q], s.counts[q], s.logs[q])
  {
  }

  lemma AcquireKeeps(s: State, q: QueueId)
    requires Inv(s) && Enabled(s, Acquire(q))
    ensures AcquireSemaphore(s, q).Ok? && Inv(AcquireSemaphore(s, q).value)
  {
    hide ListsInv, QueuesInv, SemWaiters, SemCounts, WakeThread, BlockThread, SleepThread, Moved;
    var t, es := s.current, s.queues[q];
    var count := s.counts[q] - 1;
    var log := LogAcquire(s.logs[q], t, count < 0);
    SemFields(s, q);
    if count < 0 {
      var s1 := s.(counts := s.counts[q := count], logs := s.logs[q := log]);
      var th := BlockedThread(s1, t, q, 0);
      BlockForm(s1, t, q, 0);
      AddEntry(s.queues, s.pc, s.threads, q, t, th, WaitYield(q));
      BlockedOwnersConcat(es, [Entry(t, Blocked)]);
      UpdateSemaphore(s.queues, s.counts, s.logs, q, es + [Entry(t, Blocked)], count, log);
      UpdateWaiter(s.counts, s.pc, s.threads, t, WaitYield(q), th);
      SameSemaphores(s.counts, s.counts[q := count], s.pc[t := WaitYield(q)], s.threads[t := th]);
    } else {
      UpdateSemaphore(s.queues, s.counts, s.logs, q, es, count, log);
      SameSemaphores(s.counts, s.counts[q := count], s.pc, s.threads);
      assert s.queues[q := es] == s.queues;
    }
  }

  lemma SameSemaphores(counts: map<QueueId, int>, counts': map<QueueId, int>, pc: map<Tid, Pc>, threads: map<Tid, Thread>)
    requires SemWaiters(counts, pc, threads) && counts.Keys == counts'.Keys
    ensures SemWaiters(counts', pc, threads)
  {
    assert forall u :: u in threads ==> SemWaiterOk(u, counts, pc, threads);
  }

  lemma ReleaseServes(s: State, q: QueueId)
    requires Inv(s) && SemaphoreQueue(s, q) && s.counts[q] < 0
    ensures ReleaseSemaphore(s, q).Ok? && Inv(ReleaseSemaphore(s, q).value)
    ensures var s' := ReleaseSemaphore(s, q).value;
            s'.current == s.current && s'.pc == s.pc && s'.threads.Keys == s.threads.Keys
    ensures BlockedOwners(s.queues[q]) != [] &&
            ReleaseSemaphore(s, q).value.lists.ready == s.lists.ready + [BlockedOwners(s.queues[q])[0]]
  {
    hide ListsInv, QueuesInv, SemWaiters, SemCounts, WakeThread, BlockThread, SleepThread, Moved;
    SemFields(s, q);
    var es, count := s.queues[q], s.counts[q] + 1;
    var log := LogRelease(s.logs[q], s.current);
    var i := FirstBlocked(es);
    NoneBlocked(es);
    WakeEntryKeeps(s, q, i);
    ServeFirst(es, WokenUpNormally);
    var es' := es[i := Entry(es[i].thread, WokenUpNormally)];
    UpdateSemaphore(s.queues, s.counts, s.logs, q, es', count, LogHandOff(log, es[i].thread));
    SameSemaphores(s.counts, s.counts[q := count], s.pc, WakeEntry(s, q, i).value.threads);
  }

  lemma ReleaseIdle(s: State, q: QueueId)
    requires Inv(s) && SemaphoreQueue(s, q) && s.counts[q] >= 0
    ensures ReleaseSemaphore(s, q).Ok? && Inv(ReleaseSemaphore(s, q).value)
    ensures var s' := ReleaseSemaphore(s, q).value;
            s'.current == s.current && s'.pc == s.pc && s'.threads.Keys == s.threads.Keys && s'.lists == s.lists
  {
    hide ListsInv, QueuesInv, SemWaiters, SemCounts, WakeThread, BlockThread, SleepThread, Moved;
    SemFields(s, q);
    var es, count := s.queues[q], s.counts[q] + 1;
    UpdateSemaphore(s.queues, s.counts, s.logs, q, es, count, LogRelease(s.logs[q], s.current));
    SameSemaphores(s.counts, s.counts[q := count], s.pc, s.threads);
    assert s.queues[q := es] == s.queues;
  }

  /** A release that looks for a waiter always finds one, the one that has waited longest. */
  lemma ReleaseKeeps(s: State, q: QueueId)
    requires Inv(s) && SemaphoreQueue(s, q)
    ensures ReleaseSemaphore(s, q).Ok? && Inv(ReleaseSemaphore(s, q).value)
    ensures var s' := ReleaseSemaphore(s, q).value;
            s'.current == s.current && s'.pc == s.pc && s'.threads.Keys == s.threads.Keys
    ensures s.counts[q] < 0 ==>
              BlockedOwners(s.queues[q]) != [] &&
              ReleaseSemaphore(s, q).value.lists.ready == s.lists.ready + [BlockedOwners(s.queues[q])[0]]
    ensures s.counts[q] >= 0 ==> ReleaseSemaphore(s, q).value.lists == s.lists
  {
    hide Inv, ReleaseSemaphore, BlockedOwners;
    if s.counts[q] < 0 {
      ReleaseServes(s, q);
    } else {
      ReleaseIdle(s, q);
    }
  }

  lemma TerminateKeeps(s: State, t: Tid)
    requires Inv(s) && Enabled(s, Terminate(t))
    ensures RemoveThread(s, t).Ok? && Inv(RemoveThread(s, t).value) && RemoveThread(s, t).value.pc == s.pc - {t}
    ensures RemoveThread(s, t).value.lists ==
            (var l := HomeOf(s.threads[t].state);
             s.lists.With(l, if t in s.lists.At(l) then Without(s.lists.At(l), t) else []))
  {
    hide ListsInv, QueuesInv, SemWaiters, SemCounts, WakeThread, BlockThread, SleepThread, Moved;
    RemoveForm(s, t);
    Fields(s, t);
    var th := s.threads[t];
    assert s.threads[t := th.(owner := None)] - {t} == s.threads - {t};
    DropWaiter(s.counts, s.pc, s.threads, t);
    if th.blocker.Some? {
      var q := th.blocker.value;
      DropThread(s.queues, s.pc, s.threads, q, t);
      UpdateQueue(s.queues, s.counts, s.logs, q, DropEntries(s.queues[q], t));
    } else {
      DropBystander(s.queues, s.pc, s.threads, t);
    }
  }

  lemma NewSemaphore(s: State, q: QueueId, initial: int)
    requires Inv(s) && q !in s.queues && initial >= 0
    ensures SemWaiters(s.counts[q := initial], s.pc, s.threads)
  {
    forall u | u in s.threads
      ensures SemWaiterOk(u, s.counts[q := initial], s.pc, s.threads)
    {
      Fields(s, u);
    }
  }

  lemma CreateKeeps(s: State, e: Event)
    requires Inv(s) && Enabled(s, e) && (e.CreateThread? || e.CreateQueue? || e.CreateSemaphore?)
    ensures Step(s, e).Ok? && Inv(Step(s, e).value)
  {
    hide ListsInv, QueuesInv, SemWaiters, SemCounts, WakeThread, BlockThread, SleepThread, Moved;
    match e
    case CreateThread(t) =>
      var th := Thread(Ready, Some(ReadyList), None, 0);
      AddForm(s, t);
      AddWaiterless(s.queues, s.pc, s.threads, t, th);
      UpdateWaiter(s.counts, s.pc, s.threads, t, Running, th);
    case CreateQueue(q) =>
      AddQueue(s.queues, s.pc, s.threads, q);
      UpdateQueue(s.queues, s.counts, s.logs, q, []);
    case CreateSemaphore(q, initial) =>
      AddQueue(s.queues, s.pc, s.threads, q);
      NewSemaphore(s, q, initial);
      UpdateSemaphore(s.queues, s.counts, s.logs, q, [], initial, SemLog(initial, 0, 0, [], [], multiset{}, 0));
  }

  /** The only ways a step can fail an assertion: the scheduler runs with nothing to run, or wake_up is
      called on a queue none of whose entries is marked blocked. */
  ghost predicate Fails(s: State, e: Event)
    requires Enabled(s, e)
  {
    (e.Yield? && s.lists.ready == []) ||
    (e.Tick? && s.lists.ready + TimerWakes(s) == []) ||
    (e.WakeUp? && forall i :: 0 <= i < |s.queues[e.q]| ==> s.queues[e.q][i].state != Blocked)
  }

  /** Every step keeps the invariant, and exactly the named cases fail an assertion. */
  lemma StepKeeps(s: State, e: Event)
    requires Inv(s) && Enabled(s, e)
    ensures Step(s, e).Panic? <==> Fails(s, e)
    ensures Step(s, e).Ok? ==> Inv(Step(s, e).value)
  {
    hide ListsInv, QueuesInv, SemWaiters, SemCounts, WakeThread, BlockThread, SleepThread, Moved;
    match e
    case Tick => TickKeeps(s);
    case Yield => YieldKeeps(s);
    case Sleep(ms) => SleepKeeps(s, ms);
    case WaitEnter(q, ms) => EnterKeeps(s, q, ms, WaitYield(q));
    case EventEnter(q, ms) => EnterKeeps(s, q, ms, EventYield(q));
    case WaitLeave => LeaveKeeps(s, s.pc[s.current].queue);
    case EventRecheck(again, ms) => RecheckKeeps(s, s.pc[s.current].queue, again, ms);
    case WakeUp(q) => WakeOneKeeps(s, q);
    case WakeUpAll(q) => WakeAllKeeps(s, q, 0);
    case Acquire(q) => AcquireKeeps(s, q);
    case Release(q) => ReleaseKeeps(s, q);
    case Terminate(t) => TerminateKeeps(s, t);
    case _ => CreateKeeps(s, e);
  }

  lemma {:induction false} RunKeeps(ss: seq<State>, es: seq<Event>, i: nat)
    requires IsRun(ss, es) && Inv(ss[0]) && i < |ss|
    ensures Inv(ss[i])
  {
    hide Inv;
    if i > 0 {
      RunKeeps(ss, es, i - 1);
      StepKeeps(ss[i - 1], es[i - 1]);
    }
  }
}
