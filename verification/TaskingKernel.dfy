/** The tasking code as it runs: static lists and thread, queue and semaphore fields updated in place.
    Each method is proved against the step function that specifies it; `ok` is false when an assertion
    of the source fails, and then nothing is promised about the state. */
module TaskingKernel {
  import opened Common
  import opened Tasking
  import opened TaskingLists
  import opened TaskingQueues
  import opened TaskingRuns
  import opened TaskingEffects

  /** Vector::remove_if of the entries of a thread: the index stays where an entry was taken out. */
  method RemoveIf(es: seq<Entry>, t: Tid) returns (r: seq<Entry>, removed: bool)
    ensures r == DropEntries(es, t) && (removed <==> EntryOf(es, t) < |es|)
  {
    hide DropEntries, Removing;
    r, removed := es, false;
    var i := 0;
    ghost var k := 0;
    RemovingStart(es, t);
    while i < |r|
      invariant k <= |es| && Removing(es, t, r, i, k, removed)
      decreases |r| - i
    {
      RemovingStep(es, t, r, i, k, removed);
      if r[i].thread == t {
        r, removed := r[..i] + r[i + 1..], true;
      } else {
        i := i + 1;
      }
      k := k + 1;
    }
    RemovingEnd(es, t, r, i, k, removed);
  }

  /** Up to i the vector holds what is kept of the first k entries, and from i on what is left of them all. */
  ghost predicate Removing(es: seq<Entry>, t: Tid, r: seq<Entry>, i: nat, k: nat, removed: bool)
    requires k <= |es|
  {
    i <= |r| && r[..i] == DropEntries(es[..k], t) && r[i..] == es[k..] && (removed <==> EntryOf(es, t) < k)
  }

  lemma RemovingStart(es: seq<Entry>, t: Tid)
    ensures Removing(es, t, es, 0, 0, false)
  {
    assert es[0..] == es && es[..0] == [];
  }

  lemma RemovingStep(es: seq<Entry>, t: Tid, r: seq<Entry>, i: nat, k: nat, removed: bool)
    requires k <= |es| && Removing(es, t, r, i, k, removed) && i < |r|
    ensures k < |es|
    ensures if r[i].thread == t then Removing(es, t, r[..i] + r[i + 1..], i, k + 1, true) else Removing(es, t, r, i + 1, k + 1, removed)
  {
    hide DropEntries;
    assert |r[i..]| == |es[k..]|;
    assert r[i] == r[i..][0] == es[k];
    assert r[i + 1..] == r[i..][1..] == es[k..][1..] == es[k + 1..];
    DropSnoc(es[..k], es[k], t);
    assert es[..k + 1] == es[..k] + [es[k]];
    if r[i].thread == t {
      var cut := r[..i] + r[i + 1..];
      assert cut[..i] == r[..i] && cut[i..] == r[i + 1..];
    } else {
      assert r[..i + 1] == r[..i] + [es[k]];
    }
  }

  lemma {:induction false} DropSnoc(es: seq<Entry>, e: Entry, t: Tid)
    ensures DropEntries(es + [e], t) == DropEntries(es, t) + if e.thread == t then [] else [e]
  {
    if es == [] {
      assert [e][1..] == [] && es + [e] == [e];
    } else {
      DropSnoc(es[1..], e, t);
      assert (es + [e])[1..] == es[1..] + [e];
    }
  }

  lemma RemovingEnd(es: seq<Entry>, t: Tid, r: seq<Entry>, i: nat, k: nat, removed: bool)
    requires k <= |es| && Removing(es, t, r, i, k, removed) && i >= |r|
    ensures r == DropEntries(es, t) && (removed <==> EntryOf(es, t) < |es|)
  {
    hide DropEntries;
    assert |r[i..]| == |es[k..]|;
    assert r[..i] == r && es[..k] == es;
  }

  class Kernel {
    var ready: seq<Tid>
    var sleeping: seq<Tid>
    var blocked: seq<Tid>
    var timed: seq<Tid>
    var threads: map<Tid, Thread>
    var current: Tid
    var ticks: nat
    var queues: map<QueueId, seq<Entry>>
    var counts: map<QueueId, int>
    ghost var pc: map<Tid, Pc>
    ghost var logs: map<QueueId, SemLog>

    ghost function View(): State
      reads this
    {
      State(Lists(ready, sleeping, blocked, timed), threads, current, ticks, queues, counts, pc, logs)
    }

    constructor (t: Tid)
      ensures View() == Boot(t)
    {
      ready, sleeping, blocked, timed := [t], [], [], [];
      threads := map[t := Thread(Ready, Some(ReadyList), None, 0)];
      current, ticks := t, 0;
      queues, counts, pc, logs := map[], map[], map[t := Running], map[];
    }

    // ---- Intrusive lists ----

    method Remove(l: ListName, t: Tid) returns (ok: bool)
      modifies this
      ensures ok == old(RemoveFrom(View(), l, t)).Ok?
      ensures ok ==> old(RemoveFrom(View(), l, t)) == Ok(View())
      ensures !ok ==> View() == old(View())
    {
      ok := false;
      if t in threads && threads[t].owner == Some(l) {
        match l {
          case ReadyList => if t in ready { ready := Without(ready, t); ok := true; }
          case SleepingList => if t in sleeping { sleeping := Without(sleeping, t); ok := true; }
          case BlockedList => if t in blocked { blocked := Without(blocked, t); ok := true; }
          case TimedList => if t in timed { timed := Without(timed, t); ok := true; }
        }
        if ok {
          threads := threads[t := threads[t].(owner := None)];
        }
      }
    }

    method PushBack(l: ListName, t: Tid) returns (ok: bool)
      modifies this
      ensures ok == old(Tasking.PushBack(View(), l, t)).Ok?
      ensures ok ==> old(Tasking.PushBack(View(), l, t)) == Ok(View())
    {
      if t !in threads || threads[t].owner != None {
        return false;
      }
      threads := threads[t := threads[t].(owner := Some(l))];
      match l {
        case ReadyList => ready := ready + [t];
        case SleepingList => sleeping := sleeping + [t];
        case BlockedList => blocked := blocked + [t];
        case TimedList => timed := timed + [t];
      }
      ok := true;
    }

    // ---- Thread ----

    /** Thread::wake_up */
    method WakeUp(t: Tid) returns (ok: bool)
      modifies this
      ensures ok == old(WakeThread(View(), t)).Ok?
      ensures ok ==> old(WakeThread(View(), t)) == Ok(View())
    {
      if t !in threads {
        return false;
      }
      ok := true;
      match threads[t].state {
        case BlockedSleep => ok := Remove(SleepingList, t);
        case BlockedQueue => ok := Remove(BlockedList, t);
        case BlockedQueueTimed => ok := Remove(TimedList, t);
        case Ready =>
      }
      if ok {
        ok := PushBack(ReadyList, t);
        if ok {
          threads := threads[t := threads[t].(state := Ready, blocker := None)];
        }
      }
    }

    /** Thread::block */
    method Block(t: Tid, q: QueueId, ms: nat) returns (ok: bool)
      modifies this
      ensures ok == old(BlockThread(View(), t, q, ms)).Ok?
      ensures ok ==> old(BlockThread(View(), t, q, ms)) == Ok(View())
    {
      ok := Remove(ReadyList, t);
      if !ok {
        return;
      }
      if ms != 0 {
        ok := PushBack(TimedList, t);
        if ok {
          threads := threads[t := threads[t].(state := BlockedQueueTimed, blocker := Some(q),
                                              sleepTicks := (ticks + ms) % TWO32)];
        }
      } else {
        ok := PushBack(BlockedList, t);
        if ok {
          threads := threads[t := threads[t].(state := BlockedQueue, blocker := Some(q))];
        }
      }
    }

    /** Thread::sleep up to its yield */
    method Sleep(ms: nat) returns (ok: bool)
      requires Enabled(View(), Event.Sleep(ms))
      modifies this
      ensures ok == old(Step(View(), Event.Sleep(ms))).Ok?
      ensures ok ==> old(Step(View(), Event.Sleep(ms))) == Ok(View())
    {
      hide TimerTick, SwitchThread, EnterWait, LeaveWait, Recheck, WakeOne, WakeAllFrom, AcquireSemaphore, ReleaseSemaphore, AddThread,
        RemoveThread;
      ok := Remove(ReadyList, current);
      if ok {
        ok := PushBack(SleepingList, current);
        if ok {
          threads := threads[current := threads[current].(state := BlockedSleep, sleepTicks := (ticks + ms) % TWO32)];
          pc := pc[current := SleepYield];
        }
      }
    }

    /** Thread::wake_up_sleepers; each loop stays on its index when the thread there leaves the list. */
    method WakeUpSleepers() returns (ok: bool)
      requires Inv(View())
      modifies this
      ensures ok && old(WakeExpired(View())) == Ok(View()) && Inv(View())
    {
      hide Inv, WakeThread, ExpireOne;
      WakeExpiredKeeps(View());
      ok := true;
      ghost var s0 := View();
      ListMembers(View(), BlockedSleep);
      var i := 0;
      while i < |sleeping|
        invariant ok && i <= |sleeping| && Inv(View()) && ticks == old(ticks)
        invariant AllIn(sleeping, threads, BlockedSleep)
        invariant WakeSleepers(s0, s0.lists.sleeping) == WakeSleepers(View(), sleeping[i..])
        decreases |sleeping| - i
      {
        var t := sleeping[i];
        assert sleeping[i..][0] == t && sleeping[i..][1..] == sleeping[i + 1..];
        if threads[t].sleepTicks <= ticks {
          WakeSleeperKeeps(View(), t);
          ghost var was := sleeping;
          threads := threads[t := threads[t].(sleepTicks := 0)];
          LeavesSleeping(View(), t);
          ok := WakeUp(t);
          ListMembers(View(), BlockedSleep);
          IndexOfUnique(was, i);
          assert sleeping == was[..i] + was[i + 1..];
          assert sleeping[i..] == was[i + 1..];
        } else {
          i := i + 1;
        }
      }
      ok := ExpireTimedWaiters(s0);
    }

    method ExpireTimedWaiters(ghost s0: State) returns (ok: bool)
      requires Inv(View()) && WakeSleepers(s0, s0.lists.sleeping) == Ok(View()) && WakeExpired(s0).Ok?
      modifies this
      ensures ok && WakeExpired(s0) == Ok(View()) && Inv(View())
    {
      hide Inv, WakeThread, WakeSleepers;
      ok := true;
      ghost var s1 := View();
      ListMembers(View(), BlockedQueueTimed);
      var i := 0;
      while i < |timed|
        invariant ok && i <= |timed| && Inv(View())
        invariant AllIn(timed, threads, BlockedQueueTimed)
        invariant WakeTimed(s1, s1.lists.timed) == WakeTimed(View(), timed[i..])
        decreases |timed| - i
      {
        var t := timed[i];
        assert timed[i..][0] == t && timed[i..][1..] == timed[i + 1..];
        if threads[t].sleepTicks <= ticks {
          ExpireKeeps(View(), t);
          LeavesTimed(View(), t);
          ghost var was, spec := timed, ExpireOne(View(), t).value;
          var q := threads[t].blocker.value;
          threads := threads[t := threads[t].(sleepTicks := 0)];
          ok := HandleThreadTimeout(q, t);
          ok := WakeUp(t);
          assert View() == spec;
          ListMembers(View(), BlockedQueueTimed);
          IndexOfUnique(was, i);
          assert timed == was[..i] + was[i + 1..];
          assert timed[i..] == was[i + 1..];
        } else {
          i := i + 1;
        }
      }
    }

    // ---- Wait queue ----

    /** WaitQueue::handle_thread_timeout */
    method HandleThreadTimeout(q: QueueId, t: Tid) returns (ok: bool)
      modifies this
      ensures ok == old(HandleTimeout(View(), q, t)).Ok?
      ensures ok ==> old(HandleTimeout(View(), q, t)) == Ok(View())
    {
      if q !in queues {
        return false;
      }
      var i := 0;
      while i < |queues[q]| && queues[q][i].thread != t
        invariant i <= |queues[q]| && View() == old(View())
        invariant forall j :: 0 <= j < i ==> queues[q][j].thread != t
      {
        i := i + 1;
      }
      ok := i < |queues[q]|;
      if ok {
        queues := queues[q := queues[q][i := queues[q][i].(state := Timeout)]];
      }
    }

    /** WaitQueue::wake_up */
    method QueueWakeUp(q: QueueId) returns (ok: bool)
      requires q in queues
      modifies this
      ensures ok == old(WakeOne(View(), q)).Ok?
      ensures ok ==> old(WakeOne(View(), q)) == Ok(View())
    {
      var i := 0;
      while i < |queues[q]| && queues[q][i].state != Blocked
        invariant i <= |queues[q]| && View() == old(View())
        invariant forall j :: 0 <= j < i ==> queues[q][j].state != Blocked
      {
        i := i + 1;
      }
      ok := i < |queues[q]|;
      if ok {
        var t := queues[q][i].thread;
        queues := queues[q := queues[q][i := queues[q][i].(state := WokenUpNormally)]];
        ok := WakeUp(t);
      }
    }

    /** WaitQueue::wake_up_all */
    method QueueWakeUpAll(q: QueueId) returns (ok: bool)
      requires Inv(View()) && PlainQueue(View(), q)
      modifies this
      ensures ok && old(WakeAllFrom(View(), q, 0)) == Ok(View()) && Inv(View())
    {
      hide Inv, WakeThread;
      WakeAllKeeps(View(), q, 0);
      ghost var s0 := View();
      ok := true;
      var i := 0;
      while i < |queues[q]|
        invariant ok && PlainQueue(View(), q) && i <= |queues[q]| && Inv(View())
        invariant WakeAllFrom(s0, q, 0) == WakeAllFrom(View(), q, i)
        decreases |queues[q]| - i
      {
        if queues[q][i].state == Blocked {
          WakePlain(View(), q, i);
          var t := queues[q][i].thread;
          queues := queues[q := queues[q][i := queues[q][i].(state := WokenUpNormally)]];
          ok := WakeUp(t);
        }
        i := i + 1;
      }
    }

    /** WaitQueue::wait up to its yield */
    method WaitEnter(q: QueueId, ms: nat, ghost at: Pc) returns (ok: bool)
      requires q in queues
      modifies this
      ensures ok == old(EnterWait(View(), q, ms, at)).Ok?
      ensures ok ==> old(EnterWait(View(), q, ms, at)) == Ok(View())
    {
      var es := queues[q];
      ok := Block(current, q, ms);
      if ok {
        queues := queues[q := es + [Entry(current, Blocked)]];
        pc := pc[current := at];
      }
    }

    /** WaitQueue::wait from where it resumes */
    method WaitLeave(q: QueueId) returns (ok: bool, state: EntryState)
      requires q in queues
      modifies this
      ensures ok == old(LeaveWait(View(), q)).Ok?
      ensures ok ==> old(LeaveWait(View(), q)) == Ok(View())
      ensures ok ==> EntryOf(old(queues[q]), current) < |old(queues[q])| && state == old(WaitResult(View(), q))
    {
      var es := queues[q];
      var i := 0;
      while i < |es| && es[i].thread != current
        invariant i <= |es|
        invariant forall j :: 0 <= j < i ==> es[j].thread != current
      {
        i := i + 1;
      }
      ok, state := i < |es|, Blocked;
      if ok {
        state := es[i].state;
        queues := queues[q := es[..i] + es[i + 1..]];
        pc := pc[current := Running];
      }
    }

    /** One turn of WaitQueue::wait_on_event's loop after the yield; `again` is the checker's answer. */
    method EventRecheck(q: QueueId, again: bool, ms: nat) returns (ok: bool)
      requires q in queues
      modifies this
      ensures ok == old(Recheck(View(), q, again, ms)).Ok?
      ensures ok ==> old(Recheck(View(), q, again, ms)) == Ok(View())
    {
      hide BlockThread;
      var i := EntryOf(queues[q], current);
      ok := i < |queues[q]|;
      if ok {
        if again && queues[q][i].state != Timeout {
          ok := Block(current, q, ms);
          if ok {
            pc := pc[old(current) := EventYield(q)];
          }
        } else {
          var state;
          ok, state := WaitLeave(q);
        }
      }
    }

    // ---- Semaphore ----

    /** Semaphore::acquire */
    method Acquire(q: QueueId) returns (ok: bool)
      requires SemaphoreQueue(View(), q)
      modifies this
      ensures ok == old(AcquireSemaphore(View(), q)).Ok?
      ensures ok ==> old(AcquireSemaphore(View(), q)) == Ok(View())
    {
      counts := counts[q := counts[q] - 1];
      logs := logs[q := LogAcquire(logs[q], current, counts[q] < 0)];
      ok := true;
      if counts[q] < 0 {
        ok := WaitEnter(q, 0, WaitYield(q));
      }
    }

    /** Semaphore::release */
    method Release(q: QueueId) returns (ok: bool)
      requires SemaphoreQueue(View(), q)
      modifies this
      ensures ok == old(ReleaseSemaphore(View(), q)).Ok?
      ensures ok ==> old(ReleaseSemaphore(View(), q)) == Ok(View())
    {
      hide WakeThread;
      var count := counts[q];
      ghost var es, log := queues[q], LogRelease(logs[q], current);
      ok := true;
      if count < 0 {
        ok := QueueWakeUp(q);
        log := if FirstBlocked(es) < |es| then LogHandOff(log, es[FirstBlocked(es)].thread) else log;
      }
      if ok {
        counts := counts[q := count + 1];
        logs := logs[q := log];
      }
    }

    // ---- Scheduler ----

    /** Scheduler::select_next_thread */
    method SelectNextThread() returns (next: Outcome<Tid>)
      ensures next == SelectNext(View())
      ensures next.Panic? <==> ready == []
      ensures ready != [] && !(current in threads && threads[current].owner == Some(ReadyList)) ==> next == Ok(ready[0])
      ensures Inv(View()) && current in threads && threads[current].owner == Some(ReadyList) ==>
        ready != [] && exists i :: 0 <= i < |ready| && ready[i] == current && next == Ok(After(ready, i))
    {
      hide Inv, After;
      if Inv(View()) && current in threads && threads[current].owner == Some(ReadyList) {
        SelectRound(View());
      }
      if ready == [] {
        return Panic;
      }
      if current in threads && threads[current].owner == Some(ReadyList) && current in ready {
        var i := IndexOf(ready, current) + 1;
        return Ok(if i == |ready| then ready[0] else ready[i]);
      }
      return Ok(ready[0]);
    }

    /** PIT::pit_handler and Scheduler::schedule, Timed */
    method TimerInterrupt() returns (ok: bool)
      requires Inv(View())
      modifies this
      ensures ok == old(Step(View(), Tick)).Ok?
      ensures ok ==> old(Step(View(), Tick)) == Ok(View()) && Inv(View())
    {
      hide Inv, WakeExpired, After, SelectNext, Step;
      TickKeeps(View());
      ok := WakeUpSleepers();
      TickIs(old(View()), View());
      var next := SelectNextThread();
      ok := next.Ok?;
      if ok {
        current := next.value;
        ticks := (ticks + 1) % TWO32;
      }
    }

    /** Thread::yield and Scheduler::schedule, Forced */
    method Yield() returns (ok: bool)
      requires Inv(View()) && Enabled(View(), Event.Yield)
      modifies this
      ensures ok == old(Step(View(), Event.Yield)).Ok?
      ensures ok ==> old(Step(View(), Event.Yield)) == Ok(View()) && Inv(View())
    {
      YieldKeeps(View());
      pc := pc[current := pc[current].AfterYield()];
      var next := SelectNextThread();
      ok := next.Ok?;
      if ok {
        current := next.value;
      }
    }

    /** WaitQueue::handle_thread_terminated */
    method HandleThreadTerminated(q: QueueId, t: Tid) returns (ok: bool)
      modifies this
      ensures ok == old(HandleTerminated(View(), q, t)).Ok?
      ensures ok ==> old(HandleTerminated(View(), q, t)) == Ok(View())
      ensures !ok ==> View() == old(View())
    {
      if q !in queues {
        return false;
      }
      var es;
      es, ok := RemoveIf(queues[q], t);
      if ok {
        queues := queues[q := es];
      }
    }

    /** Thread::terminate */
    method Terminate(t: Tid) returns (ok: bool)
      requires t in threads
      modifies this
      ensures ok == old(RemoveThread(View(), t)).Ok?
      ensures ok ==> old(RemoveThread(View(), t)) == Ok(View())
    {
      hide RemoveFrom, HandleTerminated;
      var th := threads[t];
      match th.state {
        case Ready => ok := Remove(ReadyList, t);
        case BlockedSleep => ok := Remove(SleepingList, t);
        case BlockedQueue => ok := Remove(BlockedList, t);
        case BlockedQueueTimed => ok := Remove(TimedList, t);
      }
      if ok && (th.state == BlockedQueue || th.state == BlockedQueueTimed) {
        ok := th.blocker.Some?;
        if ok {
          ok := HandleThreadTerminated(th.blocker.value, t);
        }
      }
      if ok {
        threads, pc := threads - {t}, pc - {t};
      }
    }
  }

  lemma SelectRound(s: State)
    requires Inv(s) && s.current in s.threads && s.threads[s.current].owner == Some(ReadyList)
    ensures s.lists.ready != [] &&
      exists i :: 0 <= i < |s.lists.ready| && s.lists.ready[i] == s.current && SelectNext(s) == Ok(After(s.lists.ready, i))
  {
    hide PcInv, QueuesInv;
    var ready := s.lists.ready;
    assert ListOk(s.lists.At(ReadyList), ReadyList, s.threads);
    var i := IndexOf(ready, s.current);
    if i + 1 < |ready| {
      Small(i + 1, |ready|);
    }
    assert After(ready, i) == if i + 1 == |ready| then ready[0] else ready[i + 1];
  }

  lemma TickIs(s: State, s1: State)
    requires Inv(s) && WakeExpired(s) == Ok(s1)
    ensures Step(s, Tick) == match SelectNext(s1) case Panic => Panic case Ok(t) => Ok(s1.(current := t, ticks := (s1.ticks + 1) % TWO32))
  {
    hide WakeExpired, SelectNext;
  }

  lemma LeavesSleeping(s: State, t: Tid)
    requires t in s.threads && s.threads[t].state == BlockedSleep && WakeThread(s, t).Ok?
    ensures t in s.lists.sleeping && WakeThread(s, t).value.lists.sleeping == Without(s.lists.sleeping, t)
  {
  }

  lemma LeavesTimed(s: State, t: Tid)
    requires t in s.threads && s.threads[t].state == BlockedQueueTimed && ExpireOne(s, t).Ok?
    ensures t in s.lists.timed && ExpireOne(s, t).value.lists.timed == Without(s.lists.timed, t)
  {
  }
}
