/** How long a sleep lasts. */
module TaskingSleep {
  import opened Common
  import opened Tasking
  import opened TaskingLists
  import opened TaskingQueues
  import opened TaskingSemaphores
  import opened TaskingRuns

  predicate Asleep(s: State, t: Tid) { t in s.threads && s.threads[t].state == BlockedSleep }

  // ---- A tick ----

  /** The pass over the sleeping list wakes a sleeper exactly when its time has come, and leaves it as it is
      otherwise. */
  lemma {:induction false} PassOver(s: State, ts: seq<Tid>, t: Tid)
    requires Inv(s) && AllIn(ts, s.threads, BlockedSleep) && Asleep(s, t)
    ensures WakeSleepers(s, ts).Ok? && t in WakeSleepers(s, ts).value.threads
    ensures WakeSleepers(s, ts).value.threads[t] ==
            if t in ts && s.threads[t].sleepTicks <= s.ticks then Awake(s.threads[t]) else s.threads[t]
    decreases |ts|
  {
    hide Inv, AllIn, WakeThread;
    WakeSleepersKeeps(s, ts);
    if ts != [] {
      var u, rest := ts[0], ts[1..];
      assert ts == [u] + rest;
      AllInTail(ts, s.threads, BlockedSleep, s.ticks);
      AllInHead(ts, s.threads, BlockedSleep);
      if s.threads[u].sleepTicks > s.ticks {
        PassOver(s, rest, t);
      } else {
        WakeSleeperKeeps(s, u);
        var s1 := WakeThread(s.(threads := s.threads[u := s.threads[u].(sleepTicks := 0)]), u).value;
        WakeSleepersKeeps(s1, rest);
        if u != t {
          PassOver(s1, rest, t);
        }
      }
    }
  }

  lemma AllInHead(ts: seq<Tid>, threads: map<Tid, Thread>, state: ThreadState)
    requires AllIn(ts, threads, state) && ts != []
    ensures ts[0] in threads && threads[ts[0]].state == state && ts[0] !in ts[1..]
  {
  }

  lemma OnItsList(s: State, t: Tid)
    requires Inv(s) && Asleep(s, t)
    ensures t in s.lists.sleeping && t !in s.lists.timed
  {
    hide QueuesInv, SemWaiters, SemCounts;
    Fields(s, t);
    assert ListOk(s.lists.At(SleepingList), SleepingList, s.threads);
    assert ListOk(s.lists.At(TimedList), TimedList, s.threads);
  }

  lemma SleeperTick(s: State, t: Tid)
    requires Inv(s) && Asleep(s, t) && Step(s, Tick).Ok? && Enabled(s, Tick)
    ensures t in Step(s, Tick).value.threads && Step(s, Tick).value.ticks == (s.ticks + 1) % TWO32
    ensures Step(s, Tick).value.threads[t] == if s.threads[t].sleepTicks <= s.ticks then Awake(s.threads[t]) else s.threads[t]
  {
    hide Inv, WakeSleepers, WakeTimed, Expired;
    OnItsList(s, t);
    ListMembers(s, BlockedSleep);
    WakeSleepersKeeps(s, s.lists.sleeping);
    PassOver(s, s.lists.sleeping, t);
    var s1 := WakeSleepers(s, s.lists.sleeping).value;
    ListMembers(s1, BlockedQueueTimed);
    WakeTimedKeeps(s1, s1.lists.timed);
  }

  // ---- Anything else ----

  lemma WakeEntrySpares(s: State, q: QueueId, i: nat, t: Tid)
    requires Inv(s) && Asleep(s, t) && q in s.queues && i < |s.queues[q]| && s.queues[q][i].state == Blocked
    ensures WakeEntry(s, q, i).Ok? && t in WakeEntry(s, q, i).value.threads && WakeEntry(s, q, i).value.threads[t] == s.threads[t]
  {
    hide ListsInv, QueuesInv, SemWaiters, SemCounts, WakeEntry;
    WakeEntryKeeps(s, q, i);
    EntryFields(s, q, i);
    Fields(s, t);
  }

  lemma {:induction false} WakeAllSpares(s: State, q: QueueId, i: nat, t: Tid)
    requires Inv(s) && PlainQueue(s, q) && i <= |s.queues[q]| && Asleep(s, t)
    ensures WakeAllFrom(s, q, i).Ok? && t in WakeAllFrom(s, q, i).value.threads && WakeAllFrom(s, q, i).value.threads[t] == s.threads[t]
    decreases |s.queues[q]| - i
  {
    hide Inv, WakeEntry;
    WakeAllKeeps(s, q, i);
    if i < |s.queues[q]| {
      if s.queues[q][i].state != Blocked {
        WakeAllSpares(s, q, i + 1, t);
      } else {
        WakePlain(s, q, i);
        WakeEntrySpares(s, q, i, t);
        WakeAllSpares(WakeEntry(s, q, i).value, q, i + 1, t);
      }
    }
  }

  /** Wake-ups and releases do not reach a sleeper. */
  lemma WakesSpare(s: State, e: Event, t: Tid)
    requires Inv(s) && Asleep(s, t) && Enabled(s, e) && Step(s, e).Ok? && (e.WakeUp? || e.WakeUpAll? || e.Release?)
    ensures t in Step(s, e).value.threads && Step(s, e).value.threads[t] == s.threads[t] && Step(s, e).value.ticks == s.ticks
  {
    hide Inv, WakeEntry, WakeAllFrom;
    match e {
      case WakeUp(q) =>
        var i := FirstBlocked(s.queues[q]);
        WakeOneKeeps(s, q);
        WakeEntrySpares(s, q, i, t);
        WakePlain(s, q, i);
      case WakeUpAll(q) =>
        WakeAllKeeps(s, q, 0);
        WakeAllSpares(s, q, 0, t);
      case Release(q) =>
        ReleaseFinds(s, q);
        if s.counts[q] < 0 {
          WakeEntrySpares(s, q, FirstBlocked(s.queues[q]), t);
          WakeEntryKeeps(s, q, FirstBlocked(s.queues[q]));
        }
    }
  }

  lemma ReleaseFinds(s: State, q: QueueId)
    requires Inv(s) && SemaphoreQueue(s, q)
    ensures s.counts[q] < 0 ==> FirstBlocked(s.queues[q]) < |s.queues[q]|
  {
    hide Inv;
    SemFields(s, q);
    NoneBlocked(s.queues[q]);
  }

  /** Neither does what other threads do. */
  lemma OthersSpare(s: State, e: Event, t: Tid)
    requires Inv(s) && Asleep(s, t) && Enabled(s, e) && Step(s, e).Ok? && !e.Tick? && e != Terminate(t)
    requires !(e.WakeUp? || e.WakeUpAll? || e.Release?)
    ensures t in Step(s, e).value.threads && Step(s, e).value.threads[t] == s.threads[t] && Step(s, e).value.ticks == s.ticks
  {
    hide ListsInv, QueuesInv, SemWaiters, SemCounts, WakeThread, BlockThread, SleepThread, Moved, AddThread;
    match e {
      case Sleep(ms) => SleepForm(s, s.current, ms);
      case WaitEnter(q, ms) => BlockForm(s, s.current, q, ms);
      case EventEnter(q, ms) => BlockForm(s, s.current, q, ms);
      case EventRecheck(again, ms) => BlockForm(s, s.current, s.pc[s.current].queue, ms);
      case Acquire(q) =>
        BlockForm(s.(counts := s.counts[q := s.counts[q] - 1],
                     logs := s.logs[q := LogAcquire(s.logs[q], s.current, s.counts[q] - 1 < 0)]), s.current, q, 0);
      case Terminate(u) => RemoveForm(s, u);
      case CreateThread(u) => AddForm(s, u);
      case _ =>
    }
  }

  /** A sleeper is touched by timer ticks and by its own termination only. */
  lemma SleeperStep(s: State, e: Event, t: Tid)
    requires Inv(s) && Asleep(s, t) && Enabled(s, e) && Step(s, e).Ok? && e != Terminate(t)
    ensures t in Step(s, e).value.threads
    ensures Step(s, e).value.threads[t] ==
            if e == Tick && s.threads[t].sleepTicks <= s.ticks then Awake(s.threads[t]) else s.threads[t]
    ensures Step(s, e).value.ticks == if e == Tick then (s.ticks + 1) % TWO32 else s.ticks
  {
    hide Inv, Step;
    if e == Tick {
      SleeperTick(s, t);
    } else if e.WakeUp? || e.WakeUpAll? || e.Release? {
      WakesSpare(s, e, t);
    } else {
      OthersSpare(s, e, t);
    }
  }

  // ---- Over a run ----

  /** How many ticks happened from step i up to, not including, step j. */
  function Ticks(es: seq<Event>, i: nat, j: nat): nat
    requires i <= j <= |es|
  {
    if i == j then 0 else Ticks(es, i, j - 1) + if es[j - 1] == Tick then 1 else 0
  }

  lemma SleepStarts(s: State, ms: nat)
    requires Inv(s) && Enabled(s, Sleep(ms)) && Step(s, Sleep(ms)).Ok?
    ensures var s' := Step(s, Sleep(ms)).value;
      Asleep(s', s.current) && s'.threads[s.current].sleepTicks == Deadline(s, ms) && s'.ticks == s.ticks
  {
    hide ListsInv, QueuesInv, SemWaiters, SemCounts, SleepThread, Moved;
    SleepForm(s, s.current, ms);
  }

  /** While it lasts, the deadline stands and the tick counter counts the ticks. */
  lemma {:induction false} SleepGoesOn(ss: seq<State>, es: seq<Event>, i: nat, j: nat, ms: nat)
    requires IsRun(ss, es) && Inv(ss[0]) && i < j < |ss| && es[i] == Sleep(ms) && ss[i].ticks + ms < TWO32
    requires forall m :: i < m <= j ==> Asleep(ss[m], ss[i].current)
    requires forall m :: i < m < j ==> es[m] != Terminate(ss[i].current)
    ensures Asleep(ss[j], ss[i].current) && ss[j].threads[ss[i].current].sleepTicks == ss[i].ticks + ms
    ensures ss[j].ticks == ss[i].ticks + Ticks(es, i + 1, j) && Ticks(es, i + 1, j) <= ms
  {
    hide Inv, Step;
    RunKeeps(ss, es, i);
    assert Step(ss[i], es[i]) == Ok(ss[i + 1]);
    if j == i + 1 {
      SleepStarts(ss[i], ms);
    } else {
      SleepGoesOn(ss, es, i, j - 1, ms);
      RunKeeps(ss, es, j - 1);
      assert Step(ss[j - 1], es[j - 1]) == Ok(ss[j]);
      SleeperStep(ss[j - 1], es[j - 1], ss[i].current);
      assert Asleep(ss[j], ss[i].current);
    }
  }

  /** A thread that goes to sleep for ms ticks wakes with the first tick after ms ticks, not before and not later,
      as long as its deadline does not pass the end of the 32-bit tick counter. */
  lemma SleepDuration(ss: seq<State>, es: seq<Event>, i: nat, j: nat, ms: nat)
    requires IsRun(ss, es) && Inv(ss[0]) && i < j < |es| && es[i] == Sleep(ms) && ss[i].ticks + ms < TWO32
    requires forall m :: i < m <= j ==> Asleep(ss[m], ss[i].current)
    requires forall m :: i < m <= j ==> es[m] != Terminate(ss[i].current)
    ensures var t := ss[i].current;
      t in ss[j + 1].threads && (ss[j + 1].threads[t].state == Ready <==> es[j] == Tick && Ticks(es, i + 1, j) == ms)
  {
    hide Inv, Step;
    SleepGoesOn(ss, es, i, j, ms);
    RunKeeps(ss, es, j);
    assert Step(ss[j], es[j]) == Ok(ss[j + 1]);
    SleeperStep(ss[j], es[j], ss[i].current);
  }

  /** When the deadline does wrap round, the very next tick wakes the sleeper. */
  lemma WrappedSleepEnds(s: State, t: Tid, ms: nat)
    requires Inv(s) && Asleep(s, t) && Enabled(s, Tick) && Step(s, Tick).Ok?
    requires s.threads[t].sleepTicks == (s.ticks + ms) % TWO32 && s.ticks < TWO32 <= s.ticks + ms && ms <= TWO32
    ensures t in Step(s, Tick).value.threads && Step(s, Tick).value.threads[t].state == Ready
  {
    hide Inv, Step;
    SleeperTick(s, t);
  }
}
