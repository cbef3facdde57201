/** How long a wait with a timeout lasts. */
module TaskingTimeouts {
  import opened Common
  import opened Tasking
  import opened TaskingLists
  import opened TaskingQueues
  import opened TaskingSemaphores
  import opened TaskingRuns
  import opened TaskingTheorems
  import opened TaskingEffects
  import opened TaskingSleep

  /** t is blocked on q with a deadline. */
  predicate Timed(s: State, t: Tid, q: QueueId) {
    t in s.threads && s.threads[t].state == BlockedQueueTimed && s.threads[t].blocker == Some(q)
  }

  predicate Wakes(e: Event, q: QueueId) { (e.WakeUp? || e.WakeUpAll? || e.Release?) && e.q == q }

  /** The current thread, when it does something of its own, is not blocked. */
  lemma NotTimed(s: State, e: Event)
    requires Inv(s) && Enabled(s, e) && (e.Sleep? || e.WaitEnter? || e.EventEnter? || e.EventRecheck? || e.Acquire?)
    ensures s.current in s.threads && s.threads[s.current].state == Ready
  {
    hide Inv;
    RunningReady(s);
  }

  lemma WokenBlocker(s: State, q: QueueId, k: nat)
    requires Inv(s) && q in s.queues && k < |s.queues[q]| && s.queues[q][k].state == Blocked
    ensures s.queues[q][k].thread in s.threads && s.threads[s.queues[q][k].thread].blocker == Some(q)
  {
    hide ListsInv, QueuesInv, SemWaiters, SemCounts;
    EntryFields(s, q, k);
  }

  /** A timer tick ends a timed wait exactly when its time has come. Other steps leave the waiter alone, or wake it: a
      wake-up of its own queue. */
  lemma TimedStep(s: State, e: Event, t: Tid, q: QueueId)
    requires Inv(s) && Enabled(s, e) && Step(s, e).Ok? && Timed(s, t, q) && e != Terminate(t)
    ensures t in Step(s, e).value.threads
    ensures Step(s, e).value.ticks == if e == Tick then (s.ticks + 1) % TWO32 else s.ticks
    ensures e == Tick ==>
      Step(s, e).value.threads[t] == if s.threads[t].sleepTicks <= s.ticks then Thread(Ready, Some(ReadyList), None, 0) else s.threads[t]
    ensures e != Tick ==> Step(s, e).value.threads[t] == s.threads[t] || (Step(s, e).value.threads[t].state == Ready && Wakes(e, q))
  {
    hide Inv, Step, Moves, NextUp, QueueTicks, TimerWakes;
    StepEffect(s, e);
    var r := Step(s, e).value;
    if e.Sleep? || e.WaitEnter? || e.EventEnter? || e.EventRecheck? || e.Acquire? {
      NotTimed(s, e);
    } else if e.WakeUp? || (e.Release? && e.q in s.counts && s.counts[e.q] < 0) {
      var k: nat :| WakesFirst(s, r, e.q, k);
      WokenBlocker(s, e.q, k);
    } else if e.WakeUpAll? && BlockedFrom(s.queues[e.q], 0, t) {
      var k :| 0 <= k < |s.queues[e.q]| && s.queues[e.q][k] == Entry(t, Blocked);
      WokenBlocker(s, e.q, k);
    }
  }

  /** The step by which the current thread blocks on q for at most ms ticks. */
  predicate Begins(s: State, e: Event, q: QueueId, ms: nat) {
    e == WaitEnter(q, ms) || e == EventEnter(q, ms) || (e == EventRecheck(true, ms) && s.current in s.pc && s.pc[s.current] == EventResume(q))
  }

  lemma WaitStarts(s: State, e: Event, q: QueueId, ms: nat)
    requires Inv(s) && Enabled(s, e) && Step(s, e).Ok? && Begins(s, e, q, ms) && ms > 0 && Timed(Step(s, e).value, s.current, q)
    ensures Step(s, e).value.threads[s.current].sleepTicks == (s.ticks + ms) % TWO32 && Step(s, e).value.ticks == s.ticks
  {
    hide Inv, Step, Moves;
    StepEffect(s, e);
    NotTimed(s, e);
  }

  /** While it lasts, the deadline stands and the tick counter counts the ticks. */
  lemma {:induction false} WaitGoesOn(ss: seq<State>, es: seq<Event>, i: nat, j: nat, q: QueueId, ms: nat)
    requires KernelRun(ss, es) && i < j < |ss| && Begins(ss[i], es[i], q, ms) && 0 < ms && ss[i].ticks + ms < TWO32
    requires forall m :: i < m <= j ==> Timed(ss[m], ss[i].current, q)
    requires forall m :: i < m < j ==> es[m] != Terminate(ss[i].current)
    ensures Timed(ss[j], ss[i].current, q) && ss[j].threads[ss[i].current].sleepTicks == ss[i].ticks + ms
    ensures ss[j].ticks == ss[i].ticks + Ticks(es, i + 1, j) && Ticks(es, i + 1, j) <= ms
  {
    hide Inv, Step;
    assert Timed(ss[j], ss[i].current, q);
    Reachable(ss, es, j - 1);
    RunStep(ss, es, j - 1);
    if j == i + 1 {
      WaitStarts(ss[i], es[i], q, ms);
    } else {
      WaitGoesOn(ss, es, i, j - 1, q, ms);
      TimedStep(ss[j - 1], es[j - 1], ss[i].current, q);
    }
  }

  /** The one entry of t in q is Timeout. */
  ghost predicate EntryTimedOut(s: State, t: Tid, q: QueueId) {
    q in s.queues && exists k: nat :: OwnEntry(s.queues[q], t, k) && s.queues[q][k].state == Timeout
  }

  lemma TickSettles(s: State, t: Tid, q: QueueId)
    requires Inv(s) && Enabled(s, Tick) && Step(s, Tick).Ok? && Timed(s, t, q) && s.threads[t].sleepTicks <= s.ticks
    ensures EntryTimedOut(Step(s, Tick).value, t, q)
  {
    hide ListsInv, SemWaiters, SemCounts, Step, NextUp, TimerWakes;
    StepEffect(s, Tick);
    Fields(s, t);
    var r, es := Step(s, Tick).value, s.queues[q];
    assert EntriesOk(es, q, s.pc, s.threads);
    assert QueueTicks(s, q, es, r.queues[q]);
    var k := EntryOf(es, t);
    assert r.queues[q][k] == Entry(t, Timeout);
    assert forall j :: 0 <= j < |es| ==> r.queues[q][j].thread == es[j].thread;
    assert OwnEntry(r.queues[q], t, k);
  }

  /** A wait for at most ms ticks that nobody wakes: it ends with the first tick after ms ticks, neither earlier nor
      later, and then its entry says Timeout, as long as the deadline does not pass the end of the 32-bit tick counter.
      Nothing but that tick, its own termination and a wake-up of its queue ends it. */
  lemma TimedWaitDuration(ss: seq<State>, es: seq<Event>, i: nat, j: nat, q: QueueId, ms: nat)
    requires KernelRun(ss, es) && i < j < |es| && Begins(ss[i], es[i], q, ms) && 0 < ms && ss[i].ticks + ms < TWO32
    requires forall m :: i < m <= j ==> Timed(ss[m], ss[i].current, q)
    requires forall m :: i < m <= j ==> es[m] != Terminate(ss[i].current)
    ensures |ss| == |es| + 1 && ss[i].current in ss[j].threads && ss[i].current in ss[j + 1].threads
    ensures es[j] == Tick ==> (ss[j + 1].threads[ss[i].current].state == Ready <==> Ticks(es, i + 1, j) == ms)
    ensures es[j] == Tick && Ticks(es, i + 1, j) == ms ==> EntryTimedOut(ss[j + 1], ss[i].current, q)
    ensures es[j] != Tick && !Wakes(es[j], q) ==> ss[j + 1].threads[ss[i].current] == ss[j].threads[ss[i].current]
  {
    hide Inv, Step, EntryTimedOut;
    Reachable(ss, es, j);
    RunStep(ss, es, j);
    WaitGoesOn(ss, es, i, j, q, ms);
    TimedStep(ss[j], es[j], ss[i].current, q);
    if es[j] == Tick && Ticks(es, i + 1, j) == ms {
      TickSettles(ss[j], ss[i].current, q);
    }
  }
}
