/** Bounded waiting of the round-robin scheduler. A thread that blocks while it is current sends the
    cursor back to the head of the ready list, so a waiting thread is not reached by counting cursor
    moves alone; but everything joins the list at the back, which gives the rank below. */
module TaskingFairness {
  import opened Common
  import opened Tasking
  import opened TaskingLists
  import opened TaskingQueues
  import opened TaskingSemaphores
  import opened TaskingRuns

  /** How many scheduling decisions can pass before t is chosen, as long as nobody ahead of t leaves
      the list: n is the number of live threads, c the current one. */
  function Distance(ready: seq<Tid>, c: Tid, n: nat, t: Tid): int
    requires t in ready
  {
    var p := IndexOf(ready, t);
    if c !in ready then n - |ready| + p
    else if IndexOf(ready, c) < p then p - IndexOf(ready, c)
    else n - IndexOf(ready, c) + p
  }

  function Rank(s: State, t: Tid): int
    requires t in s.lists.ready
  {
    IndexOf(s.lists.ready, t) * |s.threads| + Distance(s.lists.ready, s.current, |s.threads|, t)
  }

  ghost predicate Fits(ready: seq<Tid>, c: Tid, n: nat) {
    NoDup(ready) && |ready| <= n && (c !in ready ==> |ready| < n)
  }

  lemma FitsMembers(ready: seq<Tid>, c: Tid, live: set<Tid>)
    requires NoDup(ready) && c in live && forall t :: t in ready ==> t in live
    ensures Fits(ready, c, |live|)
  {
    NoDupBound(ready, live);
    if c !in ready {
      NoDupBound(ready, live - {c});
    }
  }

  lemma ReadyFits(s: State)
    requires Inv(s)
    ensures NoDup(s.lists.ready) && (forall t :: t in s.lists.ready ==> t in s.threads) && s.current in s.threads
    ensures Fits(s.lists.ready, s.current, |s.threads|)
  {
    assert ListOk(s.lists.At(ReadyList), ReadyList, s.threads);
    FitsMembers(s.lists.ready, s.current, s.threads.Keys);
  }

  lemma {:induction false} Scale(p: nat, m: nat, n: nat)
    requires p <= m
    ensures p * n <= m * n
  {
    assert m * n - p * n == (m - p) * n;
  }

  lemma DistanceBound(ready: seq<Tid>, c: Tid, n: nat, t: Tid)
    requires t in ready && Fits(ready, c, n)
    ensures 1 <= Distance(ready, c, n, t) <= n
  {
  }

  lemma RankBound(s: State, t: Tid)
    requires Inv(s) && t in s.lists.ready
    ensures 1 <= Rank(s, t) <= |s.threads| * |s.threads|
  {
    hide Inv, NoDup, Distance;
    ReadyFits(s);
    var n, p := |s.threads|, IndexOf(s.lists.ready, t);
    DistanceBound(s.lists.ready, s.current, n, t);
    Scale(p + 1, n, n);
  }

  lemma AppendRank(ready: seq<Tid>, xs: seq<Tid>, c: Tid, n: nat, t: Tid)
    requires t in ready && Fits(ready + xs, c, n)
    ensures IndexOf(ready + xs, t) == IndexOf(ready, t)
    ensures Distance(ready + xs, c, n, t) <= Distance(ready, c, n, t)
  {
    AppendIndex(ready, xs, t);
    if c in ready {
      AppendIndex(ready, xs, c);
    } else if c in ready + xs {
      assert (ready + xs)[IndexOf(ready + xs, c)] == c;
    }
  }

  function NextOf(ready: seq<Tid>, c: Tid): Tid
    requires ready != []
  {
    if c in ready && IndexOf(ready, c) + 1 < |ready| then ready[IndexOf(ready, c) + 1] else ready[0]
  }

  lemma SelectRank(ready: seq<Tid>, c: Tid, n: nat, t: Tid)
    requires t in ready && Fits(ready, c, n) && NextOf(ready, c) != t
    ensures Distance(ready, NextOf(ready, c), n, t) < Distance(ready, c, n, t)
  {
    var next := NextOf(ready, c);
    if c in ready && IndexOf(ready, c) + 1 < |ready| {
      IndexOfUnique(ready, IndexOf(ready, c) + 1);
    } else {
      IndexOfUnique(ready, 0);
    }
  }

  lemma BlockRank(ready: seq<Tid>, c: Tid, n: nat, t: Tid)
    requires t in ready && c in ready && c != t && Fits(ready, c, n)
    ensures t in Without(ready, c)
    ensures var p, p' := IndexOf(ready, t), IndexOf(Without(ready, c), t);
            var d' := Distance(Without(ready, c), c, n, t);
            (p' == p && d' <= Distance(ready, c, n, t)) || (p' == p - 1 && d' <= n && 0 <= Distance(ready, c, n, t))
  {
    hide IndexOf, Without, NoDup;
    WithoutMembers(ready, c);
    WithoutIndex(ready, c, t);
  }

  lemma DropRank(ready: seq<Tid>, x: Tid, c: Tid, n: nat, t: Tid)
    requires t in ready && x in ready && x != t && x != c && Fits(ready, c, n)
    ensures t in Without(ready, x)
    ensures IndexOf(Without(ready, x), t) <= IndexOf(ready, t)
    ensures Distance(Without(ready, x), c, n - 1, t) <= Distance(ready, c, n, t)
  {
    hide IndexOf, Without, NoDup;
    WithoutMembers(ready, x);
    WithoutIndex(ready, x, t);
    var r := Without(ready, x);
    if c in ready {
      WithoutIndex(ready, x, c);
      assert c in r;
    } else {
      assert c !in r;
    }
  }

  /** A scheduling event may add to the back of the ready list, and then moves the cursor by one. */
  lemma ScheduleEffect(s: State, e: Event)
    requires Inv(s) && Enabled(s, e) && e.Schedules() && Step(s, e).Ok?
    ensures var s' := Step(s, e).value;
            Inv(s') && s'.threads.Keys == s.threads.Keys && s.lists.ready <= s'.lists.ready &&
            s'.lists.ready != [] && s'.current == NextOf(s'.lists.ready, s.current)
  {
    hide ListsInv, QueuesInv, SemWaiters, SemCounts, WakeExpired, IndexOf;
    StepKeeps(s, e);
    if e.Tick? {
      WakeExpiredKeeps(s);
      OnReadyList(WakeExpired(s).value);
    } else {
      OnReadyList(s);
    }
  }

  lemma OnReadyList(s: State)
    requires Inv(s)
    ensures s.current in s.lists.ready ==> s.threads[s.current].owner == Some(ReadyList)
  {
    assert ListOk(s.lists.At(ReadyList), ReadyList, s.threads);
  }

  /** Any other event adds to the back, or takes out the current thread, which blocks or sleeps. */
  lemma QuietEffect(s: State, e: Event)
    requires Inv(s) && Enabled(s, e) && Step(s, e).Ok? && !e.Schedules() && !e.CreateThread? && !e.Terminate?
    ensures var s' := Step(s, e).value;
            Inv(s') && s'.current == s.current && s'.threads.Keys == s.threads.Keys &&
            (s.lists.ready <= s'.lists.ready ||
             (s.current in s.lists.ready && s'.lists.ready == Without(s.lists.ready, s.current)))
  {
    hide ListsInv, QueuesInv, SemWaiters, SemCounts, BlockThread, SleepThread, WakeAllFrom, WakeOne, ReleaseSemaphore, Moved;
    StepKeeps(s, e);
    match e {
      case Sleep(ms) => SleepForm(s, s.current, ms);
      case WaitEnter(q, ms) => BlockForm(s, s.current, q, ms);
      case EventEnter(q, ms) => BlockForm(s, s.current, q, ms);
      case EventRecheck(again, ms) => BlockForm(s, s.current, s.pc[s.current].queue, ms);
      case WakeUp(q) => WakeOneKeeps(s, q);
      case WakeUpAll(q) => WakeAllKeeps(s, q, 0);
      case Acquire(q) =>
        BlockForm(s.(counts := s.counts[q := s.counts[q] - 1],
                     logs := s.logs[q := LogAcquire(s.logs[q], s.current, s.counts[q] - 1 < 0)]), s.current, q, 0);
      case Release(q) => ReleaseKeeps(s, q);
      case _ =>
    }
  }

  lemma TerminateEffect(s: State, t: Tid)
    requires Inv(s) && Enabled(s, Terminate(t))
    ensures RemoveThread(s, t).Ok?
    ensures var s' := RemoveThread(s, t).value;
            Inv(s') && s'.current == s.current && s'.threads.Keys == s.threads.Keys - {t} &&
            (s'.lists.ready == s.lists.ready ||
             (t in s.lists.ready && s'.lists.ready == Without(s.lists.ready, t)))
  {
    hide ListsInv, QueuesInv, SemWaiters, SemCounts, Without;
    TerminateKeeps(s, t);
    RemoveForm(s, t);
  }

  lemma ScheduleRank(s: State, e: Event, t: Tid)
    requires Inv(s) && Enabled(s, e) && e.Schedules() && Step(s, e).Ok?
    requires t in s.lists.ready && t in Step(s, e).value.lists.ready && Step(s, e).value.current != t
    ensures Rank(Step(s, e).value, t) < Rank(s, t)
  {
    hide Inv, Step, IndexOf, NoDup, Distance;
    ScheduleEffect(s, e);
    var s' := Step(s, e).value;
    ReadyFits(s);
    ReadyFits(s');
    var n, xs := |s.threads.Keys|, s'.lists.ready[|s.lists.ready|..];
    assert s'.lists.ready == s.lists.ready + xs;
    FitsMembers(s'.lists.ready, s.current, s.threads.Keys);
    AppendRank(s.lists.ready, xs, s.current, n, t);
    SelectRank(s'.lists.ready, s.current, n, t);
  }

  lemma FewerThreads(ready: seq<Tid>, c: Tid, n: nat, t: Tid)
    requires t in ready && n > 0
    ensures Distance(ready, c, n - 1, t) <= Distance(ready, c, n, t)
  {
  }

  lemma {:induction false} ScaleDown(p': nat, p: nat, n: nat)
    requires p' <= p && n > 0
    ensures p' * (n - 1) <= p * n
  {
    Scale(p', p, n - 1);
    assert p * (n - 1) == p * n - p;
  }

  lemma OneFewer(s: State, s': State, x: Tid)
    requires x in s.threads && s'.threads.Keys == s.threads.Keys - {x}
    ensures |s'.threads| == |s.threads| - 1
  {
    assert |s.threads.Keys| == |s'.threads.Keys| + 1;
  }

  lemma TerminateRank(s: State, x: Tid, t: Tid)
    requires Inv(s) && Enabled(s, Terminate(x))
    requires RemoveThread(s, x).Ok? && t in s.lists.ready && t in RemoveThread(s, x).value.lists.ready
    ensures Rank(RemoveThread(s, x).value, t) <= Rank(s, t)
  {
    hide Inv, RemoveThread, IndexOf, Without, NoDup, Distance;
    TerminateEffect(s, x);
    var s' := RemoveThread(s, x).value;
    ReadyFits(s);
    var n := |s.threads|;
    OneFewer(s, s', x);
    if s'.lists.ready != s.lists.ready {
      WithoutMembers(s.lists.ready, x);
      DropRank(s.lists.ready, x, s.current, n, t);
    } else {
      FewerThreads(s.lists.ready, s.current, n, t);
    }
    ScaleDown(IndexOf(s'.lists.ready, t), IndexOf(s.lists.ready, t), n);
  }

  lemma QuietRank(s: State, e: Event, t: Tid)
    requires Inv(s) && Enabled(s, e) && Step(s, e).Ok? && !e.Schedules() && !e.CreateThread? && !e.Terminate?
    requires t in s.lists.ready && t in Step(s, e).value.lists.ready
    ensures Rank(Step(s, e).value, t) <= Rank(s, t)
  {
    hide Inv, Step, IndexOf, Without, NoDup, Distance;
    QuietEffect(s, e);
    var s' := Step(s, e).value;
    ReadyFits(s);
    ReadyFits(s');
    var n, p := |s.threads.Keys|, IndexOf(s.lists.ready, t);
    if s.lists.ready <= s'.lists.ready {
      var xs := s'.lists.ready[|s.lists.ready|..];
      assert s'.lists.ready == s.lists.ready + xs;
      AppendRank(s.lists.ready, xs, s.current, n, t);
    } else {
      WithoutMembers(s.lists.ready, s.current);
      BlockRank(s.lists.ready, s.current, n, t);
      assert (p - 1) * n == p * n - n;
    }
  }

  /** No step raises the rank of a thread that stays ready, and every scheduling decision for somebody
      else lowers it. */
  lemma RankStep(s: State, e: Event, t: Tid)
    requires Inv(s) && Enabled(s, e) && Step(s, e).Ok? && !e.CreateThread?
    requires t in s.lists.ready && t in Step(s, e).value.lists.ready
    requires e.Schedules() ==> Step(s, e).value.current != t
    ensures Rank(Step(s, e).value, t) + (if e.Schedules() then 1 else 0) <= Rank(s, t)
  {
    hide Inv, Rank;
    if e.Schedules() {
      ScheduleRank(s, e, t);
    } else if e.Terminate? {
      TerminateRank(s, e.t, t);
    } else {
      QuietRank(s, e, t);
    }
  }

  function Schedules(es: seq<Event>): nat {
    if es == [] then 0 else (if es[|es| - 1].Schedules() then 1 else 0) + Schedules(es[..|es| - 1])
  }

  /** t is on the ready list in every state of the run, no thread is created, and no scheduling event
      picks t. */
  ghost predicate PassedOver(ss: seq<State>, es: seq<Event>, t: Tid)
    requires |ss| == |es| + 1
  {
    (forall i :: 0 <= i < |ss| ==> t in ss[i].lists.ready) &&
    (forall i :: 0 <= i < |es| ==> !es[i].CreateThread? && (es[i].Schedules() ==> ss[i + 1].current != t))
  }

  lemma {:induction false} RankOverRun(ss: seq<State>, es: seq<Event>, t: Tid)
    requires IsRun(ss, es) && Inv(ss[0]) && PassedOver(ss, es, t)
    ensures Rank(ss[|es|], t) + Schedules(es) <= Rank(ss[0], t)
    decreases |es|
  {
    hide Inv, Rank;
    if es != [] {
      var k := |es| - 1;
      RankOverRun(ss[..|es|], es[..k], t);
      RunKeeps(ss, es, k);
      RankStep(ss[k], es[k], t);
    }
  }

  /** Bounded waiting: with n live threads and none created, a thread that stays ready is picked within
      n * n scheduling decisions, whatever preemption, blocking, sleeping, waking and terminating goes on. */
  lemma BoundedWaiting(ss: seq<State>, es: seq<Event>, t: Tid)
    requires IsRun(ss, es) && Inv(ss[0])
    requires forall i :: 0 <= i < |ss| ==> t in ss[i].lists.ready
    requires forall i :: 0 <= i < |es| ==> !es[i].CreateThread?
    requires Schedules(es) >= |ss[0].threads| * |ss[0].threads|
    ensures exists i :: 0 <= i < |es| && es[i].Schedules() && ss[i + 1].current == t
  {
    hide Inv, Rank, Step;
    if PassedOver(ss, es, t) {
      RankOverRun(ss, es, t);
      RankBound(ss[0], t);
      RunKeeps(ss, es, |es|);
      RankBound(ss[|es|], t);
      assert false;
    }
  }
}
