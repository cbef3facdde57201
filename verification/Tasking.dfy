/** The state of the kernel's threads, wait queues and semaphores, and what one critical section
    does to it. The machine has one CPU and every critical section runs with interrupts off, so a
    run of the kernel is a sequence of these steps.

    A failed ASSERT in the source is the outcome Panic. */
module Tasking {
  import opened Common

  type Tid = nat
  type QueueId = nat

  datatype ThreadState = Ready | BlockedSleep | BlockedQueue | BlockedQueueTimed

  /** The four intrusive lists. */
  datatype ListName = ReadyList | SleepingList | BlockedList | TimedList

  /** The fields of a thread that its list and wait-queue operations use; owner is the list node's
      owner pointer. */
  datatype Thread = Thread(state: ThreadState, owner: Option<ListName>, blocker: Option<QueueId>, sleepTicks: nat)

  datatype Lists = Lists(ready: seq<Tid>, sleeping: seq<Tid>, blocked: seq<Tid>, timed: seq<Tid>) {
    function At(l: ListName): seq<Tid> {
      match l
      case ReadyList => ready
      case SleepingList => sleeping
      case BlockedList => blocked
      case TimedList => timed
    }

    function With(l: ListName, q: seq<Tid>): (r: Lists)
      ensures forall k :: r.At(k) == if k == l then q else At(k)
    {
      match l
      case ReadyList => this.(ready := q)
      case SleepingList => this.(sleeping := q)
      case BlockedList => this.(blocked := q)
      case TimedList => this.(timed := q)
    }
  }

  datatype EntryState = Blocked | WokenUpNormally | Timeout
  datatype Entry = Entry(thread: Tid, state: EntryState)

  /** Where a thread stands in the code that blocks it. A thread that has left its critical section
      but has not raised the scheduling interrupt yet is about to yield. */
  datatype Pc =
    | Running
    | SleepYield
    | WaitYield(queue: QueueId) | WaitResume(queue: QueueId)
    | EventYield(queue: QueueId) | EventResume(queue: QueueId)
  {
    predicate AboutToYield() { SleepYield? || WaitYield? || EventYield? }
    predicate Waits(q: QueueId) { !Running? && !SleepYield? && queue == q }
    function AfterYield(): Pc {
      match this
      case WaitYield(q) => WaitResume(q)
      case EventYield(q) => EventResume(q)
      case SleepYield => Running
      case pc => pc
    }
  }

  /** What has happened at a semaphore so far: `arrivals` are the threads that had to block, in order,
      `served` those handed the semaphore by a release, `holders` the threads that acquired and have not
      released, `foreign` the releases by threads that held nothing. */
  datatype SemLog = SemLog(initial: int, acquires: nat, releases: nat,
                           arrivals: seq<Tid>, served: seq<Tid>, holders: multiset<Tid>, foreign: nat)

  datatype State = State(lists: Lists, threads: map<Tid, Thread>, current: Tid, ticks: nat,
                         queues: map<QueueId, seq<Entry>>, counts: map<QueueId, int>,
                         pc: map<Tid, Pc>, logs: map<QueueId, SemLog>)

  function HomeOf(state: ThreadState): ListName {
    match state
    case Ready => ReadyList
    case BlockedSleep => SleepingList
    case BlockedQueue => BlockedList
    case BlockedQueueTimed => TimedList
  }

  // ---- Intrusive list operations, seen as operations on sequences ----

  function RemoveFrom(s: State, l: ListName, t: Tid): Outcome<State> {
    if t in s.threads && s.threads[t].owner == Some(l) && t in s.lists.At(l) then
      Ok(s.(lists := s.lists.With(l, Without(s.lists.At(l), t)),
            threads := s.threads[t := s.threads[t].(owner := None)]))
    else Panic
  }

  function PushBack(s: State, l: ListName, t: Tid): Outcome<State> {
    if t in s.threads && s.threads[t].owner == None then
      Ok(s.(lists := s.lists.With(l, s.lists.At(l) + [t]),
            threads := s.threads[t := s.threads[t].(owner := Some(l))]))
    else Panic
  }

  // ---- Thread ----

  /** The list wake_up takes the thread out of; a thread in any other state is in no such list. */
  function LeaveBlockedList(s: State, t: Tid): Outcome<State> {
    if t !in s.threads then Panic
    else match s.threads[t].state
      case Ready => Ok(s)
      case state => RemoveFrom(s, HomeOf(state), t)
  }

  function WakeThread(s: State, t: Tid): Outcome<State> {
    var s1 :- LeaveBlockedList(s, t);
    var s2 :- PushBack(s1, ReadyList, t);
    Ok(s2.(threads := s2.threads[t := s2.threads[t].(state := Ready, blocker := None)]))
  }

  function Deadline(s: State, ms: nat): nat { (s.ticks + ms) % TWO32 }

  function BlockThread(s: State, t: Tid, q: QueueId, ms: nat): Outcome<State> {
    var s1 :- RemoveFrom(s, ReadyList, t);
    var s2 :- PushBack(s1, if ms != 0 then TimedList else BlockedList, t);
    var th := s2.threads[t];
    Ok(s2.(threads := s2.threads[t :=
      if ms != 0 then th.(state := BlockedQueueTimed, blocker := Some(q), sleepTicks := Deadline(s, ms))
      else th.(state := BlockedQueue, blocker := Some(q))]))
  }

  function SleepThread(s: State, t: Tid, ms: nat): Outcome<State> {
    var s1 :- RemoveFrom(s, ReadyList, t);
    var s2 :- PushBack(s1, SleepingList, t);
    Ok(s2.(threads := s2.threads[t := s2.threads[t].(state := BlockedSleep, sleepTicks := Deadline(s, ms))]))
  }

  // ---- Wait queue ----

  /** The first entry that satisfies nothing before it does, as an index; |es| when there is none. */
  function FirstBlocked(es: seq<Entry>): (i: nat)
    ensures i <= |es|
    ensures i < |es| ==> es[i].state == Blocked
    ensures forall j :: 0 <= j < i ==> es[j].state != Blocked
  {
    if es == [] then 0 else if es[0].state == Blocked then 0 else 1 + FirstBlocked(es[1..])
  }

  function EntryOf(es: seq<Entry>, t: Tid): (i: nat)
    ensures i <= |es|
    ensures i < |es| ==> es[i].thread == t
    ensures forall j :: 0 <= j < i ==> es[j].thread != t
  {
    if es == [] then 0 else if es[0].thread == t then 0 else 1 + EntryOf(es[1..], t)
  }

  function WithQueue(s: State, q: QueueId, es: seq<Entry>): State {
    s.(queues := s.queues[q := es])
  }

  /** WaitQueue::wake_up_queue on the entry at index i. */
  function WakeEntry(s: State, q: QueueId, i: nat): Outcome<State>
    requires q in s.queues && i < |s.queues[q]|
  {
    var e := s.queues[q][i];
    WakeThread(WithQueue(s, q, s.queues[q][i := e.(state := WokenUpNormally)]), e.thread)
  }

  function WakeOne(s: State, q: QueueId): Outcome<State>
    requires q in s.queues
  {
    var i := FirstBlocked(s.queues[q]);
    if i == |s.queues[q]| then Panic else WakeEntry(s, q, i)
  }

  function WakeAllFrom(s: State, q: QueueId, i: nat): Outcome<State>
    requires q in s.queues && i <= |s.queues[q]|
    decreases |s.queues[q]| - i
  {
    if i == |s.queues[q]| then Ok(s)
    else if s.queues[q][i].state != Blocked then WakeAllFrom(s, q, i + 1)
    else
      var s1 :- WakeEntry(s, q, i);
      WakeAllFrom(s1, q, i + 1)
  }

  function HandleTimeout(s: State, q: QueueId, t: Tid): Outcome<State> {
    if q !in s.queues then Panic
    else
      var es := s.queues[q];
      var i := EntryOf(es, t);
      if i == |es| then Panic else Ok(WithQueue(s, q, es[i := es[i].(state := Timeout)]))
  }

  /** remove_if over the whole vector. */
  function DropEntries(es: seq<Entry>, t: Tid): seq<Entry> {
    if es == [] then [] else (if es[0].thread == t then [] else [es[0]]) + DropEntries(es[1..], t)
  }

  function HandleTerminated(s: State, q: QueueId, t: Tid): Outcome<State> {
    if q !in s.queues || EntryOf(s.queues[q], t) == |s.queues[q]| then Panic
    else Ok(WithQueue(s, q, DropEntries(s.queues[q], t)))
  }

  // ---- Timer ----

  /** Thread::wake_up_sleepers over the sleeping list, one visit per thread that was on it. */
  function WakeSleepers(s: State, ts: seq<Tid>): Outcome<State>
    decreases |ts|
  {
    if ts == [] then Ok(s)
    else if ts[0] !in s.threads then Panic
    else if s.threads[ts[0]].sleepTicks > s.ticks then WakeSleepers(s, ts[1..])
    else
      var t := ts[0];
      var s1 :- WakeThread(s.(threads := s.threads[t := s.threads[t].(sleepTicks := 0)]), t);
      WakeSleepers(s1, ts[1..])
  }

  /** The same over the blocked-with-timeout list; the queue entry is marked before the thread wakes. */
  function ExpireOne(s: State, t: Tid): Outcome<State> {
    if t !in s.threads || s.threads[t].blocker == None then Panic
    else
      var s0 := s.(threads := s.threads[t := s.threads[t].(sleepTicks := 0)]);
      var s1 :- HandleTimeout(s0, s.threads[t].blocker.value, t);
      WakeThread(s1, t)
  }

  function WakeTimed(s: State, ts: seq<Tid>): Outcome<State>
    decreases |ts|
  {
    if ts == [] then Ok(s)
    else if ts[0] !in s.threads then Panic
    else if s.threads[ts[0]].sleepTicks > s.ticks then WakeTimed(s, ts[1..])
    else
      var s1 :- ExpireOne(s, ts[0]);
      WakeTimed(s1, ts[1..])
  }

  function WakeExpired(s: State): Outcome<State> {
    var s1 :- WakeSleepers(s, s.lists.sleeping);
    WakeTimed(s1, s1.lists.timed)
  }

  // ---- Scheduler ----

  /** Round robin: the thread after the current one on the ready list, or the first one when the
      current thread is last on the list or not on it. */
  function SelectNext(s: State): Outcome<Tid> {
    var ready := s.lists.ready;
    if ready == [] then Panic
    else if s.current in s.threads && s.threads[s.current].owner == Some(ReadyList) && s.current in ready then
      var i := IndexOf(ready, s.current) + 1;
      Ok(if i == |ready| then ready[0] else ready[i])
    else Ok(ready[0])
  }

  /** The interrupted thread has now yielded if it was about to. */
  function SwitchThread(s: State): Outcome<State> {
    var next :- SelectNext(s);
    Ok(s.(current := next))
  }

  function PassYield(s: State): State {
    if s.current in s.pc then s.(pc := s.pc[s.current := s.pc[s.current].AfterYield()]) else s
  }

  // ---- Events: one critical section, or one interrupt ----

  datatype Event =
    | Tick
    | Yield
    | Sleep(ms: nat)
    | WaitEnter(q: QueueId, ms: nat) | WaitLeave
    | EventEnter(q: QueueId, ms: nat) | EventRecheck(again: bool, ms: nat)
    | WakeUp(q: QueueId) | WakeUpAll(q: QueueId)
    | Acquire(q: QueueId) | Release(q: QueueId)
    | CreateThread(t: Tid) | Terminate(t: Tid)
    | CreateQueue(q: QueueId) | CreateSemaphore(q: QueueId, initial: int)
  {
    predicate Schedules() { Tick? || Yield? }
  }

  predicate CurrentAt(s: State, pc: Pc) { s.current in s.pc && s.pc[s.current] == pc }

  predicate PlainQueue(s: State, q: QueueId) { q in s.queues && q !in s.counts }
  predicate SemaphoreQueue(s: State, q: QueueId) { q in s.queues && q in s.counts && q in s.logs }

  /** When the kernel's code can be at the step. Terminating the current thread, a semaphore waiter, or
      a thread that was woken and has not resumed is excluded. */
  predicate Enabled(s: State, e: Event) {
    s.current in s.pc &&
    match e
    case Tick => true
    case Yield => s.pc[s.current].Running? || s.pc[s.current].AboutToYield()
    case Sleep(_) => CurrentAt(s, Running)
    case WaitEnter(q, _) => CurrentAt(s, Running) && PlainQueue(s, q)
    case WaitLeave => s.pc[s.current].WaitResume? && s.pc[s.current].queue in s.queues
    case EventEnter(q, _) => CurrentAt(s, Running) && PlainQueue(s, q)
    case EventRecheck(_, _) => s.pc[s.current].EventResume? && s.pc[s.current].queue in s.queues
    case WakeUp(q) => PlainQueue(s, q)
    case WakeUpAll(q) => PlainQueue(s, q)
    case Acquire(q) => CurrentAt(s, Running) && SemaphoreQueue(s, q)
    case Release(q) => SemaphoreQueue(s, q)
    case CreateThread(t) => t !in s.threads
    case Terminate(t) => t in s.threads && t in s.pc && t != s.current &&
        (s.pc[t].Running? || s.pc[t].SleepYield? ||
         (s.threads[t].blocker.Some? && s.threads[t].blocker.value !in s.counts))
    case CreateQueue(q) => q !in s.queues && q !in s.counts
    case CreateSemaphore(q, initial) => q !in s.queues && q !in s.counts && initial >= 0
  }

  function GotoPc(s: State, t: Tid, pc: Pc): State { s.(pc := s.pc[t := pc]) }

  /** WaitQueue::wait up to its yield. */
  function EnterWait(s: State, q: QueueId, ms: nat, pc: Pc): Outcome<State>
    requires q in s.queues
  {
    var s1 :- BlockThread(s, s.current, q, ms);
    Ok(GotoPc(WithQueue(s1, q, s.queues[q] + [Entry(s.current, Blocked)]), s.current, pc))
  }

  /** The entry's state is read and the entry removed. */
  function LeaveWait(s: State, q: QueueId): Outcome<State>
    requires q in s.queues
  {
    var es := s.queues[q];
    var i := EntryOf(es, s.current);
    if i == |es| then Panic
    else Ok(GotoPc(WithQueue(s, q, es[..i] + es[i + 1..]), s.current, Running))
  }

  function WaitResult(s: State, q: QueueId): EntryState
    requires q in s.queues && EntryOf(s.queues[q], s.current) < |s.queues[q]|
  {
    s.queues[q][EntryOf(s.queues[q], s.current)].state
  }

  /** One turn of wait_on_event's loop after the yield; `again` is what the checker answers. */
  function Recheck(s: State, q: QueueId, again: bool, ms: nat): Outcome<State>
    requires q in s.queues
  {
    if EntryOf(s.queues[q], s.current) == |s.queues[q]| then Panic
    else if again && WaitResult(s, q) != Timeout then
      var s1 :- BlockThread(s, s.current, q, ms);
      Ok(GotoPc(s1, s.current, EventYield(q)))
    else LeaveWait(s, q)
  }

  function LogAcquire(log: SemLog, t: Tid, blocks: bool): SemLog {
    if blocks then log.(acquires := log.acquires + 1, arrivals := log.arrivals + [t])
    else log.(acquires := log.acquires + 1, holders := log.holders + multiset{t})
  }

  function AcquireSemaphore(s: State, q: QueueId): Outcome<State>
    requires SemaphoreQueue(s, q)
  {
    var count := s.counts[q] - 1;
    var s1 := s.(counts := s.counts[q := count], logs := s.logs[q := LogAcquire(s.logs[q], s.current, count < 0)]);
    if count < 0 then EnterWait(s1, q, 0, WaitYield(q)) else Ok(s1)
  }

  function LogRelease(log: SemLog, who: Tid): SemLog {
    if who in log.holders then log.(releases := log.releases + 1, holders := log.holders - multiset{who})
    else log.(releases := log.releases + 1, foreign := log.foreign + 1)
  }

  function LogHandOff(log: SemLog, t: Tid): SemLog {
    log.(served := log.served + [t], holders := log.holders + multiset{t})
  }

  function ReleaseSemaphore(s: State, q: QueueId): Outcome<State>
    requires SemaphoreQueue(s, q)
  {
    var log := LogRelease(s.logs[q], s.current);
    if s.counts[q] < 0 then
      var es := s.queues[q];
      var i := FirstBlocked(es);
      var s1 :- WakeOne(s, q);
      Ok(s1.(counts := s1.counts[q := s.counts[q] + 1],
             logs := s1.logs[q := if i < |es| then LogHandOff(log, es[i].thread) else log]))
    else
      Ok(s.(counts := s.counts[q := s.counts[q] + 1], logs := s.logs[q := log]))
  }

  function AddThread(s: State, t: Tid): Outcome<State>
    requires t !in s.threads
  {
    var s1 := s.(threads := s.threads[t := Thread(Ready, None, None, 0)], pc := s.pc[t := Running]);
    PushBack(s1, ReadyList, t)
  }

  function RemoveThread(s: State, t: Tid): Outcome<State>
    requires t in s.threads
  {
    var th := s.threads[t];
    var s1 :- RemoveFrom(s, HomeOf(th.state), t);
    var s2 :- if th.state == Ready || th.state == BlockedSleep then Ok(s1)
              else if th.blocker == None then Panic
              else HandleTerminated(s1, th.blocker.value, t);
    Ok(s2.(threads := s2.threads - {t}, pc := s2.pc - {t}))
  }

  /** PIT::pit_handler: the scheduler runs, then the tick counter goes up. */
  function TimerTick(s: State): Outcome<State> {
    var s1 :- WakeExpired(s);
    var s2 :- SwitchThread(s1);
    Ok(s2.(ticks := (s2.ticks + 1) % TWO32))
  }

  function Step(s: State, e: Event): Outcome<State>
    requires Enabled(s, e)
  {
    match e
    case Tick => TimerTick(s)
    case Yield => SwitchThread(PassYield(s))
    case Sleep(ms) => (var s1 :- SleepThread(s, s.current, ms); Ok(GotoPc(s1, s.current, SleepYield)))
    case WaitEnter(q, ms) => EnterWait(s, q, ms, WaitYield(q))
    case WaitLeave => LeaveWait(s, s.pc[s.current].queue)
    case EventEnter(q, ms) => EnterWait(s, q, ms, EventYield(q))
    case EventRecheck(again, ms) => Recheck(s, s.pc[s.current].queue, again, ms)
    case WakeUp(q) => WakeOne(s, q)
    case WakeUpAll(q) => WakeAllFrom(s, q, 0)
    case Acquire(q) => AcquireSemaphore(s, q)
    case Release(q) => ReleaseSemaphore(s, q)
    case CreateThread(t) => AddThread(s, t)
    case Terminate(t) => RemoveThread(s, t)
    case CreateQueue(q) => Ok(s.(queues := s.queues[q := []]))
    case CreateSemaphore(q, initial) =>
      Ok(s.(queues := s.queues[q := []], counts := s.counts[q := initial],
            logs := s.logs[q := SemLog(initial, 0, 0, [], [], multiset{}, 0)]))
  }

  /** Just after Thread::create_init_thread. */
  function Boot(t: Tid): State {
    State(Lists([t], [], [], []), map[t := Thread(Ready, Some(ReadyList), None, 0)], t, 0,
          map[], map[], map[t := Running], map[])
  }

  ghost predicate IsRun(ss: seq<State>, es: seq<Event>) {
    |ss| == |es| + 1 &&
    forall i :: 0 <= i < |es| ==> Enabled(ss[i], es[i]) && Step(ss[i], es[i]) == Ok(ss[i + 1])
  }
}
