/** The semaphore part of the tasking invariant. */
module TaskingSemaphores {
  import opened Common
  import opened Tasking
  import opened TaskingQueues

  /** The threads with a Blocked entry, in queue order. */
  function BlockedOwners(es: seq<Entry>): seq<Tid> {
    if es == [] then []
    else (if es[0].state == Blocked then [es[0].thread] else []) + BlockedOwners(es[1..])
  }

  lemma {:induction false} BlockedOwnersConcat(a: seq<Entry>, b: seq<Entry>)
    ensures BlockedOwners(a + b) == BlockedOwners(a) + BlockedOwners(b)
  {
    if a == [] {
      assert a + b == b;
    } else {
      BlockedOwnersConcat(a[1..], b);
      assert (a + b)[1..] == a[1..] + b && (a + b)[0] == a[0];
      var head, rest, end := if a[0].state == Blocked then [a[0].thread] else [], BlockedOwners(a[1..]), BlockedOwners(b);
      assert head + (rest + end) == (head + rest) + end;
    }
  }

  lemma {:induction false} BlockedOwnersMember(es: seq<Entry>, t: Tid)
    ensures t in BlockedOwners(es) <==> Entry(t, Blocked) in es
  {
    if es != [] {
      BlockedOwnersMember(es[1..], t);
      assert es == [es[0]] + es[1..];
    }
  }

  lemma {:induction false} BlockedOwnersDistinct(es: seq<Entry>)
    requires DistinctOwners(es)
    ensures NoDup(BlockedOwners(es))
  {
    if es != [] {
      BlockedOwnersDistinct(es[1..]);
      BlockedOwnersMember(es[1..], es[0].thread);
      assert forall k :: 0 <= k < |es[1..]| ==> es[1..][k].thread == es[k + 1].thread != es[0].thread;
      assert Entry(es[0].thread, Blocked) !in es[1..];
    }
  }

  lemma {:induction false} NoneBlocked(es: seq<Entry>)
    ensures BlockedOwners(es) == [] <==> FirstBlocked(es) == |es|
  {
    if es != [] {
      NoneBlocked(es[1..]);
    }
  }

  lemma OwnersAround(es: seq<Entry>, i: nat, e: Entry)
    requires i < |es|
    ensures BlockedOwners(es[i := e]) ==
            BlockedOwners(es[..i]) + (if e.state == Blocked then [e.thread] else []) + BlockedOwners(es[i + 1..])
  {
    var tail := [e] + es[i + 1..];
    assert es[i := e] == es[..i] + tail;
    BlockedOwnersConcat(es[..i], tail);
    assert tail[1..] == es[i + 1..];
  }

  /** Waking the first Blocked entry takes the head off the line of blocked threads. */
  lemma ServeFirst(es: seq<Entry>, state: EntryState)
    requires FirstBlocked(es) < |es| && state != Blocked
    ensures var i := FirstBlocked(es);
            BlockedOwners(es) == [es[i].thread] + BlockedOwners(es[i := es[i].(state := state)])
  {
    var i := FirstBlocked(es);
    NoneBlocked(es[..i]);
    assert es[i := es[i]] == es;
    OwnersAround(es, i, es[i]);
    OwnersAround(es, i, es[i].(state := state));
  }

  /** A resumed waiter's entry is no longer in that line. */
  lemma DropSettled(es: seq<Entry>, i: nat)
    requires i < |es| && es[i].state != Blocked
    ensures BlockedOwners(es[..i] + es[i + 1..]) == BlockedOwners(es)
  {
    assert es == es[..i] + ([es[i]] + es[i + 1..]);
    BlockedOwnersConcat(es[..i], es[i + 1..]);
    BlockedOwnersConcat(es[..i], [es[i]] + es[i + 1..]);
    assert ([es[i]] + es[i + 1..])[1..] == es[i + 1..];
  }

  function Pos(x: int): nat { if x < 0 then 0 else x }

  /** The count is what the history says, the blocked threads are those the count owes, first-in
      first-out, and the holders are what the count has given out. */
  ghost predicate SemOk(es: seq<Entry>, count: int, log: SemLog) {
    count == log.initial + log.releases - log.acquires &&
    |BlockedOwners(es)| == Pos(-count) &&
    log.arrivals == log.served + BlockedOwners(es) &&
    |log.holders| == log.initial + log.foreign - Pos(count)
  }

  /** Semaphores are waited on only through `wait`, and without a timeout. */
  predicate SemWaiterOk(t: Tid, counts: map<QueueId, int>, pc: map<Tid, Pc>, threads: map<Tid, Thread>)
    requires t in pc && t in threads
  {
    (pc[t].Running? || pc[t].SleepYield? || (pc[t].queue in counts ==> InWait(pc[t]))) &&
    (threads[t].blocker.Some? && threads[t].blocker.value in counts ==> threads[t].state == BlockedQueue)
  }

  ghost predicate SemWaiters(counts: map<QueueId, int>, pc: map<Tid, Pc>, threads: map<Tid, Thread>) {
    pc.Keys == threads.Keys && forall t :: t in threads ==> SemWaiterOk(t, counts, pc, threads)
  }

  ghost predicate SemCounts(queues: map<QueueId, seq<Entry>>, counts: map<QueueId, int>, logs: map<QueueId, SemLog>) {
    counts.Keys == logs.Keys && counts.Keys <= queues.Keys &&
    forall q :: q in counts ==> SemOk(queues[q], counts[q], logs[q])
  }

  lemma UpdateWaiter(counts: map<QueueId, int>, pc: map<Tid, Pc>, threads: map<Tid, Thread>, t: Tid, at: Pc, th: Thread)
    requires SemWaiters(counts, pc, threads)
    requires at.Running? || at.SleepYield? || (at.queue in counts ==> InWait(at))
    requires th.blocker.Some? && th.blocker.value in counts ==> th.state == BlockedQueue
    ensures SemWaiters(counts, pc[t := at], threads[t := th])
  {
    assert forall u :: u in threads ==> SemWaiterOk(u, counts, pc, threads);
  }

  lemma DropWaiter(counts: map<QueueId, int>, pc: map<Tid, Pc>, threads: map<Tid, Thread>, t: Tid)
    requires SemWaiters(counts, pc, threads)
    ensures SemWaiters(counts, pc - {t}, threads - {t})
  {
    assert forall u :: u in threads ==> SemWaiterOk(u, counts, pc, threads);
  }

  lemma UpdateQueue(queues: map<QueueId, seq<Entry>>, counts: map<QueueId, int>, logs: map<QueueId, SemLog>,
                    q: QueueId, es: seq<Entry>)
    requires SemCounts(queues, counts, logs)
    requires q in counts ==> q in queues && BlockedOwners(es) == BlockedOwners(queues[q])
    ensures SemCounts(queues[q := es], counts, logs)
  {
    assert forall p :: p in counts ==> SemOk(queues[p], counts[p], logs[p]);
  }

  lemma UpdateSemaphore(queues: map<QueueId, seq<Entry>>, counts: map<QueueId, int>, logs: map<QueueId, SemLog>,
                        q: QueueId, es: seq<Entry>, count: int, log: SemLog)
    requires SemCounts(queues, counts, logs) && SemOk(es, count, log)
    ensures SemCounts(queues[q := es], counts[q := count], logs[q := log])
  {
    assert forall p :: p in counts ==> SemOk(queues[p], counts[p], logs[p]);
  }
}
