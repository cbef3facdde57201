/** The wait-queue and semaphore parts of the tasking invariant and what the elementary changes to
    queues, threads and program counters do to them. */
module TaskingQueues {
  import opened Common
  import opened Tasking

  predicate HasEntry(es: seq<Entry>, t: Tid) { EntryOf(es, t) < |es| }

  predicate InWait(pc: Pc) { pc.WaitYield? || pc.WaitResume? }

  ghost predicate DistinctOwners(es: seq<Entry>) {
    forall i, j :: 0 <= i < j < |es| ==> es[i].thread != es[j].thread
  }

  /** An entry of queue q belongs to a thread that is inside a wait on q; it is Blocked only if that
      thread really is blocked on q, and for `wait` (as opposed to wait_on_event) also whenever it is. */
  predicate EntryOk(e: Entry, q: QueueId, pc: map<Tid, Pc>, threads: map<Tid, Thread>) {
    e.thread in pc && e.thread in threads && pc[e.thread].Waits(q) &&
    (e.state == Blocked ==> threads[e.thread].blocker == Some(q)) &&
    (InWait(pc[e.thread]) && threads[e.thread].blocker == Some(q) ==> e.state == Blocked)
  }

  ghost predicate EntriesOk(es: seq<Entry>, q: QueueId, pc: map<Tid, Pc>, threads: map<Tid, Thread>) {
    DistinctOwners(es) && forall i :: 0 <= i < |es| ==> EntryOk(es[i], q, pc, threads)
  }

  /** A thread inside a wait owns an entry in that queue, and a blocked thread is inside a wait on its
      blocker. */
  predicate WaiterOk(t: Tid, queues: map<QueueId, seq<Entry>>, pc: map<Tid, Pc>, threads: map<Tid, Thread>)
    requires t in pc && t in threads
  {
    (pc[t].Running? || pc[t].SleepYield? || (pc[t].queue in queues && HasEntry(queues[pc[t].queue], t))) &&
    (threads[t].blocker.Some? ==> pc[t].Waits(threads[t].blocker.value))
  }

  ghost predicate QueuesInv(queues: map<QueueId, seq<Entry>>, pc: map<Tid, Pc>, threads: map<Tid, Thread>) {
    pc.Keys == threads.Keys &&
    (forall q :: q in queues ==> EntriesOk(queues[q], q, pc, threads)) &&
    (forall t :: t in threads ==> WaiterOk(t, queues, pc, threads))
  }

  lemma EntryOfUnique(es: seq<Entry>, i: nat)
    requires DistinctOwners(es) && i < |es|
    ensures EntryOf(es, es[i].thread) == i
  {
  }

  /** One entry stops being Blocked as its thread stops being blocked: a wake-up or a timeout. */
  lemma SettleEntry(queues: map<QueueId, seq<Entry>>, pc: map<Tid, Pc>, threads: map<Tid, Thread>,
                    q: QueueId, i: nat, state: EntryState, th: Thread)
    requires QueuesInv(queues, pc, threads) && q in queues && i < |queues[q]|
    requires state != Blocked && th.blocker == None
    ensures var es := queues[q];
            QueuesInv(queues[q := es[i := es[i].(state := state)]], pc, threads[es[i].thread := th])
  {
    var es := queues[q];
    var t := es[i].thread;
    assert EntriesOk(es, q, pc, threads) && EntryOk(es[i], q, pc, threads);
    var es' := es[i := es[i].(state := state)];
    var queues', threads' := queues[q := es'], threads[t := th];
    forall p | p in queues'
      ensures EntriesOk(queues'[p], p, pc, threads')
    {
      assert EntriesOk(queues[p], p, pc, threads);
      forall j | 0 <= j < |queues'[p]|
        ensures EntryOk(queues'[p][j], p, pc, threads')
      {
        assert EntryOk(queues[p][j], p, pc, threads);
      }
    }
    forall u | u in threads'
      ensures WaiterOk(u, queues', pc, threads')
    {
      assert WaiterOk(u, queues, pc, threads);
      if pc[u].Waits(q) {
        var k := EntryOf(es, u);
        assert es'[k].thread == u;
      }
    }
  }

  /** A thread changes without changing what it is blocked on. */
  lemma SameBlocker(queues: map<QueueId, seq<Entry>>, pc: map<Tid, Pc>, threads: map<Tid, Thread>, t: Tid, th: Thread)
    requires QueuesInv(queues, pc, threads) && t in threads && th.blocker == threads[t].blocker
    ensures QueuesInv(queues, pc, threads[t := th])
  {
    var threads' := threads[t := th];
    forall p | p in queues
      ensures EntriesOk(queues[p], p, pc, threads')
    {
      assert EntriesOk(queues[p], p, pc, threads);
      assert forall j :: 0 <= j < |queues[p]| ==> EntryOk(queues[p][j], p, pc, threads);
    }
    assert forall u :: u in threads ==> WaiterOk(u, queues, pc, threads);
  }

  /** A thread that is in no queue has no entry anywhere. */
  lemma NotWaiting(queues: map<QueueId, seq<Entry>>, pc: map<Tid, Pc>, threads: map<Tid, Thread>, t: Tid, q: QueueId)
    requires QueuesInv(queues, pc, threads) && q in queues && (t in pc ==> !pc[t].Waits(q))
    ensures !HasEntry(queues[q], t)
  {
    assert EntriesOk(queues[q], q, pc, threads);
    assert forall j :: 0 <= j < |queues[q]| ==> EntryOk(queues[q][j], q, pc, threads);
  }

  /** The current thread enters a wait: a Blocked entry at the back, and the thread blocked on q. */
  lemma AddEntry(queues: map<QueueId, seq<Entry>>, pc: map<Tid, Pc>, threads: map<Tid, Thread>,
                 q: QueueId, t: Tid, th: Thread, at: Pc)
    requires QueuesInv(queues, pc, threads) && q in queues && t in threads && pc[t] == Running
    requires th.blocker == Some(q) && at.Waits(q)
    ensures QueuesInv(queues[q := queues[q] + [Entry(t, Blocked)]], pc[t := at], threads[t := th])
  {
    var es' := queues[q] + [Entry(t, Blocked)];
    var queues', pc', threads' := queues[q := es'], pc[t := at], threads[t := th];
    forall p | p in queues'
      ensures EntriesOk(queues'[p], p, pc', threads')
    {
      assert EntriesOk(queues[p], p, pc, threads);
      NotWaiting(queues, pc, threads, t, p);
      forall j | 0 <= j < |queues[p]|
        ensures EntryOk(queues[p][j], p, pc', threads')
      {
        assert EntryOk(queues[p][j], p, pc, threads);
      }
    }
    forall u | u in threads'
      ensures WaiterOk(u, queues', pc', threads')
    {
      assert WaiterOk(u, queues, pc, threads);
      if u == t {
        assert es'[|queues[q]|].thread == t;
      } else if pc[u].Waits(q) {
        assert es'[EntryOf(queues[q], u)].thread == u;
      }
    }
  }

  lemma DropFromQueue(es: seq<Entry>, q: QueueId, pc: map<Tid, Pc>, threads: map<Tid, Thread>, t: Tid)
    requires EntriesOk(es, q, pc, threads) && HasEntry(es, t)
    ensures var i := EntryOf(es, t); EntriesOk(es[..i] + es[i + 1..], q, pc[t := Running], threads)
  {
    var i := EntryOf(es, t);
    var es' := es[..i] + es[i + 1..];
    forall j | 0 <= j < |es'|
      ensures EntryOk(es'[j], q, pc[t := Running], threads)
    {
      var k := if j >= i then j + 1 else j;
      assert es'[j] == es[k] && EntryOk(es[k], q, pc, threads);
    }
  }

  lemma KeepQueue(es: seq<Entry>, q: QueueId, pc: map<Tid, Pc>, threads: map<Tid, Thread>, t: Tid, at: Pc)
    requires EntriesOk(es, q, pc, threads) && !HasEntry(es, t)
    ensures EntriesOk(es, q, pc[t := at], threads)
  {
    assert forall j :: 0 <= j < |es| ==> EntryOk(es[j], q, pc, threads);
  }

  /** The waiter takes its own entry out and goes on. */
  lemma DropEntry(queues: map<QueueId, seq<Entry>>, pc: map<Tid, Pc>, threads: map<Tid, Thread>, q: QueueId, t: Tid)
    requires QueuesInv(queues, pc, threads) && q in queues && t in threads && pc[t].Waits(q)
    requires threads[t].blocker == None
    ensures HasEntry(queues[q], t)
    ensures var i := EntryOf(queues[q], t);
            QueuesInv(queues[q := queues[q][..i] + queues[q][i + 1..]], pc[t := Running], threads)
  {
    assert WaiterOk(t, queues, pc, threads);
    var es := queues[q];
    var i := EntryOf(es, t);
    var es' := es[..i] + es[i + 1..];
    var queues', pc' := queues[q := es'], pc[t := Running];
    forall p | p in queues'
      ensures EntriesOk(queues'[p], p, pc', threads)
    {
      if p == q {
        DropFromQueue(es, q, pc, threads, t);
      } else {
        NotWaiting(queues, pc, threads, t, p);
        KeepQueue(queues[p], p, pc, threads, t, Running);
      }
    }
    forall u | u in threads
      ensures WaiterOk(u, queues', pc', threads)
    {
      assert WaiterOk(u, queues, pc, threads);
      if u != t && pc[u].Waits(q) {
        var k := EntryOf(es, u);
        assert es'[if k < i then k else k - 1].thread == u;
      }
    }
  }

  /** wait_on_event blocks again without touching its entry. */
  lemma Reblock(queues: map<QueueId, seq<Entry>>, pc: map<Tid, Pc>, threads: map<Tid, Thread>,
                q: QueueId, t: Tid, th: Thread)
    requires QueuesInv(queues, pc, threads) && q in queues && t in threads && pc[t] == EventResume(q)
    requires th.blocker == Some(q)
    ensures QueuesInv(queues, pc[t := EventYield(q)], threads[t := th])
  {
    var pc', threads' := pc[t := EventYield(q)], threads[t := th];
    forall p | p in queues
      ensures EntriesOk(queues[p], p, pc', threads')
    {
      assert EntriesOk(queues[p], p, pc, threads);
      assert forall j :: 0 <= j < |queues[p]| ==> EntryOk(queues[p][j], p, pc, threads);
    }
    assert forall u :: u in threads ==> WaiterOk(u, queues, pc, threads);
  }

  /** A thread passes a point in its code without leaving or entering a wait. */
  lemma MovePc(queues: map<QueueId, seq<Entry>>, pc: map<Tid, Pc>, threads: map<Tid, Thread>, t: Tid, at: Pc)
    requires QueuesInv(queues, pc, threads) && t in threads
    requires InWait(at) == InWait(pc[t]) && forall q :: at.Waits(q) == pc[t].Waits(q)
    ensures QueuesInv(queues, pc[t := at], threads)
  {
    assert pc[t].Running? || pc[t].SleepYield? || pc[t].Waits(pc[t].queue);
    assert at.Running? || at.SleepYield? || at.Waits(at.queue);
    forall p | p in queues
      ensures EntriesOk(queues[p], p, pc[t := at], threads)
    {
      assert EntriesOk(queues[p], p, pc, threads);
      assert forall j :: 0 <= j < |queues[p]| ==> EntryOk(queues[p][j], p, pc, threads);
    }
    assert forall u :: u in threads ==> WaiterOk(u, queues, pc, threads);
  }

  lemma AddWaiterless(queues: map<QueueId, seq<Entry>>, pc: map<Tid, Pc>, threads: map<Tid, Thread>, t: Tid, th: Thread)
    requires QueuesInv(queues, pc, threads) && t !in threads && th.blocker == None
    ensures QueuesInv(queues, pc[t := Running], threads[t := th])
  {
    var pc', threads' := pc[t := Running], threads[t := th];
    forall p | p in queues
      ensures EntriesOk(queues[p], p, pc', threads')
    {
      assert EntriesOk(queues[p], p, pc, threads);
      assert forall j :: 0 <= j < |queues[p]| ==> EntryOk(queues[p][j], p, pc, threads);
    }
    assert forall u :: u in threads ==> WaiterOk(u, queues, pc, threads);
  }

  lemma {:induction false} DropEntriesDistinct(es: seq<Entry>, t: Tid)
    requires DistinctOwners(es)
    ensures DistinctOwners(DropEntries(es, t))
    ensures forall e :: e in DropEntries(es, t) <==> e in es && e.thread != t
    ensures !HasEntry(es, t) ==> DropEntries(es, t) == es
  {
    if es != [] {
      DropEntriesDistinct(es[1..], t);
      forall e | e in DropEntries(es[1..], t)
        ensures e.thread != es[0].thread
      {
        var k :| 0 <= k < |es[1..]| && es[1..][k] == e;
        assert es[k + 1] == e;
      }
      if !HasEntry(es, t) {
        assert es[0].thread != t && EntryOf(es, t) == 1 + EntryOf(es[1..], t);
      }
    }
  }

  lemma DropThreadEntries(queues: map<QueueId, seq<Entry>>, pc: map<Tid, Pc>, threads: map<Tid, Thread>, q: QueueId, t: Tid, p: QueueId)
    requires QueuesInv(queues, pc, threads) && q in queues && t in threads && p in queues
    requires pc[t].Waits(q) || pc[t].Running? || pc[t].SleepYield?
    ensures EntriesOk(queues[q := DropEntries(queues[q], t)][p], p, pc - {t}, threads - {t})
  {
    var queues', pc', threads' := queues[q := DropEntries(queues[q], t)], pc - {t}, threads - {t};
    assert EntriesOk(queues[p], p, pc, threads);
    DropEntriesDistinct(queues[p], t);
    if p != q {
      NotWaiting(queues, pc, threads, t, p);
    }
    forall j | 0 <= j < |queues'[p]|
      ensures EntryOk(queues'[p][j], p, pc', threads')
    {
      var e := queues'[p][j];
      assert e in queues[p];
      var k :| 0 <= k < |queues[p]| && queues[p][k] == e;
      assert EntryOk(queues[p][k], p, pc, threads);
    }
  }

  lemma DropThreadWaiter(queues: map<QueueId, seq<Entry>>, pc: map<Tid, Pc>, threads: map<Tid, Thread>, q: QueueId, t: Tid, u: Tid)
    requires u in pc && u in threads && WaiterOk(u, queues, pc, threads) && q in queues && DistinctOwners(queues[q]) && u != t
    ensures WaiterOk(u, queues[q := DropEntries(queues[q], t)], pc - {t}, threads - {t})
  {
    if pc[u].Waits(q) {
      DropEntriesDistinct(queues[q], t);
      var e, es' := queues[q][EntryOf(queues[q], u)], DropEntries(queues[q], t);
      assert e in es';
      var k :| 0 <= k < |es'| && es'[k] == e;
      assert es'[k].thread == u;
    }
  }

  /** A terminated thread disappears together with its entry. */
  lemma DropThread(queues: map<QueueId, seq<Entry>>, pc: map<Tid, Pc>, threads: map<Tid, Thread>, q: QueueId, t: Tid)
    requires QueuesInv(queues, pc, threads) && q in queues && t in threads
    requires pc[t].Waits(q) || pc[t].Running? || pc[t].SleepYield?
    ensures QueuesInv(queues[q := DropEntries(queues[q], t)], pc - {t}, threads - {t})
  {
    hide WaiterOk, EntryOk, DropEntries;
    var queues', pc', threads' := queues[q := DropEntries(queues[q], t)], pc - {t}, threads - {t};
    assert EntriesOk(queues[q], q, pc, threads);
    forall p | p in queues'
      ensures EntriesOk(queues'[p], p, pc', threads')
    {
      DropThreadEntries(queues, pc, threads, q, t, p);
    }
    forall u | u in threads'
      ensures WaiterOk(u, queues', pc', threads')
    {
      DropThreadWaiter(queues, pc, threads, q, t, u);
    }
  }

  lemma DropBystander(queues: map<QueueId, seq<Entry>>, pc: map<Tid, Pc>, threads: map<Tid, Thread>, t: Tid)
    requires QueuesInv(queues, pc, threads) && t in threads && (pc[t].Running? || pc[t].SleepYield?)
    ensures QueuesInv(queues, pc - {t}, threads - {t})
  {
    forall p | p in queues
      ensures EntriesOk(queues[p], p, pc - {t}, threads - {t})
    {
      assert EntriesOk(queues[p], p, pc, threads);
      NotWaiting(queues, pc, threads, t, p);
      assert forall j :: 0 <= j < |queues[p]| ==> EntryOk(queues[p][j], p, pc, threads);
    }
    assert forall u :: u in threads ==> WaiterOk(u, queues, pc, threads);
  }

  lemma AddQueue(queues: map<QueueId, seq<Entry>>, pc: map<Tid, Pc>, threads: map<Tid, Thread>, q: QueueId)
    requires QueuesInv(queues, pc, threads) && q !in queues
    ensures QueuesInv(queues[q := []], pc, threads)
  {
    assert forall u :: u in threads ==> WaiterOk(u, queues, pc, threads);
    assert forall u :: u in threads ==> WaiterOk(u, queues[q := []], pc, threads);
    assert forall p :: p in queues ==> EntriesOk(queues[p], p, pc, threads);
  }
}
