/** The list part of the tasking invariant: every live thread is on exactly one of the four lists,
    the one its state and its owner field name, and it has a blocker exactly when it is blocked on a
    queue. Under it each list operation of the source passes its assertions. */
module TaskingLists {
  import opened Common
  import opened Tasking

  predicate QueueBlocked(th: Thread) { th.state == BlockedQueue || th.state == BlockedQueueTimed }

  predicate ThreadOk(th: Thread) {
    th.owner == Some(HomeOf(th.state)) && (th.blocker.Some? <==> QueueBlocked(th))
  }

  ghost predicate ListOk(q: seq<Tid>, l: ListName, threads: map<Tid, Thread>) {
    NoDup(q) && forall t :: t in q <==> t in threads && threads[t].owner == Some(l)
  }

  ghost predicate ListsInv(lists: Lists, threads: map<Tid, Thread>) {
    (forall l :: ListOk(lists.At(l), l, threads)) &&
    (forall t :: t in threads ==> ThreadOk(threads[t]))
  }

  /** Each live thread is on the list of its state and on no other. */
  lemma ExactlyOneList(s: State, t: Tid)
    requires ListsInv(s.lists, s.threads) && t in s.threads
    ensures forall l :: t in s.lists.At(l) <==> l == HomeOf(s.threads[t].state)
    ensures s.threads[t].blocker.Some? <==> t in s.lists.blocked || t in s.lists.timed
  {
    assert ThreadOk(s.threads[t]);
    assert t in s.lists.At(BlockedList) <==> s.threads[t].state == BlockedQueue;
    assert t in s.lists.At(TimedList) <==> s.threads[t].state == BlockedQueueTimed;
  }

  function Moved(lists: Lists, t: Tid, from: ListName, to: ListName): Lists
    requires t in lists.At(from)
  {
    var l1 := lists.With(from, Without(lists.At(from), t));
    l1.With(to, l1.At(to) + [t])
  }

  lemma LeaveList(q: seq<Tid>, l: ListName, threads: map<Tid, Thread>, t: Tid)
    requires ListOk(q, l, threads) && t in q
    ensures forall th: Thread :: th.owner != Some(l) ==> ListOk(Without(q, t), l, threads[t := th])
    ensures ListOk(Without(q, t), l, threads - {t})
  {
    WithoutMembers(q, t);
  }

  lemma JoinList(q: seq<Tid>, l: ListName, threads: map<Tid, Thread>, t: Tid, th: Thread)
    requires ListOk(q, l, threads) && t !in q && th.owner == Some(l)
    ensures ListOk(q + [t], l, threads[t := th])
  {
  }

  lemma KeepList(q: seq<Tid>, l: ListName, threads: map<Tid, Thread>, t: Tid, th: Thread)
    requires ListOk(q, l, threads) && t !in q && th.owner != Some(l)
    ensures ListOk(q, l, threads[t := th])
  {
  }

  lemma MoveKeepsList(lists: Lists, threads: map<Tid, Thread>, t: Tid, th: Thread, from: ListName, to: ListName, l: ListName)
    requires t in threads && threads[t].owner == Some(from) && th.owner == Some(to) && from != to
    requires forall k :: ListOk(lists.At(k), k, threads)
    ensures t in lists.At(from)
    ensures ListOk(Moved(lists, t, from, to).At(l), l, threads[t := th])
  {
    assert ListOk(lists.At(from), from, threads) && ListOk(lists.At(l), l, threads);
    if l == from {
      LeaveList(lists.At(l), l, threads, t);
    } else if l == to {
      JoinList(lists.At(l), l, threads, t, th);
    } else {
      KeepList(lists.At(l), l, threads, t, th);
    }
  }

  /** Moving a thread between two lists, with its fields updated to match, keeps the invariant. */
  lemma MoveKeepsLists(lists: Lists, threads: map<Tid, Thread>, t: Tid, th: Thread)
    requires ListsInv(lists, threads) && t in threads && ThreadOk(th) && th.state != threads[t].state
    ensures t in lists.At(HomeOf(threads[t].state))
    ensures ListsInv(Moved(lists, t, HomeOf(threads[t].state), HomeOf(th.state)), threads[t := th])
  {
    assert ThreadOk(threads[t]);
    var from, to := HomeOf(threads[t].state), HomeOf(th.state);
    MoveKeepsList(lists, threads, t, th, from, to, from);
    forall l {
      MoveKeepsList(lists, threads, t, th, from, to, l);
    }
  }

  lemma MoveForm(s: State, t: Tid, from: ListName, to: ListName)
    requires ListOk(s.lists.At(from), from, s.threads) && t in s.lists.At(from)
    ensures RemoveFrom(s, from, t).Ok?
    ensures PushBack(RemoveFrom(s, from, t).value, to, t) ==
            Ok(s.(lists := Moved(s.lists, t, from, to), threads := s.threads[t := s.threads[t].(owner := Some(to))]))
  {
    assert s.threads[t := s.threads[t].(owner := None)][t := s.threads[t].(owner := Some(to))] ==
           s.threads[t := s.threads[t].(owner := Some(to))];
  }

  lemma WakeForm(s: State, t: Tid)
    requires ListsInv(s.lists, s.threads) && t in s.threads && s.threads[t].state != Ready
    ensures t in s.lists.At(HomeOf(s.threads[t].state))
    ensures WakeThread(s, t) ==
            Ok(s.(lists := Moved(s.lists, t, HomeOf(s.threads[t].state), ReadyList),
                  threads := s.threads[t := s.threads[t].(state := Ready, owner := Some(ReadyList), blocker := None)]))
    ensures ListsInv(WakeThread(s, t).value.lists, WakeThread(s, t).value.threads)
    ensures WakeThread(s, t).value.lists.ready == s.lists.ready + [t]
    ensures forall l :: l != ReadyList && l != HomeOf(s.threads[t].state) ==>
                          WakeThread(s, t).value.lists.At(l) == s.lists.At(l)
    ensures WakeThread(s, t).value.lists.At(HomeOf(s.threads[t].state)) ==
            Without(s.lists.At(HomeOf(s.threads[t].state)), t)
  {
    var th := s.threads[t].(state := Ready, owner := Some(ReadyList), blocker := None);
    MoveKeepsLists(s.lists, s.threads, t, th);
    MoveForm(s, t, HomeOf(s.threads[t].state), ReadyList);
    assert s.threads[t := s.threads[t].(owner := Some(ReadyList))][t := th] == s.threads[t := th];
  }

  function BlockedThread(s: State, t: Tid, q: QueueId, ms: nat): Thread
    requires t in s.threads
  {
    if ms != 0 then Thread(BlockedQueueTimed, Some(TimedList), Some(q), Deadline(s, ms))
    else Thread(BlockedQueue, Some(BlockedList), Some(q), s.threads[t].sleepTicks)
  }

  lemma BlockForm(s: State, t: Tid, q: QueueId, ms: nat)
    requires ListsInv(s.lists, s.threads) && t in s.threads && s.threads[t].state == Ready
    ensures t in s.lists.ready
    ensures var th := BlockedThread(s, t, q, ms);
            BlockThread(s, t, q, ms) ==
              Ok(s.(lists := Moved(s.lists, t, ReadyList, HomeOf(th.state)), threads := s.threads[t := th])) &&
            ListsInv(Moved(s.lists, t, ReadyList, HomeOf(th.state)), s.threads[t := th])
    ensures BlockThread(s, t, q, ms).value.lists.ready == Without(s.lists.ready, t)
  {
    var th := BlockedThread(s, t, q, ms);
    MoveKeepsLists(s.lists, s.threads, t, th);
    MoveForm(s, t, ReadyList, HomeOf(th.state));
    var s2 := PushBack(RemoveFrom(s, ReadyList, t).value, HomeOf(th.state), t).value;
    assert s2.threads[t := th] == s.threads[t := th];
    assert BlockThread(s, t, q, ms) == Ok(s2.(threads := s2.threads[t := th]));
    assert s2.lists.At(ReadyList) == Without(s.lists.At(ReadyList), t);
  }

  lemma SleepForm(s: State, t: Tid, ms: nat)
    requires ListsInv(s.lists, s.threads) && t in s.threads && s.threads[t].state == Ready
    ensures t in s.lists.ready
    ensures var th := Thread(BlockedSleep, Some(SleepingList), None, Deadline(s, ms));
            SleepThread(s, t, ms) ==
              Ok(s.(lists := Moved(s.lists, t, ReadyList, SleepingList), threads := s.threads[t := th])) &&
            ListsInv(Moved(s.lists, t, ReadyList, SleepingList), s.threads[t := th])
    ensures SleepThread(s, t, ms).value.lists.ready == Without(s.lists.ready, t)
  {
    var th := Thread(BlockedSleep, Some(SleepingList), None, Deadline(s, ms));
    MoveKeepsLists(s.lists, s.threads, t, th);
    MoveForm(s, t, ReadyList, SleepingList);
    var s2 := PushBack(RemoveFrom(s, ReadyList, t).value, SleepingList, t).value;
    assert s2.threads[t := th] == s.threads[t := th];
    assert SleepThread(s, t, ms) == Ok(s2.(threads := s2.threads[t := th]));
    assert s2.lists.At(ReadyList) == Without(s.lists.At(ReadyList), t);
  }

  lemma AddForm(s: State, t: Tid)
    requires ListsInv(s.lists, s.threads) && t !in s.threads
    ensures AddThread(s, t) ==
            Ok(s.(lists := s.lists.(ready := s.lists.ready + [t]),
                  threads := s.threads[t := Thread(Ready, Some(ReadyList), None, 0)], pc := s.pc[t := Running]))
    ensures ListsInv(AddThread(s, t).value.lists, AddThread(s, t).value.threads)
  {
    var th := Thread(Ready, Some(ReadyList), None, 0);
    assert s.threads[t := th.(owner := None)][t := th] == s.threads[t := th];
    var lists' := s.lists.(ready := s.lists.ready + [t]);
    forall l
      ensures ListOk(lists'.At(l), l, s.threads[t := th])
    {
      assert ListOk(s.lists.At(l), l, s.threads);
      if l == ReadyList {
        JoinList(s.lists.At(l), l, s.threads, t, th);
      }
    }
  }

  /** Taking a thread off its list and out of the table. */
  lemma RemoveForm(s: State, t: Tid)
    requires ListsInv(s.lists, s.threads) && t in s.threads
    ensures var l := HomeOf(s.threads[t].state);
            t in s.lists.At(l) &&
            RemoveFrom(s, l, t) == Ok(s.(lists := s.lists.With(l, Without(s.lists.At(l), t)),
                                         threads := s.threads[t := s.threads[t].(owner := None)])) &&
            ListsInv(s.lists.With(l, Without(s.lists.At(l), t)), s.threads - {t})
  {
    assert ThreadOk(s.threads[t]);
    var l := HomeOf(s.threads[t].state);
    var lists' := s.lists.With(l, Without(s.lists.At(l), t)) by {
      assert ListOk(s.lists.At(l), l, s.threads);
    }
    forall k
      ensures ListOk(lists'.At(k), k, s.threads - {t})
    {
      assert ListOk(s.lists.At(k), k, s.threads);
      if k == l {
        LeaveList(s.lists.At(k), k, s.threads, t);
      }
    }
  }
}
