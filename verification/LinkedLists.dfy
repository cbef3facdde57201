/** List: a doubly linked list that owns its nodes and ends in a node without data, refining sequences. */
module LinkedLists {
  import opened Common

  /** `data` is absent in the ending node only. */
  class Node<T> {
    var next: Node?<T>
    var prev: Node?<T>
    const data: Option<T>

    constructor (d: Option<T>)
      ensures next == null && prev == null && data == d
    {
      next, prev, data := null, null, d;
    }
  }

  /** s with x put in front of position i. */
  function Inserted<T>(s: seq<T>, i: nat, x: T): seq<T>
    requires i <= |s|
  {
    s[..i] + [x] + s[i..]
  }

  lemma InsertedNoDup<T>(s: seq<T>, i: nat, x: T)
    requires i <= |s| && NoDup(s) && x !in s
    ensures NoDup(Inserted(s, i, x))
  {
    var r := Inserted(s, i, x);
    assert forall j :: 0 <= j < |r| && j != i ==> r[j] == s[if j < i then j else j - 1] != x;
  }

  /** s without position i. */
  function Removed<T>(s: seq<T>, i: nat): seq<T>
    requires i < |s|
  {
    s[..i] + s[i + 1..]
  }

  lemma RemovedMembers<T>(s: seq<T>, i: nat)
    requires i < |s| && NoDup(s)
    ensures s[i] !in Removed(s, i) && forall x :: x in Removed(s, i) ==> x in s
  {
    var r := Removed(s, i);
    assert forall j :: 0 <= j < |r| ==> r[j] == s[if j < i then j else j + 1] != s[i];
  }

  function Filter<T>(s: seq<T>, p: T -> bool): seq<T> {
    if s == [] then []
    else (if p(s[0]) then [s[0]] else []) + Filter(s[1..], p)
  }

  ghost predicate HaveData<T>(ns: seq<Node<T>>) {
    forall i :: 0 <= i < |ns| ==> ns[i].data.Some?
  }

  function DataOf<T>(ns: seq<Node<T>>): (r: seq<T>)
    requires HaveData(ns)
    ensures |r| == |ns| && forall i :: 0 <= i < |r| ==> r[i] == ns[i].data.value
  {
    seq(|ns|, i requires 0 <= i < |ns| => ns[i].data.value)
  }

  /** remove_if has been through the first k nodes and kept these. */
  ghost predicate Scanned<T>(all: seq<Node<T>>, k: nat, kept: seq<Node<T>>, p: T -> bool) {
    k <= |all| && kept == Filter(all[..k], Keeps(p)) && |kept| <= k && (|kept| == k ==> kept == all[..k]) &&
    Within(kept, all) && Within(all[k..], all)
  }

  ghost predicate Within<T>(part: seq<Node<T>>, all: seq<Node<T>>) {
    forall i :: 0 <= i < |part| ==> part[i] in all
  }

  ghost function KeptNow<T>(p: T -> bool, kept: seq<Node<T>>, n: Node<T>): seq<Node<T>> {
    if Keeps(p)(n) then kept + [n] else kept
  }

  lemma VisitRemoves<T>(kept: seq<T>, rest: seq<T>)
    requires rest != []
    ensures Removed(kept + rest, |kept|) == kept + rest[1..]
  {
  }

  lemma ScanStart<T>(all: seq<Node<T>>, p: T -> bool)
    ensures Scanned(all, 0, [], p) && [] + all[0..] == all
  {
  }

  lemma ScanStep<T>(all: seq<Node<T>>, k: nat, kept: seq<Node<T>>, p: T -> bool)
    requires Scanned(all, k, kept, p) && k < |all|
    ensures all[k..][0] == all[k] && all[k..][1..] == all[k + 1..] && Within(kept, all) && Within(all[k..], all)
    ensures Scanned(all, k + 1, KeptNow(p, kept, all[k]), p)
  {
    FilterSnoc(all[..k], all[k], Keeps(p));
    assert all[..k] + [all[k]] == all[..k + 1];
  }

  lemma ScanEnd<T>(all: seq<Node<T>>, kept: seq<Node<T>>, p: T -> bool)
    requires Scanned(all, |all|, kept, p)
    ensures kept == Filter(all, Keeps(p)) && (|kept| < |all| <==> kept != all)
  {
    assert all[..|all|] == all;
  }

  class List<T> {
    const ending: Node<T>
    var head: Node<T>
    var tail: Node<T>
    var count: nat
    ghost var nodes: seq<Node<T>>

    ghost predicate Linked(i: nat)
      requires i < |nodes|
      reads this, nodes
    {
      nodes[i].next == (if i + 1 < |nodes| then nodes[i + 1] else ending) &&
      nodes[i].prev == (if i == 0 then null else nodes[i - 1])
    }

    /** Head, tail, count and links are those of the sequence `nodes`; the ending node points back to the last
        member. When the last member leaves, that link is left dangling. */
    ghost predicate Valid()
      reads this, ending, nodes
    {
      count == |nodes| && NoDup(nodes) && HaveData(nodes) && ending !in nodes &&
      head == (if nodes == [] then ending else nodes[0]) &&
      tail == (if nodes == [] then ending else nodes[|nodes| - 1]) &&
      (nodes != [] ==> ending.prev == tail) &&
      forall i :: 0 <= i < |nodes| ==> Linked(i)
    }

    constructor ()
      ensures Valid() && nodes == [] && fresh(ending)
    {
      var e := new Node<T>(None);
      ending, head, tail, count, nodes := e, e, e, 0, [];
    }

    /** Where a position handle stands: a member's index, or the length for the ending node. */
    ghost predicate StandsAt(node: Node<T>, i: nat)
      reads this
    {
      i <= |nodes| && node == if i < |nodes| then nodes[i] else ending
    }

    method LinkNode(newNode: Node<T>, oldNode: Node<T>, ghost i: nat)
      requires Valid() && StandsAt(oldNode, i) && newNode !in nodes && newNode != ending && newNode.data.Some?
      modifies this, newNode, nodes, ending
      ensures Valid() && nodes == Inserted(old(nodes), i, newNode)
    {
      hide NoDup;
      InsertedNoDup(nodes, i, newNode);
      Interpose(newNode, oldNode, i);
      count := count + 1;
      nodes := Inserted(nodes, i, newNode);
      forall k | 0 <= k < |nodes|
        ensures Linked(k)
      {
        if k < i {
          assert old(Linked(k));
        } else if k > i {
          assert old(Linked(k - 1));
        }
      }
    }

    /** The four cases of link_node. */
    method Interpose(newNode: Node<T>, oldNode: Node<T>, ghost i: nat)
      requires Valid() && StandsAt(oldNode, i) && newNode !in nodes && newNode != ending
      modifies `head, `tail, newNode, nodes, ending
      ensures newNode.next == oldNode && newNode.prev == if i == 0 then null else nodes[i - 1]
      ensures head == if i == 0 then newNode else nodes[0]
      ensures tail == (if i == |nodes| then newNode else nodes[|nodes| - 1]) && ending.prev == tail
      ensures forall j :: 0 <= j < |nodes| ==> nodes[j].next == if j + 1 == i then newNode else old(nodes[j].next)
      ensures forall j :: 0 <= j < |nodes| ==> nodes[j].prev == if j == i then newNode else old(nodes[j].prev)
    {
      assert i < |nodes| ==> Linked(i);
      hide Linked;
      if count == 0 {
        newNode.prev := null;
        newNode.next := ending;
        ending.prev := newNode;
        head, tail := newNode, newNode;
      } else if oldNode == head {
        newNode.prev := null;
        newNode.next := head;
        head.prev := newNode;
        head := newNode;
      } else if oldNode == ending {
        newNode.prev := ending.prev;
        newNode.next := ending;
        ending.prev.next := newNode;
        ending.prev := newNode;
        tail := newNode;
      } else {
        newNode.prev := oldNode.prev;
        newNode.next := oldNode;
        oldNode.prev.next := newNode;
        oldNode.prev := newNode;
      }
    }

    method UnlinkNode(node: Node<T>, ghost i: nat)
      requires Valid() && i < |nodes| && nodes[i] == node
      modifies this, nodes, ending
      ensures Valid() && nodes == Removed(old(nodes), i)
    {
      Bypass(node, i);
      count := count - 1;
      nodes := Removed(nodes, i);
      Relinked(i);
    }

    /** The four cases of unlink_node. */
    method Bypass(node: Node<T>, ghost i: nat)
      requires Valid() && i < |nodes| && nodes[i] == node
      modifies `head, `tail, nodes, ending
      ensures head == if i > 0 then nodes[0] else if |nodes| > 1 then nodes[1] else ending
      ensures tail == if i + 1 < |nodes| then nodes[|nodes| - 1] else if i == 0 then ending else nodes[i - 1]
      ensures |nodes| > 1 ==> ending.prev == tail
      ensures forall j :: 0 <= j < |nodes| && j != i ==>
        nodes[j].next == if j + 1 == i then old(nodes[i].next) else old(nodes[j].next)
      ensures forall j :: 0 <= j < |nodes| && j != i ==>
        nodes[j].prev == if j == i + 1 then old(nodes[i].prev) else old(nodes[j].prev)
    {
      assert Linked(i) && (i > 0 ==> Linked(i - 1)) && (i + 1 < |nodes| ==> Linked(i + 1));
      hide Linked;
      if head == node && tail == node {
        head, tail := ending, ending;
      } else if head == node {
        head := node.next;
        node.next.prev := null;
      } else if tail == node {
        tail := node.prev;
        node.prev.next := ending;
        ending.prev := node.prev;
      } else {
        node.prev.next := node.next;
        node.next.prev := node.prev;
      }
    }

    twostate lemma Relinked(i: nat)
      requires old(Valid()) && i < |old(nodes)| && nodes == Removed(old(nodes), i)
      requires forall j :: 0 <= j < |old(nodes)| && j != i ==>
        old(nodes)[j].next == if j + 1 == i then old(nodes[i].next) else old(nodes[j].next)
      requires forall j :: 0 <= j < |old(nodes)| && j != i ==>
        old(nodes)[j].prev == if j == i + 1 then old(nodes[i].prev) else old(nodes[j].prev)
      ensures forall k :: 0 <= k < |nodes| ==> Linked(k)
    {
      assert old(Linked(i));
      forall k | 0 <= k < |nodes|
        ensures Linked(k)
      {
        assert old(Linked(if k < i then k else k + 1));
      }
    }

    /** insert, emplace and their front and back forms: a fresh node in front of the given position. */
    method Insert(x: T, position: Node<T>, ghost i: nat) returns (node: Node<T>)
      requires Valid() && StandsAt(position, i)
      modifies this, nodes, ending
      ensures Valid() && fresh(node) && node.data == Some(x) && nodes == Inserted(old(nodes), i, node)
    {
      node := new Node<T>(Some(x));
      LinkNode(node, position, i);
    }

    method PushBack(x: T) returns (node: Node<T>)
      requires Valid()
      modifies this, nodes, ending
      ensures Valid() && fresh(node) && node.data == Some(x) && nodes == old(nodes) + [node]
    {
      node := Insert(x, ending, |nodes|);
    }

    method PushFront(x: T) returns (node: Node<T>)
      requires Valid()
      modifies this, nodes, ending
      ensures Valid() && fresh(node) && node.data == Some(x) && nodes == [node] + old(nodes)
    {
      node := Insert(x, head, 0);
    }

    method PopFront()
      requires Valid() && nodes != []
      modifies this, nodes, ending
      ensures Valid() && nodes == old(nodes)[1..]
    {
      UnlinkNode(head, 0);
    }

    /** Steps back from the ending node and removes what it finds there. */
    method PopBack()
      requires Valid() && nodes != []
      modifies this, nodes, ending
      ensures Valid() && nodes == old(nodes)[..|old(nodes)| - 1]
    {
      UnlinkNode(ending.prev, |nodes| - 1);
    }

    /** One turn of remove_if: look at the first of `rest`, step on, and remove it if it is picked. */
    method Visit(p: T -> bool, at: Node<T>, ghost kept: seq<Node<T>>, ghost rest: seq<Node<T>>, ghost all: seq<Node<T>>)
      returns (next: Node<T>, picked: bool, ghost now: seq<Node<T>>)
      requires Valid() && nodes == kept + rest && rest != [] && at == rest[0]
      requires Within(kept, all) && Within(rest, all)
      modifies this, all, ending
      ensures now == KeptNow(p, kept, at) && |now| == (if picked then |kept| else |kept| + 1)
      ensures Valid() && nodes == now + rest[1..] && StandsAt(next, |now|)
    {
      assert nodes[|kept|] == at && Linked(|kept|);
      next := at.next;
      picked := p(at.data.value);
      if picked {
        now := kept;
        VisitRemoves(kept, rest);
        hide Removed, NoDup, Linked;
        UnlinkNode(at, |kept|);
      } else {
        now := kept + [at];
        assert nodes == now + rest[1..];
      }
    }

    /** remove_if has been through the first k nodes, kept `kept` of them, and stands at `at`. */
    ghost predicate MidScan(all: seq<Node<T>>, k: nat, kept: seq<Node<T>>, p: T -> bool, at: Node<T>, removed: bool)
      reads this, ending, nodes
    {
      Valid() && Scanned(all, k, kept, p) && k <= |all| && nodes == kept + all[k..] && StandsAt(at, |kept|) &&
      |kept| <= k && (removed <==> |kept| < k)
    }

    method Turn(p: T -> bool, at: Node<T>, removed: bool, ghost kept: seq<Node<T>>, ghost all: seq<Node<T>>, ghost k: nat)
      returns (at': Node<T>, removed': bool, ghost kept': seq<Node<T>>)
      requires MidScan(all, k, kept, p, at, removed) && at != ending
      modifies this, all, ending
      ensures k < |all| && MidScan(all, k + 1, kept', p, at', removed')
    {
      hide Scanned, NoDup, HaveData, Linked, KeptNow;
      NotAtEnd(at, kept, all[k..]);
      ScanStep(all, k, kept, p);
      var picked;
      at', picked, kept' := Visit(p, at, kept, all[k..], all);
      removed' := removed || picked;
    }

    /** One pass that removes what the predicate picks and keeps the order of the rest. */
    method RemoveIf(p: T -> bool) returns (removed: bool)
      requires Valid()
      modifies this, nodes, ending
      ensures Valid() && nodes == Filter(old(nodes), Keeps(p))
      ensures removed <==> nodes != old(nodes)
    {
      removed := false;
      var at: Node<T> := head;
      ghost var k: nat, all, kept := 0, nodes, [];
      ScanStart(all, p);
      while at != ending
        invariant MidScan(all, k, kept, p, at, removed)
        decreases |all| - k
      {
        at, removed, kept := Turn(p, at, removed, kept, all, k);
        k := k + 1;
      }
      AtEnd(at, kept, all[k..]);
      ScanEnd(all, kept, p);
    }

    lemma NotAtEnd(at: Node<T>, kept: seq<Node<T>>, rest: seq<Node<T>>)
      requires Valid() && nodes == kept + rest && StandsAt(at, |kept|) && at != ending
      ensures rest != [] && at == rest[0]
    {
    }

    lemma AtEnd(at: Node<T>, kept: seq<Node<T>>, rest: seq<Node<T>>)
      requires Valid() && nodes == kept + rest && StandsAt(at, |kept|) && at == ending
      ensures rest == [] && nodes == kept
    {
    }

    /** Taking a node out leaves another list alone. */
    method MoveOut(list: List<T>, node: Node<T>, ghost i: nat)
      requires Valid() && i < |nodes| && nodes[i] == node
      requires list != this && list.Valid() && Apart(this, list)
      modifies this, nodes, ending
      ensures Valid() && nodes == Removed(old(nodes), i) && list.Valid() && Apart(this, list)
      ensures node !in nodes && node != ending && node.data.Some? && node !in list.nodes && node != list.ending
    {
      ghost var members, others := nodes, list.nodes;
      RemovedMembers(nodes, i);
      UnlinkNode(node, i);
      forall k | 0 <= k < |others|
        ensures list.Linked(k)
      {
        assert old(list.Linked(k)) && others[k] in others && others[k] !in members;
      }
    }

    /** Putting a node at the end of another list leaves this one alone. */
    method MoveIn(list: List<T>, node: Node<T>)
      requires Valid() && list != this && list.Valid() && Apart(this, list)
      requires node !in nodes && node != ending && node.data.Some? && node !in list.nodes && node != list.ending
      modifies list, node, list.nodes, list.ending
      ensures Valid() && list.Valid() && list.nodes == old(list.nodes) + [node] && Apart(this, list)
    {
      ghost var others := list.nodes;
      list.LinkNode(node, list.ending, |list.nodes|);
      forall k | 0 <= k < |nodes|
        ensures Linked(k)
      {
        assert old(Linked(k)) && nodes[k] in nodes && nodes[k] !in others;
      }
    }

    /** splice into another list. */
    method SpliceAcross(list: List<T>, node: Node<T>, ghost i: nat)
      requires Valid() && i < |nodes| && nodes[i] == node
      requires list != this && list.Valid() && Apart(this, list)
      modifies this, nodes, ending, list, list.nodes, list.ending
      ensures Valid() && nodes == Removed(old(nodes), i)
      ensures list.Valid() && list.nodes == old(list.nodes) + [node] && Apart(this, list)
    {
      hide Linked, NoDup, HaveData, Removed;
      MoveOut(list, node, i);
      MoveIn(list, node);
    }

    /** splice into the list itself. */
    method SpliceWithin(node: Node<T>, ghost i: nat)
      requires Valid() && i < |nodes| && nodes[i] == node
      modifies this, nodes, ending
      ensures Valid() && nodes == Removed(old(nodes), i) + [node]
    {
      RemovedMembers(nodes, i);
      UnlinkNode(node, i);
      LinkNode(node, ending, |nodes|);
    }

    /** Moves a node to the end of a list, which may be this one. */
    method Splice(list: List<T>, node: Node<T>, ghost i: nat)
      requires Valid() && i < |nodes| && nodes[i] == node
      requires list != this ==> list.Valid() && Apart(this, list)
      modifies this, nodes, ending, list, list.nodes, list.ending
      ensures Valid() && list.Valid()
      ensures list == this ==> nodes == Removed(old(nodes), i) + [node]
      ensures list != this ==> nodes == Removed(old(nodes), i) && list.nodes == old(list.nodes) + [node] && Apart(this, list)
    {
      if list == this {
        SpliceWithin(node, i);
      } else {
        SpliceAcross(list, node, i);
      }
    }
  }

  /** remove_if keeps a node when its data is not picked. */
  function Keeps<T>(p: T -> bool): Node<T> -> bool {
    (n: Node<T>) => n.data.Some? && !p(n.data.value)
  }

  lemma {:induction false} FilterSnoc<T>(s: seq<T>, x: T, p: T -> bool)
    ensures Filter(s + [x], p) == Filter(s, p) + if p(x) then [x] else []
  {
    if s == [] {
      assert s + [x] == [x];
    } else {
      assert (s + [x])[1..] == s[1..] + [x] && (s + [x])[0] == s[0];
      FilterSnoc(s[1..], x, p);
      var head, rest, end := if p(s[0]) then [s[0]] else [], Filter(s[1..], p), if p(x) then [x] else [];
      assert head + (rest + end) == (head + rest) + end;
    }
  }

  /** Two lists share no memory. */
  ghost predicate Apart<T>(a: List<T>, b: List<T>)
    reads a, b
  {
    a.ending != b.ending && a.ending !in b.nodes && b.ending !in a.nodes && forall n :: n in a.nodes ==> n !in b.nodes
  }

  /** Filtering the nodes filters the values. */
  lemma {:induction false} FilterValues<T>(ns: seq<Node<T>>, p: T -> bool)
    requires HaveData(ns)
    ensures HaveData(Filter(ns, Keeps(p))) && DataOf(Filter(ns, Keeps(p))) == Filter(DataOf(ns), x => !p(x))
  {
    if ns == [] {
    } else {
      FilterValues(ns[1..], p);
      assert DataOf(ns)[1..] == DataOf(ns[1..]);
      var tail := Filter(ns[1..], Keeps(p));
      var keep := if Keeps(p)(ns[0]) then [ns[0]] else [];
      assert DataOf(keep + tail) == DataOf(keep) + DataOf(tail);
    }
  }
}
