/** IntrusiveList: doubly linked lists whose links and owner live in the elements, refining sequences of nodes. */
module IntrusiveLists {
  import opened Common

  class Node {
    var next: Node?
    var prev: Node?
    var owner: IntrusiveList?

    constructor ()
      ensures next == null && prev == null && owner == null
    {
      next, prev, owner := null, null, null;
    }
  }

  class IntrusiveList {
    var count: nat
    var head: Node
    var tail: Node
    const ending: Node
    ghost var nodes: seq<Node>

    ghost function After(i: nat): Node
      requires i < |nodes|
      reads this
    {
      if i + 1 < |nodes| then nodes[i + 1] else ending
    }

    ghost function Before(i: nat): Node?
      requires i < |nodes|
      reads this
    {
      if i == 0 then null else nodes[i - 1]
    }

    ghost predicate Linked(i: nat)
      requires i < |nodes|
      reads this, nodes
    {
      nodes[i].owner == this && nodes[i].next == After(i) && nodes[i].prev == Before(i)
    }

    /** Head, tail, count, links and owners are those of the sequence `nodes`. The back link of the ending
        node is not kept up to date by the code and is left out. */
    ghost predicate Valid()
      reads this, ending, nodes
    {
      count == |nodes| && NoDup(nodes) && ending !in nodes && ending.owner == this &&
      head == (if nodes == [] then ending else nodes[0]) &&
      tail == (if nodes == [] then ending else nodes[|nodes| - 1]) &&
      forall i :: 0 <= i < |nodes| ==> Linked(i)
    }

    lemma Owned(n: Node)
      requires Valid() && n in nodes
      ensures n.owner == this && n.next != n
    {
      var i :| 0 <= i < |nodes| && nodes[i] == n;
      assert Linked(i);
    }

    lemma AllOwned()
      requires Valid()
      ensures forall n :: n in nodes ==> n.owner == this
    {
      forall n | n in nodes
        ensures n.owner == this
      {
        Owned(n);
      }
    }

    constructor ()
      ensures Valid() && nodes == [] && fresh(ending)
    {
      var e := new Node();
      count, head, tail, ending, nodes := 0, e, e, e, [];
      new;
      e.next, e.prev, e.owner := e, e, this;
    }

    /** append_node; its assertion refuses a node that some list owns. */
    method PushBack(node: Node) returns (ok: bool)
      requires Valid()
      modifies this, node, tail, ending
      ensures ok <==> old(node.owner) == null
      ensures ok ==> Valid() && nodes == old(nodes) + [node]
      ensures !ok ==> unchanged(this) && unchanged(node) && unchanged(old(tail)) && unchanged(ending)
    {
      if node.owner != null {
        return false;
      }
      if node in nodes {
        Owned(node);
      }
      node.owner := this;
      if head == ending {
        node.prev := null;
        node.next := ending;
        head, tail := node, node;
      } else {
        node.prev := tail;
        node.next := ending;
        tail.next := node;
        tail := node;
        ending.prev := tail;
      }
      count := count + 1;
      ghost var before := nodes;
      nodes := nodes + [node];
      forall i | 0 <= i < |nodes|
        ensures Linked(i)
      {
        assert i < |before| ==> old(Linked(i));
      }
      return true;
    }

    /** remove_node; its assertion refuses a node that this list does not own. */
    method Remove(node: Node) returns (ok: bool)
      requires Valid() && node != ending && (node.owner == this ==> node in nodes)
      modifies this, nodes
      ensures ok <==> old(node in nodes)
      ensures ok ==> Valid() && nodes == Without(old(nodes), node) && node.owner == null
      ensures !ok ==> unchanged(this) && unchanged(old(nodes))
    {
      if node.next == node || node.owner != this {
        if node in nodes {
          Owned(node);
        }
        return false;
      }
      ghost var i := IndexOf(nodes, node);
      WithoutMembers(nodes, node);
      AllOwned();
      Bypass(node, i);
      node.owner := null;
      count := count - 1;
      nodes := Without(nodes, node);
      Relinked(i);
      return true;
    }

    /** The four cases of remove_node. */
    method Bypass(node: Node, ghost i: nat)
      requires Valid() && i < |nodes| && nodes[i] == node
      modifies `head, `tail, nodes
      ensures head == if i > 0 then nodes[0] else After(0)
      ensures tail == if i + 1 < |nodes| then nodes[|nodes| - 1] else if i == 0 then ending else nodes[i - 1]
      ensures forall j :: 0 <= j < |nodes| ==> nodes[j].owner == this
      ensures forall j :: 0 <= j < |nodes| && j != i ==>
        nodes[j].next == if j + 1 == i then old(nodes[i].next) else old(nodes[j].next)
      ensures forall j :: 0 <= j < |nodes| && j != i ==>
        nodes[j].prev == if j == i + 1 then old(nodes[i].prev) else old(nodes[j].prev)
    {
      assert Linked(i) && (i > 0 ==> Linked(i - 1)) && (i + 1 < |nodes| ==> Linked(i + 1));
      AllOwned();
      hide Linked;
      if head == node && tail == node {
        head, tail := ending, ending;
      } else if head == node {
        head := node.next;
        node.next.prev := null;
      } else if tail == node {
        tail := node.prev;
        node.prev.next := ending;
      } else {
        node.prev.next := node.next;
        node.next.prev := node.prev;
      }
    }

    /** Leaving out position i: its neighbours take over each other. */
    twostate lemma Relinked(i: nat)
      requires old(Valid()) && i < |old(nodes)|
      requires nodes == old(nodes)[..i] + old(nodes)[i + 1..]
      requires forall j :: 0 <= j < |old(nodes)| && j != i ==> old(nodes)[j].owner == this
      requires forall j :: 0 <= j < |old(nodes)| && j != i ==>
        old(nodes)[j].next == if j + 1 == i then old(nodes[i].next) else old(nodes[j].next)
      requires forall j :: 0 <= j < |old(nodes)| && j != i ==>
        old(nodes)[j].prev == if j == i + 1 then old(nodes[i].prev) else old(nodes[j].prev)
      ensures forall k :: 0 <= k < |nodes| ==> Linked(k)
    {
      assert old(Linked(i));
      forall k | 0 <= k < |nodes|
        ensures Linked(k)
      {
        assert old(Linked(if k < i then k else k + 1));
      }
    }

    method PopFront() returns (node: Node?)
      requires Valid()
      modifies this, nodes
      ensures node == null <==> old(nodes) == []
      ensures node == null ==> unchanged(this) && unchanged(old(nodes))
      ensures node != null ==> Valid() && old(nodes) == [node] + nodes && node.owner == null
    {
      if head == ending {
        return null;
      }
      node := head;
      ghost var before := nodes;
      assert nodes[0] in nodes && Linked(0);
      var ok := Remove(node);
      IndexOfUnique(before, 0);
    }

    /** The position of a member, or the end. */
    method Find(node: Node) returns (position: Node)
      requires Valid() && (node.owner == this ==> node in nodes)
      ensures position == if node in nodes then node else ending
    {
      if node in nodes {
        Owned(node);
      }
      if node.owner == this {
        return node;
      }
      return ending;
    }

    /** Following the links from the head meets every member once, in order. */
    method Traverse() returns (met: seq<Node>)
      requires Valid()
      ensures met == nodes
    {
      met := [];
      var at: Node := head;
      while at != ending
        invariant |met| <= |nodes| && met == nodes[..|met|]
        invariant at == if |met| < |nodes| then nodes[|met|] else ending
        decreases |nodes| - |met|
      {
        assert at == nodes[|met|] && Linked(|met|);
        met := met + [at];
        at := at.next;
      }
    }
  }

  // ---- Several lists over one population of nodes ----

  datatype World = World(lists: set<IntrusiveList>, nodes: set<Node>, endings: set<Node>)

  /** Every list is well formed, and a node is in exactly the list its owner field names. */
  ghost predicate Consistent(w: World)
    reads w.lists, w.nodes, w.endings
  {
    w.nodes !! w.endings &&
    (forall l :: l in w.lists ==> l.ending in w.endings && (forall n :: n in l.nodes ==> n in w.nodes) && l.Valid()) &&
    (forall n :: n in w.nodes && n.owner != null ==> n.owner in w.lists && n in n.owner.nodes)
  }

  /** The owner field decides membership. */
  lemma OwnerDecides(w: World, n: Node, l: IntrusiveList)
    requires Consistent(w) && l in w.lists && n in w.nodes
    ensures n in l.nodes <==> n.owner == l
  {
    if n in l.nodes {
      var i :| 0 <= i < |l.nodes| && l.nodes[i] == n;
      assert l.Linked(i);
    }
  }

  /** No node is in two lists, or twice in one. */
  lemma NoSharing(w: World, a: IntrusiveList, b: IntrusiveList, i: nat, j: nat)
    requires Consistent(w) && a in w.lists && b in w.lists && i < |a.nodes| && j < |b.nodes| && a.nodes[i] == b.nodes[j]
    ensures a == b && i == j
  {
    assert a.Linked(i) && b.Linked(j);
  }

  /** The memory of two lists is disjoint. */
  lemma Apart(w: World, a: IntrusiveList, b: IntrusiveList)
    requires Consistent(w) && a in w.lists && b in w.lists && a != b
    ensures a.ending != b.ending && forall n :: n in a.nodes ==> n !in b.nodes
  {
    forall n | n in a.nodes
      ensures n !in b.nodes
    {
      OwnerDecides(w, n, a);
      OwnerDecides(w, n, b);
    }
  }

  /** Another list's memory is touched neither by an append nor by a removal. */
  ghost predicate Clear(m: IntrusiveList, touched: set<object>)
    reads m
  {
    m !in touched && m.ending !in touched && forall n :: n in m.nodes ==> n !in touched
  }

  lemma OthersClear(w: World, l: IntrusiveList, node: Node)
    requires Consistent(w) && l in w.lists && node in w.nodes && (node.owner == null || node.owner == l)
    ensures forall m :: m in w.lists && m != l ==> Clear(m, {l, l.ending, node} + set n | n in l.nodes)
  {
    forall m | m in w.lists && m != l
      ensures Clear(m, {l, l.ending, node} + set n | n in l.nodes)
    {
      Apart(w, l, m);
      OwnerDecides(w, node, m);
    }
  }

  lemma ListedNowhere(w: World, node: Node)
    requires Consistent(w) && node in w.nodes
    ensures node.owner == null <==> forall m :: m in w.lists ==> node !in m.nodes
  {
    forall m | m in w.lists
      ensures node in m.nodes <==> node.owner == m
    {
      OwnerDecides(w, node, m);
    }
  }

  /** Appending a node of the population to one of the lists: refused exactly when some list has it. */
  method Append(ghost w: World, l: IntrusiveList, node: Node) returns (ok: bool)
    requires Consistent(w) && l in w.lists && node in w.nodes
    modifies l, node, l.tail, l.ending
    ensures ok <==> forall m :: m in w.lists ==> node !in old(m.nodes)
    ensures ok ==> Consistent(w) && l.nodes == old(l.nodes) + [node]
    ensures ok ==> forall m :: m in w.lists && m != l ==> m.nodes == old(m.nodes)
  {
    ListedNowhere(w, node);
    if node.owner == null {
      OthersClear(w, l, node);
    }
    ghost var touched: set<object> := {l, l.ending, node} + set n | n in l.nodes;
    assert l.tail in touched;
    ok := l.PushBack(node);
    if ok {
      l.AllOwned();
      forall m | m in w.lists && m != l
        ensures m.Valid()
      {
        assert old(m.Valid()) && old(Clear(m, touched));
      }
    }
  }

  /** Removing a node of the population from one of the lists: refused exactly when the list does not have it. */
  method Delete(ghost w: World, l: IntrusiveList, node: Node) returns (ok: bool)
    requires Consistent(w) && l in w.lists && node in w.nodes
    modifies l, l.nodes
    ensures ok <==> node in old(l.nodes)
    ensures ok ==> Consistent(w) && l.nodes == Without(old(l.nodes), node) && node.owner == null
    ensures ok ==> forall m :: m in w.lists && m != l ==> m.nodes == old(m.nodes)
  {
    hide Without, IndexOf, NoDup;
    OwnerDecides(w, node, l);
    if node.owner == l {
      OthersClear(w, l, node);
    }
    ghost var touched: set<object> := {l, l.ending, node} + set n | n in l.nodes;
    ghost var before := l.nodes;
    assert forall n :: n in before ==> n in touched;
    ok := l.Remove(node);
    if ok {
      WithoutMembers(before, node);
      l.AllOwned();
      forall m | m in w.lists && m != l
        ensures m.Valid()
      {
        assert old(m.Valid()) && old(Clear(m, touched));
        assert forall n :: n in m.nodes ==> n !in before && unchanged(n);
      }
    }
  }
}
