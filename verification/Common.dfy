/** Result types and sequence facts shared by the models of the kernel's parts. */
module Common {

  datatype Option<+T> = None | Some(value: T)

  /** A step of kernel code either finishes or reaches a failed ASSERT or a PANIC. */
  datatype Outcome<+T> = Ok(value: T) | Panic {
    predicate IsFailure() { Panic? }

    function PropagateFailure<U>(): Outcome<U>
      requires Panic?
    {
      Panic
    }

    function Extract(): T
      requires Ok?
    {
      value
    }
  }

  const TWO16: nat := 0x1_0000
  const TWO32: nat := 0x1_0000_0000

  ghost predicate NoDup<T>(q: seq<T>) {
    forall i, j :: 0 <= i < j < |q| ==> q[i] != q[j]
  }

  /** Position of the first occurrence of x. */
  function IndexOf<T(==)>(q: seq<T>, x: T): (i: nat)
    requires x in q
    ensures i < |q| && q[i] == x && x !in q[..i]
  {
    if q[0] == x then 0
    else
      assert q == [q[0]] + q[1..];
      var k := IndexOf(q[1..], x);
      assert q[..k + 1] == [q[0]] + q[1..][..k];
      k + 1
  }

  /** q with the first occurrence of x taken out. */
  function Without<T(==)>(q: seq<T>, x: T): (r: seq<T>)
    requires x in q
    ensures |r| == |q| - 1
  {
    var i := IndexOf(q, x);
    q[..i] + q[i + 1..]
  }

  lemma IndexOfUnique<T>(q: seq<T>, i: nat)
    requires NoDup(q) && i < |q|
    ensures IndexOf(q, q[i]) == i
  {
  }

  /** In a duplicate-free list, taking x out leaves exactly the other members, still duplicate-free. */
  lemma WithoutMembers<T>(q: seq<T>, x: T)
    requires NoDup(q) && x in q
    ensures NoDup(Without(q, x))
    ensures forall y :: y in Without(q, x) <==> y in q && y != x
  {
    var i := IndexOf(q, x);
    var r := Without(q, x);
    forall y | y in q && y != x
      ensures y in r
    {
      var j :| 0 <= j < |q| && q[j] == y;
      assert r[if j < i then j else j - 1] == y;
    }
  }

  /** Where the remaining members move to when x is taken out. */
  lemma WithoutIndex<T>(q: seq<T>, x: T, y: T)
    requires NoDup(q) && x in q && y in q && y != x
    ensures y in Without(q, x)
    ensures IndexOf(Without(q, x), y) == IndexOf(q, y) - (if IndexOf(q, x) < IndexOf(q, y) then 1 else 0)
  {
    WithoutMembers(q, x);
    var i, j, r := IndexOf(q, x), IndexOf(q, y), Without(q, x);
    var k := if i < j then j - 1 else j;
    assert r[k] == y;
    IndexOfUnique(r, k);
  }

  lemma AppendIndex<T>(q: seq<T>, xs: seq<T>, y: T)
    requires y in q
    ensures y in q + xs && IndexOf(q + xs, y) == IndexOf(q, y)
  {
    var i := IndexOf(q, y);
    assert (q + xs)[i] == y;
    assert forall m :: 0 <= m < i ==> (q + xs)[m] == q[..i][m] != y;
  }

  /** A duplicate-free list of members of a finite set is no longer than the set is large. */
  lemma {:induction false} NoDupBound<T>(q: seq<T>, s: set<T>)
    requires NoDup(q) && forall x :: x in q ==> x in s
    ensures |q| <= |s|
  {
    if q != [] {
      var last := q[|q| - 1];
      assert forall x :: x in q[..|q| - 1] ==> x in q && x != last;
      NoDupBound(q[..|q| - 1], s - {last});
    }
  }

  lemma {:induction false} SubsetSize<T>(a: set<T>, b: set<T>)
    requires a <= b
    ensures |a| <= |b|
    ensures |a| == |b| ==> a == b
  {
    if a != {} {
      var x :| x in a;
      SubsetSize(a - {x}, b - {x});
    }
  }

  /** The naturals below n. */
  ghost function Below(n: nat): (r: set<nat>)
    ensures forall i: int :: i in r <==> 0 <= i < n
    ensures |r| == n
  {
    if n == 0 then {} else Below(n - 1) + {n - 1}
  }
}
