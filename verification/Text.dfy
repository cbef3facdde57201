/** Character search and splitting at a separator. */
module Text {
  import opened Common

  /** StringView::find of one character from a position: the first occurrence at or after pos. */
  function Find<T(==)>(s: seq<T>, c: T, pos: nat): (r: Option<nat>)
    requires pos <= |s|
    ensures r.Some? ==> pos <= r.value < |s| && s[r.value] == c && forall j :: pos <= j < r.value ==> s[j] != c
    ensures r.None? ==> forall j :: pos <= j < |s| ==> s[j] != c
    decreases |s| - pos
  {
    if pos == |s| then None else if s[pos] == c then Some(pos) else Find(s, c, pos + 1)
  }

  /** The pieces between separators, empty ones included; there is always at least one. */
  function Split<T(==)>(s: seq<T>, c: T): (r: seq<seq<T>>)
    ensures |r| > 0
    ensures forall i :: 0 <= i < |r| ==> c !in r[i]
  {
    match Find(s, c, 0)
    case None => [s]
    case Some(i) => [s[..i]] + Split(s[i + 1..], c)
  }

  function Join<T>(parts: seq<seq<T>>, c: T): seq<T> {
    if parts == [] then [] else if |parts| == 1 then parts[0] else parts[0] + [c] + Join(parts[1..], c)
  }

  lemma {:induction false} JoinSplit<T>(s: seq<T>, c: T)
    ensures Join(Split(s, c), c) == s
  {
    match Find(s, c, 0)
    case None =>
    case Some(i) =>
      JoinSplit(s[i + 1..], c);
      assert Split(s, c)[1..] == Split(s[i + 1..], c);
      assert s == s[..i] + [c] + s[i + 1..];
  }

  lemma FirstSeparator<T>(a: seq<T>, c: T, b: seq<T>)
    requires c !in a
    ensures Find(a + [c] + b, c, 0) == Some(|a|)
  {
    var s := a + [c] + b;
    assert s[|a|] == c;
    assert forall j :: 0 <= j < |a| ==> s[j] == a[j];
  }

  /** Splitting two texts put together with a separator gives the pieces of both. */
  lemma {:induction false} SplitAppend<T>(a: seq<T>, c: T, b: seq<T>)
    ensures Split(a + [c] + b, c) == Split(a, c) + Split(b, c)
    decreases |a|
  {
    match Find(a, c, 0)
    case None =>
      FirstSeparator(a, c, b);
      assert (a + [c] + b)[..|a|] == a && (a + [c] + b)[|a| + 1..] == b;
    case Some(i) =>
      var rest := a[i + 1..] + [c] + b;
      assert a + [c] + b == a[..i] + [c] + rest;
      FirstSeparator(a[..i], c, rest);
      assert (a + [c] + b)[..i] == a[..i] && (a + [c] + b)[i + 1..] == rest;
      SplitAppend(a[i + 1..], c, b);
  }

  lemma {:induction false} SplitJoin<T>(parts: seq<seq<T>>, c: T)
    requires parts != [] && forall i :: 0 <= i < |parts| ==> c !in parts[i]
    ensures Split(Join(parts, c), c) == parts
  {
    if |parts| > 1 {
      SplitJoin(parts[1..], c);
      SplitAppend(parts[0], c, Join(parts[1..], c));
      assert parts == [parts[0]] + parts[1..];
    }
  }

  lemma NoSeparator<T>(s: seq<T>, c: T)
    requires c !in s
    ensures Split(s, c) == [s]
  {
  }

  lemma SplitFirst<T>(a: seq<T>, c: T, b: seq<T>)
    requires c !in a
    ensures Split(a + [c] + b, c) == [a] + Split(b, c)
  {
    SplitAppend(a, c, b);
    NoSeparator(a, c);
  }

  /** Splitting from a position: up to the next separator, then what follows it. */
  lemma SplitAt<T>(s: seq<T>, c: T, pos: nat)
    requires pos <= |s|
    ensures match Find(s, c, pos)
            case None => Split(s[pos..], c) == [s[pos..]]
            case Some(d) => Split(s[pos..], c) == [s[pos..d]] + Split(s[d + 1..], c)
  {
    hide Find, Split;
    match Find(s, c, pos)
    case None => NoSeparator(s[pos..], c);
    case Some(d) =>
      assert s[pos..] == s[pos..d] + [c] + s[d + 1..];
      SplitFirst(s[pos..d], c, s[d + 1..]);
  }

  lemma JoinOne<T>(part: seq<T>, c: T)
    ensures Join([part], c) == part
  {
  }

  lemma {:induction false} JoinSnoc<T>(parts: seq<seq<T>>, part: seq<T>, c: T)
    requires parts != []
    ensures Join(parts + [part], c) == Join(parts, c) + [c] + part
  {
    if |parts| == 1 {
      assert (parts + [part])[1..] == [part];
    } else {
      JoinSnoc(parts[1..], part, c);
      assert (parts + [part])[1..] == parts[1..] + [part];
      assert (parts + [part])[0] == parts[0];
    }
  }
}
