/** PathView::sub_path: what it returns for every pair of indices, and exactly when that is the slice asked for. */
module SubPaths {
  import opened Common
  import opened Text
  import opened Paths

  /** What reading a text can come to: a value, a view that reaches outside the text, or a failed assertion. */
  datatype Reading<+T> = Got(value: T) | Stray | Failed

  /** StringView::END and NOT_FOUND, all ones, as the signed number the path code compares with. */
  const END: int := -1

  /** StringView::substr. Sums wrap in 32 bits: a length of END reaches to the end of the text from any position, and
      a position behind the text, or a negative length, passes the assertion and gives a view outside the text. */
  function Substr(s: string, pos: int, len: int): Reading<string>
    requires pos >= END
  {
    var from := if pos == END then |s| else pos;
    var n := if len == END then |s| - from else len;
    if from + n < 0 || from + n > |s| then Failed
    else if n < 0 then Stray
    else Got(s[from..from + n])
  }

  /** n times path.find(SPLITER, pos) + 1. The search asserts that it starts inside the text. */
  function Hop(path: string, pos: nat, n: nat): (r: Reading<nat>)
    ensures !r.Stray? && (r.Got? && n > 0 ==> r.value <= |path|)
  {
    if n == 0 then Got(pos)
    else
      match Hop(path, pos, n - 1)
      case Got(p) => if p > |path| then Failed else Got(AfterNext(path, p))
      case _ => Failed
  }

  /** sub_absolute_path */
  function SubAbsolute(v: PathView, start: nat, end: nat): Reading<string>
    requires start <= end
  {
    if start >= v.absCount then Got("")
    else
      match Hop(v.abs, 1, start)
      case Got(p) =>
        if end < v.absCount - 1 then
          match Hop(v.abs, p, end - start + 1)
          case Got(q) => Substr(v.abs, p - 1, q - p)
          case _ => Failed
        else Substr(v.abs, p - 1, END)
      case _ => Failed
  }

  /** The text sub_relative_path takes for an end before the last element, from position p over m pieces. */
  function Stretch(rel: string, p: nat, m: nat): Reading<string> {
    match Hop(rel, p, m)
    case Got(q) => Substr(rel, p, q - p - 1)
    case _ => Failed
  }

  /** sub_relative_path. The start is searched for in the text of the absolute part. */
  function SubRelative(v: PathView, start: nat, end: nat): Reading<string>
    requires start <= end
  {
    if end < v.absCount then Got("")
    else
      var first, last := if start < v.absCount then 0 else start - v.absCount, end - v.absCount;
      match Hop(v.abs, 0, first)
      case Got(p) =>
        if last < v.relCount - 1 then Stretch(v.rel, p, last - first + 1)
        else Substr(v.rel, p, END)
      case _ => Failed
  }

  function Constructed(o: Outcome<PathView>): Reading<PathView> {
    match o
    case Ok(v) => Got(v)
    case Panic => Failed
  }

  function Normal(v: PathView, index: int): int { if index < 0 then v.Count() + index else index }

  predicate InRange(v: PathView, startIndex: int, endIndex: int) {
    -v.Count() <= startIndex < v.Count() && -v.Count() <= endIndex < v.Count() && Normal(v, startIndex) < Normal(v, endIndex)
  }

  /** sub_path */
  function Sub(v: PathView, startIndex: int, endIndex: int): Reading<PathView> {
    if !InRange(v, startIndex, endIndex) then Failed
    else
      var start, end := Normal(v, startIndex), Normal(v, endIndex);
      match (SubAbsolute(v, start, end), SubRelative(v, start, end))
      case (Got(a), Got(r)) =>
        if a == "" then Constructed(FromPath(r))
        else if r == "" then Constructed(FromPath(a))
        else Constructed(FromPair(a, r))
      case (Failed, _) => Failed
      case (_, Failed) => Failed
      case _ => Stray
  }

  // ---- The loops ----

  method SkipElements(path: string, pos: nat, n: nat) returns (r: Reading<nat>)
    ensures r == Hop(path, pos, n)
  {
    var p: nat := pos;
    var m: nat := 0;
    while m < n
      invariant m <= n && Hop(path, pos, m) == Got(p)
    {
      if p > |path| {
        FailedStays(path, pos, m + 1, n);
        return Failed;
      }
      var d := Find(path, SEP, p);
      p := if d.Some? then d.value + 1 else 0;
      m := m + 1;
    }
    return Got(p);
  }

  lemma {:induction false} FailedStays(path: string, pos: nat, m: nat, n: nat)
    requires m <= n && Hop(path, pos, m) == Failed
    ensures Hop(path, pos, n) == Failed
    decreases n
  {
    if m < n {
      FailedStays(path, pos, m, n - 1);
    }
  }

  /** PathView::sub_absolute_path */
  method SubAbsolutePath(v: PathView, start: nat, end: nat) returns (r: Reading<string>)
    requires start <= end
    ensures r == SubAbsolute(v, start, end)
    ensures WellFormed(v) && start < v.absCount ==>
      r == Got([SEP] + Join(Elements(v.abs)[start..if end < v.absCount then end + 1 else v.absCount], SEP))
  {
    hide Elements, Join, HasDots, Split, Hop, Substr;
    if WellFormed(v) && start < v.absCount {
      AbsoluteSlice(v, start, end);
    }
    if start >= v.absCount {
      return Got("");
    }
    var startPos := SkipElements(v.abs, 1, start);
    if !startPos.Got? {
      return Failed;
    }
    var from: int := startPos.value;
    if end < v.absCount - 1 {
      var endPos := SkipElements(v.abs, startPos.value, end - start + 1);
      if !endPos.Got? {
        return Failed;
      }
      var to: int := endPos.value;
      return Substr(v.abs, from - 1, to - from);
    }
    return Substr(v.abs, from - 1, END);
  }

  /** PathView::sub_relative_path */
  method SubRelativePath(v: PathView, start: nat, end: nat) returns (r: Reading<string>)
    requires start <= end
    ensures r == SubRelative(v, start, end)
    ensures WellFormed(v) && start <= v.absCount <= end < v.Count() ==>
      r == Got(Join(Elements(v.rel)[..end - v.absCount + 1], SEP))
  {
    hide Elements, Join, HasDots, Split, Hop, Substr;
    if WellFormed(v) && start <= v.absCount <= end < v.Count() {
      RelativePrefix(v, start, end);
    }
    if end < v.absCount {
      return Got("");
    }
    var first: nat := if start < v.absCount then 0 else start - v.absCount;
    var last: nat := end - v.absCount;
    var startPos := SkipElements(v.abs, 0, first);
    if !startPos.Got? {
      return Failed;
    }
    if last < v.relCount - 1 {
      var endPos := SkipElements(v.rel, startPos.value, last - first + 1);
      if !endPos.Got? {
        return Failed;
      }
      var to: int := endPos.value;
      return Substr(v.rel, startPos.value, to - startPos.value - 1);
    }
    return Substr(v.rel, startPos.value, END);
  }

  // ---- Where the loops get to ----

  /** Where piece k begins in the text made of these pieces. */
  function Off(parts: seq<string>, k: nat): nat
    requires k <= |parts|
  {
    if k == 0 then 0 else Off(parts, k - 1) + |parts[k - 1]| + 1
  }

  /** From any position, n hops with enough pieces to come reach piece n, and pass the text of the n before it. */
  lemma {:induction false} HopText(s: string, p: nat, n: nat)
    requires p <= |s| && n < |Split(s[p..], SEP)|
    ensures Hop(s, p, n).Got? && p <= Hop(s, p, n).value <= |s|
    ensures var q, parts := Hop(s, p, n).value, Split(s[p..], SEP);
      q == p + Off(parts, n) && Split(s[q..], SEP) == parts[n..] &&
      (n > 0 ==> p < q && s[q - 1] == SEP && s[p..q - 1] == Join(parts[..n], SEP))
  {
    hide Split, Join;
    var parts := Split(s[p..], SEP);
    if n == 0 {
      assert parts[0..] == parts;
    } else {
      HopText(s, p, n - 1);
      var q := Hop(s, p, n - 1).value;
      SplitAt(s, SEP, q);
      assert parts[n - 1..][0] == parts[n - 1] && parts[n - 1..][1..] == parts[n..];
      var d := Find(s, SEP, q).value;
      assert s[q..d] == parts[n - 1];
      PassedText(s, p, q, d, parts, n);
    }
  }

  lemma PassedText(s: string, p: nat, q: nat, d: nat, parts: seq<string>, n: nat)
    requires 0 < n <= |parts| && p <= q <= d <= |s| && s[q..d] == parts[n - 1]
    requires if n == 1 then p == q else p < q && s[q - 1] == SEP && s[p..q - 1] == Join(parts[..n - 1], SEP)
    ensures s[p..d] == Join(parts[..n], SEP)
  {
    hide Join;
    if n == 1 {
      JoinOne(parts[0], SEP);
      assert parts[..1] == [parts[0]];
    } else {
      JoinSnoc(parts[..n - 1], parts[n - 1], SEP);
      assert parts[..n] == parts[..n - 1] + [parts[n - 1]];
      assert s[p..d] == s[p..q - 1] + [SEP] + s[q..d];
    }
  }

  /** One hop more than there are pieces left comes round to the start of the text. */
  lemma HopRound(s: string, p: nat)
    requires p <= |s|
    ensures Hop(s, p, |Split(s[p..], SEP)|) == Got(0)
  {
    hide Split;
    var parts := Split(s[p..], SEP);
    HopText(s, p, |parts| - 1);
    var q := Hop(s, p, |parts| - 1).value;
    SplitAt(s, SEP, q);
  }

  lemma {:induction false} HopOn(s: string, p: nat, m: nat, n: nat)
    requires m <= n && Hop(s, p, m).Got?
    ensures Hop(s, p, n) == Hop(s, Hop(s, p, m).value, n - m)
    decreases n
  {
    if m < n {
      HopOn(s, p, m, n - 1);
    }
  }

  /** Where sub_relative_path starts: at a piece of the absolute part's text, counted round and round. */
  function StartPos(abs: string, first: nat): nat {
    var parts := Split(abs, SEP);
    Off(parts, Round(first, |parts|))
  }

  /** n counted round k places. */
  function Round(n: nat, k: nat): (r: nat)
    requires k > 0
    ensures r < k
  {
    if n < k then n else Round(n - k, k)
  }

  lemma {:induction false} HopStart(abs: string, n: nat)
    ensures Hop(abs, 0, n) == Got(StartPos(abs, n))
  {
    hide Split, Hop, Off;
    var parts := Split(abs, SEP);
    assert abs[0..] == abs;
    if n < |parts| {
      HopText(abs, 0, n);
    } else {
      HopRound(abs, 0);
      HopOn(abs, 0, |parts|, n);
      HopStart(abs, n - |parts|);
    }
  }

  // ---- A start in the absolute part, or on the first relative element ----

  lemma AbsoluteSlice(v: PathView, start: nat, end: nat)
    requires WellFormed(v) && start < v.absCount && start <= end
    ensures v.abs != "" && v.absCount == |Elements(v.abs)|
    ensures SubAbsolute(v, start, end) ==
      Got([SEP] + Join(Elements(v.abs)[start..if end < v.absCount then end + 1 else v.absCount], SEP))
  {
    hide Elements, Join, HasDots, Split, Hop, Substr;
    AbsoluteText(v.abs, start, end);
    var es := Elements(v.abs);
    assert es[start..|es|] == es[start..];
  }

  /** The whole text of a path from the start of element k on. */
  lemma AbsoluteText(abs: string, start: nat, end: nat)
    requires abs != "" && abs[0] == SEP && start < |Elements(abs)| && start <= end
    ensures Elements(abs) == Split(abs[1..], SEP)
    ensures Hop(abs, 1, start).Got?
    ensures var p, es := Hop(abs, 1, start).value, Elements(abs);
      1 <= p <= |abs| &&
      (end >= |es| - 1 ==> Substr(abs, p - 1, END) == Got([SEP] + Join(es[start..], SEP))) &&
      (end < |es| - 1 ==> Hop(abs, p, end - start + 1).Got? &&
                          Substr(abs, p - 1, Hop(abs, p, end - start + 1).value - p) == Got([SEP] + Join(es[start..end + 1], SEP)))
  {
    hide Split, Join, Hop;
    var es := Elements(abs);
    HopText(abs, 1, start);
    var p := Hop(abs, 1, start).value;
    assert p == 1 ==> start == 0;
    assert abs[p - 1] == SEP;
    if end >= |es| - 1 {
      JoinSplit(abs[p..], SEP);
      assert abs[p - 1..|abs|] == [SEP] + abs[p..];
    } else {
      HopText(abs, p, end - start + 1);
      var q := Hop(abs, p, end - start + 1).value;
      assert es[start..][..end - start + 1] == es[start..end + 1];
      assert abs[p - 1..q - 1] == [SEP] + abs[p..q - 1];
    }
  }

  lemma RelativeText(rel: string, last: nat)
    requires rel != "" && rel[0] != SEP && last < |Elements(rel)|
    ensures last == |Elements(rel)| - 1 ==> Substr(rel, 0, END) == Got(Join(Elements(rel)[..last + 1], SEP))
    ensures last < |Elements(rel)| - 1 ==>
      Hop(rel, 0, last + 1).Got? && Substr(rel, 0, Hop(rel, 0, last + 1).value - 1) == Got(Join(Elements(rel)[..last + 1], SEP))
  {
    hide Split, Join, Hop;
    assert rel[0..] == rel;
    if last == |Elements(rel)| - 1 {
      JoinSplit(rel, SEP);
      assert rel[0..|rel|] == rel;
      assert Elements(rel)[..last + 1] == Elements(rel);
    } else {
      HopText(rel, 0, last + 1);
    }
  }

  /** The result is a view with exactly the elements from start to end. */
  predicate IsSlice(r: Reading<PathView>, v: PathView, start: nat, end: nat) {
    r.Got? && start <= end < |AllElements(v)| && AllElements(r.value) == AllElements(v)[start..end + 1]
  }

  lemma RelativeOfJoin(parts: seq<string>)
    requires parts != [] && (forall i :: 0 <= i < |parts| ==> SEP !in parts[i]) && parts[0] != ""
    ensures var s := Join(parts, SEP);
      (GetType(s).Ok? <==> parts[|parts| - 1] != "") && (GetType(s).Ok? ==> GetType(s) != Ok(Absolute) && Elements(s) == parts)
  {
    hide Join, Split, HasDots;
    JoinEnd(parts);
    SplitJoin(parts, SEP);
    assert parts[0][0] in parts[0];
  }

  lemma AbsoluteOfJoin(parts: seq<string>)
    requires |parts| > 1 && (forall i :: 0 <= i < |parts| ==> SEP !in parts[i])
    ensures GetType([SEP] + Join(parts, SEP)).Ok? <==> parts[|parts| - 1] != ""
  {
    JoinEnd(parts);
    var path := [SEP] + Join(parts, SEP);
    assert path[|path| - 1] == Join(parts, SEP)[|path| - 2];
  }

  lemma ElementsFacts(path: string)
    requires path != "" && GetType(path).Ok? && Elements(path) != []
    ensures forall i :: 0 <= i < |Elements(path)| ==> SEP !in Elements(path)[i]
    ensures Elements(path)[|Elements(path)| - 1] != ""
    ensures path[0] != SEP ==> Elements(path)[0] != ""
  {
    hide Split, Join, HasDots;
    var body := if path[0] == SEP then path[1..] else path;
    JoinSplit(body, SEP);
    JoinEnd(Elements(path));
    assert body[|body| - 1] == path[|path| - 1];
    if path[0] != SEP {
      SplitAt(path, SEP, 0);
      assert path[0..] == path;
    }
  }

  lemma InAbsolute(v: PathView, start: nat, end: nat)
    requires WellFormed(v) && start < end < v.absCount
    ensures IsSlice(Sub(v, start, end), v, start, end) <==> AllElements(v)[end] != ""
    ensures !Sub(v, start, end).Stray? && (Sub(v, start, end).Got? <==> AllElements(v)[end] != "")
  {
    hide Elements, Join, HasDots, Split, SubAbsolute;
    var es := Elements(v.abs);
    AbsoluteSlice(v, start, end);
    ElementsFacts(v.abs);
    var part := es[start..end + 1];
    AbsoluteOfJoin(part);
    assert AllElements(v)[start..end + 1] == part;
    if es[end] != "" {
      ElementsOfJoin(part);
    }
  }

  /** What the rest of a well-formed view's relative part looks like. */
  lemma RelativeFacts(v: PathView)
    requires WellFormed(v) && v.relCount > 0
    ensures v.rel != "" && GetType(v.rel).Ok? && v.rel[0] != SEP && v.rel[|v.rel| - 1] != SEP && v.relCount == |Elements(v.rel)|
    ensures Elements(v.rel) == Split(v.rel, SEP) && |AllElements(v)| == v.Count()
    ensures forall i :: 0 <= i < v.relCount ==> AllElements(v)[v.absCount + i] == Elements(v.rel)[i]
  {
    hide Split, HasDots;
  }

  lemma RelativeCount(v: PathView)
    requires WellFormed(v) && v.relCount > 0
    ensures v.rel != "" && v.relCount == |Elements(v.rel)| && |AllElements(v)| == v.Count()
  {
    hide Split, HasDots, GetType, Elements;
  }

  /** Slices of the relative elements. */
  lemma RelativeSlice(v: PathView, start: nat, end: nat)
    requires WellFormed(v) && v.absCount <= start <= end < v.Count()
    ensures v.rel != "" && |Elements(v.rel)| == v.relCount && |AllElements(v)| == v.Count()
    ensures AllElements(v)[start..end + 1] == Elements(v.rel)[start - v.absCount..end - v.absCount + 1]
    ensures AllElements(v)[end] == Elements(v.rel)[end - v.absCount]
  {
    hide Split, HasDots, GetType, Elements;
    RelativeCount(v);
    var a, r := if v.abs == "" then [] else Elements(v.abs), Elements(v.rel);
    assert AllElements(v) == a + r && |a| == v.absCount;
  }

  lemma PrefixNotEmpty(v: PathView, last: nat)
    requires WellFormed(v) && v.relCount > 0 && last < v.relCount
    ensures Elements(v.rel)[0] != "" && Join(Elements(v.rel)[..last + 1], SEP) != ""
  {
    hide Split, HasDots, Elements, Join;
    RelativeFacts(v);
    ElementsFacts(v.rel);
    JoinEnd(Elements(v.rel)[..last + 1]);
  }

  lemma RelativePrefix(v: PathView, start: nat, end: nat)
    requires WellFormed(v) && start <= v.absCount <= end < v.Count()
    ensures v.rel != "" && end - v.absCount < |Elements(v.rel)|
    ensures SubRelative(v, start, end) == Got(Join(Elements(v.rel)[..end - v.absCount + 1], SEP))
  {
    hide Elements, Join, Split, Substr, HasDots, GetType;
    RelativeFacts(v);
    RelativeText(v.rel, end - v.absCount);
    assert Hop(v.abs, 0, 0) == Got(0);
    hide Hop;
  }

  lemma AcrossPair(v: PathView, start: nat, last: nat)
    requires WellFormed(v) && start < v.absCount && last < v.relCount
    ensures v.abs != "" && v.rel != "" && start < |Elements(v.abs)| && last < |Elements(v.rel)|
    ensures var absPart, relPart := Elements(v.abs)[start..], Elements(v.rel)[..last + 1];
      var r := FromPair([SEP] + Join(absPart, SEP), Join(relPart, SEP));
      (r.Ok? <==> Elements(v.rel)[last] != "") && (r.Ok? ==> AllElements(r.value) == absPart + relPart)
  {
    hide Elements, Join, HasDots, Split;
    RelativeFacts(v);
    PrefixNotEmpty(v, last);
    ElementsFacts(v.abs);
    ElementsFacts(v.rel);
    ElementsOfJoin(Elements(v.abs)[start..]);
    RelativeOfJoin(Elements(v.rel)[..last + 1]);
  }

  lemma Concatenated(v: PathView, start: nat, end: nat)
    requires WellFormed(v) && start < v.absCount <= end < v.Count()
    ensures v.abs != "" && v.rel != "" && start < |Elements(v.abs)| && end - v.absCount < |Elements(v.rel)|
    ensures end < |AllElements(v)| && AllElements(v)[end] == Elements(v.rel)[end - v.absCount]
    ensures AllElements(v)[start..end + 1] == Elements(v.abs)[start..] + Elements(v.rel)[..end - v.absCount + 1]
  {
    hide Elements, GetType, Split;
    RelativeCount(v);
    var a, r := Elements(v.abs), Elements(v.rel);
    assert AllElements(v) == a + r && |a| == v.absCount;
    assert (a + r)[start..end + 1] == a[start..] + r[..end - v.absCount + 1];
  }

  lemma SubOfBoth(v: PathView, start: nat, end: nat, abs: string, rel: string)
    requires start < end < v.Count() && abs != "" && rel != ""
    requires SubAbsolute(v, start, end) == Got(abs) && SubRelative(v, start, end) == Got(rel)
    ensures Sub(v, start, end) == Constructed(FromPair(abs, rel))
  {
    hide SubAbsolute, SubRelative, FromPair, FromPath;
  }

  lemma SubOfRelative(v: PathView, start: nat, end: nat)
    requires v.absCount <= start < end < v.Count()
    ensures var r := SubRelative(v, start, end);
      Sub(v, start, end) == if r.Got? then Constructed(FromPath(r.value)) else if r.Failed? then Failed else Stray
  {
    hide SubRelative, FromPair, FromPath;
  }

  lemma Across(v: PathView, start: nat, end: nat)
    requires WellFormed(v) && start < v.absCount <= end < v.Count()
    ensures IsSlice(Sub(v, start, end), v, start, end) <==> AllElements(v)[end] != ""
    ensures !Sub(v, start, end).Stray? && (Sub(v, start, end).Got? <==> AllElements(v)[end] != "")
  {
    hide Elements, AllElements, WellFormed, Join, GetType, FromPair, FromPath, Sub, SubAbsolute, SubRelative;
    var last := end - v.absCount;
    Concatenated(v, start, end);
    RelativePrefix(v, start, end);
    PrefixNotEmpty(v, last);
    AbsoluteSlice(v, start, end);
    assert Elements(v.abs)[start..v.absCount] == Elements(v.abs)[start..];
    AcrossPair(v, start, last);
    SubOfBoth(v, start, end, [SEP] + Join(Elements(v.abs)[start..], SEP), Join(Elements(v.rel)[..last + 1], SEP));
  }

  lemma FirstRelative(v: PathView, end: nat)
    requires WellFormed(v) && v.absCount < end < v.Count()
    ensures IsSlice(Sub(v, v.absCount, end), v, v.absCount, end) <==> AllElements(v)[end] != ""
    ensures !Sub(v, v.absCount, end).Stray? && (Sub(v, v.absCount, end).Got? <==> AllElements(v)[end] != "")
  {
    hide Elements, AllElements, WellFormed, Join, Split, FromPath, Sub, SubRelative;
    var last := end - v.absCount;
    RelativeSlice(v, v.absCount, end);
    RelativePrefix(v, v.absCount, end);
    PrefixNotEmpty(v, last);
    RelativeFacts(v);
    ElementsFacts(v.rel);
    var part := Elements(v.rel)[..last + 1];
    PathOfJoin(part);
    SubOfRelative(v, v.absCount, end);
    assert Elements(v.rel)[0..last + 1] == part;
  }

  lemma PathOfJoin(parts: seq<string>)
    requires parts != [] && (forall i :: 0 <= i < |parts| ==> SEP !in parts[i]) && parts[0] != ""
    ensures var r := FromPath(Join(parts, SEP));
      (r.Ok? <==> parts[|parts| - 1] != "") && (r.Ok? ==> AllElements(r.value) == parts)
  {
    hide Join, Split, HasDots, Elements;
    JoinEnd(parts);
    RelativeOfJoin(parts);
  }

  // ---- A later start in the relative part ----

  /** The pieces of the relative part from the position where sub_relative_path starts. */
  function PiecesFrom(rel: string, p: nat): seq<string>
    requires p <= |rel|
  {
    Split(rel[p..], SEP)
  }

  lemma OffPieces(s: string, k: nat)
    requires k < |Split(s, SEP)|
    ensures var o := Off(Split(s, SEP), k);
      o <= |s| && Split(s[o..], SEP) == Split(s, SEP)[k..] && (k > 0 ==> o > 0 && s[o - 1] == SEP)
  {
    hide Split, Hop;
    assert s[0..] == s;
    HopText(s, 0, k);
  }

  /** The elements of a text that is taken for a path of its own. */
  lemma ElementsOfText(t: string)
    requires t != "" && t[|t| - 1] != SEP
    ensures FromPath(t).Ok? && AllElements(FromPath(t).value) == Elements(t)
    ensures Elements(t) == if t[0] == SEP then Split(t[1..], SEP) else Split(t, SEP)
  {
    hide Split, HasDots;
  }

  /** Up to the last element the slice is right exactly when the position is the start of its first element, and
      that is not empty, or the separator before it. */
  lemma LastRight(rel: string, first: nat, p: nat)
    requires rel != "" && rel[|rel| - 1] != SEP && 0 < first < |Split(rel, SEP)| && p <= |rel|
    ensures var es := Split(rel, SEP); var o := Off(es, first);
      (FromPath(rel[p..]).Ok? && AllElements(FromPath(rel[p..]).value) == es[first..]) <==>
      (p == o && es[first] != "") || p + 1 == o
  {
    hide Split, Join, FromPath, Elements, AllElements, Off;
    var es := Split(rel, SEP);
    var o := Off(es, first);
    OffPieces(rel, first);
    LastPieceNotEmpty(rel, o);
    if p < |rel| {
      var t := rel[p..];
      assert t[|t| - 1] == rel[|rel| - 1];
      ElementsOfText(t);
      FirstPiece(rel, o);
      assert es[first..][0] == es[first];
      if t[0] == SEP {
        assert t[1..] == rel[p + 1..];
        SameTail(rel, p + 1, o);
      } else {
        SameTail(rel, p, o);
      }
    } else {
      EmptyText(rel[p..]);
    }
  }

  lemma EmptyText(t: string)
    requires t == ""
    ensures FromPath(t).Panic?
  {
  }

  /** Two tails of a text have the same pieces exactly when they are the same tail. */
  lemma SameTail(s: string, p: nat, o: nat)
    requires p <= |s| && o <= |s|
    ensures Split(s[p..], SEP) == Split(s[o..], SEP) <==> p == o
  {
    hide Split, Join;
    JoinSplit(s[p..], SEP);
    JoinSplit(s[o..], SEP);
    assert |s[p..]| == |s| - p && |s[o..]| == |s| - o;
  }

  lemma LastPieceNotEmpty(s: string, o: nat)
    requires s != "" && s[|s| - 1] != SEP && o <= |s| && (o > 0 ==> s[o - 1] == SEP)
    ensures o < |s|
  {
  }

  /** A tail starts with a separator exactly when its first piece is empty. */
  lemma FirstPiece(s: string, o: nat)
    requires o < |s|
    ensures s[o] == SEP <==> Split(s[o..], SEP)[0] == ""
  {
    SplitAt(s, SEP, o);
  }

  lemma StretchText(rel: string, p: nat, m: nat)
    requires p <= |rel| && 0 < m < |PiecesFrom(rel, p)|
    ensures Stretch(rel, p, m) == Got(Join(PiecesFrom(rel, p)[..m], SEP))
  {
    hide Split, Hop, Join;
    HopText(rel, p, m);
  }

  /** With too few pieces left the search comes round, and what it ends up with is not a text. */
  lemma StretchRound(rel: string, p: nat, m: nat)
    requires p <= |rel| && |PiecesFrom(rel, p)| <= m < |Split(rel, SEP)|
    ensures !Stretch(rel, p, m).Got?
  {
    hide Split, Hop, Join;
    var k, es := |PiecesFrom(rel, p)|, Split(rel, SEP);
    assert rel[0..] == rel;
    HopRound(rel, p);
    HopOn(rel, p, k, m);
    HopText(rel, 0, m - k);
    var q := Hop(rel, 0, m - k).value;
    assert |Split(rel[q..], SEP)| == |es| - (m - k);
    if q > p {
      assert rel[p..] == rel[p..q - 1] + [SEP] + rel[q..];
      SplitAppend(rel[p..q - 1], SEP, rel[q..]);
    }
  }

  /** A text of m > 1 pieces, taken for a path, has these m elements exactly when the first piece is not empty; it is
      a path exactly when the last one is not. */
  lemma JoinedPath(parts: seq<string>, want: seq<string>)
    requires |parts| > 1 && |want| == |parts| && forall i :: 0 <= i < |parts| ==> SEP !in parts[i]
    ensures var r := FromPath(Join(parts, SEP));
      (r.Ok? && AllElements(r.value) == want) <==> parts[0] != "" && parts == want && parts[|parts| - 1] != ""
  {
    hide Join, Split, HasDots;
    JoinEnd(parts);
    SplitJoin(parts, SEP);
    var t := Join(parts, SEP);
    if parts[0] != "" {
      RelativeOfJoin(parts);
    } else {
      LeadingSeparator(parts);
      assert t[0] == SEP;
    }
  }

  lemma LeadingSeparator(parts: seq<string>)
    requires |parts| > 1 && parts[0] == "" && forall i :: 0 <= i < |parts| ==> SEP !in parts[i]
    ensures var t := Join(parts, SEP); t != "" && t[0] == SEP && |Elements(t)| < |parts|
  {
    var t := Join(parts, SEP);
    assert t[1..] == Join(parts[1..], SEP);
    SplitJoin(parts[1..], SEP);
  }

  /** Before the last element the slice is right exactly when the pieces read from the position are the elements
      asked for, are followed by another, and neither the first nor the last of them is empty. */
  lemma EarlierRight(rel: string, first: nat, last: nat, p: nat)
    requires 0 < first < last < |Split(rel, SEP)| - 1 && p <= |rel|
    ensures var es, m, t := Split(rel, SEP), last - first + 1, Stretch(rel, p, last - first + 1);
      (t.Got? && FromPath(t.value).Ok? && AllElements(FromPath(t.value).value) == es[first..last + 1]) <==>
      m < |PiecesFrom(rel, p)| && PiecesFrom(rel, p)[..m] == es[first..last + 1] && es[first] != "" && es[last] != ""
  {
    hide Split, Join, FromPath, AllElements, Stretch;
    var es, m, parts := Split(rel, SEP), last - first + 1, PiecesFrom(rel, p);
    if m < |parts| {
      StretchText(rel, p, m);
      JoinedPath(parts[..m], es[first..last + 1]);
    } else {
      StretchRound(rel, p, m);
    }
  }

  // ---- All of it ----

  /** The result of sub_path is the slice asked for. Start and end are indices from the front, start before end. */
  ghost predicate Right(v: PathView, start: nat, end: nat)
    requires WellFormed(v) && start < end < v.Count()
  {
    if start <= v.absCount then AllElements(v)[end] != ""
    else
      var es, first, last, p := Elements(v.rel), start - v.absCount, end - v.absCount, StartPos(v.abs, start - v.absCount);
      p <= |v.rel| &&
      if last == |es| - 1 then (p == Off(es, first) && es[first] != "") || p + 1 == Off(es, first)
      else
        last - first + 1 < |PiecesFrom(v.rel, p)| && PiecesFrom(v.rel, p)[..last - first + 1] == es[first..last + 1] &&
        es[first] != "" && es[last] != ""
  }

  /** A later start: what the relative part gives. */
  lemma LaterText(v: PathView, start: nat, end: nat)
    requires WellFormed(v) && v.absCount < start < end < v.Count()
    ensures var first, last, p := start - v.absCount, end - v.absCount, StartPos(v.abs, start - v.absCount);
      SubRelative(v, start, end) ==
      if last < v.relCount - 1 then Stretch(v.rel, p, last - first + 1)
      else if p <= |v.rel| then Got(v.rel[p..]) else Stray
  {
    hide Hop, StartPos, WellFormed, Stretch;
    HopStart(v.abs, start - v.absCount);
    var p := StartPos(v.abs, start - v.absCount);
    if p <= |v.rel| {
      assert v.rel[p..|v.rel|] == v.rel[p..];
    }
  }

  lemma LaterLast(v: PathView, start: nat, end: nat)
    requires WellFormed(v) && v.absCount < start < end == v.Count() - 1
    ensures IsSlice(Sub(v, start, end), v, start, end) <==> Right(v, start, end)
  {
    hide Split, Elements, AllElements, WellFormed, FromPath, Sub, SubRelative, StartPos, Off;
    RelativeFacts(v);
    RelativeSlice(v, start, end);
    var es, first, p := Elements(v.rel), start - v.absCount, StartPos(v.abs, start - v.absCount);
    LaterText(v, start, end);
    SubOfRelative(v, start, end);
    assert es[first..|es|] == es[first..];
    if p <= |v.rel| {
      LastRight(v.rel, first, p);
    }
  }

  lemma LaterEarlier(v: PathView, start: nat, end: nat)
    requires WellFormed(v) && v.absCount < start < end < v.Count() - 1
    ensures IsSlice(Sub(v, start, end), v, start, end) <==> Right(v, start, end)
  {
    hide Split, Elements, AllElements, WellFormed, FromPath, Sub, SubRelative, StartPos, Off, Stretch;
    RelativeFacts(v);
    RelativeSlice(v, start, end);
    var es, first, last, p := Elements(v.rel), start - v.absCount, end - v.absCount, StartPos(v.abs, start - v.absCount);
    LaterText(v, start, end);
    SubOfRelative(v, start, end);
    if p <= |v.rel| {
      EarlierRight(v.rel, first, last, p);
    } else {
      StretchBeyond(v.rel, p, last - first + 1);
    }
  }

  lemma StretchBeyond(s: string, p: nat, n: nat)
    requires p > |s| && n > 0
    ensures Stretch(s, p, n) == Failed
  {
    HopBeyond(s, p, n);
  }

  lemma {:induction false} HopBeyond(s: string, p: nat, n: nat)
    requires p > |s| && n > 0
    ensures Hop(s, p, n) == Failed
  {
    if n > 1 {
      HopBeyond(s, p, n - 1);
    }
  }

  /** sub_path, for every pair of indices: out of range it fails an assertion; otherwise it returns the elements from
      start to end exactly when Right says so. A start up to the first relative element never gives anything else:
      the other outcome is a failed assertion, on an empty last element. */
  lemma SubPathExact(v: PathView, startIndex: int, endIndex: int)
    requires WellFormed(v)
    ensures !InRange(v, startIndex, endIndex) ==> Sub(v, startIndex, endIndex).Failed?
    ensures InRange(v, startIndex, endIndex) ==>
      var start, end := Normal(v, startIndex), Normal(v, endIndex);
      (IsSlice(Sub(v, startIndex, endIndex), v, start, end) <==> Right(v, start, end)) &&
      (start <= v.absCount && !Right(v, start, end) ==> Sub(v, startIndex, endIndex).Failed?)
  {
    hide Elements, AllElements, WellFormed, SubAbsolute, SubRelative, FromPath, FromPair;
    if InRange(v, startIndex, endIndex) {
      var start, end := Normal(v, startIndex), Normal(v, endIndex);
      assert Sub(v, startIndex, endIndex) == Sub(v, start, end);
      if end < v.absCount {
        InAbsolute(v, start, end);
      } else if start < v.absCount {
        Across(v, start, end);
      } else if start == v.absCount {
        FirstRelative(v, end);
      } else if end == v.Count() - 1 {
        LaterLast(v, start, end);
      } else {
        LaterEarlier(v, start, end);
      }
    }
  }

  /** PathView::sub_path */
  method SubPath(v: PathView, startIndex: int, endIndex: int) returns (r: Reading<PathView>)
    requires WellFormed(v)
    ensures r == Sub(v, startIndex, endIndex)
    ensures !InRange(v, startIndex, endIndex) ==> r.Failed?
    ensures InRange(v, startIndex, endIndex) ==>
      (IsSlice(r, v, Normal(v, startIndex), Normal(v, endIndex)) <==> Right(v, Normal(v, startIndex), Normal(v, endIndex)))
  {
    hide SubAbsolute, SubRelative, FromPath, FromPair, WellFormed, Right, IsSlice;
    SubPathExact(v, startIndex, endIndex);
    if !(-v.Count() <= startIndex < v.Count()) || !(-v.Count() <= endIndex < v.Count()) {
      return Failed;
    }
    var start := if startIndex < 0 then v.Count() + startIndex else startIndex;
    var end := if endIndex < 0 then v.Count() + endIndex else endIndex;
    if start >= end {
      return Failed;
    }
    var abs := SubAbsolutePath(v, start, end);
    var rel := SubRelativePath(v, start, end);
    if abs.Failed? || rel.Failed? {
      return Failed;
    }
    if abs.Stray? || rel.Stray? {
      return Stray;
    }
    var view;
    if abs.value == "" {
      view := FromPath(rel.value);
    } else if rel.value == "" {
      view := FromPath(abs.value);
    } else {
      view := FromPair(abs.value, rel.value);
    }
    return if view.Ok? then Got(view.value) else Failed;
  }

  // ---- Wrong slices ----

  lemma PairOf(dir: seq<string>, rel: seq<string>)
    requires dir != [] && (forall i :: 0 <= i < |dir| ==> SEP !in dir[i]) && dir[|dir| - 1] != ""
    requires rel != [] && (forall i :: 0 <= i < |rel| ==> SEP !in rel[i]) && rel[|rel| - 1] != "" && rel[0] != ""
    ensures var abs, r := [SEP] + Join(dir, SEP), Join(rel, SEP); var v := PathView(Absolute, abs, r, |dir|, |rel|);
      FromPair(abs, r) == Ok(v) && WellFormed(v) && AllElements(v) == dir + rel && Split(abs, SEP) == [""] + dir
  {
    hide Join, Split, HasDots;
    ElementsOfJoin(dir);
    RelativeOfJoin(rel);
    JoinEnd(rel);
    SplitFirst("", SEP, Join(dir, SEP));
    SplitJoin(dir, SEP);
    assert "" + [SEP] + Join(dir, SEP) == [SEP] + Join(dir, SEP);
  }

  /** Of /x and ab/c/d, elements 2 to 3 should be c and d. The search in the absolute text stops behind its first
      separator, and the same position of the relative text is inside ab. */
  lemma WrongSlice()
    ensures FromPair("/x", "ab/c/d").Ok?
    ensures var v := FromPair("/x", "ab/c/d").value;
      AllElements(v) == ["x", "ab", "c", "d"] && Sub(v, 2, 3).Got? && AllElements(Sub(v, 2, 3).value) == ["b", "c", "d"]
  {
    hide Sub, SubRelative, FromPair, FromPath, WellFormed, AllElements, Split;
    assert Join(["ab", "c", "d"], SEP) == "ab/c/d" && Join(["x"], SEP) == "x" && [SEP] + "x" == "/x";
    PairOf(["x"], ["ab", "c", "d"]);
    var v := FromPair("/x", "ab/c/d").value;
    LaterText(v, 2, 3);
    var parts := [""] + ["x"];
    assert Off(parts, 1) == 1 && StartPos("/x", 1) == 1;
    assert Join(["b", "c", "d"], SEP) == "b/c/d";
    PathOfJoin(["b", "c", "d"]);
    SubOfRelative(v, 2, 3);
    assert "ab/c/d"[1..] == "b/c/d";
  }

  /** Where the position is behind the relative text the view that comes back is not inside it. */
  lemma StraySlice()
    ensures FromPair("/longer/name", "a/b/c/d").Ok?
    ensures var v := FromPair("/longer/name", "a/b/c/d").value;
      AllElements(v) == ["longer", "name", "a", "b", "c", "d"] && Sub(v, 4, 5) == Stray
  {
    hide Sub, SubRelative, FromPair, FromPath, WellFormed, AllElements, Split;
    assert Join(["a", "b", "c", "d"], SEP) == "a/b/c/d" && Join(["longer", "name"], SEP) == "longer/name";
    assert [SEP] + "longer/name" == "/longer/name";
    PairOf(["longer", "name"], ["a", "b", "c", "d"]);
    var v := FromPair("/longer/name", "a/b/c/d").value;
    LaterText(v, 4, 5);
    var parts := [""] + ["longer", "name"];
    assert Off(parts, 1) == 1 && Off(parts, 2) == 8 && StartPos("/longer/name", 2) == 8;
    SubOfRelative(v, 4, 5);
  }
}
