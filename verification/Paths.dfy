/** Paths: counting, indexing and joining of elements. */
module Paths {
  import opened Common
  import opened Text

  const SEP := '/'

  datatype PathType = Absolute | Relative | RelativeRecursive

  datatype PathView = PathView(kind: PathType, abs: string, rel: string, absCount: nat, relCount: nat) {
    function Count(): int { absCount + relCount }
  }

  predicate IsValid(path: string) {
    |path| != 0 && !(|path| != 1 && path[|path| - 1] == SEP)
  }

  /** path.find("..") succeeds. */
  predicate HasDots(path: string) {
    |path| >= 2 && ((path[0] == '.' && path[1] == '.') || HasDots(path[1..]))
  }

  function GetType(path: string): Outcome<PathType> {
    if !IsValid(path) then Panic
    else if path[0] == SEP then Ok(Absolute)
    else if HasDots(path) then Ok(RelativeRecursive)
    else Ok(Relative)
  }

  lemma {:induction false} DotsSomewhere(path: string)
    ensures HasDots(path) <==> exists i :: 0 <= i < |path| - 1 && path[i] == '.' == path[i + 1]
  {
    if |path| >= 2 {
      DotsSomewhere(path[1..]);
      if HasDots(path) && !(path[0] == '.' == path[1]) {
        var i :| 0 <= i < |path[1..]| - 1 && path[1..][i] == '.' == path[1..][i + 1];
        assert path[i + 1] == '.' == path[i + 2];
      }
      if i :| 0 <= i < |path| - 1 && path[i] == '.' == path[i + 1] && i > 0 {
        assert path[1..][i - 1] == '.' == path[1..][i];
      }
    }
  }

  /** A path is refused exactly when it is empty or ends in a separator without being one; it is absolute exactly when
      it starts with a separator, and otherwise recursive exactly when two dots stand together somewhere in it. */
  lemma TypeExact(path: string)
    ensures GetType(path).Panic? <==> path == "" || (|path| > 1 && path[|path| - 1] == '/')
    ensures GetType(path).Ok? ==> (GetType(path).value.Absolute? <==> path[0] == '/')
    ensures GetType(path).Ok? && path[0] != '/' ==>
      (GetType(path).value.RelativeRecursive? <==> exists i :: 0 <= i < |path| - 1 && path[i] == '.' == path[i + 1])
  {
    hide HasDots;
    DotsSomewhere(path);
  }

  /** The elements of a path: what stands between separators, apart from a leading one. */
  function Elements(path: string): seq<string>
    requires path != ""
  {
    if path == [SEP] then [] else Split(if path[0] == SEP then path[1..] else path, SEP)
  }

  /** PathView::PathView of one path */
  function FromPath(path: string): Outcome<PathView> {
    var kind :- GetType(path);
    Ok(if kind == Absolute then PathView(kind, path, "", |Elements(path)|, 0)
       else PathView(kind, "", path, 0, |Elements(path)|))
  }

  /** PathView::PathView of a working directory and a relative path */
  function FromPair(dir: string, rel: string): Outcome<PathView> {
    if GetType(dir) == Ok(Absolute) && GetType(rel).Ok? && GetType(rel) != Ok(Absolute) then
      Ok(PathView(Absolute, dir, rel, |Elements(dir)|, |Elements(rel)|))
    else Panic
  }

  /** Both constructors produce such views. */
  predicate WellFormed(v: PathView) {
    (v.abs == "" || GetType(v.abs) == Ok(Absolute)) &&
    (v.rel == "" || (GetType(v.rel).Ok? && GetType(v.rel) != Ok(Absolute))) &&
    v.absCount == (if v.abs == "" then 0 else |Elements(v.abs)|) &&
    v.relCount == (if v.rel == "" then 0 else |Elements(v.rel)|)
  }

  function AllElements(v: PathView): seq<string> {
    (if v.abs == "" then [] else Elements(v.abs)) + (if v.rel == "" then [] else Elements(v.rel))
  }

  function FullPath(v: PathView): string {
    if v.relCount != 0 then v.abs + [SEP] + v.rel else v.abs
  }

  // ---- Round trips ----

  /** Joining the elements of an absolute path rebuilds it. */
  lemma RebuildAbsolute(path: string)
    requires GetType(path) == Ok(Absolute) && path != [SEP]
    ensures path == [SEP] + Join(Elements(path), SEP)
  {
    JoinSplit(path[1..], SEP);
  }

  /** Elements can be read back from an absolute path made of them, unless the last one is empty. */
  lemma ElementsOfJoin(parts: seq<string>)
    requires parts != [] && (forall i :: 0 <= i < |parts| ==> SEP !in parts[i]) && parts[|parts| - 1] != ""
    ensures GetType([SEP] + Join(parts, SEP)) == Ok(Absolute) && Elements([SEP] + Join(parts, SEP)) == parts
  {
    var path := [SEP] + Join(parts, SEP);
    SplitJoin(parts, SEP);
    JoinEnd(parts);
    assert path[1..] == Join(parts, SEP);
  }

  lemma {:induction false} JoinEnd(parts: seq<string>)
    requires parts != [] && (forall i :: 0 <= i < |parts| ==> SEP !in parts[i])
    ensures var s := Join(parts, SEP);
            (parts[|parts| - 1] == "" ==> s == "" || s[|s| - 1] == SEP) &&
            (parts[|parts| - 1] != "" ==> s != "" && s[|s| - 1] != SEP)
    ensures Join(parts, SEP) == "" <==> parts == [""]
    ensures parts[0] != "" ==> Join(parts, SEP) != "" && Join(parts, SEP)[0] == parts[0][0]
  {
    if |parts| == 1 {
      if parts[0] != "" {
        assert parts[0][|parts[0]| - 1] in parts[0];
      }
    } else {
      JoinEnd(parts[1..]);
      assert parts[1..][|parts| - 2] == parts[|parts| - 1];
    }
  }

  /** The full path of a directory and a relative path has the elements of both, exactly when the
      directory is not the root: the root's separator is doubled. */
  lemma FullPathElements(dir: string, rel: string)
    requires FromPair(dir, rel).Ok?
    ensures var full := FullPath(FromPair(dir, rel).value);
            GetType(full) == Ok(Absolute) &&
            (Elements(full) == Elements(dir) + Elements(rel) <==> dir != [SEP])
  {
    var full := FullPath(FromPair(dir, rel).value);
    assert full[|full| - 1] == rel[|rel| - 1];
    if dir == [SEP] {
      assert full == [SEP] + [SEP] + rel;
      RootElements(full, rel);
    } else {
      assert full == dir + [SEP] + rel;
      JoinedElements(full, dir, rel);
    }
  }

  /** A single path is its own full path if it is absolute, and gets a separator in front if it is not. */
  lemma FullPathOne(path: string)
    requires FromPath(path).Ok?
    ensures FullPath(FromPath(path).value) == if path[0] == '/' then path else ['/'] + path
  {
    hide Split, HasDots;
  }

  lemma RootElements(full: string, rel: string)
    requires full == [SEP] + [SEP] + rel && rel != ""
    ensures |Elements(full)| == 1 + |Split(rel, SEP)|
  {
    assert full[1..] == [] + [SEP] + rel;
    SplitAppend([], SEP, rel);
    assert |Split<char>([], SEP)| == 1;
  }

  lemma JoinedElements(full: string, dir: string, rel: string)
    requires |dir| > 1 && dir[0] == SEP && full == dir + [SEP] + rel
    ensures Elements(full) == Split(dir[1..], SEP) + Split(rel, SEP)
  {
    assert full[1..] == dir[1..] + [SEP] + rel;
    SplitAppend(dir[1..], SEP, rel);
  }

  // ---- The loops ----

  /** path.find(SPLITER, pos) + 1: an unsuccessful search wraps round to 0. */
  function AfterNext(path: string, pos: nat): (r: nat)
    requires pos <= |path|
    ensures r <= |path|
  {
    match Find(path, SEP, pos)
    case None => 0
    case Some(d) => d + 1
  }

  /** pos is where the elements from index k on begin. */
  ghost predicate ElementStart(path: string, pos: nat, k: nat)
    requires path != "" && pos <= |path|
  {
    k < |Elements(path)| && Split(path[pos..], SEP) == Elements(path)[k..]
  }

  lemma FirstStart(path: string)
    requires path != "" && Elements(path) != []
    ensures ElementStart(path, if path[0] == SEP then 1 else 0, 0)
  {
    assert path[0..] == path;
  }

  lemma NextStart(path: string, pos: nat, k: nat)
    requires path != "" && pos <= |path| && ElementStart(path, pos, k)
    ensures k < |Elements(path)| && (k + 1 < |Elements(path)| <==> Find(path, SEP, pos).Some?)
    ensures match Find(path, SEP, pos)
            case None => path[pos..] == Elements(path)[k]
            case Some(d) => path[pos..d] == Elements(path)[k] && ElementStart(path, d + 1, k + 1)
  {
    SplitAt(path, SEP, pos);
    var es := Elements(path);
    assert es[k..][0] == es[k];
    match Find(path, SEP, pos)
    case None =>
      assert |es[k..]| == 1;
    case Some(d) =>
      assert Split(path[d + 1..], SEP) == es[k..][1..] == es[k + 1..];
      assert |es[k..]| == 1 + |Split(path[d + 1..], SEP)|;
  }

  /** PathView::count_elements */
  method CountElements(path: string) returns (r: nat)
    requires path != ""
    ensures r == |Elements(path)|
  {
    hide ElementStart, Split, Find;
    if path[0] == SEP && |path| == 1 {
      return 0;
    }
    var last := 0;
    if path[0] == SEP {
      last := 1;
    }
    FirstStart(path);
    var count := 0;
    var found := Find(path, SEP, last);
    while found.Some?
      invariant last <= |path| && ElementStart(path, last, count) && found == Find(path, SEP, last)
      decreases |path| - last
    {
      NextStart(path, last, count);
      last := found.value + 1;
      count := count + 1;
      found := Find(path, SEP, last);
    }
    NextStart(path, last, count);
    return count + 1;
  }

  /** PathView::get_element_from_full_path */
  method GetElement(path: string, index: nat) returns (r: string)
    requires path != "" && index < |Elements(path)|
    ensures r == Elements(path)[index]
  {
    hide ElementStart, Split, Find;
    var pos: nat := 0;
    if path[0] == SEP {
      pos := 1;
    }
    FirstStart(path);
    var k := 0;
    while k < index
      invariant k <= index && pos <= |path| && ElementStart(path, pos, k)
    {
      NextStart(path, pos, k);
      pos := AfterNext(path, pos);
      k := k + 1;
    }
    NextStart(path, pos, index);
    var next := Find(path, SEP, pos);
    if next.None? {
      return path[pos..];
    } else {
      return path[pos..next.value];
    }
  }

  /** PathView::operator[] with its negative indices */
  method Index(v: PathView, index: int) returns (r: Outcome<string>)
    requires WellFormed(v)
    ensures r.Ok? <==> -v.Count() <= index < v.Count()
    ensures r.Ok? ==> r.value == AllElements(v)[if index < 0 then v.Count() + index else index]
  {
    if !(index < v.Count()) || !(index > -v.Count() - 1) {
      return Panic;
    }
    var i := if index < 0 then v.Count() + index else index;
    var element;
    if i < v.absCount {
      element := GetElement(v.abs, i);
    } else {
      element := GetElement(v.rel, i - v.absCount);
    }
    return Ok(element);
  }
}
