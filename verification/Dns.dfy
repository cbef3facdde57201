/** Domain names in the notation of section 3.1 of RFC 1035: labels preceded by their lengths. */
module Dns {
  import opened Common
  import opened Text

  type Byte = b: int | 0 <= b < 256

  const DOT: Byte := 46

  /** Length-prefixed labels; a length is stored in one byte. */
  function EncodeLabels(labels: seq<seq<Byte>>): seq<Byte> {
    if labels == [] then [] else [|labels[0]| % 256] + labels[0] + EncodeLabels(labels[1..])
  }

  /** What the conversion produces for any name. */
  function Notation(name: seq<Byte>): seq<Byte> {
    if DOT in name then EncodeLabels(Split(name, DOT)) + [0] else [255] + name + [0]
  }

  /** A resolver's walk over the encoded name: section 4.1.2 of RFC 1035 ends it at the zero length, and
      lengths above 63 do not introduce labels. The result is the labels and what follows the name. */
  function Walk(b: seq<Byte>): Option<(seq<seq<Byte>>, seq<Byte>)> {
    if b == [] then None
    else if b[0] == 0 then Some(([], b[1..]))
    else if b[0] > 63 || |b| < 1 + b[0] then None
    else match Walk(b[1 + b[0]..])
      case None => None
      case Some((labels, rest)) => Some(([b[1..1 + b[0]]] + labels, rest))
  }

  predicate GoodLabel(l: seq<Byte>) { 1 <= |l| <= 63 }

  lemma WalkOne(l: seq<Byte>, tail: seq<Byte>)
    ensures var b := [|l| % 256] + l + tail;
            if GoodLabel(l) then
              Walk(b) == match Walk(tail) case None => None case Some((labels, rest)) => Some(([l] + labels, rest))
            else Walk(b).None? || Walk(b).value.0 == [] || Walk(b).value.0[0] != l
  {
    var b := [|l| % 256] + l + tail;
    if GoodLabel(l) {
      assert b[1..1 + b[0]] == l && b[1 + b[0]..] == tail;
    } else if Walk(b).Some? && b[0] != 0 {
      assert |Walk(b).value.0[0]| == b[0];
    }
  }

  lemma AllGood(labels: seq<seq<Byte>>)
    requires labels != []
    ensures (forall i :: 0 <= i < |labels| ==> GoodLabel(labels[i])) <==>
            GoodLabel(labels[0]) && forall i :: 0 <= i < |labels[1..]| ==> GoodLabel(labels[1..][i])
  {
    hide GoodLabel;
    var more := labels[1..];
    assert forall i :: 0 <= i < |more| ==> more[i] == labels[i + 1];
    assert forall i :: 0 < i < |labels| ==> labels[i] == more[i - 1];
  }

  lemma {:induction false} WalkLabels(labels: seq<seq<Byte>>)
    ensures Walk(EncodeLabels(labels) + [0]) == Some((labels, [])) <==> forall i :: 0 <= i < |labels| ==> GoodLabel(labels[i])
  {
    if labels == [] {
      var end: seq<Byte> := [0];
      assert EncodeLabels(labels) + end == end && end[1..] == [];
    } else {
      var l, more := labels[0], labels[1..];
      var tail := EncodeLabels(more) + [0];
      assert EncodeLabels(labels) + [0] == [|l| % 256] + l + tail;
      WalkOne(l, tail);
      WalkLabels(more);
      assert labels == [l] + more;
      hide Walk, EncodeLabels;
      AllGood(labels);
      if GoodLabel(l) && Walk(tail).Some? {
        var (ls, rest) := Walk(tail).value;
        assert ([l] + ls)[1..] == ls;
        assert [l] + ls == labels <==> ls == more;
      }
    }
  }

  /** The encoding can be read back, and the walk ends on its last octet, exactly for names with a dot
      whose labels all have 1 to 63 bytes. */
  lemma NotationInvertible(name: seq<Byte>)
    ensures Walk(Notation(name)) == Some((Split(name, DOT), [])) <==>
            DOT in name && forall i :: 0 <= i < |Split(name, DOT)| ==> GoodLabel(Split(name, DOT)[i])
  {
    if DOT in name {
      WalkLabels(Split(name, DOT));
    }
  }

  /** A name without a dot, such as a bare host name, is never readable: its first octet is 255. */
  lemma DotlessNameFails(name: seq<Byte>)
    requires DOT !in name
    ensures Notation(name) == [0xFF] + name + [0] && Walk(Notation(name)).None?
  {
    assert Notation(name)[0] == 255;
  }

  // ---- The conversion as a patched copy ----

  /** Length of the piece of the name that starts at k. */
  function PieceLength(name: seq<Byte>, k: nat): (n: nat)
    requires k <= |name|
    ensures k + n <= |name|
  {
    match Find(name, DOT, k)
    case None => |name| - k
    case Some(d) => d - k
  }

  /** The octet that ends up where the copy of name[i] was. */
  function Octet(name: seq<Byte>, i: nat): Byte
    requires i < |name|
  {
    if name[i] == DOT then PieceLength(name, i + 1) % 256 else name[i]
  }

  lemma FindShift(name: seq<Byte>, i: nat, k: nat)
    requires i + k <= |name|
    ensures PieceLength(name, i + k) == PieceLength(name[i..], k)
  {
    var tail := name[i..];
    match Find(name, DOT, i + k)
    case None =>
      assert forall j :: k <= j < |tail| ==> tail[j] == name[i + j];
    case Some(d) =>
      assert tail[d - i] == DOT;
      assert forall j :: k <= j < d - i ==> tail[j] == name[i + j];
  }

  function Patched(name: seq<Byte>): (r: seq<Byte>)
    ensures |r| == |name| + 1
  {
    [PieceLength(name, 0) % 256] + seq(|name|, i requires 0 <= i < |name| => Octet(name, i))
  }

  lemma OctetShift(name: seq<Byte>, i: nat, j: nat)
    requires i + j < |name|
    ensures Octet(name, i + j) == Octet(name[i..], j)
  {
    FindShift(name, i, j + 1);
  }

  lemma PatchedStep(name: seq<Byte>, d: nat)
    requires Find(name, DOT, 0) == Some(d)
    ensures Patched(name) == [d % 256] + name[..d] + Patched(name[d + 1..])
  {
    hide PieceLength;
    var tail, r := name[d + 1..], Patched(name);
    var want := [d % 256] + name[..d] + Patched(tail);
    assert PieceLength(name, 0) == d by {
      FirstPiece(name, d);
    }
    FindShift(name, d + 1, 0);
    forall i | 0 <= i < |r|
      ensures r[i] == want[i]
    {
      if i > d + 1 {
        OctetShift(name, d + 1, i - d - 2);
      }
    }
  }

  lemma FirstPiece(name: seq<Byte>, d: nat)
    requires Find(name, DOT, 0) == Some(d)
    ensures PieceLength(name, 0) == d
  {
  }

  /** Patching every dot with the length of the piece after it gives the length-prefixed labels. */
  lemma {:induction false} PatchedIsEncoded(name: seq<Byte>)
    ensures Patched(name) == EncodeLabels(Split(name, DOT))
    decreases |name|
  {
    hide Octet;
    match Find(name, DOT, 0)
    case None =>
      Dotless(name);
      assert EncodeLabels([name]) == [|name| % 256] + name + EncodeLabels([]);
    case Some(d) =>
      PatchedStep(name, d);
      PatchedIsEncoded(name[d + 1..]);
      assert Split(name, DOT)[1..] == Split(name[d + 1..], DOT);
  }

  lemma Dotless(name: seq<Byte>)
    requires Find(name, DOT, 0).None?
    ensures Split(name, DOT) == [name] && Patched(name) == [|name| % 256] + name
  {
    hide Find;
    var r, want := Patched(name), [|name| % 256] + name;
    assert |r| == |want|;
    forall i | 0 <= i < |r|
      ensures r[i] == want[i]
    {
    }
  }

  /** The buffer while dots before `upTo` have been patched. */
  ghost predicate PatchedUpTo(name: seq<Byte>, out: seq<Byte>, upTo: Option<nat>) {
    |out| == |name| + 2 &&
    forall j :: 0 <= j < |name| ==> out[j + 1] == if upTo.None? || j < upTo.value then Octet(name, j) else name[j]
  }

  lemma PatchDot(name: seq<Byte>, out: seq<Byte>, d: nat)
    requires d < |name| && name[d] == DOT && PatchedUpTo(name, out, Some(d))
    ensures PatchedUpTo(name, out[d + 1 := PieceLength(name, d + 1) % 256], Find(name, DOT, d + 1))
  {
    hide PieceLength;
  }

  /** DNS::convert_to_dns_notation */
  method ConvertToDnsNotation(name: seq<Byte>) returns (out: array<Byte>)
    ensures fresh(out) && out[..] == Notation(name)
  {
    hide Octet, Find, Notation;
    out := new Byte[|name| + 2](i => if 1 <= i <= |name| then name[i - 1] else 0);
    var currDot := Find(name, DOT, 0);
    ghost var first := currDot;
    out[0] := if currDot.Some? then currDot.value % 256 else 255;
    Start(name, out[..]);
    while currDot.Some?
      invariant currDot.Some? ==> currDot.value < |name| && name[currDot.value] == DOT
      invariant out[0] == if first.Some? then first.value % 256 else 255
      invariant PatchedUpTo(name, out[..], currDot)
      decreases if currDot.Some? then |name| - currDot.value else 0
    {
      var d := currDot.value;
      var nextDot := Find(name, DOT, d + 1);
      PatchDot(name, out[..], d);
      if nextDot.Some? {
        out[d + 1] := (nextDot.value - d - 1) % 256;
      } else {
        out[d + 1] := (|name| - d - 1) % 256;
      }
      currDot := nextDot;
    }
    out[|name| + 1] := 0;
    Finish(name, out[..]);
  }

  lemma Start(name: seq<Byte>, out: seq<Byte>)
    requires |out| == |name| + 2 && forall j :: 0 <= j < |name| ==> out[j + 1] == name[j]
    ensures PatchedUpTo(name, out, Find(name, DOT, 0))
  {
  }

  lemma Finish(name: seq<Byte>, out: seq<Byte>)
    requires |out| == |name| + 2 && PatchedUpTo(name, out, None) && out[|name| + 1] == 0
    requires var first := Find(name, DOT, 0); out[0] == if first.Some? then first.value % 256 else 255
    ensures out == Notation(name)
  {
    hide Find, EncodeLabels, Split;
    PatchedIsEncoded(name);
    var first := Find(name, DOT, 0);
    var want := if first.Some? then Patched(name) + [0] else [255] + name + [0];
    if first.Some? {
      FirstPiece(name, first.value);
      assert name[first.value] in name;
    }
    forall i | 0 <= i < |out|
      ensures out[i] == want[i]
    {
      assert 1 <= i <= |name| ==> out[i] == Octet(name, i - 1);
    }
    assert out == want;
  }
}
