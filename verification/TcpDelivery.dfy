/** What a session does with a segment, by where the segment lies in the stream, and when a stream arrives whole. */
module TcpDelivery {
  import opened Common
  import opened Checksums
  import opened Tcp

  // ---- One segment ----

  /** The segment that starts where the stored bytes end is let through: its payload is stored if the window has room
      for header and payload and the buffer for the payload; without room in the window only its flags count; without
      room in the buffer an assertion fails. */
  predicate LetThrough(s: Session, g: Segment, stream: seq<U8>, isn: U32, r: Outcome<Session>)
    requires s.written <= |s.buffer| && s.written + |g.payload| <= |stream|
  {
    var n, open := |g.payload|, !g.rst && !g.fin;
    if n == 0 || g.header + n > s.window then r == Ok(s.(established := open))
    else if s.written + n > MAX_WINDOW_SIZE then r == Panic
    else
      r.Ok? && |r.value.buffer| == |s.buffer| && s.written + n <= |s.buffer| &&
      r.value.buffer[..s.written + n] == s.buffer[..s.written] + stream[s.written..s.written + n] &&
      r.value.buffer[s.written + n..] == s.buffer[s.written + n..] &&
      r.value == s.(buffer := r.value.buffer, established := open, written := s.written + n,
                    remoteSeq := (isn + s.written + n) % TWO32, window := s.window - n)
  }

  lemma ProcessLetsThrough(s: Session, g: Segment, stream: seq<U8>, isn: U32)
    requires s.established && Inv(s, stream, isn) && CutAt(g, stream, isn, s.written) && |g.payload| <= s.window
    ensures LetThrough(s, g, stream, isn, Process(s, g))
  {
    var n := |g.payload|;
    if n > 0 && g.header + n <= s.window && s.written + n <= MAX_WINDOW_SIZE {
      var b := HandleData(s, g).value.buffer;
      assert b[..s.written + n] == s.buffer[..s.written] + g.payload;
      assert b[s.written + n..] == s.buffer[s.written + n..];
      AddWrap(isn + s.written, n);
    }
  }

  /** Where a segment cut at offset o stands. */
  predicate Early(s: Session, o: nat, n: nat) { o != s.written && s.written <= o + n <= s.written + s.window }

  predicate Outside(s: Session, o: nat, n: nat) { !(s.written <= o + n <= s.written + s.window) }

  lemma JudgeExact(s: Session, g: Segment, stream: seq<U8>, isn: U32, o: nat)
    requires s.established && Inv(s, stream, isn) && CutAt(g, stream, isn, o) && |stream| < TWO32
    ensures Judge(s, g) == if Early(s, o, |g.payload|) then Wait else if Outside(s, o, |g.payload|) then Drop else Accept
  {
    hide Inv;
    WindowMeaning(s, g, stream, isn, o);
  }

  lemma ArrivalStep(s: Session, g: Segment, stream: seq<U8>, isn: U32, o: nat)
    requires s.established && Inv(s, stream, isn) && CutAt(g, stream, isn, o) && |stream| < TWO32
    ensures s.written <= |s.buffer|
    ensures var r := Step(s, Arrive(g));
      if Early(s, o, |g.payload|) then r == Ok(s.(waiting := s.waiting + [g]))
      else if Outside(s, o, |g.payload|) then r == Ok(s)
      else o == s.written && LetThrough(s, g, stream, isn, r)
  {
    hide Process, Judge, LetThrough, CutAt;
    JudgeExact(s, g, stream, isn, o);
    if Judge(s, g) == Accept {
      ProcessLetsThrough(s, g, stream, isn);
    }
  }

  /** The session when the i-th waiting segment waits no longer. */
  function Freed(s: Session, i: nat): Session
    requires i < |s.waiting|
  {
    s.(waiting := s.waiting[..i] + s.waiting[i + 1..])
  }

  lemma FreedKeeps(s: Session, i: nat, stream: seq<U8>, isn: U32)
    requires s.established && Inv(s, stream, isn) && i < |s.waiting|
    ensures Inv(Freed(s, i), stream, isn)
  {
    hide CutFrom;
    var rest := Freed(s, i).waiting;
    assert forall j :: 0 <= j < |rest| ==> rest[j] == s.waiting[if j < i then j else j + 1];
    WaitingKeeps(s, rest, stream, isn);
  }

  lemma RecheckStep(s: Session, i: nat, stream: seq<U8>, isn: U32, o: nat)
    requires s.established && Inv(s, stream, isn) && i < |s.waiting| && CutAt(s.waiting[i], stream, isn, o) && |stream| < TWO32
    ensures s.written <= |s.buffer|
    ensures var r, n := Step(s, Recheck(i)), |s.waiting[i].payload|;
      if Early(s, o, n) then r == Ok(s)
      else if Outside(s, o, n) then r == Ok(Freed(s, i))
      else o == s.written && LetThrough(Freed(s, i), s.waiting[i], stream, isn, r)
  {
    hide Process, Judge, LetThrough, CutAt;
    var g := s.waiting[i];
    FreedKeeps(s, i, stream, isn);
    JudgeExact(s, g, stream, isn, o);
    if Judge(s, g) == Accept {
      ProcessLetsThrough(Freed(s, i), g, stream, isn);
    }
  }

  /** In every reachable state, a segment cut from the stream at offset o that arrives: in the window but not at the end
      of the stored bytes it is kept waiting, and nothing else changes; outside the window it is dropped; at the end of
      the stored bytes it is let through. */
  lemma ArrivalExact(ss: seq<Session>, es: seq<Event>, stream: seq<U8>, isn: U32, g: Segment, o: nat)
    requires IsRun(ss, es, stream, isn) && |stream| < TWO32 && ss[|es|].established && CutAt(g, stream, isn, o)
    ensures var s := ss[|es|]; var r, w, n := Step(s, Arrive(g)), s.written, |g.payload|;
      w <= |s.buffer| &&
      if o != w && w <= o + n <= w + s.window then r == Ok(s.(waiting := s.waiting + [g]))
      else if o + n < w || o + n > w + s.window then r == Ok(s)
      else o == w && LetThrough(s, g, stream, isn, r)
  {
    hide Inv, Step, CutAt, LetThrough;
    RunKeeps(ss, es, stream, isn, |es|);
    ArrivalStep(ss[|es|], g, stream, isn, o);
  }

  /** A waiting segment that looks again: it goes on waiting as long as it is early, is dropped once it is outside the
      window, and is let through and leaves the waiting ones once the stored bytes reach it. */
  lemma RecheckExact(ss: seq<Session>, es: seq<Event>, stream: seq<U8>, isn: U32, i: nat, o: nat)
    requires IsRun(ss, es, stream, isn) && |stream| < TWO32 && ss[|es|].established && i < |ss[|es|].waiting|
    requires CutAt(ss[|es|].waiting[i], stream, isn, o)
    ensures var s := ss[|es|]; var r, w, n := Step(s, Recheck(i)), s.written, |s.waiting[i].payload|;
      var rest := s.(waiting := s.waiting[..i] + s.waiting[i + 1..]);
      w <= |s.buffer| &&
      if o != w && w <= o + n <= w + s.window then r == Ok(s)
      else if o + n < w || o + n > w + s.window then r == Ok(rest)
      else o == w && LetThrough(rest, s.waiting[i], stream, isn, r)
  {
    hide Inv, Step, CutAt, LetThrough;
    RunKeeps(ss, es, stream, isn, |es|);
    RecheckStep(ss[|es|], i, stream, isn, o);
  }

  // ---- Receiving ----

  /** While a receive call waits, its start stands. */
  lemma StartStands(s: Session, e: Event)
    requires s.reading && Enabled(s, e) && Step(s, e).Ok? && Step(s, e).value.reading
    ensures Step(s, e).value.start == s.start
  {
  }

  lemma {:induction false} StartIs(ss: seq<Session>, es: seq<Event>, stream: seq<U8>, isn: U32, i: nat, j: nat)
    requires IsRun(ss, es, stream, isn) && i < j < |ss| && es[i] == ReceiveBegin && forall m :: i < m <= j ==> ss[m].reading
    ensures ss[j].start == ss[i].written
  {
    hide Judge, Process, CutFrom;
    assert Step(ss[j - 1], es[j - 1]) == Ok(ss[j]);
    if j > i + 1 {
      StartIs(ss, es, stream, isn, i, j - 1);
      hide Step;
      StartStands(ss[j - 1], es[j - 1]);
    }
  }

  /** What a receive call returns, over every run: the bytes of the stream that were stored between its start and its
      end. They widen the window by as much; a call whose buffer is too small returns none of them and widens nothing.
      Either way what is stored, and what waits, stays. */
  lemma ReceiveExact(ss: seq<Session>, es: seq<Event>, stream: seq<U8>, isn: U32, i: nat, j: nat)
    requires IsRun(ss, es, stream, isn) && |stream| < TWO32 && i < j < |es| && es[i] == ReceiveBegin && es[j].ReceiveEnd?
    requires forall m :: i < m <= j ==> ss[m].reading
    ensures |ss| == |es| + 1
    ensures var s, t, from := ss[j], ss[j + 1], ss[i].written;
      from <= s.written <= |stream| && s.start == from && s.written <= |s.buffer| && Received(s) == stream[from..s.written] &&
      t == s.(reading := false, window := t.window, consumed := t.consumed) &&
      var n := if s.written - from <= es[j].capacity then s.written - from else 0;
      t.window == s.window + n && t.consumed == s.consumed + n
  {
    hide Judge, Process, CutFrom;
    StartIs(ss, es, stream, isn, i, j);
    ReceivedIsSlice(ss, es, stream, isn, j);
    assert Step(ss[j], es[j]) == Ok(ss[j + 1]);
  }

  // ---- A whole stream ----

  /** Where the sender cuts the stream. */
  ghost predicate Cuts(cuts: seq<nat>, stream: seq<U8>) {
    |cuts| > 0 && cuts[0] == 0 && cuts[|cuts| - 1] == |stream| && forall i, j :: 0 <= i < j < |cuts| ==> cuts[i] < cuts[j]
  }

  /** The segment is the k-th piece, without RST or FIN, and the whole stream fits the buffer behind its header. */
  predicate Piece(g: Segment, cuts: seq<nat>, stream: seq<U8>, isn: U32, k: nat) {
    k + 1 < |cuts| && CutAt(g, stream, isn, cuts[k]) && cuts[k] + |g.payload| == cuts[k + 1] && !g.rst && !g.fin &&
    g.header + |stream| <= MAX_WINDOW_SIZE
  }

  ghost predicate IsPiece(g: Segment, cuts: seq<nat>, stream: seq<U8>, isn: U32) { exists k: nat :: Piece(g, cuts, stream, isn, k) }

  /** The stored bytes end at a cut, and pieces wait. */
  ghost predicate AtCut(s: Session, cuts: seq<nat>, stream: seq<U8>, isn: U32) {
    s.established && s.written in cuts && forall i :: 0 <= i < |s.waiting| ==> IsPiece(s.waiting[i], cuts, stream, isn)
  }

  /** The segment is stored or waits. */
  predicate Held(s: Session, g: Segment, cuts: seq<nat>, k: nat)
    requires k + 1 < |cuts|
  {
    cuts[k + 1] <= s.written || g in s.waiting
  }

  /** Nothing that waits is lost on the way from s to t. */
  ghost predicate KeepsHeld(s: Session, t: Session, cuts: seq<nat>, stream: seq<U8>, isn: U32) {
    s.written <= t.written && forall g, k: nat :: Piece(g, cuts, stream, isn, k) && Held(s, g, cuts, k) ==> Held(t, g, cuts, k)
  }

  /** A piece in a session whose window covers the stream: it fits. */
  lemma PieceFits(s: Session, g: Segment, cuts: seq<nat>, stream: seq<U8>, isn: U32, k: nat)
    requires s.established && Inv(s, stream, isn) && Cuts(cuts, stream) && Piece(g, cuts, stream, isn, k)
    ensures |stream| <= s.written + s.window && 0 < |g.payload| && |stream| <= MAX_WINDOW_SIZE
    ensures cuts[k] == s.written ==> g.header + |g.payload| <= s.window && s.written + |g.payload| <= MAX_WINDOW_SIZE
  {
    hide CutFrom;
    assert cuts[k] < cuts[k + 1] <= |stream|;
  }

  lemma LetThroughAtCut(s: Session, g: Segment, cuts: seq<nat>, stream: seq<U8>, isn: U32, k: nat, r: Outcome<Session>)
    requires Cuts(cuts, stream) && Piece(g, cuts, stream, isn, k) && cuts[k] == s.written <= |s.buffer| && AtCut(s, cuts, stream, isn)
    requires g.header + |g.payload| <= s.window && s.written + |g.payload| <= MAX_WINDOW_SIZE && 0 < |g.payload|
    requires LetThrough(s, g, stream, isn, r)
    ensures r.Ok? && AtCut(r.value, cuts, stream, isn) && r.value.written == cuts[k + 1] && r.value.waiting == s.waiting
  {
    hide IsPiece;
  }

  lemma ArriveDelivers(s: Session, g: Segment, cuts: seq<nat>, stream: seq<U8>, isn: U32, k: nat)
    requires Inv(s, stream, isn) && AtCut(s, cuts, stream, isn) && Cuts(cuts, stream) && Piece(g, cuts, stream, isn, k)
    ensures Step(s, Arrive(g)).Ok?
    ensures var t := Step(s, Arrive(g)).value; AtCut(t, cuts, stream, isn) && KeepsHeld(s, t, cuts, stream, isn) && Held(t, g, cuts, k)
  {
    PieceFits(s, g, cuts, stream, isn, k);
    hide Inv, Step, LetThrough, Cuts;
    ArrivalStep(s, g, stream, isn, cuts[k]);
    if !Early(s, cuts[k], |g.payload|) && !Outside(s, cuts[k], |g.payload|) {
      LetThroughAtCut(s, g, cuts, stream, isn, k, Step(s, Arrive(g)));
    } else if Early(s, cuts[k], |g.payload|) {
      assert IsPiece(g, cuts, stream, isn);
    }
  }

  lemma FreedHeld(s: Session, i: nat, t: Session, cuts: seq<nat>, stream: seq<U8>, isn: U32, k: nat)
    requires i < |s.waiting| && Piece(s.waiting[i], cuts, stream, isn, k) && cuts[k + 1] <= t.written && s.written <= t.written
    requires t.waiting == Freed(s, i).waiting && Cuts(cuts, stream)
    ensures KeepsHeld(s, t, cuts, stream, isn)
  {
    forall g, m: nat | Piece(g, cuts, stream, isn, m) && Held(s, g, cuts, m)
      ensures Held(t, g, cuts, m)
    {
      if g in s.waiting {
        var j :| 0 <= j < |s.waiting| && s.waiting[j] == g;
        if j == i {
          SamePiece(g, cuts, stream, isn, k, m);
        } else {
          assert t.waiting[if j < i then j else j - 1] == g;
        }
      }
    }
  }

  /** A segment is one piece only. */
  lemma SamePiece(g: Segment, cuts: seq<nat>, stream: seq<U8>, isn: U32, k: nat, m: nat)
    requires Cuts(cuts, stream) && Piece(g, cuts, stream, isn, k) && Piece(g, cuts, stream, isn, m)
    ensures k == m
  {
    assert cuts[k] <= cuts[|cuts| - 1] && cuts[m] <= cuts[|cuts| - 1];
    CongruentBelow(isn, cuts[k], cuts[m]);
  }

  lemma RecheckDelivers(s: Session, i: nat, cuts: seq<nat>, stream: seq<U8>, isn: U32)
    requires Inv(s, stream, isn) && AtCut(s, cuts, stream, isn) && Cuts(cuts, stream) && i < |s.waiting|
    ensures Step(s, Recheck(i)).Ok?
    ensures var t := Step(s, Recheck(i)).value;
      AtCut(t, cuts, stream, isn) && KeepsHeld(s, t, cuts, stream, isn) && (t == s || |t.waiting| < |s.waiting|)
    ensures forall k: nat :: Piece(s.waiting[i], cuts, stream, isn, k) && cuts[k] == s.written ==> Step(s, Recheck(i)).value.written == cuts[k + 1]
  {
    var g := s.waiting[i];
    assert IsPiece(g, cuts, stream, isn);
    var k: nat :| Piece(g, cuts, stream, isn, k);
    PieceFits(s, g, cuts, stream, isn, k);
    forall m: nat | Piece(g, cuts, stream, isn, m)
      ensures m == k
    {
      SamePiece(g, cuts, stream, isn, k, m);
    }
    FreedAtCut(s, i, cuts, stream, isn);
    hide Inv, Step, LetThrough, Cuts, Piece;
    RecheckStep(s, i, stream, isn, cuts[k]);
    if Outside(s, cuts[k], |g.payload|) {
      FreedHeld(s, i, Freed(s, i), cuts, stream, isn, k);
    } else if !Early(s, cuts[k], |g.payload|) {
      LetThroughAtCut(Freed(s, i), g, cuts, stream, isn, k, Step(s, Recheck(i)));
      FreedHeld(s, i, Step(s, Recheck(i)).value, cuts, stream, isn, k);
    }
  }

  lemma FreedAtCut(s: Session, i: nat, cuts: seq<nat>, stream: seq<U8>, isn: U32)
    requires AtCut(s, cuts, stream, isn) && i < |s.waiting|
    ensures AtCut(Freed(s, i), cuts, stream, isn)
  {
    hide IsPiece;
    var rest := Freed(s, i).waiting;
    assert forall j :: 0 <= j < |rest| ==> rest[j] == s.waiting[if j < i then j else j + 1];
  }

  ghost predicate FromPieces(e: Event, cuts: seq<nat>, stream: seq<U8>, isn: U32) {
    e.Arrive? ==> IsPiece(e.g, cuts, stream, isn)
  }

  lemma StepDelivers(s: Session, e: Event, cuts: seq<nat>, stream: seq<U8>, isn: U32)
    requires Inv(s, stream, isn) && AtCut(s, cuts, stream, isn) && Cuts(cuts, stream) && Enabled(s, e) && FromPieces(e, cuts, stream, isn)
    ensures Step(s, e).Ok? && AtCut(Step(s, e).value, cuts, stream, isn) && KeepsHeld(s, Step(s, e).value, cuts, stream, isn)
    ensures e.Arrive? ==> forall k: nat :: Piece(e.g, cuts, stream, isn, k) ==> Held(Step(s, e).value, e.g, cuts, k)
  {
    hide Inv, Cuts, Piece, Judge, Process;
    match e
    case Arrive(g) =>
      var k: nat :| Piece(g, cuts, stream, isn, k);
      ArriveDelivers(s, g, cuts, stream, isn, k);
      forall m: nat | Piece(g, cuts, stream, isn, m)
        ensures m == k
      {
        SamePiece(g, cuts, stream, isn, k, m);
      }
    case Recheck(i) => RecheckDelivers(s, i, cuts, stream, isn);
    case ReceiveBegin =>
    case ReceiveEnd(_) =>
  }

  /** A run of the session, fed with pieces of the stream in any order and any number of times. */
  ghost predicate PieceRun(ss: seq<Session>, es: seq<Event>, cuts: seq<nat>, stream: seq<U8>, isn: U32) {
    Cuts(cuts, stream) && IsRun(ss, es, stream, isn) && |stream| <= MAX_WINDOW_SIZE &&
    forall i :: 0 <= i < |es| ==> FromPieces(es[i], cuts, stream, isn)
  }

  /** At every point of such a run, each piece that has arrived is stored or waits. */
  lemma {:induction false} PiecesHeld(ss: seq<Session>, es: seq<Event>, cuts: seq<nat>, stream: seq<U8>, isn: U32, i: nat)
    requires PieceRun(ss, es, cuts, stream, isn) && i <= |es|
    ensures |ss| == |es| + 1 && AtCut(ss[i], cuts, stream, isn)
    ensures forall m, k: nat :: 0 <= m < i && es[m].Arrive? && Piece(es[m].g, cuts, stream, isn, k) ==> Held(ss[i], es[m].g, cuts, k)
  {
    hide Inv, Step, Piece, Enabled, AtCut, FromPieces;
    if i == 0 {
      StartAtCut(ss[0], cuts, stream, isn);
    } else {
      PiecesHeld(ss, es, cuts, stream, isn, i - 1);
      RunKeeps(ss, es, stream, isn, i - 1);
      assert Step(ss[i - 1], es[i - 1]) == Ok(ss[i]);
      StepDelivers(ss[i - 1], es[i - 1], cuts, stream, isn);
    }
  }

  lemma StartAtCut(s: Session, cuts: seq<nat>, stream: seq<U8>, isn: U32)
    requires Cuts(cuts, stream) && s == Opened(s.buffer, isn)
    ensures AtCut(s, cuts, stream, isn)
  {
    assert cuts[0] in cuts;
  }

  /** Every waiting segment has looked again since anything changed. */
  ghost predicate Settled(s: Session) {
    forall i :: 0 <= i < |s.waiting| ==> !s.established || Step(s, Recheck(i)) == Ok(s)
  }

  ghost predicate Arrived(es: seq<Event>, cuts: seq<nat>, stream: seq<U8>, isn: U32, k: nat) {
    exists m :: 0 <= m < |es| && es[m].Arrive? && Piece(es[m].g, cuts, stream, isn, k)
  }

  ghost predicate AllArrived(es: seq<Event>, cuts: seq<nat>, stream: seq<U8>, isn: U32) {
    forall k: nat :: k < |cuts| - 1 ==> Arrived(es, cuts, stream, isn, k)
  }

  /** Once every piece of the stream has arrived, in whatever order, and the waiting ones have looked again, the whole
      stream is stored. */
  lemma WholeStreamStored(ss: seq<Session>, es: seq<Event>, cuts: seq<nat>, stream: seq<U8>, isn: U32)
    requires PieceRun(ss, es, cuts, stream, isn) && |ss| == |es| + 1 && Settled(ss[|es|]) && AllArrived(es, cuts, stream, isn)
    ensures ss[|es|].written == |stream| <= |ss[|es|].buffer| && ss[|es|].buffer[..|stream|] == stream
  {
    hide Step, Piece;
    var s := ss[|es|];
    PiecesHeld(ss, es, cuts, stream, isn, |es|);
    StoredIsPrefix(ss, es, stream, isn, |es|);
    var k: nat :| k < |cuts| && cuts[k] == s.written;
    if k + 1 < |cuts| {
      assert Arrived(es, cuts, stream, isn, k);
      var m :| 0 <= m < |es| && es[m].Arrive? && Piece(es[m].g, cuts, stream, isn, k);
      assert Held(s, es[m].g, cuts, k);
      RunKeeps(ss, es, stream, isn, |es|);
      var i :| 0 <= i < |s.waiting| && s.waiting[i] == es[m].g;
      assert Step(s, Recheck(i)) == Ok(s);
      RecheckDelivers(s, i, cuts, stream, isn);
      assert false;
    }
    assert stream[..|stream|] == stream;
  }

  /** Looking again comes to an end: at most one look for each waiting segment leads from any such run to one that is
      settled. */
  lemma {:induction false} Settles(ss: seq<Session>, es: seq<Event>, cuts: seq<nat>, stream: seq<U8>, isn: U32)
    returns (ss': seq<Session>, es': seq<Event>)
    requires PieceRun(ss, es, cuts, stream, isn) && |ss| == |es| + 1
    ensures PieceRun(ss', es', cuts, stream, isn) && |ss'| == |es'| + 1 && Settled(ss'[|es'|])
    ensures es <= es' && |es'| <= |es| + |ss[|es|].waiting| && forall i :: |es| <= i < |es'| ==> es'[i].Recheck?
    decreases |ss[|es|].waiting|
  {
    hide Inv, Step, IsPiece;
    var s := ss[|es|];
    PiecesHeld(ss, es, cuts, stream, isn, |es|);
    if Settled(s) {
      ss', es' := ss, es;
    } else {
      var i :| 0 <= i < |s.waiting| && s.established && Step(s, Recheck(i)) != Ok(s);
      RunKeeps(ss, es, stream, isn, |es|);
      RecheckDelivers(s, i, cuts, stream, isn);
      var t := Step(s, Recheck(i)).value;
      ss', es' := Settles(ss + [t], es + [Recheck(i)], cuts, stream, isn);
    }
  }

  /** The pieces of a stream, arriving in any order, leave the whole stream stored after as many looks as there are
      segments waiting at the end. */
  lemma AnyOrderDelivers(ss: seq<Session>, es: seq<Event>, cuts: seq<nat>, stream: seq<U8>, isn: U32)
    returns (ss': seq<Session>, es': seq<Event>)
    requires PieceRun(ss, es, cuts, stream, isn) && |ss| == |es| + 1 && AllArrived(es, cuts, stream, isn)
    ensures IsRun(ss', es', stream, isn) && |ss'| == |es'| + 1 && es <= es' && |es'| <= |es| + |ss[|es|].waiting|
    ensures forall i :: |es| <= i < |es'| ==> es'[i].Recheck?
    ensures var s := ss'[|es'|]; s.written == |stream| <= |s.buffer| && s.buffer[..|stream|] == stream
  {
    hide Settled, IsRun, Piece;
    ss', es' := Settles(ss, es, cuts, stream, isn);
    forall k: nat | k < |cuts| - 1
      ensures Arrived(es', cuts, stream, isn, k)
    {
      assert Arrived(es, cuts, stream, isn, k);
      var m :| 0 <= m < |es| && es[m].Arrive? && Piece(es[m].g, cuts, stream, isn, k);
      assert es'[m] == es[m];
    }
    WholeStreamStored(ss', es', cuts, stream, isn);
  }
}
