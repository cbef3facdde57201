/** The receive path of a TCP session while it is ESTABLISHED: segments arrive in any order, any number
    of times, or not at all, and the session stores bytes of the sender's stream. */
module Tcp {
  import opened Common
  import opened Checksums

  const MAX_WINDOW_SIZE: nat := 8000

  /** What `handle` uses of a packet: sequence number, payload, the size of its header, two flags. */
  datatype Segment = Segment(seqNo: U32, payload: seq<U8>, header: nat, rst: bool, fin: bool)

  /** The session's fields; `waiting` are the segments whose handlers sit in the out-of-order loop, `reading`
      tells whether a receive call is in progress, `consumed` counts the bytes receive calls returned. */
  datatype Session = Session(established: bool, buffer: seq<U8>, start: nat, written: nat, remoteSeq: U32, window: nat,
                             waiting: seq<Segment>, reading: bool, consumed: nat)

  predicate InOrder(s: Session, seqNo: U32) { s.remoteSeq == seqNo }

  /** All three terms are 32-bit. */
  predicate InWindow(s: Session, seqNo: U32, size: nat) {
    (size + seqNo - s.remoteSeq) % TWO32 <= s.window
  }

  predicate BufferAvailable(s: Session, size: nat) { s.window >= size }

  datatype Verdict = Accept | Drop | Wait

  /** handle_out_of_order_packets each time it looks at its condition. */
  function Judge(s: Session, g: Segment): Verdict {
    if !InOrder(s, g.seqNo) && InWindow(s, g.seqNo, |g.payload|) then Wait
    else if InWindow(s, g.seqNo, |g.payload|) then Accept
    else Drop
  }

  /** handle_data; the buffer's own assertion fails when the bytes do not fit behind the stored ones. */
  function HandleData(s: Session, g: Segment): Outcome<Session> {
    var n := |g.payload|;
    if !BufferAvailable(s, g.header + n) then Ok(s)
    else if s.written + n > |s.buffer| then Panic
    else Ok(s.(buffer := s.buffer[..s.written] + g.payload + s.buffer[s.written + n..],
               written := s.written + n, remoteSeq := (s.remoteSeq + n) % TWO32, window := s.window - n))
  }

  /** The rest of `handle` once the segment is let through. */
  function Process(s: Session, g: Segment): Outcome<Session> {
    var s1 :- if |g.payload| > 0 then HandleData(s, g) else Ok(s);
    Ok(s1.(established := !g.rst && !g.fin))
  }

  datatype Event = Arrive(g: Segment) | Recheck(i: nat) | ReceiveBegin | ReceiveEnd(capacity: nat)

  predicate Enabled(s: Session, e: Event) {
    s.established &&
    match e
    case Arrive(_) => true
    case Recheck(i) => i < |s.waiting|
    case ReceiveBegin => !s.reading
    case ReceiveEnd(_) => s.reading && s.start <= s.written
  }

  function Step(s: Session, e: Event): Outcome<Session>
    requires Enabled(s, e)
  {
    match e
    case Arrive(g) =>
      (match Judge(s, g)
       case Accept => Process(s, g)
       case Drop => Ok(s)
       case Wait => Ok(s.(waiting := s.waiting + [g])))
    case Recheck(i) =>
      var g, rest := s.waiting[i], s.waiting[..i] + s.waiting[i + 1..];
      (match Judge(s, g)
       case Accept => Process(s.(waiting := rest), g)
       case Drop => Ok(s.(waiting := rest))
       case Wait => Ok(s))
    case ReceiveBegin => Ok(s.(start := s.written, reading := true))
    case ReceiveEnd(capacity) =>
      var n := s.written - s.start;
      if n > capacity then Ok(s.(reading := false))
      else Ok(s.(reading := false, window := s.window + n, consumed := s.consumed + n))
  }

  /** What a successful receive hands to its caller. */
  function Received(s: Session): seq<U8>
    requires s.start <= s.written <= |s.buffer|
  {
    s.buffer[s.start..s.written]
  }

  // ---- The sender's stream ----

  /** The segment carries the bytes of the stream from offset o on. */
  predicate CutAt(g: Segment, stream: seq<U8>, isn: U32, o: nat) {
    o + |g.payload| <= |stream| && g.payload == stream[o..o + |g.payload|] && g.seqNo == (isn + o) % TWO32
  }

  ghost predicate CutFrom(g: Segment, stream: seq<U8>, isn: U32) {
    exists o: nat :: CutAt(g, stream, isn, o)
  }

  ghost predicate Inv(s: Session, stream: seq<U8>, isn: U32) {
    s.established ==>
      |s.buffer| == MAX_WINDOW_SIZE && s.written <= MAX_WINDOW_SIZE && s.written <= |stream| &&
      s.buffer[..s.written] == stream[..s.written] &&
      s.remoteSeq == (isn + s.written) % TWO32 &&
      s.start <= s.written && s.consumed <= (if s.reading then s.start else s.written) &&
      s.window == MAX_WINDOW_SIZE - s.written + s.consumed &&
      (forall i :: 0 <= i < |s.waiting| ==> CutFrom(s.waiting[i], stream, isn))
  }

  /** Right after the handshake. */
  function Opened(buffer: seq<U8>, isn: U32): Session {
    Session(true, buffer, 0, 0, isn, MAX_WINDOW_SIZE, [], false, 0)
  }

  lemma {:induction false} CongruentBelow(isn: nat, a: nat, b: nat)
    requires a < TWO32 && b < TWO32 && (isn + a) % TWO32 == (isn + b) % TWO32
    ensures a == b
  {
    var qa, qb := (isn + a) / TWO32, (isn + b) / TWO32;
    assert a - b == (qa - qb) * TWO32;
  }

  /** 32-bit sequence arithmetic means what it should for segments of a stream shorter than 2^32 bytes: a
      segment is in order when it starts where the stored bytes end, and in the window when it ends no
      earlier than they do and no more than a window later. */
  lemma WindowMeaning(s: Session, g: Segment, stream: seq<U8>, isn: U32, o: nat)
    requires s.established && Inv(s, stream, isn) && CutAt(g, stream, isn, o) && |stream| < TWO32
    ensures InOrder(s, g.seqNo) <==> o == s.written
    ensures InWindow(s, g.seqNo, |g.payload|) <==> s.written <= o + |g.payload| <= s.written + s.window
  {
    if g.seqNo == s.remoteSeq {
      CongruentBelow(isn, o, s.written);
    }
    var n := |g.payload|;
    var x := n + g.seqNo - s.remoteSeq;
    var qo, qw := (isn + o) / TWO32, (isn + s.written) / TWO32;
    assert x == (o + n - s.written) + (qw - qo) * TWO32;
    WholeTurns(o + n - s.written, qw - qo);
  }

  lemma WholeTurns(d: int, q: int)
    requires d + TWO32 > 0 && d < TWO32
    ensures (d + q * TWO32) % TWO32 == if d < 0 then d + TWO32 else d
  {
    Turns(d, q);
  }

  lemma {:induction false} Turns(d: int, q: int)
    ensures (d + q * TWO32) % TWO32 == d % TWO32
    decreases if q < 0 then -q else q
  {
    if q > 0 {
      Turns(d, q - 1);
      assert d + q * TWO32 == (d + (q - 1) * TWO32) + TWO32;
    } else if q < 0 {
      Turns(d, q + 1);
      assert d + q * TWO32 == (d + (q + 1) * TWO32) - TWO32;
    }
  }

  // ---- Every step keeps the stored bytes a prefix of the stream ----

  lemma StorePrefix(s: Session, g: Segment, stream: seq<U8>, isn: U32)
    requires s.established && Inv(s, stream, isn) && CutFrom(g, stream, isn) && |stream| < TWO32
    requires Judge(s, g) == Accept && s.written + |g.payload| <= MAX_WINDOW_SIZE && BufferAvailable(s, g.header + |g.payload|)
    ensures HandleData(s, g).Ok? && Inv(HandleData(s, g).value, stream, isn)
  {
    var o: nat :| CutAt(g, stream, isn, o);
    WindowMeaning(s, g, stream, isn, o);
    var n, s1 := |g.payload|, HandleData(s, g).value;
    assert s1.buffer[..s1.written] == s.buffer[..s.written] + g.payload == stream[..s1.written];
    AddWrap(isn + s.written, n);
    assert forall i :: 0 <= i < |s.waiting| ==> CutFrom(s.waiting[i], stream, isn);
  }

  lemma AddWrap(a: nat, n: nat)
    ensures (a % TWO32 + n) % TWO32 == (a + n) % TWO32
  {
    AddModulo(a, n);
  }

  lemma ProcessKeeps(s: Session, g: Segment, stream: seq<U8>, isn: U32)
    requires s.established && Inv(s, stream, isn) && CutFrom(g, stream, isn) && |stream| < TWO32 && Judge(s, g) == Accept
    ensures Process(s, g).Panic? <==> Overruns(s, g)
    ensures Process(s, g).Ok? ==> Inv(Process(s, g).value, stream, isn)
  {
    if |g.payload| > 0 && BufferAvailable(s, g.header + |g.payload|) && s.written + |g.payload| <= MAX_WINDOW_SIZE {
      StorePrefix(s, g, stream, isn);
    }
  }

  /** The segment is to be stored, but the buffer, which is never wrapped or compacted, has no room behind
      the bytes stored so far. */
  predicate Overruns(s: Session, g: Segment) {
    |g.payload| > 0 && BufferAvailable(s, g.header + |g.payload|) && s.written + |g.payload| > |s.buffer|
  }

  ghost predicate FromStream(e: Event, stream: seq<U8>, isn: U32) {
    e.Arrive? ==> CutFrom(e.g, stream, isn)
  }

  ghost predicate Fails(s: Session, e: Event)
    requires Enabled(s, e)
  {
    (e.Arrive? && Judge(s, e.g) == Accept && Overruns(s, e.g)) ||
    (e.Recheck? && Judge(s, s.waiting[e.i]) == Accept && Overruns(s, s.waiting[e.i]))
  }

  lemma WaitingKeeps(s: Session, waiting: seq<Segment>, stream: seq<U8>, isn: U32)
    requires s.established && Inv(s, stream, isn) && forall i :: 0 <= i < |waiting| ==> CutFrom(waiting[i], stream, isn)
    ensures Inv(s.(waiting := waiting), stream, isn)
  {
    hide CutFrom;
  }

  lemma RecheckKeeps(s: Session, i: nat, stream: seq<U8>, isn: U32)
    requires Inv(s, stream, isn) && Enabled(s, Recheck(i)) && |stream| < TWO32
    ensures Step(s, Recheck(i)).Panic? <==> Fails(s, Recheck(i))
    ensures Step(s, Recheck(i)).Ok? ==> Inv(Step(s, Recheck(i)).value, stream, isn)
  {
    var g, rest := s.waiting[i], s.waiting[..i] + s.waiting[i + 1..];
    assert CutFrom(g, stream, isn) && forall j :: 0 <= j < |rest| ==> CutFrom(rest[j], stream, isn) by {
      hide CutFrom;
      assert forall j :: 0 <= j < |rest| ==> rest[j] == s.waiting[if j < i then j else j + 1];
    }
    WaitingKeeps(s, rest, stream, isn);
    hide Inv, CutFrom, Process;
    assert Judge(s.(waiting := rest), g) == Judge(s, g);
    if Judge(s, g) == Accept {
      ProcessKeeps(s.(waiting := rest), g, stream, isn);
    }
  }

  lemma ArriveKeeps(s: Session, g: Segment, stream: seq<U8>, isn: U32)
    requires Inv(s, stream, isn) && s.established && CutFrom(g, stream, isn) && |stream| < TWO32
    ensures Step(s, Arrive(g)).Panic? <==> Fails(s, Arrive(g))
    ensures Step(s, Arrive(g)).Ok? ==> Inv(Step(s, Arrive(g)).value, stream, isn)
  {
    assert forall j :: 0 <= j < |s.waiting + [g]| ==> CutFrom((s.waiting + [g])[j], stream, isn) by {
      hide CutFrom;
    }
    WaitingKeeps(s, s.waiting + [g], stream, isn);
    hide Inv, CutFrom, Process;
    if Judge(s, g) == Accept {
      ProcessKeeps(s, g, stream, isn);
    }
  }

  /** Every step keeps the invariant, and the buffer's assertion fails exactly when a segment that is in order,
      in the window and within the advertised window size no longer fits behind the stored bytes. */
  lemma StepKeeps(s: Session, e: Event, stream: seq<U8>, isn: U32)
    requires Inv(s, stream, isn) && Enabled(s, e) && FromStream(e, stream, isn) && |stream| < TWO32
    ensures Step(s, e).Panic? <==> Fails(s, e)
    ensures Step(s, e).Ok? ==> Inv(Step(s, e).value, stream, isn)
  {
    hide CutFrom;
    match e
    case Arrive(g) => ArriveKeeps(s, g, stream, isn);
    case Recheck(i) => RecheckKeeps(s, i, stream, isn);
    case ReceiveBegin =>
    case ReceiveEnd(_) =>
  }

  ghost predicate IsRun(ss: seq<Session>, es: seq<Event>, stream: seq<U8>, isn: U32) {
    |ss| == |es| + 1 && ss[0].buffer == seq(MAX_WINDOW_SIZE, _ => 0) && ss[0] == Opened(ss[0].buffer, isn) &&
    forall i :: 0 <= i < |es| ==>
      Enabled(ss[i], es[i]) && FromStream(es[i], stream, isn) && Step(ss[i], es[i]) == Ok(ss[i + 1])
  }

  lemma {:induction false} RunKeeps(ss: seq<Session>, es: seq<Event>, stream: seq<U8>, isn: U32, i: nat)
    requires IsRun(ss, es, stream, isn) && |stream| < TWO32 && i < |ss|
    ensures Inv(ss[i], stream, isn)
  {
    if i > 0 {
      RunKeeps(ss, es, stream, isn, i - 1);
      StepKeeps(ss[i - 1], es[i - 1], stream, isn);
    } else {
      assert ss[0].buffer[..0] == stream[..0];
    }
  }

  /** In-order delivery: at every point of every run, for as long as the session is ESTABLISHED, the stored
      bytes are a prefix of the stream, the expected sequence number is the end of that prefix, and the
      advertised window is what the buffer size, the stored and the consumed bytes say, with no underflow. */
  lemma StoredIsPrefix(ss: seq<Session>, es: seq<Event>, stream: seq<U8>, isn: U32, i: nat)
    requires IsRun(ss, es, stream, isn) && |stream| < TWO32 && i < |ss| && ss[i].established
    ensures var s := ss[i];
            s.written <= |s.buffer| && s.written <= |stream| && s.buffer[..s.written] == stream[..s.written] &&
            s.remoteSeq == (isn + s.written) % TWO32 &&
            s.consumed <= s.written && s.window == MAX_WINDOW_SIZE - s.written + s.consumed && s.window <= MAX_WINDOW_SIZE
  {
    RunKeeps(ss, es, stream, isn, i);
  }

  /** What a receive call returns is the stretch of the stream that was stored while it waited. */
  lemma ReceivedIsSlice(ss: seq<Session>, es: seq<Event>, stream: seq<U8>, isn: U32, i: nat)
    requires IsRun(ss, es, stream, isn) && |stream| < TWO32 && i < |es| && es[i].ReceiveEnd?
    ensures var s := ss[i];
            s.start <= s.written <= |s.buffer| && s.written <= |stream| && Received(s) == stream[s.start..s.written]
  {
    RunKeeps(ss, es, stream, isn, i);
    var s := ss[i];
    assert Enabled(s, es[i]);
    assert s.buffer[s.start..s.written] == s.buffer[..s.written][s.start..];
    assert stream[s.start..s.written] == stream[..s.written][s.start..];
  }

  /** A stream that fits the buffer is never refused by the buffer's assertion, in whatever order its segments come. */
  lemma ShortStreamNeverFails(ss: seq<Session>, es: seq<Event>, stream: seq<U8>, isn: U32, e: Event)
    requires IsRun(ss, es, stream, isn) && |stream| <= MAX_WINDOW_SIZE
    requires Enabled(ss[|es|], e) && FromStream(e, stream, isn)
    ensures Step(ss[|es|], e).Ok?
  {
    RunKeeps(ss, es, stream, isn, |es|);
    var s := ss[|es|];
    StepKeeps(s, e, stream, isn);
    if e.Arrive? || e.Recheck? {
      var g := if e.Arrive? then e.g else s.waiting[e.i];
      var o: nat :| CutAt(g, stream, isn, o);
      WindowMeaning(s, g, stream, isn, o);
    }
  }

  /** The bytes from offset o on as one segment with a minimal header. */
  function Cut(stream: seq<U8>, isn: U32, o: nat, n: nat): Segment
    requires o + n <= |stream|
  {
    Segment((isn + o) % TWO32, stream[o..o + n], 20, false, false)
  }

  // ---- Which in-order segments are stored ----

  /** In every reachable state: a segment that starts where the stored bytes end and lies in the advertised window is
      stored exactly when the window has room for its header as well and the buffer for its payload. Without room for
      the header it is passed over, and nothing but its flags has any effect. */
  lemma InOrderStored(ss: seq<Session>, es: seq<Event>, stream: seq<U8>, isn: U32, g: Segment)
    requires IsRun(ss, es, stream, isn) && |stream| < TWO32 && ss[|es|].established
    requires CutAt(g, stream, isn, ss[|es|].written) && 0 < |g.payload| <= ss[|es|].window
    ensures var s, n := ss[|es|], |g.payload|; var r := Step(s, Arrive(g));
      (r.Panic? <==> g.header + n <= s.window && s.written + n > MAX_WINDOW_SIZE) &&
      ((r.Ok? && r.value.written == s.written + n && r.value.buffer[..s.written + n] == stream[..s.written + n]) <==>
       g.header + n <= s.window && s.written + n <= MAX_WINDOW_SIZE) &&
      (g.header + n > s.window ==> r == Ok(s.(established := !g.rst && !g.fin)))
  {
    var s, n := ss[|es|], |g.payload|;
    RunKeeps(ss, es, stream, isn, |es|);
    WindowMeaning(s, g, stream, isn, s.written);
    assert CutFrom(g, stream, isn);
    if g.header + n <= s.window && s.written + n <= MAX_WINDOW_SIZE {
      StorePrefix(s, g, stream, isn);
      var b := HandleData(s, g).value.buffer;
      assert b[..s.written + n] == s.buffer[..s.written] + g.payload == stream[..s.written + n];
    }
  }

  /** A sender that fills the window with its first segment is never heard: the segment is passed over each time. */
  lemma FullWindowPassedOver(stream: seq<U8>, isn: U32) returns (ss: seq<Session>, es: seq<Event>)
    requires MAX_WINDOW_SIZE <= |stream| < TWO32
    ensures IsRun(ss, es, stream, isn) && es == [Arrive(Cut(stream, isn, 0, MAX_WINDOW_SIZE))]
    ensures ss[0].window == MAX_WINDOW_SIZE && ss[1] == ss[0] && ss[1].written == 0
  {
    var g := Cut(stream, isn, 0, MAX_WINDOW_SIZE);
    assert CutAt(g, stream, isn, 0);
    var s0 := Opened(seq(MAX_WINDOW_SIZE, _ => 0), isn);
    es, ss := [Arrive(g)], [s0, s0];
  }

  /** Every longer stream can run into it: the consumed bytes widen the window but free no room in the buffer. */
  lemma LongStreamCanFail(stream: seq<U8>, isn: U32) returns (ss: seq<Session>, es: seq<Event>, e: Event)
    requires MAX_WINDOW_SIZE < |stream| < TWO32
    ensures IsRun(ss, es, stream, isn) && Enabled(ss[|es|], e) && FromStream(e, stream, isn)
    ensures Step(ss[|es|], e).Panic?
  {
    var g1, g2 := Cut(stream, isn, 0, 4001), Cut(stream, isn, 4001, 4000);
    assert CutAt(g1, stream, isn, 0) && CutAt(g2, stream, isn, 4001);
    es, e := [ReceiveBegin, Arrive(g1), ReceiveEnd(4001)], Arrive(g2);
    var s0 := Opened(seq(MAX_WINDOW_SIZE, _ => 0), isn);
    var s1 := s0.(start := 0, reading := true);
    assert IsRun([s0, s1], [ReceiveBegin], stream, isn);
    InOrderStored([s0, s1], [ReceiveBegin], stream, isn, g1);
    var s2 := Step(s1, Arrive(g1)).value;
    StoredFields(s1, g1);
    hide CutFrom, HandleData, Process, Judge;
    var s3 := s2.(reading := false, window := MAX_WINDOW_SIZE, consumed := 4001);
    ss := [s0, s1, s2, s3];
    assert IsRun(ss, es, stream, isn);
    InOrderStored(ss, es, stream, isn, g2);
  }

  /** What a segment that is stored leaves alone. */
  lemma StoredFields(s: Session, g: Segment)
    requires s.established && Step(s, Arrive(g)).Ok? && Step(s, Arrive(g)).value.written > s.written
    ensures var t := Step(s, Arrive(g)).value;
      t.established == (!g.rst && !g.fin) && t.start == s.start && t.reading == s.reading && t.consumed == s.consumed &&
      t.waiting == s.waiting && t.window == s.window - |g.payload|
  {
  }

  // ---- The session object ----

  class TcpSession {
    var established: bool
    const buffer: array<U8>
    var start: nat
    var written: nat
    var remoteSeq: U32
    var window: nat
    ghost var waiting: seq<Segment>
    ghost var reading: bool
    ghost var consumed: nat

    ghost function View(): Session
      reads this, buffer
    {
      Session(established, buffer[..], start, written, remoteSeq, window, waiting, reading, consumed)
    }

    constructor (isn: U32)
      ensures View() == Opened(seq(MAX_WINDOW_SIZE, _ => 0), isn) && fresh(buffer)
    {
      buffer := new U8[MAX_WINDOW_SIZE](_ => 0);
      established, start, written, remoteSeq, window := true, 0, 0, isn, MAX_WINDOW_SIZE;
      waiting, reading, consumed := [], false, 0;
      new;
      assert buffer[..] == seq(MAX_WINDOW_SIZE, _ => 0);
    }

    /** TCPSession::handle_data */
    method StoreData(g: Segment) returns (ok: bool)
      modifies this, buffer
      ensures ok == old(HandleData(View(), g)).Ok?
      ensures ok ==> old(HandleData(View(), g)) == Ok(View())
    {
      var n := |g.payload|;
      if window < g.header + n {
        return true;
      }
      if written + n > buffer.Length {
        return false;
      }
      ghost var before := buffer[..];
      forall i | 0 <= i < n {
        buffer[written + i] := g.payload[i];
      }
      assert buffer[..] == before[..written] + g.payload + before[written + n..];
      written := written + n;
      remoteSeq := (remoteSeq + n) % TWO32;
      window := window - n;
      return true;
    }

    /** One look at the condition of handle_out_of_order_packets */
    method Look(g: Segment) returns (v: Verdict)
      ensures v == Judge(View(), g)
    {
      var inOrder := remoteSeq == g.seqNo;
      var inWindow := (|g.payload| + g.seqNo - remoteSeq) % TWO32 <= window;
      if !inOrder && inWindow {
        return Wait;
      }
      return if inWindow then Accept else Drop;
    }

    /** TCPSession::handle of a segment just arrived, up to the point where it is stored, dropped or waits */
    method Handle(g: Segment) returns (ok: bool)
      requires Enabled(View(), Arrive(g))
      modifies this, buffer
      ensures ok == old(Step(View(), Arrive(g))).Ok?
      ensures ok ==> old(Step(View(), Arrive(g))) == Ok(View())
    {
      var verdict := Look(g);
      ok := true;
      match verdict {
        case Wait => waiting := waiting + [g];
        case Drop =>
        case Accept =>
          if |g.payload| > 0 {
            ok := StoreData(g);
          }
          if ok {
            established := !g.rst && !g.fin;
          }
      }
    }

    /** The handler of a waiting segment looks again after a wake-up */
    method Resume(ghost i: nat, g: Segment) returns (ok: bool)
      requires Enabled(View(), Recheck(i)) && g == waiting[i]
      modifies this, buffer
      ensures ok == old(Step(View(), Recheck(i))).Ok?
      ensures ok ==> old(Step(View(), Recheck(i))) == Ok(View())
    {
      var verdict := Look(g);
      ok := true;
      match verdict {
        case Wait =>
        case Drop => waiting := waiting[..i] + waiting[i + 1..];
        case Accept =>
          waiting := waiting[..i] + waiting[i + 1..];
          if |g.payload| > 0 {
            ok := StoreData(g);
          }
          if ok {
            established := !g.rst && !g.fin;
          }
      }
    }

    /** TCPSession::receive up to where it waits for a push */
    method BeginReceive()
      requires Enabled(View(), ReceiveBegin)
      modifies this
      ensures old(Step(View(), ReceiveBegin)) == Ok(View())
    {
      start := written;
      reading := true;
    }

    /** TCPSession::receive from where it resumes; None is ERROR_BUFFER_OVERFLOW */
    method EndReceive(capacity: nat) returns (data: Option<seq<U8>>)
      requires Enabled(View(), ReceiveEnd(capacity)) && written <= buffer.Length
      modifies this
      ensures old(Step(View(), ReceiveEnd(capacity))) == Ok(View())
      ensures data == if written - start > capacity then None else Some(old(Received(View())))
    {
      var n := written - start;
      reading := false;
      if n > capacity {
        return None;
      }
      window := window + n;
      consumed := consumed + n;
      return Some(buffer[start..written]);
    }
  }
}
