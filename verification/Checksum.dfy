/** The Internet checksum of sections 1 and 2 of RFC 1071, and its use over the TCP pseudo header
    of section 3.1 of RFC 793. */
module Checksums {
  import opened Common

  type U8 = b: int | 0 <= b < 0x100
  type U16 = w: int | 0 <= w < 0x1_0000
  type U32 = w: int | 0 <= w < 0x1_0000_0000

  const MAX16: nat := 0xFFFF

  /** ((value & 0xFF00) >> 8) | ((value & 0xFF) << 8) */
  function ToBigEndian16(value: nat): U16 {
    value / 256 % 256 + value % 256 * 256
  }

  lemma SwapTwice(w: U16)
    ensures ToBigEndian16(ToBigEndian16(w)) == w
  {
    var hi, lo := w / 256, w % 256;
    var swapped := 256 * lo + hi;
    assert ToBigEndian16(w) == swapped;
    assert swapped / 256 == lo && swapped % 256 == hi;
  }

  /** A 16-bit load from a byte buffer on this little-endian machine. */
  function Load16(data: seq<U8>, i: nat): U16
    requires 2 * i + 1 < |data|
  {
    data[2 * i] as int + 256 * data[2 * i + 1] as int
  }

  /** The word as the network counts it. */
  function Word(data: seq<U8>, i: nat): U16
    requires 2 * i + 1 < |data|
  {
    256 * data[2 * i] as int + data[2 * i + 1] as int
  }

  lemma LoadedWord(data: seq<U8>, i: nat)
    requires 2 * i + 1 < |data|
    ensures ToBigEndian16(Load16(data, i)) == Word(data, i)
  {
    assert Load16(data, i) / 256 == data[2 * i + 1] && Load16(data, i) % 256 == data[2 * i];
  }

  function WordSum(data: seq<U8>): nat {
    if |data| < 2 then 0 else Word(data, 0) + WordSum(data[2..])
  }

  /** The one's-complement sum of 16-bit words, as a number from 0 to 0xFFFF: congruent to s modulo
      0xFFFF, and 0 only for 0. */
  function Fold(s: nat): U16 {
    if s == 0 then 0 else (s - 1) % MAX16 + 1
  }

  function ChecksumOf(sum: nat): U16 { ToBigEndian16(MAX16 - Fold(sum)) }

  lemma {:induction false} FoldShift(s: nat, k: nat)
    requires s > 0
    ensures Fold(s + k * MAX16) == Fold(s)
  {
    if k > 0 {
      FoldShift(s, k - 1);
      assert s + k * MAX16 - 1 == (s + (k - 1) * MAX16 - 1) + MAX16;
      assert ((s + (k - 1) * MAX16 - 1) + MAX16) % MAX16 == (s + (k - 1) * MAX16 - 1) % MAX16;
    }
  }

  /** Adding the carries back in does not change the one's-complement sum. */
  lemma FoldCarry(s: nat)
    requires s > MAX16
    ensures s % 0x1_0000 + s / 0x1_0000 < s
    ensures Fold(s % 0x1_0000 + s / 0x1_0000) == Fold(s)
  {
    var hi, lo := s / 0x1_0000, s % 0x1_0000;
    assert s == (lo + hi) + hi * MAX16;
    FoldShift(lo + hi, hi);
  }

  lemma {:induction false} SumBound(data: seq<U8>)
    ensures WordSum(data) <= |data| / 2 * MAX16
  {
    if |data| >= 2 {
      SumBound(data[2..]);
    }
  }

  /** At most 65537 words never overflow the 32-bit sum; the bound is exact. */
  lemma NoOverflow(data: seq<U8>)
    requires |data| / 2 <= 65537
    ensures WordSum(data) < TWO32
  {
    SumBound(data);
  }

  lemma {:induction false} AllOnes(n: nat)
    ensures WordSum(seq(2 * n, _ => 0xFF)) == n * MAX16
  {
    var data := seq(2 * n, _ => 0xFF);
    if n > 0 {
      AllOnes(n - 1);
      assert data[2..] == seq(2 * (n - 1), _ => 0xFF);
    }
  }

  lemma OneMoreOverflows()
    ensures WordSum(seq(2 * 65538, _ => 0xFF)) >= TWO32
  {
    AllOnes(65538);
  }

  /** The accumulation loop, in 32 bits. */
  method AddWords(data: seq<U8>, start: U32) returns (sum: U32)
    requires |data| % 2 == 0
    ensures sum == (start + WordSum(data)) % TWO32
  {
    sum := start;
    var i, n := 0, |data| / 2;
    while i < n
      invariant 0 <= i <= n
      invariant (sum + WordSum(data[2 * i..])) % TWO32 == (start + WordSum(data)) % TWO32
    {
      LoadedWord(data, i);
      ghost var tail := data[2 * i..];
      assert tail[2..] == data[2 * (i + 1)..] && Word(tail, 0) == Word(data, i);
      ghost var rest := WordSum(data[2 * (i + 1)..]);
      assert sum + WordSum(tail) == (sum + Word(data, i)) + rest;
      AddModulo(sum + Word(data, i), rest);
      sum := (sum + ToBigEndian16(Load16(data, i))) % TWO32;
      i := i + 1;
    }
    assert data[2 * i..] == [];
  }

  lemma AddModulo(a: nat, b: nat)
    ensures (a % TWO32 + b) % TWO32 == (a + b) % TWO32
  {
    var q := a / TWO32;
    assert a + b == (a % TWO32 + b) + q * TWO32;
    ModuloShift(a % TWO32 + b, q);
  }

  lemma {:induction false} ModuloShift(a: nat, q: nat)
    ensures (a + q * TWO32) % TWO32 == a % TWO32
  {
    if q > 0 {
      ModuloShift(a, q - 1);
      assert a + q * TWO32 == (a + (q - 1) * TWO32) + TWO32;
    }
  }

  /** The folding loop and the final complement. */
  method Finish(start: U32) returns (r: U16)
    ensures r == ChecksumOf(start)
  {
    var sum: nat := start;
    while sum > MAX16
      invariant Fold(sum) == Fold(start)
    {
      FoldCarry(sum);
      sum := sum % 0x1_0000 + sum / 0x1_0000;
    }
    assert Fold(sum) == sum;
    return ToBigEndian16(MAX16 - sum);
  }

  /** The bytes that are read as words: an odd last byte is read together with the byte that follows it in memory. */
  function Padded(data: seq<U8>, behind: U8): (r: seq<U8>)
    ensures |r| % 2 == 0 && data <= r
  {
    if |data| % 2 == 0 then data else data + [behind]
  }

  /** checksum of network_algorithms.cpp; `behind` is the byte in memory after the buffer. */
  method Checksum(data: seq<U8>, behind: U8) returns (r: U16)
    ensures r == ChecksumOf(WordSum(Padded(data, behind)) % TWO32)
  {
    var sum := AddWords(Padded(data, behind), 0);
    r := Finish(sum);
  }

  /** For an odd length RFC 1071 counts a zero byte behind the last one. The code's answer is that one exactly when
      the byte in memory is zero. */
  lemma OddIsStandardIff(data: seq<U8>, behind: U8)
    requires |data| % 2 == 1
    ensures ChecksumOf(WordSum(Padded(data, behind))) == ChecksumOf(WordSum(Padded(data, 0))) <==> behind == 0
  {
    hide WordSum, ToBigEndian16, Fold;
    var k := |data| / 2;
    assert Padded(data, behind) == Store16(Padded(data, 0), k, data[|data| - 1] as int + 256 * behind as int);
    SumStore(Padded(data, 0), k, data[|data| - 1] as int + 256 * behind as int);
    LastWord(data[|data| - 1], behind);
    var sum := WordSum(Padded(data, 0));
    FoldMore(sum, behind);
    SwapTwice(MAX16 - Fold(sum));
    SwapTwice(MAX16 - Fold(sum + behind));
  }

  lemma LastWord(x: U8, b: U8)
    ensures ToBigEndian16(x as int + 256 * b as int) == 256 * x as int + b as int
  {
  }

  lemma FoldMore(sum: nat, b: U8)
    ensures Fold(sum + b) == Fold(sum) <==> b == 0
  {
    if sum > 0 {
      Residue(sum - 1, b);
    }
  }

  lemma Residue(a: nat, b: U8)
    ensures (a + b) % MAX16 == a % MAX16 <==> b == 0
  {
    var q, r := a / MAX16, (a + b) / MAX16;
    if (a + b) % MAX16 == a % MAX16 {
      assert b == (r - q) * MAX16;
    }
  }

  // ---- TCP ----

  type Ip = ip: seq<U8> | |ip| == 4 witness [0, 0, 0, 0]

  const TCP_PROTOCOL: U8 := 6

  /** The pseudo header in memory: the length field holds the byte-swapped length. */
  function PseudoHeader(local: Ip, remote: Ip, size: nat): (r: seq<U8>)
    ensures |r| == 12
  {
    local + remote + [0, TCP_PROTOCOL, ToBigEndian16(size) % 256, ToBigEndian16(size) / 256]
  }

  function TcpSum(local: Ip, remote: Ip, segment: seq<U8>, behind: U8): nat {
    WordSum(Padded(segment, behind)) + WordSum(PseudoHeader(local, remote, |segment|))
  }

  /** Two bytes in network order. */
  function Pair(a: U8, b: U8): nat { 0x100 * (a as int) + b as int }

  /** What is summed: the words of the segment and of both addresses, the protocol number 6 and the segment's length,
      which is a 16-bit field. */
  lemma TcpSumExact(local: Ip, remote: Ip, segment: seq<U8>, behind: U8)
    ensures TcpSum(local, remote, segment, behind) ==
      WordSum(if |segment| % 2 == 0 then segment else segment + [behind]) +
      Pair(local[0], local[1]) + Pair(local[2], local[3]) + Pair(remote[0], remote[1]) + Pair(remote[2], remote[3]) +
      6 + |segment| % 0x1_0000
  {
    hide WordSum, ToBigEndian16;
    PseudoSum(local, remote, |segment|);
    TwoWords(local);
    TwoWords(remote);
    TwoWords([0, TCP_PROTOCOL, ToBigEndian16(|segment|) % 256, ToBigEndian16(|segment|) / 256]);
    LengthField(|segment|);
  }

  lemma TwoWords(d: seq<U8>)
    requires |d| == 4
    ensures WordSum(d) == Pair(d[0], d[1]) + Pair(d[2], d[3])
  {
    assert WordSum(d) == Word(d, 0) + WordSum(d[2..]);
    assert WordSum(d[2..]) == Word(d[2..], 0) + WordSum(d[2..][2..]);
  }

  lemma LengthField(size: nat)
    ensures Pair(ToBigEndian16(size) % 256, ToBigEndian16(size) / 256) == size % 0x1_0000
  {
    var hi, lo := size / 256 % 256, size % 256;
    var swapped := 256 * lo + hi;
    assert ToBigEndian16(size) == swapped && swapped % 256 == hi && swapped / 256 == lo;
  }

  /** TCPSession::tcp_checksum; `behind` is the byte in memory after the segment. */
  method TcpChecksum(local: Ip, remote: Ip, segment: seq<U8>, behind: U8) returns (r: U16)
    ensures r == ChecksumOf(TcpSum(local, remote, segment, behind) % TWO32)
  {
    var sum := AddWords(Padded(segment, behind), 0);
    AddModulo(WordSum(Padded(segment, behind)), WordSum(PseudoHeader(local, remote, |segment|)));
    sum := AddWords(PseudoHeader(local, remote, |segment|), sum);
    r := Finish(sum);
  }

  /** Sender and receiver name the two addresses in opposite order; the sum is the same. */
  lemma SwappedAddresses(local: Ip, remote: Ip, segment: seq<U8>, behind: U8)
    ensures TcpSum(local, remote, segment, behind) == TcpSum(remote, local, segment, behind)
  {
    hide WordSum;
    PseudoSum(local, remote, |segment|);
    PseudoSum(remote, local, |segment|);
  }

  lemma PseudoSum(a: Ip, b: Ip, size: nat)
    ensures var tail := [0, TCP_PROTOCOL, ToBigEndian16(size) % 256, ToBigEndian16(size) / 256];
            WordSum(PseudoHeader(a, b, size)) == WordSum(a) + WordSum(b) + WordSum(tail)
  {
    var tail := [0, TCP_PROTOCOL, ToBigEndian16(size) % 256, ToBigEndian16(size) / 256];
    assert PseudoHeader(a, b, size) == a + (b + tail);
    SumAppend(a, b + tail);
    SumAppend(b, tail);
  }

  lemma {:induction false} SumAppend(a: seq<U8>, b: seq<U8>)
    requires |a| % 2 == 0
    ensures WordSum(a + b) == WordSum(a) + WordSum(b)
  {
    if a == [] {
      assert a + b == b;
    } else {
      SumAppend(a[2..], b);
      assert (a + b)[2..] == a[2..] + b;
    }
  }

  // ---- Filling in and checking ----

  /** Storing a 16-bit value at word k of the buffer. */
  function Store16(data: seq<U8>, k: nat, value: U16): (r: seq<U8>)
    requires 2 * k + 1 < |data|
    ensures |r| == |data|
  {
    data[2 * k := value % 256][2 * k + 1 := value / 256]
  }

  lemma {:induction false} SumStore(data: seq<U8>, k: nat, value: U16)
    requires 2 * k + 1 < |data|
    ensures WordSum(Store16(data, k, value)) == WordSum(data) - Word(data, k) + ToBigEndian16(value)
    ensures WordSum(data) >= Word(data, k)
  {
    var r := Store16(data, k, value);
    if k == 0 {
      assert r[2..] == data[2..];
    } else {
      SumStore(data[2..], k - 1, value);
      assert r[2..] == Store16(data[2..], k - 1, value);
      assert Word(data[2..], k - 1) == Word(data, k);
    }
  }

  lemma ZeroChecksum(sum: nat)
    ensures ChecksumOf(sum) == 0 <==> sum > 0 && sum % MAX16 == 0
  {
    var f := Fold(sum);
    assert ToBigEndian16(MAX16 - f) == 0 <==> f == MAX16 by {
      SwapTwice(MAX16 - f);
    }
    if sum > 0 {
      assert sum % MAX16 == 0 <==> (sum - 1) % MAX16 == MAX16 - 1;
    }
  }

  /** Writing the checksum over a zeroed field makes the check give 0; `other` is what the pseudo header
      adds on both sides, 0 when there is none. */
  lemma FillThenCheck(data: seq<U8>, k: nat, other: nat)
    requires 2 * k + 1 < |data| && Word(data, k) == 0
    ensures ChecksumOf(WordSum(Store16(data, k, ChecksumOf(WordSum(data) + other))) + other) == 0
  {
    hide WordSum, ToBigEndian16, Fold;
    var sum := WordSum(data) + other;
    var c := ChecksumOf(sum);
    SumStore(data, k, c);
    SwapTwice(MAX16 - Fold(sum));
    var total := WordSum(Store16(data, k, c)) + other;
    assert total == sum + MAX16 - Fold(sum);
    if sum > 0 {
      FoldCongruent(sum);
    } else {
      assert Fold(0) == 0 by {
        FoldZero();
      }
    }
    ZeroChecksum(total);
  }

  lemma FoldZero()
    ensures Fold(0) == 0
  {
  }

  lemma FoldCongruent(sum: nat)
    requires sum > 0
    ensures sum >= Fold(sum) && (sum - Fold(sum)) % MAX16 == 0 && (sum + MAX16 - Fold(sum)) % MAX16 == 0
  {
    var q := (sum - 1) / MAX16;
    assert sum - Fold(sum) == q * MAX16;
    Multiple(q);
    Multiple(q + 1);
  }

  lemma {:induction false} Multiple(q: nat)
    ensures q * MAX16 % MAX16 == 0
  {
    if q > 0 {
      Multiple(q - 1);
      assert q * MAX16 == (q - 1) * MAX16 + MAX16;
    }
  }

  /** The two representations of zero in one's complement. */
  predicate SameWord(a: U16, b: U16) {
    a == b || (a == 0 && b == MAX16) || (a == MAX16 && b == 0)
  }

  /** A message that checks to 0 still does after one word is replaced if and only if the new word is the old
      one, or one of 0x0000 and 0xFFFF took the other's place and some word of the sum is still not zero. */
  lemma OneWordChanged(data: seq<U8>, k: nat, value: U16, other: nat)
    requires 2 * k + 1 < |data| && ChecksumOf(WordSum(data) + other) == 0
    ensures var total := WordSum(Store16(data, k, value)) + other;
            ChecksumOf(total) == 0 <==> SameWord(Word(data, k), ToBigEndian16(value)) && total > 0
  {
    hide *;
    SumStore(data, k, value);
    ZeroChecksum(WordSum(data) + other);
    ZeroChecksum(WordSum(Store16(data, k, value)) + other);
    Residues(WordSum(data) + other, Word(data, k), ToBigEndian16(value));
  }

  lemma Residues(sum: nat, a: U16, b: U16)
    requires sum % MAX16 == 0 && sum >= a
    ensures (sum - a + b) % MAX16 == 0 <==> SameWord(a, b)
  {
    var q := sum / MAX16;
    assert sum == q * MAX16;
    var d := b - a;
    if d >= 0 {
      Shift(q, d);
    } else if q > 0 {
      assert sum - a + b == (q - 1) * MAX16 + (MAX16 + d);
      Shift(q - 1, MAX16 + d);
    }
  }

  lemma {:induction false} Shift(q: nat, d: nat)
    ensures (q * MAX16 + d) % MAX16 == d % MAX16
  {
    if q > 0 {
      Shift(q - 1, d);
      assert q * MAX16 + d == ((q - 1) * MAX16 + d) + MAX16;
    }
  }

  /** End to end: a segment of at most 65531 words whose checksum field the sender filled passes the receiver's check,
      whose two addresses are the sender's swapped, exactly when its length is even or the byte that the receiver
      finds in memory behind it is the one that the sender found. */
  lemma SegmentAccepted(local: Ip, remote: Ip, segment: seq<U8>, k: nat, sent: U8, got: U8)
    requires (|segment| + 1) / 2 + 6 <= 65537 && 2 * k + 1 < |segment| && Word(segment, k) == 0
    ensures var filled := Store16(segment, k, ChecksumOf(TcpSum(local, remote, segment, sent) % TWO32));
            ChecksumOf(TcpSum(remote, local, filled, got) % TWO32) == 0 <==> |segment| % 2 == 0 || sent == got
  {
    hide ChecksumOf, WordSum, PseudoHeader, Store16, Padded, Word;
    var pseudo := WordSum(PseudoHeader(local, remote, |segment|));
    var padded := Padded(segment, sent);
    PaddedField(segment, k, sent);
    SumFits(local, remote, segment, sent);
    var c := ChecksumOf(WordSum(padded) + pseudo);
    var filled := Store16(segment, k, c);
    SumFits(local, remote, filled, got);
    SwappedAddresses(local, remote, filled, got);
    PaddedStore(segment, k, c, sent);
    FillThenCheck(padded, k, pseudo);
    OtherByte(filled, sent, got, pseudo);
  }

  lemma PaddedField(segment: seq<U8>, k: nat, b: U8)
    requires 2 * k + 1 < |segment|
    ensures 2 * k + 1 < |Padded(segment, b)| && Word(Padded(segment, b), k) == Word(segment, k)
  {
  }

  lemma PaddedStore(segment: seq<U8>, k: nat, c: U16, b: U8)
    requires 2 * k + 1 < |segment|
    ensures Padded(Store16(segment, k, c), b) == Store16(Padded(segment, b), k, c)
  {
  }

  lemma SumFits(local: Ip, remote: Ip, segment: seq<U8>, b: U8)
    requires (|segment| + 1) / 2 + 6 <= 65537
    ensures TcpSum(local, remote, segment, b) < TWO32
  {
    hide WordSum;
    SumBound(Padded(segment, b));
    SumBound(PseudoHeader(local, remote, |segment|));
  }

  /** A message that checks to 0 with one byte behind it does so with another one only if the length is even. */
  lemma OtherByte(data: seq<U8>, sent: U8, got: U8, other: nat)
    requires ChecksumOf(WordSum(Padded(data, sent)) + other) == 0
    ensures ChecksumOf(WordSum(Padded(data, got)) + other) == 0 <==> |data| % 2 == 0 || sent == got
  {
    hide WordSum, ToBigEndian16, Fold, ChecksumOf;
    if |data| % 2 == 1 && sent != got {
      var k, x := |data| / 2, data[|data| - 1];
      var value := x as int + 256 * got as int;
      assert Padded(data, got) == Store16(Padded(data, sent), k, value);
      LastWord(x, got);
      OneWordChanged(Padded(data, sent), k, value, other);
    }
  }
}
