/** Bits of a byte array, and the kernel's bitmaps: a search that skips full bytes against a plain
    scan of the bits. */
module Bitmaps {
  import opened Common

  /** 1 << k */
  function Mask(k: nat): bv8
    requires k < 8
  {
    match k
    case 0 => 0x01 case 1 => 0x02 case 2 => 0x04 case 3 => 0x08
    case 4 => 0x10 case 5 => 0x20 case 6 => 0x40 case _ => 0x80
  }

  predicate Bit(b: bv8, k: nat)
    requires k < 8
  {
    b & Mask(k) != 0
  }

  lemma SetBit(b: bv8, k: nat, j: nat)
    requires k < 8 && j < 8
    ensures Bit(b | Mask(k), j) <==> j == k || Bit(b, j)
  {
  }

  lemma ClearBit(b: bv8, k: nat, j: nat)
    requires k < 8 && j < 8
    ensures Bit(b & !Mask(k), j) <==> j != k && Bit(b, j)
  {
  }

  lemma FullByte(b: bv8)
    ensures b == 0xFF <==> forall k :: 0 <= k < 8 ==> Bit(b, k)
  {
    if forall k :: 0 <= k < 8 ==> Bit(b, k) {
      assert Bit(b, 0) && Bit(b, 1) && Bit(b, 2) && Bit(b, 3) && Bit(b, 4) && Bit(b, 5) && Bit(b, 6) && Bit(b, 7);
    }
  }

  predicate BitAt(data: seq<bv8>, i: nat)
    requires i / 8 < |data|
  {
    Bit(data[i / 8], i % 8)
  }

  function WithBit(data: seq<bv8>, i: nat, on: bool): (r: seq<bv8>)
    requires i / 8 < |data|
    ensures |r| == |data|
  {
    data[i / 8 := if on then data[i / 8] | Mask(i % 8) else data[i / 8] & !Mask(i % 8)]
  }

  /** Writing one bit changes that bit and no other. */
  lemma WithBitAt(data: seq<bv8>, i: nat, on: bool, j: nat)
    requires i / 8 < |data| && j / 8 < |data|
    ensures BitAt(WithBit(data, i, on), j) == if j == i then on else BitAt(data, j)
  {
    if i / 8 == j / 8 {
      SetBit(data[i / 8], i % 8, j % 8);
      ClearBit(data[i / 8], i % 8, j % 8);
      assert i == 8 * (i / 8) + i % 8 && j == 8 * (j / 8) + j % 8;
    }
  }

  const NO_BITS_LEFT: nat := 0xFFFF_FFFF

  ghost predicate Sized(data: seq<bv8>, size: nat) { |data| == size / 8 + 1 && size < NO_BITS_LEFT }

  /** The plain scan: the first clear bit at or after i. */
  function LinearScan(data: seq<bv8>, size: nat, i: nat): (r: nat)
    requires Sized(data, size)
    ensures r == NO_BITS_LEFT || (i <= r < size && !BitAt(data, r))
    ensures forall j :: i <= j < size && (r == NO_BITS_LEFT || j < r) ==> BitAt(data, j)
    decreases size - i
  {
    if i >= size then NO_BITS_LEFT else if !BitAt(data, i) then i else LinearScan(data, size, i + 1)
  }

  /** What find_first_clear computes: a full byte moves the index on by eight. */
  function SkipScan(data: seq<bv8>, size: nat, i: nat): (r: nat)
    requires Sized(data, size)
    ensures r == NO_BITS_LEFT || (i <= r < size && !BitAt(data, r))
    decreases size - i
  {
    if i >= size then NO_BITS_LEFT
    else if data[i / 8] == 0xFF then SkipScan(data, size, i + 8)
    else if !BitAt(data, i) then i
    else SkipScan(data, size, i + 1)
  }

  /** A stretch of set bits does not change the scan. */
  lemma {:induction false} ScanFrom(data: seq<bv8>, size: nat, i: nat, k: nat)
    requires Sized(data, size) && i <= k
    requires forall j :: i <= j < k && j < size ==> BitAt(data, j)
    ensures LinearScan(data, size, i) == LinearScan(data, size, k)
    decreases k - i
  {
    if i < k && i < size {
      ScanFrom(data, size, i + 1, k);
    }
  }

  lemma FullByteBits(data: seq<bv8>, i: nat)
    requires i / 8 < |data| && data[i / 8] == 0xFF
    ensures forall j :: 8 * (i / 8) <= j < 8 * (i / 8) + 8 ==> BitAt(data, j)
  {
    forall j | 8 * (i / 8) <= j < 8 * (i / 8) + 8
      ensures BitAt(data, j)
    {
      assert j / 8 == i / 8;
      FullByte(data[i / 8]);
    }
  }

  /** From the start of a byte, or inside a byte that is not full, skipping loses nothing. */
  lemma {:induction false} SkipIsExact(data: seq<bv8>, size: nat, i: nat)
    requires Sized(data, size) && (i % 8 == 0 || (i < size && data[i / 8] != 0xFF))
    ensures SkipScan(data, size, i) == LinearScan(data, size, i)
    decreases size - i
  {
    hide Bit, Mask;
    if i < size {
      if data[i / 8] == 0xFF {
        FullByteBits(data, i);
        assert i == 8 * (i / 8);
        ScanFrom(data, size, i, i + 8);
        SkipIsExact(data, size, i + 8);
      } else if BitAt(data, i) {
        if (i + 1) % 8 != 0 {
          assert (i + 1) / 8 == i / 8;
        }
        if i + 1 < size || (i + 1) % 8 == 0 {
          SkipIsExact(data, size, i + 1);
        }
      }
    }
  }

  /** When the search agrees with the plain scan. */
  predicate SkipSafe(data: seq<bv8>, size: nat, start: nat)
    requires Sized(data, size)
  {
    start % 8 == 0 || start >= size || data[start / 8] != 0xFF ||
    LinearScan(data, size, start) == NO_BITS_LEFT || LinearScan(data, size, start) % 8 >= start % 8
  }

  lemma InByte(b: nat, r: nat)
    requires r < 8
    ensures (8 * b + r) / 8 == b && (8 * b + r) % 8 == r
  {
  }

  lemma FoundInByte(data: seq<bv8>, size: nat, b: nat)
    requires Sized(data, size) && b < |data| && data[b] != 0xFF
    ensures LinearScan(data, size, 8 * b) == NO_BITS_LEFT || LinearScan(data, size, 8 * b) < 8 * b + 8
  {
    FullByte(data[b]);
    var k :| 0 <= k < 8 && !Bit(data[b], k);
    InByte(b, k);
    assert 8 * b + k < size ==> !BitAt(data, 8 * b + k);
  }

  lemma SkipInsideByte(data: seq<bv8>, size: nat, b: nat, r: nat)
    requires Sized(data, size) && 0 < r < 8 && 8 * b + r < size && data[b] != 0xFF
    ensures var found := LinearScan(data, size, 8 * b);
            SkipScan(data, size, 8 * b + r) == found <==> found == NO_BITS_LEFT || 8 * b + r <= found
  {
    hide BitAt, LinearScan, SkipScan;
    var found := LinearScan(data, size, 8 * b);
    InByte(b, r);
    SkipIsExact(data, size, 8 * b + r);
    if found == NO_BITS_LEFT || 8 * b + r <= found {
      ScanFrom(data, size, 8 * b, 8 * b + r);
    }
  }

  /** Entering a byte that is not full at offset r misses exactly a clear bit before r. */
  lemma SkipIntoByte(data: seq<bv8>, size: nat, b: nat, r: nat)
    requires Sized(data, size) && 0 < r < 8 && b < |data| && (8 * b + r >= size || data[b] != 0xFF)
    ensures var found := LinearScan(data, size, 8 * b);
            SkipScan(data, size, 8 * b + r) == found <==> found == NO_BITS_LEFT || found % 8 >= r
  {
    hide BitAt, LinearScan;
    var found := LinearScan(data, size, 8 * b);
    if 8 * b + r < size {
      SkipInsideByte(data, size, b, r);
      FoundInByte(data, size, b);
    }
    if found != NO_BITS_LEFT {
      InByte(b, found - 8 * b);
    }
  }

  predicate IsFull(data: seq<bv8>, b: nat) { b < |data| && data[b] == 0xFF }

  /** Where a search from `start` begins to look at single bits: at start's own offset in the first byte, from start's
      on, that is not full, or behind the bitmap. */
  ghost predicate Enters(data: seq<bv8>, size: nat, start: nat, k: nat) {
    start <= k && (k - start) % 8 == 0 && (forall b :: start / 8 <= b < k / 8 ==> IsFull(data, b)) && (k >= size || !IsFull(data, k / 8))
  }

  /** The bit that a search from `start` comes upon. */
  ghost predicate Finds(data: seq<bv8>, size: nat, start: nat, i: nat)
    requires Sized(data, size)
  {
    i < size && !BitAt(data, i) && exists k: nat :: Enters(data, size, start, k) && k <= i && forall j :: k <= j < i ==> BitAt(data, j)
  }

  lemma {:induction false} EntersScan(data: seq<bv8>, size: nat, start: nat, k: nat)
    requires Sized(data, size) && Enters(data, size, start, k)
    ensures SkipScan(data, size, start) == LinearScan(data, size, k)
    decreases k - start
  {
    hide BitAt;
    if k == start {
      if k < size {
        SkipIsExact(data, size, k);
      }
    } else {
      assert IsFull(data, start / 8);
      if start < size {
        EntersScan(data, size, start + 8, k);
      }
    }
  }

  lemma {:induction false} EntersSomewhere(data: seq<bv8>, size: nat, start: nat) returns (k: nat)
    requires Sized(data, size)
    ensures Enters(data, size, start, k)
    decreases size - start
  {
    if start >= size || data[start / 8] != 0xFF {
      k := start;
    } else {
      k := EntersSomewhere(data, size, start + 8);
      forall b | start / 8 <= b < k / 8
        ensures IsFull(data, b)
      {
        assert (start + 8) / 8 == start / 8 + 1;
        assert b == start / 8 || (start + 8) / 8 <= b;
      }
    }
  }

  lemma {:induction false} FullBytes(data: seq<bv8>, size: nat, b: nat, k: nat)
    requires Sized(data, size) && b <= k / 8 && forall x :: b <= x < k / 8 ==> IsFull(data, x)
    ensures LinearScan(data, size, 8 * b) == LinearScan(data, size, 8 * (k / 8))
    decreases k / 8 - b
  {
    hide BitAt, LinearScan;
    if b < k / 8 {
      assert IsFull(data, b);
      FullByteBits(data, 8 * b);
      ScanFrom(data, size, 8 * b, 8 * (b + 1));
      FullBytes(data, size, b + 1, k);
    }
  }

  /** A search that starts at offset r > 0 of a full byte enters every following byte at offset r until
      it meets one that is not full. */
  lemma SkipFromFull(data: seq<bv8>, size: nat, b: nat, r: nat)
    requires Sized(data, size) && 0 < r < 8 && 8 * b + r < size && data[b] == 0xFF
    ensures var found := LinearScan(data, size, 8 * b + r);
            SkipScan(data, size, 8 * b + r) == found <==> found == NO_BITS_LEFT || found % 8 >= r
  {
    hide BitAt, LinearScan, SkipScan;
    InByte(b, r);
    FullByteBits(data, 8 * b + r);
    ScanFrom(data, size, 8 * b, 8 * b + r);
    var k := EntersSomewhere(data, size, 8 * b + r);
    EntersScan(data, size, 8 * b + r, k);
    FullBytes(data, size, b, k);
    EntersAt(b, r, k);
    if k / 8 < |data| {
      SkipIntoByte(data, size, k / 8, r);
      EntersItself(data, size, k);
    } else {
      NothingBehind(data, size, k);
    }
  }

  lemma EntersAt(b: nat, r: nat, k: nat)
    requires 0 < r < 8 && 8 * b + r <= k && (k - (8 * b + r)) % 8 == 0
    ensures k == 8 * (k / 8) + r
  {
  }

  lemma EntersItself(data: seq<bv8>, size: nat, k: nat)
    requires Sized(data, size) && (k >= size || !IsFull(data, k / 8))
    ensures SkipScan(data, size, k) == LinearScan(data, size, k)
  {
    assert Enters(data, size, k, k);
    EntersScan(data, size, k, k);
  }

  lemma NothingBehind(data: seq<bv8>, size: nat, k: nat)
    requires Sized(data, size) && k / 8 >= |data|
    ensures LinearScan(data, size, k) == NO_BITS_LEFT == LinearScan(data, size, 8 * (k / 8))
  {
  }

  /** The search from `start` finds the first clear bit at or after it if and only if `start` is on a
      byte boundary, or its byte has a clear bit, or there is no clear bit, or that bit is not in the part
      of its byte before start's own offset. */
  lemma SkipAgrees(data: seq<bv8>, size: nat, start: nat)
    requires Sized(data, size)
    ensures SkipScan(data, size, start) == LinearScan(data, size, start) <==> SkipSafe(data, size, start)
  {
    if start % 8 == 0 || (start < size && data[start / 8] != 0xFF) {
      SkipIsExact(data, size, start);
    } else if start < size {
      SkipFromFull(data, size, start / 8, start % 8);
    }
  }

  /** What the search gives is exactly the bit it comes upon, if there is one. */
  lemma FindsIff(data: seq<bv8>, size: nat, start: nat, i: nat)
    requires Sized(data, size)
    ensures Finds(data, size, start, i) <==> i < size && SkipScan(data, size, start) == i
  {
    hide BitAt, Enters;
    if Finds(data, size, start, i) {
      var k: nat :| Enters(data, size, start, k) && k <= i && forall j :: k <= j < i ==> BitAt(data, j);
      EntersScan(data, size, start, k);
      ScanFrom(data, size, k, i);
    } else if i < size && SkipScan(data, size, start) == i {
      var k := EntersSomewhere(data, size, start);
      EntersScan(data, size, start, k);
    }
  }

  /** From a start where skipping is safe, that is the first clear bit at or after it. */
  lemma FindsFirst(data: seq<bv8>, size: nat, start: nat, i: nat)
    requires Sized(data, size) && SkipSafe(data, size, start)
    ensures Finds(data, size, start, i) <==> start <= i < size && !BitAt(data, i) && forall j :: start <= j < i ==> BitAt(data, j)
  {
    hide BitAt, Enters, SkipSafe, SkipScan, Finds;
    FindsIff(data, size, start, i);
    SkipAgrees(data, size, start);
    if start <= i < size && !BitAt(data, i) && forall j :: start <= j < i ==> BitAt(data, j) {
      ScanFrom(data, size, start, i);
    }
  }

  /** From bit 1 of a full byte the search passes over a clear bit 8 and reports that none is left. */
  lemma SkipMisses()
    ensures LinearScan([0xFF, 0xFE, 0x00], 16, 1) == 8
    ensures SkipScan([0xFF, 0xFE, 0x00], 16, 1) == NO_BITS_LEFT
  {
    var data: seq<bv8> := [0xFF, 0xFE, 0x00];
    assert forall i :: 9 <= i < 16 ==> BitAt(data, i) by {
      forall i | 9 <= i < 16
        ensures BitAt(data, i)
      {
        assert i / 8 == 1;
        assert 0xFE & Mask(i % 8) != 0;
      }
    }
    FullByteBits(data, 0);
    ScanFrom(data, 16, 1, 8);
    assert !BitAt(data, 8);
    SkipIsExact(data, 16, 9);
    ScanFrom(data, 16, 9, 16);
  }

  class Bitmap {
    const size: nat
    const data: array<bv8>

    ghost predicate Valid()
      reads this, data
    {
      Sized(data[..], size)
    }

    constructor (size: nat)
      requires size < NO_BITS_LEFT
      ensures Valid() && this.size == size && fresh(data)
      ensures forall i :: 0 <= i < size ==> !BitAt(data[..], i)
    {
      this.size := size;
      data := new bv8[size / 8 + 1](_ => 0);
    }

    /** Bitmap::set */
    method Set(position: nat)
      requires Valid()
      modifies data
      ensures Valid()
      ensures data[..] == if position > size then old(data[..]) else WithBit(old(data[..]), position, true)
    {
      if position > size {
        return;
      }
      data[position / 8] := data[position / 8] | Mask(position % 8);
    }

    /** Bitmap::clear */
    method Clear(position: nat)
      requires Valid()
      modifies data
      ensures Valid()
      ensures data[..] == if position > size then old(data[..]) else WithBit(old(data[..]), position, false)
    {
      if position > size {
        return;
      }
      data[position / 8] := data[position / 8] & !Mask(position % 8);
    }

    /** Bitmap::find_first_clear, which is find_first_clear_range for a count of one */
    method FindFirstClear(start: nat) returns (r: nat)
      requires Valid()
      ensures r == SkipScan(data[..], size, start)
    {
      var remaining := 1;
      var bitIndex := start;
      while bitIndex < size
        invariant remaining == 1
        invariant SkipScan(data[..], size, start) == SkipScan(data[..], size, bitIndex)
        decreases size - bitIndex
      {
        if data[bitIndex / 8] == 0xFF {
          bitIndex := bitIndex + 8;
        } else {
          if !Bit(data[bitIndex / 8], bitIndex % 8) {
            remaining := remaining - 1;
          } else {
            remaining := 1;
          }
          if remaining == 0 {
            return bitIndex;
          }
          bitIndex := bitIndex + 1;
        }
      }
      return NO_BITS_LEFT;
    }
  }

  // ---- Process and thread identifiers ----

  const ID_COUNT: nat := 65535

  ghost function Ids(data: seq<bv8>): set<nat>
    requires Sized(data, ID_COUNT)
  {
    set i: nat | 0 <= i < ID_COUNT && BitAt(data, i)
  }

  /** All identifiers are taken exactly when as many are live as there are. */
  lemma IdsFull(data: seq<bv8>)
    requires Sized(data, ID_COUNT)
    ensures |Ids(data)| <= ID_COUNT
    ensures LinearScan(data, ID_COUNT, 0) == NO_BITS_LEFT <==> |Ids(data)| == ID_COUNT
  {
    SubsetSize(Ids(data), Below(ID_COUNT));
    var r := LinearScan(data, ID_COUNT, 0);
    if r == NO_BITS_LEFT {
      assert Ids(data) == Below(ID_COUNT);
    } else {
      assert r in Below(ID_COUNT) && r !in Ids(data);
    }
  }

  lemma IdsUpdate(data: seq<bv8>, id: nat, on: bool)
    requires Sized(data, ID_COUNT) && id < ID_COUNT
    ensures Ids(WithBit(data, id, on)) == if on then Ids(data) + {id} else Ids(data) - {id}
  {
    forall j: nat | j < ID_COUNT
      ensures j in Ids(WithBit(data, id, on)) <==> (if j == id then on else j in Ids(data))
    {
      WithBitAt(data, id, on, j);
    }
  }

  /** The bitmap that hands out thread ids, and the one that hands out process ids. */
  class IdPool {
    const bitmap: Bitmap

    ghost predicate Valid()
      reads this, bitmap, bitmap.data
    {
      bitmap.Valid() && bitmap.size == ID_COUNT
    }

    /** The ids of the live threads or processes. */
    ghost function Live(): set<nat>
      reads this, bitmap, bitmap.data
      requires Valid()
    {
      Ids(bitmap.data[..])
    }

    constructor ()
      ensures Valid() && fresh(bitmap) && fresh(bitmap.data) && Live() == {}
    {
      bitmap := new Bitmap(ID_COUNT);
    }

    /** Thread::reserve_tid and Process::reserve_pid: while fewer than 65535 ids are live the new id is not
        one of them; when all are, every caller gets the same out-of-range value. */
    method Reserve() returns (id: nat)
      requires Valid()
      modifies bitmap.data
      ensures Valid()
      ensures old(|Live()|) < ID_COUNT ==> id < ID_COUNT && id !in old(Live()) && Live() == old(Live()) + {id}
      ensures old(|Live()|) < ID_COUNT ==> forall j :: 0 <= j < id ==> j in old(Live())
      ensures old(|Live()|) >= ID_COUNT ==> id == NO_BITS_LEFT && Live() == old(Live())
    {
      id := bitmap.FindFirstClear(0);
      SkipIsExact(bitmap.data[..], ID_COUNT, 0);
      IdsFull(bitmap.data[..]);
      if id < ID_COUNT {
        IdsUpdate(bitmap.data[..], id, true);
      }
      bitmap.Set(id);
    }

    /** Thread::~Thread and Process::~Process, which assert that the id is set. */
    method Release(id: nat) returns (ok: bool)
      requires Valid() && id < ID_COUNT
      modifies bitmap.data
      ensures Valid()
      ensures ok == old(id in Live())
      ensures Live() == old(Live()) - {id}
    {
      ok := Bit(bitmap.data[id / 8], id % 8);
      IdsUpdate(bitmap.data[..], id, false);
      bitmap.Clear(id);
    }
  }
}
