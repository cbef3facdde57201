/** The physical frames: one bit each, searched first-fit, and a byte counter. */
module PhysicalMemories {
  import opened Common
  import opened Bitmaps
  import opened PageRuns

  const FRAMES: nat := 1024 * 1024
  const TRACER_SIZE: nat := FRAMES / 8
  const PAGE_SIZE: nat := 0x1000

  ghost function UsedFrames(data: seq<bv8>): set<nat>
    requires |data| == TRACER_SIZE
  {
    set f: nat | 0 <= f < FRAMES && BitAt(data, f)
  }

  lemma UsedUpdate(data: seq<bv8>, f: nat, on: bool)
    requires |data| == TRACER_SIZE && f < FRAMES
    ensures UsedFrames(WithBit(data, f, on)) == if on then UsedFrames(data) + {f} else UsedFrames(data) - {f}
  {
    forall j: nat | j < FRAMES
      ensures j in UsedFrames(WithBit(data, f, on)) <==> (if j == f then on else j in UsedFrames(data))
    {
      WithBitAt(data, f, on, j);
    }
  }

  /** The n frames from f on. */
  ghost function Range(f: nat, n: nat): (r: set<nat>)
    ensures forall i: nat :: i in r <==> f <= i < f + n
    ensures |r| == n
  {
    if n == 0 then {} else Range(f, n - 1) + {f + n - 1}
  }

  /** The 32-bit byte counter after `pages` more pages, or fewer. */
  function Wrapped(size: nat, pages: int): (r: nat)
    ensures r < TWO32
  {
    (size + pages * PAGE_SIZE) % TWO32
  }

  lemma RangeEmpty(used: set<nat>, f: nat)
    ensures used + Range(f, 0) == used && used - Range(f, 0) == used
  {
  }

  lemma RangeGrows(used: set<nat>, f: nat, n: nat)
    ensures used + Range(f, n + 1) == used + Range(f, n) + {f + n}
    ensures used - Range(f, n + 1) == used - Range(f, n) - {f + n}
  {
  }

  class PhysicalMemory {
    const tracer: array<bv8>
    var size: nat

    ghost predicate Valid()
      reads this
    {
      tracer.Length == TRACER_SIZE && size < TWO32
    }

    ghost function Used(): set<nat>
      requires tracer.Length == TRACER_SIZE
      reads tracer
    {
      UsedFrames(tracer[..])
    }

    /** PhysicalMemory::setup */
    constructor ()
      ensures Valid() && fresh(tracer) && Used() == {} && size == 0
    {
      tracer := new bv8[TRACER_SIZE](_ => 0);
      size := 0;
    }

    /** check_free_pages */
    method CheckFreePages(f: nat, n: nat) returns (free: bool)
      requires Valid() && f + n <= FRAMES
      ensures free <==> Range(f, n) !! Used()
    {
      var index := f;
      while index < f + n
        invariant f <= index <= f + n && forall i :: f <= i < index ==> i !in Used()
      {
        if Bit(tracer[index / 8], index % 8) {
          assert index in Used() && index in Range(f, n);
          return false;
        }
        index := index + 1;
      }
      return true;
    }

    method SetBit(f: nat)
      requires Valid() && f < FRAMES
      modifies tracer
      ensures Used() == old(Used()) + {f}
    {
      hide UsedFrames, Mask, BitAt;
      ghost var after := WithBit(tracer[..], f, true);
      UsedUpdate(tracer[..], f, true);
      tracer[f / 8] := tracer[f / 8] | Mask(f % 8);
      assert tracer[..] == after;
    }

    method ResetBit(f: nat)
      requires Valid() && f < FRAMES
      modifies tracer
      ensures Used() == old(Used()) - {f}
    {
      hide UsedFrames, Mask, BitAt;
      ghost var after := WithBit(tracer[..], f, false);
      UsedUpdate(tracer[..], f, false);
      tracer[f / 8] := tracer[f / 8] & !Mask(f % 8);
      assert tracer[..] == after;
    }

    /** set_used_pages */
    method SetUsedPages(f: nat, n: nat)
      requires Valid() && f + n <= FRAMES
      modifies this, tracer
      ensures Valid() && Used() == old(Used()) + Range(f, n) && size == Wrapped(old(size), n)
    {
      hide UsedFrames, Used, Range, Wrapped;
      ghost var before := Used();
      RangeEmpty(before, f);
      var i: nat := 0;
      while i < n
        invariant i <= n && Valid() && Used() == before + Range(f, i) && size == old(size)
      {
        RangeGrows(before, f, i);
        SetBit(f + i);
        i := i + 1;
      }
      size := Wrapped(size, n);
    }

    /** set_free_pages; the counter wraps below zero */
    method SetFreePages(f: nat, n: nat)
      requires Valid() && f + n <= FRAMES
      modifies this, tracer
      ensures Valid() && Used() == old(Used()) - Range(f, n) && size == Wrapped(old(size), 0 - n)
    {
      hide UsedFrames, Used, Range, Wrapped;
      ghost var before := Used();
      RangeEmpty(before, f);
      var i: nat := 0;
      while i < n
        invariant i <= n && Valid() && Used() == before - Range(f, i) && size == old(size)
      {
        RangeGrows(before, f, i);
        ResetBit(f + i);
        i := i + 1;
      }
      size := Wrapped(size, 0 - n);
    }

    /** find_pages: the scan starts at the byte of `start`, jumps over a full byte only while a run is being
        counted, and otherwise looks at every bit. None is the panic. */
    method FindPages(start: nat, n: nat) returns (r: Option<nat>)
      requires Valid() && n < TWO32
      ensures r == Search(Used(), 8 * (start / 8), FRAMES, n)
    {
      hide Progress, UsedFrames, IsFirstFit;
      var first: nat, remaining: nat := 0, n;
      var i := start / 8;
      ghost var used, lo := Used(), 8 * (start / 8);
      ProgressStart(used, lo, n);
      while i < TRACER_SIZE
        invariant start / 8 <= i && (i <= TRACER_SIZE || 8 * i == lo)
        invariant Progress(used, lo, 8 * i, n, first, remaining)
      {
        if tracer[i] == 0xFF && remaining != n {
          FullByteUsed(tracer[..], i);
          ProgressFull(used, lo, 8 * i, n, first, remaining);
          remaining := n;
        } else {
          var found;
          first, remaining, found := ScanByte(i, n, first, remaining, lo);
          if found {
            FirstFitUnique(used, lo, FRAMES, n, first);
            return Some(first);
          }
        }
        i := i + 1;
      }
      ProgressEnd(used, lo, 8 * i, FRAMES, n, first, remaining);
      return None;
    }

    /** The loop over the bits of one byte. */
    method ScanByte(i: nat, n: nat, first: nat, remaining: nat, ghost lo: nat) returns (first': nat, remaining': nat, found: bool)
      requires Valid() && i < TRACER_SIZE && n < TWO32
      requires Progress(Used(), lo, 8 * i, n, first, remaining)
      ensures found ==> n > 0 && IsFirstFit(Used(), lo, FRAMES, n, first')
      ensures !found ==> Progress(Used(), lo, 8 * i + 8, n, first', remaining')
    {
      hide Progress, UsedFrames, IsFirstFit, Bit;
      first', remaining' := first, remaining;
      var bit: nat := 0;
      while bit < 8
        invariant bit <= 8 && Progress(Used(), lo, 8 * i + bit, n, first', remaining')
      {
        BitUsed(tracer[..], i, bit);
        if !Bit(tracer[i], bit) {
          ProgressFree(Used(), lo, 8 * i + bit, FRAMES, n, first', remaining');
          if remaining' == n {
            first' := bit + i * 8;
          }
          remaining' := (remaining' - 1) % TWO32;
          if remaining' == 0 {
            return first', remaining', true;
          }
        } else {
          ProgressUsed(Used(), lo, 8 * i + bit, n, first', remaining');
          if remaining' != n {
            remaining' := n;
          }
        }
        bit := bit + 1;
      }
      found := false;
    }

    /** alloc_page and alloc_contagious_pages */
    method AllocPages(start: nat, n: nat) returns (r: Option<nat>)
      requires Valid() && n < TWO32
      modifies this, tracer
      ensures Valid() && r == Search(old(Used()), 8 * (start / 8), FRAMES, n)
      ensures r.None? ==> unchanged(this) && unchanged(tracer)
      ensures r.Some? ==> Range(r.value, n) !! old(Used()) && Used() == old(Used()) + Range(r.value, n)
      ensures r.Some? ==> size == Wrapped(old(size), n)
    {
      hide UsedFrames;
      r := FindPages(start, n);
      if r.Some? {
        assert FreeRun(Used(), r.value, n) && r.value + n <= FRAMES;
        SetUsedPages(r.value, n);
      }
    }
  }

  // ---- The counting loop of find_pages ----

  /** What `first` and `remaining` mean once lo..at has been looked at. The count is 32-bit: for n == 0 it
      would have to go all the way round before the loop could end. */
  ghost predicate Progress(used: set<nat>, lo: nat, at: nat, n: nat, first: nat, remaining: nat) {
    if n == 0 then
      lo <= at <= lo + FRAMES && remaining < TWO32 && (remaining == 0 || remaining + (at - lo) >= TWO32)
    else
      0 < remaining <= n && Counting(used, lo, at, n, n - remaining) && (remaining < n ==> first == at - (n - remaining))
  }

  lemma ProgressStart(used: set<nat>, lo: nat, n: nat)
    requires n < TWO32
    ensures Progress(used, lo, lo, n, 0, n)
  {
  }

  lemma ProgressUsed(used: set<nat>, lo: nat, at: nat, n: nat, first: nat, remaining: nat)
    requires Progress(used, lo, at, n, first, remaining) && at in used && at < FRAMES
    ensures Progress(used, lo, at + 1, n, first, n)
  {
    if n > 0 {
      CountUsed(used, lo, at, n, n - remaining);
    }
  }

  lemma ProgressFree(used: set<nat>, lo: nat, at: nat, hi: nat, n: nat, first: nat, remaining: nat)
    requires Progress(used, lo, at, n, first, remaining) && at !in used && at < hi <= FRAMES && n < TWO32
    ensures var first' := if remaining == n then at else first;
            var remaining' := (remaining - 1) % TWO32;
            if remaining' == 0 then n > 0 && IsFirstFit(used, lo, hi, n, first')
            else Progress(used, lo, at + 1, n, first', remaining')
  {
    if n > 0 {
      CountFree(used, lo, at, hi, n, n - remaining);
    }
  }

  lemma {:induction false} UsedStretch(used: set<nat>, lo: nat, at: nat, k: nat, n: nat, first: nat, remaining: nat)
    requires Progress(used, lo, at, n, first, remaining) && k > 0 && at + k <= FRAMES
    requires forall j :: at <= j < at + k ==> j in used
    ensures Progress(used, lo, at + k, n, first, n)
  {
    if k == 1 {
      ProgressUsed(used, lo, at, n, first, remaining);
    } else {
      UsedStretch(used, lo, at, k - 1, n, first, remaining);
      ProgressUsed(used, lo, at + (k - 1), n, first, n);
    }
  }

  lemma ProgressFull(used: set<nat>, lo: nat, at: nat, n: nat, first: nat, remaining: nat)
    requires Progress(used, lo, at, n, first, remaining) && at + 8 <= FRAMES
    requires forall j :: at <= j < at + 8 ==> j in used
    ensures Progress(used, lo, at + 8, n, first, n)
  {
    UsedStretch(used, lo, at, 8, n, first, remaining);
  }

  lemma ProgressEnd(used: set<nat>, lo: nat, at: nat, hi: nat, n: nat, first: nat, remaining: nat)
    requires Progress(used, lo, at, n, first, remaining) && (at == hi || (at == lo && lo >= hi))
    ensures Search(used, lo, hi, n) == None
  {
    if n > 0 {
      NoFitNone(used, lo, hi, n);
    }
  }

  lemma BitUsed(data: seq<bv8>, i: nat, bit: nat)
    requires |data| == TRACER_SIZE && i < TRACER_SIZE && bit < 8
    ensures 8 * i + bit < FRAMES && (8 * i + bit in UsedFrames(data) <==> Bit(data[i], bit))
  {
    assert (8 * i + bit) / 8 == i && (8 * i + bit) % 8 == bit;
  }

  lemma FullByteUsed(data: seq<bv8>, i: nat)
    requires |data| == TRACER_SIZE && i < TRACER_SIZE && data[i] == 0xFF
    ensures 8 * i + 8 <= FRAMES && forall j :: 8 * i <= j < 8 * i + 8 ==> j in UsedFrames(data)
  {
    FullByte(data[i]);
    forall j | 8 * i <= j < 8 * i + 8
      ensures j in UsedFrames(data)
    {
      BitUsed(data, i, j - 8 * i);
    }
  }
}
