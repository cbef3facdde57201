/** The heap as the kernel runs it: slabs changed in place and chains followed from slab to slab. */
module HeapObjects {
  import opened Common
  import opened Bitmaps
  import opened Heaps
  import opened HeapTheorems
  import opened HeapEffects

  /** StaticBitmap::find_first_clear */
  method FindFirstClear(bits: seq<bv8>, size: nat, start: nat) returns (r: nat)
    requires Sized(bits, size)
    ensures r == SkipScan(bits, size, start)
  {
    var at := start;
    while at < size
      invariant SkipScan(bits, size, start) == SkipScan(bits, size, at)
      decreases size - at
    {
      if bits[at / 8] == 0xFF {
        at := at + 8;
      } else if !Bit(bits[at / 8], at % 8) {
        return at;
      } else {
        at := at + 1;
      }
    }
    return NO_BITS_LEFT;
  }

  /** The static slabs of the first classes. */
  ghost function StartSlabs(bases: seq<nat>, c: nat): map<nat, Slab>
    requires c <= |bases|
  {
    if c == 0 then map[] else StartSlabs(bases, c - 1)[bases[c - 1] := FreshSlab(c - 1)]
  }

  lemma StartSlabsAll(bases: seq<nat>)
    requires |bases| == CLASSES
    ensures StartSlabs(bases, CLASSES) == Start(bases).slabs
  {
    hide FreshSlab;
    assert StartSlabs(bases, 1) == map[bases[0] := FreshSlab(0)];
    assert StartSlabs(bases, 3) == map[bases[0] := FreshSlab(0), bases[1] := FreshSlab(1), bases[2] := FreshSlab(2)];
  }

  class KernelHeap {
    var slabs: map<nat, Slab>
    var chains: seq<seq<nat>>
    var bigs: map<nat, nat>
    var headers: map<nat, Header>
    ghost var live: map<nat, nat>

    ghost function View(): Heap
      reads this
    {
      Heap(slabs, chains, bigs, headers, live)
    }

    constructor (bases: seq<nat>)
      requires |bases| == CLASSES
      ensures View() == Start(bases)
      ensures Placed(bases) ==> Started(View()) && HeapInv(View())
    {
      slabs, chains, bigs, headers, live := map[], [[], [], [], [], []], map[], map[], map[];
      new;
      hide FreshSlab, Placed, Started, HeapInv;
      for c := 0 to CLASSES
        invariant |chains| == CLASSES && bigs == map[] && headers == map[] && live == map[]
        invariant slabs == StartSlabs(bases, c)
        invariant forall d :: 0 <= d < CLASSES ==> chains[d] == if d < c then [bases[d]] else []
      {
        InitSlab(c, bases[c]);
      }
      StartSlabsAll(bases);
      if Placed(bases) {
        StartStarted(bases);
        StartedInv(Start(bases));
      }
    }

    /** Slab::init of the static slab of a class */
    method InitSlab(c: nat, base: nat)
      requires c < |chains|
      modifies this
      ensures slabs == old(slabs)[base := FreshSlab(c)] && chains == old(chains)[c := [base]]
      ensures bigs == old(bigs) && headers == old(headers) && live == old(live)
    {
      slabs := slabs[base := Slab(c, MaxBlocks(c), 0, ZeroBits(c))];
      chains := chains[c := [base]];
    }

    /** Slab::alloc_in_current_slab */
    method AllocInSlab(p: nat, i: nat, ghost n: nat) returns (a: nat)
      requires p in slabs && i / 8 < |slabs[p].bits| && slabs[p].free > 0
      modifies this
      ensures View() == Take(old(View()), p, i, n) && a == Data(p, old(slabs[p].cls), i)
      ensures old(SlabRight(slabs[p])) && i < MaxBlocks(old(slabs[p].cls)) && !old(BitAt(slabs[p].bits, i)) ==>
        BlockTaken(old(View()), View(), p, i, a, n) && SlabRight(slabs[p]) &&
        p + Offset(slabs[p].cls) <= a && BlockIndex(p, slabs[p].cls, a) == i
    {
      hide SlabRight, BitAt, BlockTaken, Data, BlockIndex;
      if SlabRight(slabs[p]) && i < MaxBlocks(slabs[p].cls) && !BitAt(slabs[p].bits, i) {
        TakeExact(View(), p, i, n);
      }
      var s := slabs[p];
      a := Data(p, s.cls, i);
      slabs := slabs[p := Slab(s.cls, s.free - 1, (i + 1) % MaxBlocks(s.cls), WithBit(s.bits, i, true))];
      headers := headers[a := Header(p, ClassSize(s.cls))];
      live := live[a := n];
    }

    /** Slab::alloc */
    method AllocInChain(c: nat, k: nat, os: nat, ghost n: nat) returns (ok: bool, a: nat)
      requires c < |chains| && k < |chains[c]|
      requires forall p :: p in slabs ==> Sized(slabs[p].bits, MaxBlocks(slabs[p].cls))
      modifies this
      ensures ok == old(AllocFrom(View(), c, k, os, n)).Ok?
      ensures ok ==> old(AllocFrom(View(), c, k, os, n)) == Ok((View(), a))
      decreases |chains[c]| - k
    {
      var p := chains[c][k];
      if p !in slabs || slabs[p].cls != c {
        return false, 0;
      }
      var i := NO_BITS_LEFT;
      if slabs[p].free != 0 {
        i := FindFirstClear(slabs[p].bits, MaxBlocks(c), slabs[p].nextFit);
      }
      if i != NO_BITS_LEFT {
        a := AllocInSlab(p, i, n);
        ok := true;
      } else if k + 1 < |chains[c]| {
        ok, a := AllocInChain(c, k + 1, os, n);
      } else {
        ok, a := AllocInNewSlab(c, os, n);
      }
    }

    /** Slab::alloc_in_new_slab */
    method AllocInNewSlab(c: nat, os: nat, ghost n: nat) returns (ok: bool, a: nat)
      requires c < |chains|
      modifies this
      ensures ok == old(AllocNew(View(), c, os, n)).Ok?
      ensures ok ==> old(AllocNew(View(), c, os, n)) == Ok((View(), a))
    {
      if os == 0 {
        return true, 0;
      }
      slabs := slabs[os := FreshSlab(c)];
      chains := chains[c := chains[c] + [os]];
      var i := FindFirstClear(slabs[os].bits, MaxBlocks(c), 0);
      if i == NO_BITS_LEFT {
        return false, 0;
      }
      a := AllocInSlab(os, i, n);
      ok := true;
    }

    /** Heap::kmalloc */
    method Malloc(n: nat, os: nat) returns (ok: bool, a: nat)
      requires forall p :: p in slabs ==> Sized(slabs[p].bits, MaxBlocks(slabs[p].cls))
      modifies this
      ensures ok == old(Kmalloc(View(), n, os)).Ok?
      ensures ok ==> old(Kmalloc(View(), n, os)) == Ok((View(), a))
    {
      hide AllocFrom;
      if n == 0 {
        return true, 0;
      }
      var c := ClassFor(n);
      if c.None? {
        if os == 0 {
          return false, 0;
        }
        a := os + BIG_DATA;
        bigs := bigs[os := BigSize(n)];
        headers := headers[a := Header(os, BigSize(n))];
        live := live[a := n];
        return true, a;
      }
      if c.value >= |chains| || chains[c.value] == [] {
        return false, 0;
      }
      ok, a := AllocInChain(c.value, 0, os, n);
    }

    /** Slab::free_from_current_slab */
    method FreeInSlab(p: nat, i: nat, a: nat)
      requires p in slabs && i / 8 < |slabs[p].bits|
      modifies this
      ensures View() == Release(old(View()), p, i, a)
      ensures old(SlabRight(slabs[p])) && i < MaxBlocks(old(slabs[p].cls)) && old(BitAt(slabs[p].bits, i)) ==>
        BlockTurned(old(View()), View(), p, i, false, i) && SlabRight(slabs[p]) && headers == old(headers)
    {
      hide SlabRight, BitAt, BlockTurned;
      if SlabRight(slabs[p]) && i < MaxBlocks(slabs[p].cls) && BitAt(slabs[p].bits, i) {
        ReleaseExact(View(), p, i, a);
      }
      var s := slabs[p];
      var free := (s.free + 1) % TWO32;
      slabs := slabs[p := Slab(s.cls, free, i, WithBit(s.bits, i, false))];
      live := live - {a};
      if free == 0 && s.cls < |chains| && p in chains[s.cls] && chains[s.cls][0] != p {
        chains := chains[s.cls := chains[s.cls][..IndexOf(chains[s.cls], p)]];
        slabs := slabs - {p};
      }
    }

    /** Heap::kfree */
    method Free(a: nat) returns (ok: bool)
      modifies this
      ensures ok == old(Kfree(View(), a)).Ok?
      ensures ok ==> old(Kfree(View(), a)) == Ok(View())
    {
      hide Release;
      if a == 0 {
        return true;
      }
      if a !in headers || headers[a].slab == 0 {
        return false;
      }
      var p := headers[a].slab;
      var c := ClassOf(headers[a].size);
      if c.None? {
        if p !in bigs {
          return false;
        }
        bigs := bigs - {p};
        live := live - {a};
        return true;
      }
      if p !in slabs || slabs[p].cls != c.value || !InSlab(p, c.value, a) {
        return false;
      }
      var i := BlockIndex(p, c.value, a);
      if i / 8 >= |slabs[p].bits| || !BitAt(slabs[p].bits, i) {
        return false;
      }
      FreeInSlab(p, i, a);
      return true;
    }
  }
}
