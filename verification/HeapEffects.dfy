/** What kmalloc and kfree do to the heap, told block by block. */
module HeapEffects {
  import opened Common
  import opened Bitmaps
  import opened Heaps
  import opened HeapTheorems

  /** Bit i of the map has changed, and no other. */
  ghost predicate Flipped(s: Slab, t: Slab, i: nat) {
    s.cls == t.cls && |s.bits| == |t.bits| &&
    forall j: nat :: j / 8 < |s.bits| ==> (BitAt(s.bits, j) != BitAt(t.bits, j) <==> j == i)
  }

  lemma FlippedBit(s: Slab, t: Slab, i: nat, on: bool)
    requires i / 8 < |s.bits| && t.cls == s.cls && t.bits == WithBit(s.bits, i, on) && BitAt(s.bits, i) == !on
    ensures Flipped(s, t, i)
  {
    hide BitAt;
    forall j: nat | j / 8 < |s.bits|
      ensures BitAt(s.bits, j) != BitAt(t.bits, j) <==> j == i
    {
      WithBitAt(s.bits, i, on, j);
    }
  }

  /** Between h and t one block's bit is turned on or off. Its slab's free count and next place follow; every other
      slab, the chains and the big blocks are as they were. */
  ghost predicate BlockTurned(h: Heap, t: Heap, p: nat, i: nat, on: bool, nextFit: nat) {
    p in h.slabs && t.slabs.Keys == h.slabs.Keys && t.chains == h.chains && t.bigs == h.bigs &&
    (forall q :: q in h.slabs && q != p ==> t.slabs[q] == h.slabs[q]) &&
    var s, r := h.slabs[p], t.slabs[p];
    Flipped(s, r, i) && i / 8 < |r.bits| && BitAt(r.bits, i) == on && r.nextFit == nextFit &&
    r.free == if on then s.free - 1 else s.free + 1
  }

  /** Block i of slab p is given out at address a for n bytes. */
  ghost predicate BlockTaken(h: Heap, t: Heap, p: nat, i: nat, a: nat, n: nat) {
    p in h.slabs && MaxBlocks(h.slabs[p].cls) > 0 &&
    var c := h.slabs[p].cls;
    BlockTurned(h, t, p, i, true, (i + 1) % MaxBlocks(c)) && a == p + Offset(c) + i * (ClassSize(c) + 8) + 8 &&
    t.headers == h.headers[a := Header(p, ClassSize(c))] && t.live == h.live[a := n]
  }

  lemma TakeExact(h: Heap, p: nat, i: nat, n: nat)
    requires p in h.slabs && i / 8 < |h.slabs[p].bits| && h.slabs[p].free > 0
    requires SlabRight(h.slabs[p]) && i < MaxBlocks(h.slabs[p].cls) && !BitAt(h.slabs[p].bits, i)
    ensures var t := Take(h, p, i, n); var c := h.slabs[p].cls;
      BlockTaken(h, t, p, i, Data(p, c, i), n) && SlabRight(t.slabs[p]) && p + Offset(c) <= Data(p, c, i) &&
      BlockIndex(p, c, Data(p, c, i)) == i
  {
    hide BitAt, Clear, BlockIndex, Flipped, Offset, ClassSize;
    var s := h.slabs[p];
    ClearUpdate(s.bits, i, true, MaxBlocks(s.cls));
    DataIndex(p, s.cls, i);
    FlippedBit(s, Take(h, p, i, n).slabs[p], i, true);
    WithBitAt(s.bits, i, true, i);
  }

  lemma ReleaseExact(h: Heap, p: nat, i: nat, a: nat)
    requires p in h.slabs && i / 8 < |h.slabs[p].bits|
    requires SlabRight(h.slabs[p]) && i < MaxBlocks(h.slabs[p].cls) && BitAt(h.slabs[p].bits, i)
    ensures var t := Release(h, p, i, a);
      BlockTurned(h, t, p, i, false, i) && SlabRight(t.slabs[p]) && t.headers == h.headers && t.live == h.live - {a}
  {
    hide BitAt, Clear, Flipped;
    var s := h.slabs[p];
    FreeRises(s, i);
    ClearUpdate(s.bits, i, false, MaxBlocks(s.cls));
    FlippedBit(s, Release(h, p, i, a).slabs[p], i, false);
    WithBitAt(s.bits, i, false, i);
  }

  // ---- kmalloc ----

  /** A slab at os was chained and gave its first block. */
  ghost predicate SlabAdded(h: Heap, t: Heap, c: nat, os: nat, a: nat, n: nat)
    requires c < |h.chains|
  {
    t.chains == h.chains[c := h.chains[c] + [os]] && t.slabs.Keys == h.slabs.Keys + {os} && t.bigs == h.bigs &&
    (forall q :: q in h.slabs && q != os ==> t.slabs[q] == h.slabs[q]) &&
    var r := t.slabs[os];
    r.cls == c && r.free == MaxBlocks(c) - 1 && r.nextFit == 1 && |r.bits| == MaxBlocks(c) / 8 + 1 &&
    (forall j: nat :: j < MaxBlocks(c) ==> (BitAt(r.bits, j) <==> j == 0)) &&
    a == os + Offset(c) + 8 && t.headers == h.headers[a := Header(os, ClassSize(c))] && t.live == h.live[a := n]
  }

  lemma NewExact(h: Heap, c: nat, os: nat, n: nat)
    requires c < CLASSES && |h.chains| == CLASSES && os != 0
    ensures AllocNew(h, c, os, n).Ok? && SlabAdded(h, AllocNew(h, c, os, n).value.0, c, os, AllocNew(h, c, os, n).value.1, n)
  {
    hide BitAt, ZeroBits, Choice, WithBit, Offset, ClassSize;
    FreshSlabRight(c);
    var t := AllocNew(h, c, os, n).value.0;
    forall j: nat | j < MaxBlocks(c)
      ensures BitAt(t.slabs[os].bits, j) <==> j == 0
    {
      WithBitAt(FreshSlab(c).bits, 0, true, j);
    }
  }

  /** The two offers of one slab are one. */
  lemma OneOffer(s: Slab, i: nat, j: nat)
    requires Offers(s, i) && Offers(s, j)
    ensures i == j
  {
    hide Finds, SkipScan;
    FindsIff(s.bits, MaxBlocks(s.cls), s.nextFit, i);
    FindsIff(s.bits, MaxBlocks(s.cls), s.nextFit, j);
  }

  lemma OneFirst(h: Heap, c: nat, j: nat, i: nat, m: nat, x: nat)
    requires c < |h.chains| && FirstOffer(h, c, 0, j, i) && FirstOffer(h, c, 0, m, x)
    ensures j == m && i == x
  {
    hide Offers;
    if j == m {
      OneOffer(h.slabs[h.chains[c][j]], i, x);
    }
  }

  /** The class of a size: the smallest blocks that hold it. */
  predicate ClassIs(n: nat, c: nat) { c < CLASSES && 0 < n <= ClassSize(c) && (c > 0 ==> ClassSize(c - 1) < n) }

  lemma ClassFound(n: nat, c: nat)
    requires ClassIs(n, c)
    ensures ClassFor(n) == Some(c)
  {
  }

  /** kmalloc of a small size takes the block that the first slab of the chain with a reachable free block offers, and
      nothing else changes. With no such slab it chains a new one, or gives null when there is no memory for it:
      then, and only then, it gives null. */
  lemma KmallocSmall(h: Heap, n: nat, os: nat, c: nat)
    requires HeapInv(h) && ClassIs(n, c) && (os == 0 || FreshRegion(h, os, SlabBytes(c)))
    ensures |h.chains| == CLASSES && Kmalloc(h, n, os).Ok?
    ensures Kmalloc(h, n, os).value.1 == 0 <==> os == 0 && NoneLeft(h, c, 0)
    ensures Kmalloc(h, n, os).value.1 == 0 ==> Kmalloc(h, n, os).value.0 == h
    ensures forall j: nat, i: nat :: FirstOffer(h, c, 0, j, i) ==>
      BlockTaken(h, Kmalloc(h, n, os).value.0, h.chains[c][j], i, Kmalloc(h, n, os).value.1, n)
    ensures NoneLeft(h, c, 0) && os != 0 ==> SlabAdded(h, Kmalloc(h, n, os).value.0, c, os, Kmalloc(h, n, os).value.1, n)
  {
    hide HeapInv, AllocFrom, AllocNew, SlabBytes, FreshRegion, NoneLeft, Offers, ClassFor, ClassSize, Given, BlockTaken, SlabAdded, Take, Data;
    ClassFound(n, c);
    ChainsThere(h);
    AllocGiven(h, c, 0, os, n);
    GivenNotNull(h, Kmalloc(h, n, os).value.0, Kmalloc(h, n, os).value.1, n);
    if NoneLeft(h, c, 0) {
      NoneIsNone(h, c);
      if os == 0 {
        NoMemory(h, c, n);
      } else {
        NewExact(h, c, os, n);
      }
    } else {
      var j: nat, i: nat :| FirstOffer(h, c, 0, j, i) && CanTake(h, h.chains[c][j], i, n) &&
        AllocFrom(h, c, 0, os, n).value == (Take(h, h.chains[c][j], i, n), Data(h.chains[c][j], c, i));
      ChainMember(h, c, j);
      TakeExact(h, h.chains[c][j], i, n);
      forall m: nat, x: nat | FirstOffer(h, c, 0, m, x)
        ensures m == j && x == i
      {
        OneFirst(h, c, j, i, m, x);
      }
    }
  }

  lemma GivenNotNull(h: Heap, t: Heap, a: nat, n: nat)
    ensures Given(h, t, a, n) ==> a != 0
  {
  }

  lemma NoneIsNone(h: Heap, c: nat)
    requires c < |h.chains| && NoneLeft(h, c, 0)
    ensures forall j: nat, i: nat :: !FirstOffer(h, c, 0, j, i)
  {
    hide Offers;
  }

  /** A larger size gets memory of its own: the data twelve bytes into it, behind magic, slab pointer and size. */
  lemma KmallocBig(h: Heap, n: nat, os: nat)
    requires 0x100 < n && n + 16 < TWO32 && os != 0
    ensures Kmalloc(h, n, os) ==
      Ok((h.(bigs := h.bigs[os := n + 16], headers := h.headers[os + 12 := Header(os, n + 16)], live := h.live[os + 12 := n]), os + 12))
  {
  }

  // ---- kfree ----

  /** kfree of a live block turns exactly its bit off, or gives exactly its big block's memory back. */
  lemma KfreeExact(h: Heap, a: nat)
    requires HeapInv(h) && a in h.live
    ensures a in h.headers && Kfree(h, a).Ok?
    ensures var t, p := Kfree(h, a).value, h.headers[a].slab;
      t.headers == h.headers && t.live == h.live - {a} && (p in h.slabs <==> h.live[a] <= 0x100) &&
      if h.live[a] <= 0x100 then
        exists i: nat :: a == p + Offset(h.slabs[p].cls) + i * (ClassSize(h.slabs[p].cls) + 8) + 8 && BlockTurned(h, t, p, i, false, i)
      else a == p + 12 && p in h.bigs && t.bigs == h.bigs - {p} && t.slabs == h.slabs && t.chains == h.chains
  {
    hide HeapInv, SlabBlock, BigBlock, BlockIndex, Offset, BlockTurned, ClassSize, Release;
    InvBlock(h, a);
    var p := h.headers[a].slab;
    InvParts(h);
    BlockSizes(h, a);
    if SlabBlock(h, a) {
      KfreeSlab(h, a);
      var i := BlockIndex(p, h.slabs[p].cls, a);
      assert SlabRight(h.slabs[p]);
      NeverUnmapped(h, p, i, a);
      ReleaseExact(h, p, i, a);
      hide Kfree;
      assert a == p + Offset(h.slabs[p].cls) + i * (ClassSize(h.slabs[p].cls) + 8) + 8 && BlockTurned(h, Kfree(h, a).value, p, i, false, i);
    } else {
      KfreeBig(h, a);
      hide Kfree;
    }
  }

  lemma BlockSizes(h: Heap, a: nat)
    requires HeapInv(h) && a in h.live && a in h.headers && (SlabBlock(h, a) || BigBlock(h, a))
    ensures SlabBlock(h, a) <==> h.live[a] <= 0x100
    ensures SlabBlock(h, a) <==> h.headers[a].slab in h.slabs
  {
    hide ChainsRight, NothingLost, LiveRight, SlabsRight, Bytes, Data, BlockIndex;
  }

  /** Freeing a block of a slab fails its assertion exactly when the block is not live: a second free is caught. */
  lemma KfreeTwice(h: Heap, p: nat, i: nat)
    requires HeapInv(h) && p in h.slabs && i < MaxBlocks(h.slabs[p].cls) && Data(p, h.slabs[p].cls, i) in h.headers
    requires h.headers[Data(p, h.slabs[p].cls, i)] == Header(p, ClassSize(h.slabs[p].cls))
    ensures Kfree(h, Data(p, h.slabs[p].cls, i)).Panic? <==> Data(p, h.slabs[p].cls, i) !in h.live
  {
    hide HeapInv, Release, Offset, Data, BlockIndex, BitAt, InSlab, MaxBlocks, ClassSize;
    var c := h.slabs[p].cls;
    var a := Data(p, c, i);
    InvParts(h);
    assert SlabRight(h.slabs[p]);
    ClassRecovered(c);
    DataIndex(p, c, i);
    DataInside(p, c, i);
    LiveIffSet(h, p, i);
    BasePositive(h, p);
  }
}
