/** What kmalloc and kfree keep: every live block has its own memory, and its header leads back to it. */
module HeapTheorems {
  import opened Common
  import opened Bitmaps
  import opened Heaps

  // ---- Counting clear bits ----

  function Clear(bits: seq<bv8>, m: nat): nat
    requires m <= 8 * |bits|
  {
    if m == 0 then 0 else Clear(bits, m - 1) + if BitAt(bits, m - 1) then 0 else 1
  }

  lemma {:induction false} ClearUpdate(bits: seq<bv8>, i: nat, on: bool, m: nat)
    requires m <= 8 * |bits| && i / 8 < |bits|
    ensures Clear(WithBit(bits, i, on), m) + (if i < m && on && !BitAt(bits, i) then 1 else 0) ==
            Clear(bits, m) + (if i < m && !on && BitAt(bits, i) then 1 else 0)
  {
    hide BitAt, WithBit;
    if m > 0 {
      ClearUpdate(bits, i, on, m - 1);
      WithBitAt(bits, i, on, m - 1);
    }
  }

  lemma {:induction false} ClearBound(bits: seq<bv8>, m: nat)
    requires m <= 8 * |bits|
    ensures Clear(bits, m) <= m
    ensures Clear(bits, m) == 0 <==> forall i :: 0 <= i < m ==> BitAt(bits, i)
  {
    hide BitAt;
    if m > 0 {
      ClearBound(bits, m - 1);
    }
  }

  lemma {:induction false} ClearZero(bits: seq<bv8>, m: nat)
    requires m <= 8 * |bits| && forall i :: 0 <= i < m ==> !BitAt(bits, i)
    ensures Clear(bits, m) == m
  {
    hide BitAt;
    if m > 0 {
      ClearZero(bits, m - 1);
    }
  }

  // ---- Where blocks lie ----

  lemma DataIndex(p: nat, c: nat, i: nat)
    requires c < CLASSES
    ensures p + Offset(c) <= Data(p, c, i) && BlockIndex(p, c, Data(p, c, i)) == i
  {
    if c == 0 {
      assert (i * 0x18 + 8) / 0x18 == i;
    } else if c == 1 {
      assert (i * 0x28 + 8) / 0x28 == i;
    } else if c == 2 {
      assert (i * 0x48 + 8) / 0x48 == i;
    } else if c == 3 {
      assert (i * 0x88 + 8) / 0x88 == i;
    } else {
      assert (i * 0x108 + 8) / 0x108 == i;
    }
  }

  lemma DataInside(p: nat, c: nat, i: nat)
    requires c < CLASSES && i < MaxBlocks(c)
    ensures p + Offset(c) + BLOCK_HEADER <= Data(p, c, i) && Data(p, c, i) + ClassSize(c) <= p + SlabBytes(c)
    ensures InSlab(p, c, Data(p, c, i))
  {
  }

  lemma DataApart(p: nat, c: nat, i: nat, j: nat)
    requires c < CLASSES && i < j
    ensures Data(p, c, i) + ClassSize(c) <= Data(p, c, j) - BLOCK_HEADER
  {
  }

  // ---- The invariant ----

  ghost predicate IsBase(h: Heap, p: nat) { p in h.slabs || p in h.bigs }

  ghost function Bytes(h: Heap, p: nat): nat {
    if p in h.slabs then SlabBytes(h.slabs[p].cls) else if p in h.bigs then h.bigs[p] else 0
  }

  predicate Disjoint(p: nat, m: nat, q: nat, n: nat) { p + m <= q || q + n <= p }

  /** Slabs and big blocks do not overlap. */
  ghost predicate RegionsRight(h: Heap) {
    h.slabs.Keys !! h.bigs.Keys && (forall p :: IsBase(h, p) ==> p > 0) && (forall p :: p in h.bigs ==> h.bigs[p] > 0x100 + BIG_SLAB) &&
    forall p, q :: IsBase(h, p) && IsBase(h, q) && p != q ==> Disjoint(p, Bytes(h, p), q, Bytes(h, q))
  }

  /** The free count is the number of clear bits. */
  ghost predicate SlabRight(s: Slab) {
    s.cls < CLASSES && Sized(s.bits, MaxBlocks(s.cls)) && s.free == Clear(s.bits, MaxBlocks(s.cls)) && s.nextFit < MaxBlocks(s.cls)
  }

  ghost predicate SlabsRight(h: Heap) { forall p :: p in h.slabs ==> SlabRight(h.slabs[p]) }

  ghost predicate ChainsRight(h: Heap) {
    |h.chains| == CLASSES &&
    forall c :: 0 <= c < CLASSES ==> h.chains[c] != [] && forall p :: p in h.chains[c] ==> p in h.slabs && h.slabs[p].cls == c
  }

  /** The header in front of a leads to a slab, and the index division to a set bit there. */
  ghost predicate SlabBlock(h: Heap, a: nat)
    requires a in h.live && a in h.headers
  {
    var p := h.headers[a].slab;
    p in h.slabs && h.headers[a].size == ClassSize(h.slabs[p].cls) && p + Offset(h.slabs[p].cls) <= a &&
    var s, i := h.slabs[p], BlockIndex(p, h.slabs[p].cls, a);
    a == Data(p, s.cls, i) && i < MaxBlocks(s.cls) && i / 8 < |s.bits| && BitAt(s.bits, i) && 0 < h.live[a] <= ClassSize(s.cls)
  }

  ghost predicate BigBlock(h: Heap, a: nat)
    requires a in h.live && a in h.headers
  {
    var p := h.headers[a].slab;
    p in h.bigs && a == p + BIG_DATA && h.headers[a].size == h.bigs[p] && h.live[a] + BIG_SLAB == h.bigs[p] && h.live[a] > 0x100
  }

  ghost predicate LiveRight(h: Heap) {
    forall a :: a in h.live ==> a in h.headers && (SlabBlock(h, a) || BigBlock(h, a))
  }

  /** Nothing is lost: a set bit and a big block stand for a live block. */
  ghost predicate NothingLost(h: Heap) {
    (forall p, i :: p in h.slabs && 0 <= i < MaxBlocks(h.slabs[p].cls) && i / 8 < |h.slabs[p].bits| && BitAt(h.slabs[p].bits, i) ==>
      Data(p, h.slabs[p].cls, i) in h.live) &&
    (forall p :: p in h.bigs ==> p + BIG_DATA in h.live)
  }

  ghost predicate HeapInv(h: Heap) {
    RegionsRight(h) && SlabsRight(h) && ChainsRight(h) && LiveRight(h) && NothingLost(h)
  }

  // ---- Live blocks ----

  /** A live block lies in one slab or big block, behind everything the allocator keeps there. */
  lemma LiveInside(h: Heap, a: nat)
    requires HeapInv(h) && a in h.live
    ensures a in h.headers && IsBase(h, h.headers[a].slab) && h.live[a] > 0
    ensures var p := h.headers[a].slab; p + BLOCK_HEADER <= a - 4 && a + h.live[a] <= p + Bytes(h, p)
  {
    hide ChainsRight, NothingLost, BitAt, Clear;
    if SlabBlock(h, a) {
      var p := h.headers[a].slab;
      DataInside(p, h.slabs[p].cls, BlockIndex(p, h.slabs[p].cls, a));
    }
  }

  /** Two live blocks of the same slab are different blocks of it; big blocks have one each. */
  lemma SameBaseApart(h: Heap, a: nat, b: nat)
    requires HeapInv(h) && a in h.live && b in h.live && a < b && a in h.headers && b in h.headers && h.headers[a].slab == h.headers[b].slab
    ensures a + h.live[a] <= b - BLOCK_HEADER
  {
    hide ChainsRight, NothingLost, BitAt, Clear;
    var p := h.headers[a].slab;
    if p in h.slabs {
      assert SlabBlock(h, a) && SlabBlock(h, b);
      var c := h.slabs[p].cls;
      var i, j := BlockIndex(p, c, a), BlockIndex(p, c, b);
      BlockOrder(p, c, i, j);
      DataApart(p, c, i, j);
    }
  }

  lemma BlockOrder(p: nat, c: nat, i: nat, j: nat)
    requires c < CLASSES && Data(p, c, i) < Data(p, c, j)
    ensures i < j
  {
  }

  /** Live blocks never overlap, and no live block overlaps the header of another. */
  lemma LiveApart(h: Heap, a: nat, b: nat)
    requires HeapInv(h) && a in h.live && b in h.live && a < b
    ensures a + h.live[a] <= b - BLOCK_HEADER
  {
    hide HeapInv;
    LiveInside(h, a);
    LiveInside(h, b);
    var p, q := h.headers[a].slab, h.headers[b].slab;
    if p == q {
      SameBaseApart(h, a, b);
    } else {
      BasesApart(h, p, q);
    }
  }

  lemma BasesApart(h: Heap, p: nat, q: nat)
    requires HeapInv(h) && IsBase(h, p) && IsBase(h, q) && p != q
    ensures Disjoint(p, Bytes(h, p), q, Bytes(h, q))
  {
    hide ChainsRight, NothingLost, LiveRight, SlabsRight, Bytes;
  }

  // ---- Giving out a block ----

  /** An address inside a slab or big block can only be a live block of that one. */
  lemma OwnerOf(h: Heap, a: nat, p: nat)
    requires HeapInv(h) && a in h.live && IsBase(h, p) && p <= a < p + Bytes(h, p)
    ensures a in h.headers && h.headers[a].slab == p
  {
    hide HeapInv, Bytes;
    LiveInside(h, a);
    if h.headers[a].slab != p {
      BasesApart(h, p, h.headers[a].slab);
    }
  }

  lemma BlockInBase(h: Heap, p: nat, i: nat)
    requires SlabsRight(h) && p in h.slabs && i < MaxBlocks(h.slabs[p].cls)
    ensures h.slabs[p].cls < CLASSES && p <= Data(p, h.slabs[p].cls, i) < p + Bytes(h, p)
    ensures p + Offset(h.slabs[p].cls) <= Data(p, h.slabs[p].cls, i) && BlockIndex(p, h.slabs[p].cls, Data(p, h.slabs[p].cls, i)) == i
  {
    assert SlabRight(h.slabs[p]);
    DataIndex(p, h.slabs[p].cls, i);
    DataInside(p, h.slabs[p].cls, i);
  }

  lemma InvParts(h: Heap)
    requires HeapInv(h)
    ensures RegionsRight(h) && SlabsRight(h) && ChainsRight(h) && LiveRight(h) && NothingLost(h)
  {
    hide RegionsRight, SlabsRight, ChainsRight, LiveRight, NothingLost;
  }

  /** A block is live exactly when its bit is set. */
  lemma LiveIffSet(h: Heap, p: nat, i: nat)
    requires HeapInv(h) && p in h.slabs && i < MaxBlocks(h.slabs[p].cls) && i / 8 < |h.slabs[p].bits|
    ensures Data(p, h.slabs[p].cls, i) in h.live <==> BitAt(h.slabs[p].bits, i)
  {
    hide HeapInv, RegionsRight, SlabsRight, ChainsRight, LiveRight, Data, Clear, Bytes, BitAt, BlockIndex;
    InvParts(h);
    BlockInBase(h, p, i);
    var a := Data(p, h.slabs[p].cls, i);
    if a in h.live {
      OwnerOf(h, a, p);
      LiveSlabBlock(h, a);
    }
  }

  lemma LiveSlabBlock(h: Heap, a: nat)
    requires RegionsRight(h) && LiveRight(h) && a in h.live && a in h.headers && h.headers[a].slab in h.slabs
    ensures SlabBlock(h, a)
  {
    hide BitAt, Data, BlockIndex;
  }

  // Each part of the invariant after giving out block i of slab p.

  ghost predicate CanTake(h: Heap, p: nat, i: nat, n: nat) {
    p in h.slabs && h.slabs[p].free > 0 && i < MaxBlocks(h.slabs[p].cls) && i / 8 < |h.slabs[p].bits| &&
    !BitAt(h.slabs[p].bits, i) && 0 < n <= ClassSize(h.slabs[p].cls)
  }

  lemma TakeSlabs(h: Heap, p: nat, i: nat, n: nat)
    requires SlabsRight(h) && CanTake(h, p, i, n)
    ensures SlabsRight(Take(h, p, i, n))
  {
    var s := h.slabs[p];
    assert SlabRight(s);
    ClearUpdate(s.bits, i, true, MaxBlocks(s.cls));
    assert SlabRight(Take(h, p, i, n).slabs[p]);
    hide SlabRight;
  }

  lemma TakeRegions(h: Heap, p: nat, i: nat, n: nat)
    requires RegionsRight(h) && ChainsRight(h) && CanTake(h, p, i, n)
    ensures RegionsRight(Take(h, p, i, n)) && ChainsRight(Take(h, p, i, n))
  {
    var t := Take(h, p, i, n);
    assert t.slabs.Keys == h.slabs.Keys && t.bigs == h.bigs && t.chains == h.chains;
    assert forall q :: q in h.slabs ==> t.slabs[q].cls == h.slabs[q].cls;
    assert forall q :: IsBase(t, q) == IsBase(h, q) && Bytes(t, q) == Bytes(h, q);
    hide Take, CanTake, Bytes, IsBase;
  }

  lemma TakeLive(h: Heap, p: nat, i: nat, n: nat)
    requires HeapInv(h) && CanTake(h, p, i, n)
    ensures LiveRight(Take(h, p, i, n))
  {
    hide HeapInv, RegionsRight, ChainsRight, NothingLost, SlabsRight, Clear, Mask, Bytes;
    InvParts(h);
    BlockInBase(h, p, i);
    LiveIffSet(h, p, i);
    var t, a := Take(h, p, i, n), Data(p, h.slabs[p].cls, i);
    WithBitAt(h.slabs[p].bits, i, true, i);
    hide Data, Offset, ClassSize, MaxBlocks, BlockIndex;
    forall b | b in t.live
      ensures b in t.headers && (SlabBlock(t, b) || BigBlock(t, b))
    {
      if b != a {
        StillBlock(h, t, p, i, b);
      }
    }
  }

  /** Another live block is not affected by one more set bit. */
  lemma StillBlock(h: Heap, t: Heap, p: nat, i: nat, b: nat)
    requires p in h.slabs && p in t.slabs && i / 8 < |h.slabs[p].bits| && b in h.live && b in h.headers && b in t.live && b in t.headers
    requires t.slabs[p].cls == h.slabs[p].cls && t.slabs[p].bits == WithBit(h.slabs[p].bits, i, true)
    requires t.bigs == h.bigs && t.headers[b] == h.headers[b] && t.live[b] == h.live[b]
    requires forall q :: q in h.slabs && q != p ==> q in t.slabs && t.slabs[q] == h.slabs[q]
    requires SlabBlock(h, b) || BigBlock(h, b)
    ensures SlabBlock(t, b) || BigBlock(t, b)
  {
    hide Data, Offset, ClassSize, MaxBlocks, WithBit, BitAt;
    var q := h.headers[b].slab;
    if q == p && SlabBlock(h, b) {
      WithBitAt(h.slabs[p].bits, i, true, BlockIndex(p, h.slabs[p].cls, b));
    }
  }

  lemma TakeLost(h: Heap, p: nat, i: nat, n: nat)
    requires NothingLost(h) && SlabsRight(h) && CanTake(h, p, i, n)
    ensures NothingLost(Take(h, p, i, n))
  {
    var t := Take(h, p, i, n);
    hide Data, ClassSize, MaxBlocks, WithBit, BitAt, SlabsRight;
    forall q, j: nat | q in t.slabs && j < MaxBlocks(t.slabs[q].cls) && j / 8 < |t.slabs[q].bits| && BitAt(t.slabs[q].bits, j)
      ensures Data(q, t.slabs[q].cls, j) in t.live
    {
      if q == p {
        WithBitAt(h.slabs[p].bits, i, true, j);
      }
    }
  }

  lemma TakeInv(h: Heap, p: nat, i: nat, n: nat)
    requires HeapInv(h) && CanTake(h, p, i, n)
    ensures HeapInv(Take(h, p, i, n)) && Data(p, h.slabs[p].cls, i) !in h.live
  {
    hide HeapInv, RegionsRight, SlabsRight, ChainsRight, LiveRight, NothingLost, Take, Data;
    InvParts(h);
    LiveIffSet(h, p, i);
    TakeSlabs(h, p, i, n);
    TakeRegions(h, p, i, n);
    TakeLive(h, p, i, n);
    TakeLost(h, p, i, n);
    InvWhole(Take(h, p, i, n));
  }

  lemma InvWhole(h: Heap)
    requires RegionsRight(h) && SlabsRight(h) && ChainsRight(h) && LiveRight(h) && NothingLost(h)
    ensures HeapInv(h)
  {
    hide RegionsRight, SlabsRight, ChainsRight, LiveRight, NothingLost;
  }

  // ---- Memory from the OS ----

  /** The OS gives memory that nothing of the heap uses. */
  ghost predicate FreshRegion(h: Heap, os: nat, len: nat) {
    os > 0 && !IsBase(h, os) && forall q :: IsBase(h, q) ==> Disjoint(os, len, q, Bytes(h, q))
  }

  ghost function WithSlab(h: Heap, c: nat, os: nat): Heap
    requires c < |h.chains|
  {
    h.(slabs := h.slabs[os := FreshSlab(c)], chains := h.chains[c := h.chains[c] + [os]])
  }

  lemma ZeroBitsClear(c: nat, i: nat)
    requires i / 8 < |ZeroBits(c)|
    ensures !BitAt(ZeroBits(c), i)
  {
    assert 0 & Mask(i % 8) == 0;
  }

  lemma FreshSlabRight(c: nat)
    requires c < CLASSES
    ensures SlabRight(FreshSlab(c)) && Choice(FreshSlab(c)) == Some(0)
    ensures forall i: nat :: i / 8 < |FreshSlab(c).bits| ==> !BitAt(FreshSlab(c).bits, i)
  {
    forall i: nat | i / 8 < |FreshSlab(c).bits|
      ensures !BitAt(FreshSlab(c).bits, i)
    {
      ZeroBitsClear(c, i);
    }
    hide BitAt;
    ClearZero(ZeroBits(c), MaxBlocks(c));
    assert ZeroBits(c)[0] != 0xFF;
    assert !BitAt(ZeroBits(c), 0);
  }

  lemma WithSlabRegions(h: Heap, c: nat, os: nat)
    requires RegionsRight(h) && ChainsRight(h) && c < CLASSES && FreshRegion(h, os, SlabBytes(c))
    ensures RegionsRight(WithSlab(h, c, os)) && ChainsRight(WithSlab(h, c, os))
  {
    var t := WithSlab(h, c, os);
    assert t.slabs.Keys == h.slabs.Keys + {os};
    assert forall q :: IsBase(t, q) <==> IsBase(h, q) || q == os;
    assert forall q :: q != os ==> Bytes(t, q) == Bytes(h, q);
    assert Bytes(t, os) == SlabBytes(c);
    assert forall q :: q in h.slabs ==> q != os && t.slabs[q] == h.slabs[q];
    assert t.slabs[os].cls == c && t.bigs == h.bigs;
    hide Bytes, IsBase, SlabBytes, FreshSlab;
    assert RegionsRight(t);
    assert ChainsRight(t);
  }

  /** Slabs, big blocks and live blocks of h are in t as they were. */
  ghost predicate Extends(h: Heap, t: Heap) {
    (forall q :: q in h.slabs ==> q in t.slabs && t.slabs[q] == h.slabs[q]) &&
    (forall q :: q in h.bigs ==> q in t.bigs && t.bigs[q] == h.bigs[q]) &&
    (forall b :: b in h.live ==> b in t.live && t.live[b] == h.live[b] && (b in h.headers ==> b in t.headers && t.headers[b] == h.headers[b]))
  }

  lemma LiveExtends(h: Heap, t: Heap)
    requires LiveRight(h) && Extends(h, t)
    requires forall b :: b in t.live && b !in h.live ==> b in t.headers && (SlabBlock(t, b) || BigBlock(t, b))
    ensures LiveRight(t)
  {
    hide SlabBlock, BigBlock;
    forall b | b in h.live
      ensures b in t.live && b in t.headers && (SlabBlock(t, b) || BigBlock(t, b))
    {
      BlockStays(h, t, b);
    }
  }

  lemma WithSlabSlabs(h: Heap, c: nat, os: nat)
    requires SlabsRight(h) && c < CLASSES && c < |h.chains|
    ensures SlabsRight(WithSlab(h, c, os))
  {
    FreshSlabRight(c);
    hide FreshSlab, SlabRight;
  }

  lemma WithSlabLost(h: Heap, c: nat, os: nat)
    requires NothingLost(h) && c < CLASSES && c < |h.chains| && os !in h.slabs
    ensures NothingLost(WithSlab(h, c, os))
  {
    FreshSlabRight(c);
    hide FreshSlab, SlabRight, BitAt, Data, MaxBlocks;
  }

  lemma WithSlabRest(h: Heap, c: nat, os: nat)
    requires SlabsRight(h) && LiveRight(h) && NothingLost(h) && c < CLASSES && c < |h.chains| && os !in h.slabs
    ensures SlabsRight(WithSlab(h, c, os)) && LiveRight(WithSlab(h, c, os)) && NothingLost(WithSlab(h, c, os))
  {
    hide FreshSlab, SlabsRight, LiveRight, NothingLost, SlabBlock, BigBlock;
    WithSlabSlabs(h, c, os);
    WithSlabLost(h, c, os);
    assert Extends(h, WithSlab(h, c, os));
    LiveExtends(h, WithSlab(h, c, os));
  }

  /** A block is untouched by what is added beside it. */
  lemma BlockStays(h: Heap, t: Heap, b: nat)
    requires b in h.live && b in h.headers && (SlabBlock(h, b) || BigBlock(h, b))
    requires b in t.live && b in t.headers && t.live[b] == h.live[b] && t.headers[b] == h.headers[b]
    requires h.headers[b].slab in h.slabs ==> h.headers[b].slab in t.slabs && t.slabs[h.headers[b].slab] == h.slabs[h.headers[b].slab]
    requires h.headers[b].slab in h.bigs ==> h.headers[b].slab in t.bigs && t.bigs[h.headers[b].slab] == h.bigs[h.headers[b].slab]
    ensures SlabBlock(t, b) || BigBlock(t, b)
  {
    hide BitAt, Data, Offset, BlockIndex, ClassSize, MaxBlocks;
  }

  lemma WithSlabInv(h: Heap, c: nat, os: nat)
    requires HeapInv(h) && c < CLASSES && |h.chains| == CLASSES && FreshRegion(h, os, SlabBytes(c))
    ensures HeapInv(WithSlab(h, c, os))
  {
    hide HeapInv, RegionsRight, SlabsRight, ChainsRight, LiveRight, NothingLost, WithSlab, SlabBytes;
    InvParts(h);
    WithSlabRegions(h, c, os);
    WithSlabRest(h, c, os);
    InvWhole(WithSlab(h, c, os));
  }

  // ---- Big blocks ----

  lemma FreshNotLive(h: Heap, os: nat, len: nat, a: nat)
    requires HeapInv(h) && FreshRegion(h, os, len) && os <= a < os + len
    ensures a !in h.live
  {
    hide HeapInv, Bytes;
    if a in h.live {
      LiveInside(h, a);
    }
  }

  lemma BigRegions(h: Heap, os: nat, n: nat)
    requires RegionsRight(h) && ChainsRight(h) && n > 0x100 && n + BIG_SLAB < TWO32 && FreshRegion(h, os, n + BIG_SLAB)
    ensures RegionsRight(AllocBig(h, os, n).0) && ChainsRight(AllocBig(h, os, n).0)
  {
    var t := AllocBig(h, os, n).0;
    assert BigSize(n) == n + BIG_SLAB;
    assert t.bigs.Keys == h.bigs.Keys + {os} && t.slabs == h.slabs && t.chains == h.chains;
    assert forall q :: IsBase(t, q) <==> IsBase(h, q) || q == os;
    assert forall q :: q != os ==> Bytes(t, q) == Bytes(h, q);
    assert Bytes(t, os) == n + BIG_SLAB;
    hide Bytes, IsBase, AllocBig;
    assert RegionsRight(t);
  }

  lemma BigLost(h: Heap, os: nat, n: nat)
    requires NothingLost(h)
    ensures NothingLost(AllocBig(h, os, n).0)
  {
    hide BitAt, Data, MaxBlocks, BigSize;
  }

  lemma BigIsBlock(h: Heap, os: nat, n: nat)
    requires n > 0x100 && n + BIG_SLAB < TWO32
    ensures var t := AllocBig(h, os, n).0; os + BIG_DATA in t.live && os + BIG_DATA in t.headers && BigBlock(t, os + BIG_DATA)
  {
    assert BigSize(n) == n + BIG_SLAB;
  }

  lemma BigRest(h: Heap, os: nat, n: nat)
    requires SlabsRight(h) && LiveRight(h) && NothingLost(h) && n > 0x100 && n + BIG_SLAB < TWO32
    requires !IsBase(h, os) && os + BIG_DATA !in h.live
    ensures var t := AllocBig(h, os, n).0; SlabsRight(t) && LiveRight(t) && NothingLost(t)
  {
    hide LiveRight, NothingLost, SlabBlock, BigBlock, SlabRight, BigSize;
    BigLost(h, os, n);
    BigIsBlock(h, os, n);
    assert Extends(h, AllocBig(h, os, n).0);
    LiveExtends(h, AllocBig(h, os, n).0);
  }

  lemma BigInv(h: Heap, os: nat, n: nat)
    requires HeapInv(h) && n > 0x100 && n + BIG_SLAB < TWO32 && FreshRegion(h, os, n + BIG_SLAB)
    ensures HeapInv(AllocBig(h, os, n).0) && os + BIG_DATA !in h.live
  {
    hide HeapInv, RegionsRight, SlabsRight, ChainsRight, LiveRight, NothingLost, AllocBig;
    InvParts(h);
    FreshNotLive(h, os, n + BIG_SLAB, os + BIG_DATA);
    BigRegions(h, os, n);
    BigRest(h, os, n);
    InvWhole(AllocBig(h, os, n).0);
  }

  // ---- kmalloc ----

  /** What the OS is asked for, if it is asked. */
  function Demand(n: nat): nat {
    match ClassFor(n)
    case None => n + BIG_SLAB
    case Some(c) => SlabBytes(c)
  }

  /** The new heap has one more live block, of the size asked for, at an address that was not live; no slab is gone. */
  ghost predicate Given(h: Heap, t: Heap, a: nat, n: nat) {
    a != 0 && a !in h.live && t.live == h.live[a := n] && h.slabs.Keys <= t.slabs.Keys && h.bigs.Keys <= t.bigs.Keys
  }

  lemma ChoiceRight(s: Slab)
    requires SlabRight(s) && Choice(s).Some?
    ensures Choice(s).value < MaxBlocks(s.cls) && Choice(s).value / 8 < |s.bits| && !BitAt(s.bits, Choice(s).value) && s.free > 0
  {
    hide BitAt, Clear;
  }

  lemma TakeGiven(h: Heap, p: nat, i: nat, n: nat)
    requires CanTake(h, p, i, n) && Data(p, h.slabs[p].cls, i) !in h.live
    ensures Given(h, Take(h, p, i, n), Data(p, h.slabs[p].cls, i), n)
  {
    var t := Take(h, p, i, n);
    assert t.slabs.Keys == h.slabs.Keys;
  }

  lemma NewGiven(h: Heap, c: nat, os: nat, n: nat)
    requires HeapInv(h) && c < CLASSES && |h.chains| == CLASSES && 0 < n <= ClassSize(c) && FreshRegion(h, os, SlabBytes(c))
    ensures AllocNew(h, c, os, n).Ok?
    ensures var r := AllocNew(h, c, os, n).value; HeapInv(r.0) && Given(h, r.0, r.1, n)
  {
    hide HeapInv, Data, SlabBytes, Take, BitAt, Choice;
    var t := WithSlab(h, c, os);
    FreshSlabRight(c);
    WithSlabInv(h, c, os);
    assert CanTake(t, os, 0, n);
    TakeInv(t, os, 0, n);
    TakeGiven(t, os, 0, n);
  }

  /** Block i of the slab is free, and is the one that the search from the slab's last place comes upon. */
  ghost predicate Offers(s: Slab, i: nat) {
    Sized(s.bits, MaxBlocks(s.cls)) && Finds(s.bits, MaxBlocks(s.cls), s.nextFit, i)
  }

  /** No slab of the chain from the k-th on has a free block that its search comes upon. */
  ghost predicate NoneLeft(h: Heap, c: nat, k: nat)
    requires c < |h.chains| && k <= |h.chains[c]|
  {
    forall j, i: nat :: k <= j < |h.chains[c]| && h.chains[c][j] in h.slabs ==> !Offers(h.slabs[h.chains[c][j]], i)
  }

  /** The j-th slab of the chain is the first from the k-th on whose search comes upon a free block, and that is i. */
  ghost predicate FirstOffer(h: Heap, c: nat, k: nat, j: nat, i: nat)
    requires c < |h.chains|
  {
    k <= j < |h.chains[c]| && h.chains[c][j] in h.slabs && Offers(h.slabs[h.chains[c][j]], i) &&
    forall m, x: nat :: k <= m < j && h.chains[c][m] in h.slabs ==> !Offers(h.slabs[h.chains[c][m]], x)
  }

  /** A slab gives a block exactly when its search comes upon one: a free count of 0 goes with no clear bit. */
  lemma ChoiceIsOffer(s: Slab)
    requires SlabRight(s)
    ensures Choice(s).Some? ==> Offers(s, Choice(s).value)
    ensures forall i: nat :: Offers(s, i) ==> Choice(s) == Some(i)
  {
    hide BitAt, Clear, SkipScan, Finds;
    var m := MaxBlocks(s.cls);
    ClearBound(s.bits, m);
    forall i: nat | Offers(s, i)
      ensures Choice(s) == Some(i)
    {
      FindsIff(s.bits, m, s.nextFit, i);
      FindsClear(s.bits, m, s.nextFit, i);
    }
    if Choice(s).Some? {
      FindsIff(s.bits, m, s.nextFit, Choice(s).value);
    }
  }

  lemma FindsClear(data: seq<bv8>, size: nat, start: nat, i: nat)
    requires Sized(data, size) && Finds(data, size, start, i)
    ensures i < size && !BitAt(data, i)
  {
    hide BitAt, Enters;
  }

  lemma {:induction false} AllocGiven(h: Heap, c: nat, k: nat, os: nat, n: nat)
    requires HeapInv(h) && c < CLASSES && |h.chains| == CLASSES && k < |h.chains[c]|
    requires 0 < n <= ClassSize(c) && (os == 0 || FreshRegion(h, os, SlabBytes(c)))
    ensures AllocFrom(h, c, k, os, n).Ok?
    ensures var r := AllocFrom(h, c, k, os, n).value;
      if os == 0 && NoneLeft(h, c, k) then r == (h, 0) else HeapInv(r.0) && Given(h, r.0, r.1, n)
    ensures NoneLeft(h, c, k) ==> AllocFrom(h, c, k, os, n) == AllocNew(h, c, os, n)
    ensures !NoneLeft(h, c, k) ==>
      (exists j: nat, i: nat :: FirstOffer(h, c, k, j, i) && CanTake(h, h.chains[c][j], i, n) &&
        AllocFrom(h, c, k, os, n).value == (Take(h, h.chains[c][j], i, n), Data(h.chains[c][j], c, i)))
    decreases |h.chains[c]| - k
  {
    hide HeapInv, Data, SlabBytes, Take, BitAt, Choice, AllocNew, FreshRegion, Given, SlabRight, Offers;
    ChainMember(h, c, k);
    var p := h.chains[c][k];
    ChoiceIsOffer(h.slabs[p]);
    if Choice(h.slabs[p]).Some? {
      ChoiceRight(h.slabs[p]);
      TakeInv(h, p, Choice(h.slabs[p]).value, n);
      TakeGiven(h, p, Choice(h.slabs[p]).value, n);
      assert FirstOffer(h, c, k, k, Choice(h.slabs[p]).value);
    } else if k + 1 < |h.chains[c]| {
      AllocGiven(h, c, k + 1, os, n);
      if !NoneLeft(h, c, k + 1) {
        var j: nat, i: nat :| FirstOffer(h, c, k + 1, j, i) && CanTake(h, h.chains[c][j], i, n) &&
          AllocFrom(h, c, k + 1, os, n).value == (Take(h, h.chains[c][j], i, n), Data(h.chains[c][j], c, i));
        assert FirstOffer(h, c, k, j, i);
      }
    } else if os != 0 {
      NewGiven(h, c, os, n);
    } else {
      NoMemory(h, c, n);
    }
  }

  lemma NoMemory(h: Heap, c: nat, n: nat)
    requires c < |h.chains|
    ensures AllocNew(h, c, 0, n) == Ok((h, 0))
  {
  }

  lemma ChainMember(h: Heap, c: nat, k: nat)
    requires HeapInv(h) && c < CLASSES && |h.chains| == CLASSES && k < |h.chains[c]|
    ensures h.chains[c][k] in h.slabs && h.slabs[h.chains[c][k]].cls == c && SlabRight(h.slabs[h.chains[c][k]])
  {
    hide RegionsRight, LiveRight, NothingLost, SlabRight;
    assert h.chains[c][k] in h.chains[c];
  }

  lemma ChainsThere(h: Heap)
    requires HeapInv(h)
    ensures |h.chains| == CLASSES && forall c :: 0 <= c < CLASSES ==> h.chains[c] != []
  {
    hide RegionsRight, LiveRight, NothingLost, SlabsRight;
  }

  /** kmalloc keeps the invariant and gives a block of the size asked for. It gives null, and changes nothing, exactly
      for no bytes or when the chain has none left and the OS gives no memory; it fails exactly when the OS gives no
      memory for a big block. */
  lemma KmallocRight(h: Heap, n: nat, os: nat)
    requires HeapInv(h) && n + BIG_SLAB < TWO32 && (os == 0 || FreshRegion(h, os, Demand(n)))
    ensures |h.chains| == CLASSES
    ensures Kmalloc(h, n, os).Panic? <==> os == 0 && ClassFor(n).None?
    ensures Kmalloc(h, n, os).Ok? ==>
      var r := Kmalloc(h, n, os).value;
      HeapInv(r.0) &&
      if n == 0 || (os == 0 && NoneLeft(h, ClassFor(n).value, 0)) then r == (h, 0) else Given(h, r.0, r.1, n)
  {
    hide HeapInv, Given, AllocFrom, SlabBytes, FreshRegion, NoneLeft;
    ChainsThere(h);
    if n > 0 {
      match ClassFor(n)
      case None =>
        if os != 0 {
          BigInv(h, os, n);
          BigGiven(h, os, n);
        }
      case Some(c) => AllocGiven(h, c, 0, os, n);
    }
  }

  lemma BigGiven(h: Heap, os: nat, n: nat)
    requires os + BIG_DATA !in h.live
    ensures Given(h, AllocBig(h, os, n).0, AllocBig(h, os, n).1, n)
  {
    assert AllocBig(h, os, n).0.bigs.Keys == h.bigs.Keys + {os};
  }

  /** The memory asked for holds a big block exactly when the size sum does not wrap. */
  lemma BigFits(n: nat)
    requires n < TWO32
    ensures BIG_DATA + n <= BigSize(n) <==> n + BIG_SLAB < TWO32
  {
  }

  // ---- kfree ----

  /** Giving back block i of slab p, without the branch that unmaps the slab. */
  ghost function Put(h: Heap, p: nat, i: nat, a: nat): Heap
    requires p in h.slabs && i / 8 < |h.slabs[p].bits|
  {
    var s := h.slabs[p];
    h.(slabs := h.slabs[p := Slab(s.cls, s.free + 1, i, WithBit(s.bits, i, false))], live := h.live - {a})
  }

  ghost predicate CanPut(h: Heap, p: nat, i: nat, a: nat) {
    p in h.slabs && i < MaxBlocks(h.slabs[p].cls) && i / 8 < |h.slabs[p].bits| && BitAt(h.slabs[p].bits, i) &&
    a == Data(p, h.slabs[p].cls, i) && a in h.live
  }

  /** The count has just gone up, so it is not zero: the branch that unmaps a chained slab is never taken. */
  lemma NeverUnmapped(h: Heap, p: nat, i: nat, a: nat)
    requires SlabsRight(h) && CanPut(h, p, i, a)
    ensures Release(h, p, i, a) == Put(h, p, i, a) && h.slabs[p].free < MaxBlocks(h.slabs[p].cls)
  {
    hide BitAt, Clear, Data, WithBit, MaxBlocks;
    var s := h.slabs[p];
    assert SlabRight(s);
    FreeRises(s, i);
  }

  lemma FreeRises(s: Slab, i: nat)
    requires SlabRight(s) && i < MaxBlocks(s.cls) && i / 8 < |s.bits| && BitAt(s.bits, i)
    ensures s.free < MaxBlocks(s.cls) && (s.free + 1) % TWO32 == s.free + 1
  {
    hide BitAt, Clear, WithBit;
    ClearUpdate(s.bits, i, false, MaxBlocks(s.cls));
    ClearBound(WithBit(s.bits, i, false), MaxBlocks(s.cls));
  }

  lemma PutSlabs(h: Heap, p: nat, i: nat, a: nat)
    requires SlabsRight(h) && CanPut(h, p, i, a)
    ensures SlabsRight(Put(h, p, i, a))
  {
    var s := h.slabs[p];
    assert SlabRight(s);
    ClearUpdate(s.bits, i, false, MaxBlocks(s.cls));
    assert SlabRight(Put(h, p, i, a).slabs[p]);
    hide SlabRight;
  }

  lemma PutRegions(h: Heap, p: nat, i: nat, a: nat)
    requires RegionsRight(h) && ChainsRight(h) && CanPut(h, p, i, a)
    ensures RegionsRight(Put(h, p, i, a)) && ChainsRight(Put(h, p, i, a))
  {
    var t := Put(h, p, i, a);
    assert t.slabs.Keys == h.slabs.Keys && t.bigs == h.bigs && t.chains == h.chains;
    assert forall q :: q in h.slabs ==> t.slabs[q].cls == h.slabs[q].cls;
    assert forall q :: IsBase(t, q) == IsBase(h, q) && Bytes(t, q) == Bytes(h, q);
    hide Put, CanPut, Bytes, IsBase;
  }

  /** Clearing one bit leaves every block but its own. */
  lemma PutBlock(h: Heap, p: nat, i: nat, a: nat, b: nat)
    requires CanPut(h, p, i, a) && b in h.live && b != a && b in h.headers && (SlabBlock(h, b) || BigBlock(h, b))
    ensures var t := Put(h, p, i, a); b in t.live && b in t.headers && (SlabBlock(t, b) || BigBlock(t, b))
  {
    hide Data, Offset, ClassSize, MaxBlocks, WithBit, BitAt;
    if h.headers[b].slab == p && SlabBlock(h, b) {
      WithBitAt(h.slabs[p].bits, i, false, BlockIndex(p, h.slabs[p].cls, b));
    }
  }

  lemma PutLive(h: Heap, p: nat, i: nat, a: nat)
    requires LiveRight(h) && CanPut(h, p, i, a)
    ensures LiveRight(Put(h, p, i, a))
  {
    var t := Put(h, p, i, a);
    hide SlabBlock, BigBlock;
    forall b | b in t.live
      ensures b in t.headers && (SlabBlock(t, b) || BigBlock(t, b))
    {
      PutBlock(h, p, i, a, b);
    }
  }

  lemma PutLost(h: Heap, p: nat, i: nat, a: nat)
    requires HeapInv(h) && CanPut(h, p, i, a)
    ensures NothingLost(Put(h, p, i, a))
  {
    hide HeapInv, Data, MaxBlocks, WithBit, BitAt, RegionsRight, SlabsRight, LiveRight, Bytes;
    InvParts(h);
    var t := Put(h, p, i, a);
    forall q, j: nat | q in t.slabs && j < MaxBlocks(t.slabs[q].cls) && j / 8 < |t.slabs[q].bits| && BitAt(t.slabs[q].bits, j)
      ensures Data(q, t.slabs[q].cls, j) in t.live
    {
      if q == p {
        WithBitAt(h.slabs[p].bits, i, false, j);
      }
      OtherBlock(h, p, i, q, j);
    }
    forall q | q in h.bigs
      ensures q + BIG_DATA in t.live
    {
      BigIsNot(h, p, i, q);
    }
  }

  lemma OtherBlock(h: Heap, p: nat, i: nat, q: nat, j: nat)
    requires HeapInv(h) && p in h.slabs && i < MaxBlocks(h.slabs[p].cls) && q in h.slabs && j < MaxBlocks(h.slabs[q].cls) && (q != p || j != i)
    ensures Data(q, h.slabs[q].cls, j) != Data(p, h.slabs[p].cls, i)
  {
    hide HeapInv, RegionsRight, SlabsRight, ChainsRight, LiveRight, NothingLost, Bytes, Data, BlockIndex;
    InvParts(h);
    BlockInBase(h, p, i);
    BlockInBase(h, q, j);
    if q != p {
      BasesApart(h, p, q);
    }
  }

  lemma BigIsNot(h: Heap, p: nat, i: nat, q: nat)
    requires HeapInv(h) && p in h.slabs && i < MaxBlocks(h.slabs[p].cls) && q in h.bigs
    ensures q + BIG_DATA != Data(p, h.slabs[p].cls, i)
  {
    hide HeapInv, SlabsRight, ChainsRight, LiveRight, NothingLost, Data, BlockIndex;
    InvParts(h);
    BlockInBase(h, p, i);
    BasesApart(h, p, q);
    BigBytes(h, q);
  }

  lemma BigBytes(h: Heap, q: nat)
    requires RegionsRight(h) && q in h.bigs
    ensures Bytes(h, q) == h.bigs[q] > 0x100 + BIG_SLAB
  {
  }

  lemma PutInv(h: Heap, p: nat, i: nat, a: nat)
    requires HeapInv(h) && CanPut(h, p, i, a)
    ensures HeapInv(Put(h, p, i, a))
  {
    hide HeapInv, RegionsRight, SlabsRight, ChainsRight, LiveRight, NothingLost, Put, BitAt, Data;
    InvParts(h);
    PutSlabs(h, p, i, a);
    PutRegions(h, p, i, a);
    PutLive(h, p, i, a);
    PutLost(h, p, i, a);
    InvWhole(Put(h, p, i, a));
  }

  /** A big block handed back to the OS. */
  ghost function PutBig(h: Heap, p: nat, a: nat): Heap { h.(bigs := h.bigs - {p}, live := h.live - {a}) }

  lemma PutBigRegions(h: Heap, p: nat, a: nat)
    requires RegionsRight(h) && ChainsRight(h) && SlabsRight(h) && p in h.bigs
    ensures RegionsRight(PutBig(h, p, a)) && ChainsRight(PutBig(h, p, a)) && SlabsRight(PutBig(h, p, a))
  {
    var t := PutBig(h, p, a);
    assert t.slabs == h.slabs && t.chains == h.chains;
    assert forall q :: IsBase(t, q) ==> IsBase(h, q) && Bytes(t, q) == Bytes(h, q);
    hide Bytes, IsBase, SlabRight;
  }

  lemma PutBigLive(h: Heap, p: nat, a: nat)
    requires RegionsRight(h) && LiveRight(h) && p in h.bigs && a == p + BIG_DATA
    ensures LiveRight(PutBig(h, p, a))
  {
    var t := PutBig(h, p, a);
    hide BitAt, Data, Offset, BlockIndex, ClassSize, MaxBlocks, Bytes;
    forall b | b in t.live
      ensures b in t.headers && (SlabBlock(t, b) || BigBlock(t, b))
    {
      assert SlabBlock(h, b) || BigBlock(h, b);
    }
  }

  lemma PutBigLost(h: Heap, p: nat, a: nat)
    requires HeapInv(h) && p in h.bigs && a == p + BIG_DATA
    ensures NothingLost(PutBig(h, p, a))
  {
    hide HeapInv, Data, MaxBlocks, BitAt, RegionsRight, SlabsRight, LiveRight, ChainsRight, Bytes;
    InvParts(h);
    var t := PutBig(h, p, a);
    forall q, j: nat | q in t.slabs && j < MaxBlocks(t.slabs[q].cls) && j / 8 < |t.slabs[q].bits| && BitAt(t.slabs[q].bits, j)
      ensures Data(q, t.slabs[q].cls, j) in t.live
    {
      BigIsNot(h, q, j, p);
    }
  }

  lemma PutBigInv(h: Heap, p: nat, a: nat)
    requires HeapInv(h) && p in h.bigs && a == p + BIG_DATA
    ensures HeapInv(PutBig(h, p, a))
  {
    hide HeapInv, RegionsRight, SlabsRight, ChainsRight, LiveRight, NothingLost, PutBig;
    InvParts(h);
    PutBigRegions(h, p, a);
    PutBigLive(h, p, a);
    PutBigLost(h, p, a);
    InvWhole(PutBig(h, p, a));
  }

  lemma ClassRecovered(c: nat)
    requires c < CLASSES
    ensures ClassOf(ClassSize(c)) == Some(c)
  {
  }

  /** The header and the index division lead back to the block that was given out. */
  lemma KfreeSlab(h: Heap, a: nat)
    requires HeapInv(h) && a in h.live && a in h.headers && SlabBlock(h, a)
    ensures var p := h.headers[a].slab;
      p in h.slabs && h.slabs[p].cls < CLASSES && p + Offset(h.slabs[p].cls) <= a &&
      CanPut(h, p, BlockIndex(p, h.slabs[p].cls, a), a) && Kfree(h, a) == Ok(Put(h, p, BlockIndex(p, h.slabs[p].cls, a), a))
  {
    hide RegionsRight, ChainsRight, NothingLost, LiveRight, BitAt, Clear, Data, Release, Put, InSlab, Offset, MaxBlocks, ClassSize;
    var p := h.headers[a].slab;
    assert SlabRight(h.slabs[p]);
    ClassRecovered(h.slabs[p].cls);
    DataInside(p, h.slabs[p].cls, BlockIndex(p, h.slabs[p].cls, a));
    BasePositive(h, p);
    NeverUnmapped(h, p, BlockIndex(p, h.slabs[p].cls, a), a);
  }

  lemma BasePositive(h: Heap, p: nat)
    requires HeapInv(h) && IsBase(h, p)
    ensures p > 0
  {
    hide ChainsRight, NothingLost, LiveRight, SlabsRight, Bytes;
  }

  lemma KfreeBig(h: Heap, a: nat)
    requires HeapInv(h) && a in h.live && a in h.headers && BigBlock(h, a)
    ensures h.headers[a].slab in h.bigs && a == h.headers[a].slab + BIG_DATA && Kfree(h, a) == Ok(PutBig(h, h.headers[a].slab, a))
  {
    hide HeapInv, Release, InSlab;
    BasePositive(h, h.headers[a].slab);
  }

  /** kfree of a live block never fails: it takes that block and nothing else away, and unmaps no slab. */
  lemma KfreeRight(h: Heap, a: nat)
    requires HeapInv(h) && (a == 0 || a in h.live)
    ensures Kfree(h, a).Ok? && HeapInv(Kfree(h, a).value)
    ensures var t := Kfree(h, a).value;
      t.live == (if a == 0 then h.live else h.live - {a}) && t.slabs.Keys == h.slabs.Keys && t.chains == h.chains
  {
    hide HeapInv, SlabBlock, BigBlock, CanPut, BlockIndex, Offset;
    if a != 0 {
      InvBlock(h, a);
      var p := h.headers[a].slab;
      if SlabBlock(h, a) {
        KfreeSlab(h, a);
        hide Kfree;
        PutInv(h, p, BlockIndex(p, h.slabs[p].cls, a), a);
        PutKeys(h, p, BlockIndex(p, h.slabs[p].cls, a), a);
      } else {
        KfreeBig(h, a);
        hide Kfree;
        PutBigInv(h, p, a);
      }
    }
  }

  lemma PutKeys(h: Heap, p: nat, i: nat, a: nat)
    requires CanPut(h, p, i, a)
    ensures Put(h, p, i, a).slabs.Keys == h.slabs.Keys
  {
  }

  lemma InvBlock(h: Heap, a: nat)
    requires HeapInv(h) && a in h.live
    ensures a in h.headers && (SlabBlock(h, a) || BigBlock(h, a)) && a > 0
  {
    hide RegionsRight, SlabsRight, ChainsRight, NothingLost, SlabBlock, BigBlock;
    LiveInside(h, a);
  }

  // ---- Runs ----

  datatype Event = DoMalloc(n: nat, os: nat) | DoFree(a: nat)

  /** Requests for which the big-block size does not wrap; memory from the OS is unused, and there is some when a big
      block asks for it; only live blocks or null are freed. */
  ghost predicate Enabled(h: Heap, e: Event) {
    match e
    case DoMalloc(n, os) => n + BIG_SLAB < TWO32 && (FreshRegion(h, os, Demand(n)) || (os == 0 && ClassFor(n).Some?))
    case DoFree(a) => a == 0 || a in h.live
  }

  ghost function Step(h: Heap, e: Event): Outcome<Heap> {
    match e
    case DoMalloc(n, os) =>
      var r :- Kmalloc(h, n, os);
      Ok(r.0)
    case DoFree(a) => Kfree(h, a)
  }

  lemma StepKeeps(h: Heap, e: Event)
    requires HeapInv(h) && Enabled(h, e)
    ensures Step(h, e).Ok? && HeapInv(Step(h, e).value) && h.slabs.Keys <= Step(h, e).value.slabs.Keys
  {
    hide HeapInv, Kmalloc, Kfree;
    match e
    case DoMalloc(n, os) => KmallocRight(h, n, os);
    case DoFree(a) => KfreeRight(h, a);
  }

  /** The heap at start: one empty slab of each class. */
  ghost predicate Started(h: Heap) {
    h.bigs == map[] && h.live == map[] && RegionsRight(h) && ChainsRight(h) &&
    forall p :: p in h.slabs ==> h.slabs[p].cls < CLASSES && h.slabs[p] == FreshSlab(h.slabs[p].cls)
  }

  ghost predicate Placed(bases: seq<nat>) {
    |bases| == CLASSES && (forall i :: 0 <= i < CLASSES ==> bases[i] > 0) &&
    forall i, j :: 0 <= i < j < CLASSES ==> bases[i] != bases[j] && Disjoint(bases[i], SlabBytes(i), bases[j], SlabBytes(j))
  }

  /** The five static slabs, wherever they are put without overlap, make a heap to start from. */
  lemma StartStarted(bases: seq<nat>)
    requires Placed(bases)
    ensures Started(Start(bases))
  {
    var h := Start(bases);
    forall i | 0 <= i < CLASSES
      ensures bases[i] in h.slabs && h.slabs[bases[i]] == FreshSlab(i)
    {
      StartSlab(bases, i);
    }
    hide FreshSlab, SlabBytes;
    assert forall p :: p in h.slabs ==> exists i :: 0 <= i < CLASSES && p == bases[i];
    assert forall i :: 0 <= i < CLASSES ==> FreshSlab(i).cls == i by {
      FreshClasses();
    }
    assert forall i :: 0 <= i < CLASSES ==> h.chains[i] == [bases[i]];
    hide Start;
  }

  lemma FreshClasses()
    ensures forall i: nat :: FreshSlab(i).cls == i
  {
  }

  lemma StartSlab(bases: seq<nat>, i: nat)
    requires |bases| == CLASSES && i < CLASSES && forall k, j :: 0 <= k < j < CLASSES ==> bases[k] != bases[j]
    ensures bases[i] in Start(bases).slabs && Start(bases).slabs[bases[i]] == FreshSlab(i)
  {
    hide FreshSlab;
  }

  lemma StartedInv(h: Heap)
    requires Started(h)
    ensures HeapInv(h)
  {
    forall p | p in h.slabs
      ensures SlabRight(h.slabs[p]) && forall i: nat :: i / 8 < |h.slabs[p].bits| ==> !BitAt(h.slabs[p].bits, i)
    {
      FreshSlabRight(h.slabs[p].cls);
    }
    hide FreshSlab, BitAt, SlabRight, RegionsRight, ChainsRight, MaxBlocks;
  }

  ghost predicate IsRun(hs: seq<Heap>, es: seq<Event>) {
    |hs| == |es| + 1 && Started(hs[0]) &&
    forall i :: 0 <= i < |es| ==> Enabled(hs[i], es[i]) && Step(hs[i], es[i]) == Ok(hs[i + 1])
  }

  lemma {:induction false} RunKeeps(hs: seq<Heap>, es: seq<Event>, i: nat)
    requires IsRun(hs, es) && i < |hs|
    ensures HeapInv(hs[i])
  {
    hide HeapInv, Started, Enabled, Step;
    if i == 0 {
      StartedInv(hs[0]);
    } else {
      RunKeeps(hs, es, i - 1);
      StepKeeps(hs[i - 1], es[i - 1]);
    }
  }

  /** Over every run: live blocks have at least the size asked for, lie in memory of the heap behind what the
      allocator keeps there, and do not overlap one another or each other's headers; each slab's free count is its
      number of clear bits. */
  lemma HeapSafety(hs: seq<Heap>, es: seq<Event>, i: nat)
    requires IsRun(hs, es) && i < |hs|
    ensures var h := hs[i];
      (forall a, b :: a in h.live && b in h.live && a < b ==> a + h.live[a] <= b - BLOCK_HEADER) &&
      (forall a :: a in h.live ==> a in h.headers && InRegion(h, a)) &&
      (forall p :: p in h.slabs ==> SlabRight(h.slabs[p]))
  {
    hide HeapInv, IsRun, Bytes, SlabRight;
    RunKeeps(hs, es, i);
    var h := hs[i];
    forall a, b | a in h.live && b in h.live && a < b
      ensures a + h.live[a] <= b - BLOCK_HEADER
    {
      LiveApart(h, a, b);
    }
    forall a | a in h.live
      ensures a in h.headers && InRegion(h, a)
    {
      LiveInside(h, a);
    }
    InvParts(h);
  }

  ghost predicate InRegion(h: Heap, a: nat)
    requires a in h.live && a in h.headers
  {
    var p := h.headers[a].slab;
    IsBase(h, p) && p + BLOCK_HEADER < a && a + h.live[a] <= p + Bytes(h, p)
  }

  /** No slab is unmapped, ever. */
  lemma {:induction false} SlabsStay(hs: seq<Heap>, es: seq<Event>, i: nat, j: nat)
    requires IsRun(hs, es) && i <= j < |hs|
    ensures hs[i].slabs.Keys <= hs[j].slabs.Keys
  {
    hide HeapInv, Started, Enabled, Step;
    if i < j {
      SlabsStay(hs, es, i, j - 1);
      RunKeeps(hs, es, j - 1);
      assert Step(hs[j - 1], es[j - 1]) == Ok(hs[j]);
      StepKeeps(hs[j - 1], es[j - 1]);
    }
  }

  /** Freeing what was just allocated leaves the live blocks as they were. */
  lemma MallocFree(h: Heap, n: nat, os: nat)
    requires HeapInv(h) && n + BIG_SLAB < TWO32 && (FreshRegion(h, os, Demand(n)) || (os == 0 && ClassFor(n).Some?))
    ensures Kmalloc(h, n, os).Ok?
    ensures var r := Kmalloc(h, n, os).value; Kfree(r.0, r.1).Ok? && Kfree(r.0, r.1).value.live == h.live
  {
    hide HeapInv, Kmalloc, Kfree;
    KmallocRight(h, n, os);
    var r := Kmalloc(h, n, os).value;
    KfreeRight(r.0, r.1);
    if r.1 != 0 {
      assert r.0.live - {r.1} == h.live;
    }
  }
}
