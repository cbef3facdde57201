/** The kernel heap: size classes, each a growing chain of slabs with a bitmap, and big blocks from the OS. */
module Heaps {
  import opened Common
  import opened Bitmaps

  // ---- Layout in memory ----

  const CLASSES: nat := 5
  const SLAB_MEMORY: nat := 0x1000
  const BLOCK_HEADER: nat := 8
  const BIG_SLAB: nat := 16
  const BIG_DATA: nat := 12

  /** The block sizes 0x10, 0x20, 0x40, 0x80 and 0x100. */
  function ClassSize(c: nat): nat {
    match c
    case 0 => 0x10 case 1 => 0x20 case 2 => 0x40 case 3 => 0x80 case _ => 0x100
  }

  function Align4(x: nat): nat { (x + 3) / 4 * 4 }

  /** A slab header: six words and a bitmap. */
  function HeaderBytes(blocks: nat): nat { Align4(24 + blocks / 8 + 1) }

  function Stride(c: nat): nat { ClassSize(c) + BLOCK_HEADER }

  /** How many blocks a slab has, and where they start in it. */
  function MaxBlocks(c: nat): nat {
    match c
    case 0 => 168 case 1 => 101 case 2 => 56 case 3 => 29 case _ => 15
  }

  function Offset(c: nat): nat {
    match c
    case 0 => 56 case 1 => 48 case 2 => 40 case _ => 36
  }

  function SlabBytes(c: nat): nat { Offset(c) + MaxBlocks(c) * Stride(c) }

  /** The compile-time layout: as many blocks as fit behind a header for the largest conceivable number of them,
      placed behind the lock and the real header; the slab fits the one page that is requested for it. */
  predicate LaidOut(size: nat, blocks: nat, offset: nat)
    requires size > 0
  {
    var room := SLAB_MEMORY - HeaderBytes(SLAB_MEMORY / size);
    room > 0 && blocks == room / (size + BLOCK_HEADER) && offset == 8 + HeaderBytes(blocks) &&
    offset + blocks * (size + BLOCK_HEADER) <= SLAB_MEMORY
  }

  lemma Layout(c: nat)
    requires c < CLASSES
    ensures ClassSize(c) == [0x10, 0x20, 0x40, 0x80, 0x100][c] && LaidOut(ClassSize(c), MaxBlocks(c), Offset(c))
  {
    assert LaidOut(0x10, 168, 56);
    assert LaidOut(0x20, 101, 48);
    assert LaidOut(0x40, 56, 40);
    assert LaidOut(0x80, 29, 36);
    assert LaidOut(0x100, 15, 36);
    hide LaidOut;
  }

  // ---- State ----

  datatype Slab = Slab(cls: nat, free: nat, nextFit: nat, bits: seq<bv8>)

  /** What stands in front of a block's data. */
  datatype Header = Header(slab: nat, size: nat)

  /** Slabs and big blocks by address; `chains` has the addresses of each class's slabs from first to last.
      `headers` are the block headers by data address, `live` the blocks in use with the size asked for. */
  datatype Heap = Heap(slabs: map<nat, Slab>, chains: seq<seq<nat>>, bigs: map<nat, nat>, headers: map<nat, Header>, live: map<nat, nat>)

  function ZeroBits(c: nat): seq<bv8> { seq(MaxBlocks(c) / 8 + 1, _ => 0) }

  /** A slab as Slab::init leaves it in zeroed memory. */
  function FreshSlab(c: nat): Slab { Slab(c, MaxBlocks(c), 0, ZeroBits(c)) }

  /** Heap::setup, given where the five static slabs are. */
  function Start(bases: seq<nat>): Heap
    requires |bases| == CLASSES
  {
    Heap(map[bases[0] := FreshSlab(0), bases[1] := FreshSlab(1), bases[2] := FreshSlab(2), bases[3] := FreshSlab(3), bases[4] := FreshSlab(4)],
         [[bases[0]], [bases[1]], [bases[2]], [bases[3]], [bases[4]]], map[], map[], map[])
  }

  /** The address of a block's data. */
  function Data(p: nat, c: nat, i: nat): nat { p + Offset(c) + i * Stride(c) + BLOCK_HEADER }

  // ---- Allocation ----

  /** alloc_in_current_slab, for a request of n bytes */
  function Take(h: Heap, p: nat, i: nat, n: nat): Heap
    requires p in h.slabs && i / 8 < |h.slabs[p].bits| && h.slabs[p].free > 0
  {
    var s := h.slabs[p];
    var a := Data(p, s.cls, i);
    h.(slabs := h.slabs[p := Slab(s.cls, s.free - 1, (i + 1) % MaxBlocks(s.cls), WithBit(s.bits, i, true))],
       headers := h.headers[a := Header(p, ClassSize(s.cls))], live := h.live[a := n])
  }

  /** The block this slab would give: the search goes from the last place to the end and does not come round. */
  ghost function Choice(s: Slab): Option<nat> {
    if s.free == 0 || !Sized(s.bits, MaxBlocks(s.cls)) || SkipScan(s.bits, MaxBlocks(s.cls), s.nextFit) == NO_BITS_LEFT then None
    else Some(SkipScan(s.bits, MaxBlocks(s.cls), s.nextFit))
  }

  /** Slab::alloc of the k-th slab of a chain; `os` is the memory the OS gives for a new one. */
  ghost function AllocFrom(h: Heap, c: nat, k: nat, os: nat, n: nat): Outcome<(Heap, nat)>
    requires c < |h.chains| && k < |h.chains[c]|
    decreases |h.chains[c]| - k
  {
    var p := h.chains[c][k];
    if p !in h.slabs || h.slabs[p].cls != c then Panic
    else
      match Choice(h.slabs[p])
      case Some(i) => Ok((Take(h, p, i, n), Data(p, c, i)))
      case None =>
        if k + 1 < |h.chains[c]| then AllocFrom(h, c, k + 1, os, n)
        else AllocNew(h, c, os, n)
  }

  /** alloc_in_new_slab; no memory (address 0) is passed on as null */
  ghost function AllocNew(h: Heap, c: nat, os: nat, n: nat): Outcome<(Heap, nat)>
    requires c < |h.chains|
  {
    if os == 0 then Ok((h, 0))
    else
      var h1 := h.(slabs := h.slabs[os := FreshSlab(c)], chains := h.chains[c := h.chains[c] + [os]]);
      match Choice(FreshSlab(c))
      case Some(i) => Ok((Take(h1, os, i, n), Data(os, c, i)))
      case None => Panic
  }

  /** BigSlabAllocator::alloc; the size sum is 32-bit */
  function BigSize(n: nat): nat { (n + BIG_SLAB) % TWO32 }

  function AllocBig(h: Heap, os: nat, n: nat): (Heap, nat) {
    var a := os + BIG_DATA;
    (h.(bigs := h.bigs[os := BigSize(n)], headers := h.headers[a := Header(os, BigSize(n))], live := h.live[a := n]), a)
  }

  function ClassFor(n: nat): Option<nat> {
    if n <= 0x10 then Some(0) else if n <= 0x20 then Some(1) else if n <= 0x40 then Some(2)
    else if n <= 0x80 then Some(3) else if n <= 0x100 then Some(4) else None
  }

  /** Heap::kmalloc; address 0 is null. For a big block the answer of the OS is written to unchecked, which faults
      on null. */
  ghost function Kmalloc(h: Heap, n: nat, os: nat): Outcome<(Heap, nat)> {
    if n == 0 then Ok((h, 0))
    else
      match ClassFor(n)
      case None => if os == 0 then Panic else Ok(AllocBig(h, os, n))
      case Some(c) => if c >= |h.chains| || h.chains[c] == [] then Panic else AllocFrom(h, c, 0, os, n)
  }

  // ---- Freeing ----

  /** The class whose blocks have this size, which is what kfree tells the cases apart by. */
  function ClassOf(size: nat): Option<nat> {
    match size
    case 0x10 => Some(0) case 0x20 => Some(1) case 0x40 => Some(2) case 0x80 => Some(3) case 0x100 => Some(4)
    case _ => None
  }

  predicate InSlab(p: nat, c: nat, a: nat) {
    p + Offset(c) <= a <= Data(p, c, MaxBlocks(c) - 1) + ClassSize(c) - 1
  }

  /** The index division of Slab::free */
  function BlockIndex(p: nat, c: nat, a: nat): nat
    requires p + Offset(c) <= a
  {
    (a - (p + Offset(c))) / Stride(c)
  }

  /** free_from_current_slab, with the branch that gives the slab back to the OS */
  ghost function Release(h: Heap, p: nat, i: nat, a: nat): Heap
    requires p in h.slabs && i / 8 < |h.slabs[p].bits|
  {
    var s := h.slabs[p];
    var free := (s.free + 1) % TWO32;
    var h1 := h.(slabs := h.slabs[p := Slab(s.cls, free, i, WithBit(s.bits, i, false))], live := h.live - {a});
    if free == 0 && s.cls < |h.chains| && p in h.chains[s.cls] && h.chains[s.cls][0] != p then
      h1.(slabs := h1.slabs - {p}, chains := h.chains[s.cls := h.chains[s.cls][..IndexOf(h.chains[s.cls], p)]])
    else h1
  }

  /** Heap::kfree: the header in front of the data says which slab, and its size field of which kind. */
  ghost function Kfree(h: Heap, a: nat): Outcome<Heap> {
    if a == 0 then Ok(h)
    else if a !in h.headers || h.headers[a].slab == 0 then Panic
    else
      var p := h.headers[a].slab;
      match ClassOf(h.headers[a].size)
      case None => if p !in h.bigs then Panic else Ok(h.(bigs := h.bigs - {p}, live := h.live - {a}))
      case Some(c) =>
        if p !in h.slabs || h.slabs[p].cls != c || !InSlab(p, c, a) then Panic
        else
          var i := BlockIndex(p, c, a);
          if i / 8 >= |h.slabs[p].bits| || !BitAt(h.slabs[p].bits, i) then Panic
          else Ok(Release(h, p, i, a))
  }
}
