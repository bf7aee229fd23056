/** kernel/Memory/kheap.c and slab.c over the buddy model: requests are routed to a slab
    cache or a buddy block, and every pointer finds its way back. */
module KHeapModel {
  import opened Words
  import opened Bits
  import opened BuddyGeometry
  import opened BuddyModel

  const SLOTS := 32
  /** sizeof(block_header_t): size, type and order, one word each. */
  const HEADER := 12

  type SlotBytes = n: nat | n > 0 witness 1

  datatype Slab = Slab(bitmap: u32, first: nat, size: SlotBytes)

  type Caches = c: seq<Slab> | |c| == 3 witness [Slab(0, 0, 1), Slab(0, 0, 1), Slab(0, 0, 1)]

  // ----- size_to_order

  /** The value of `block` after `n` doublings in 32 bits. */
  function Doubled(n: nat): u32 { Wrap32(BlockSize(n)) }

  /** The loop of `size_to_order` never leaves. */
  ghost predicate Diverges(total: u32) { forall n: nat :: Doubled(n) < total }

  /** The order at which the loop leaves. */
  function LeastOrder(total: u32, from: nat): (order: nat)
    requires total <= 0x8000_0000 && from <= 19
    ensures from <= order <= 19 && BlockSize(order) >= total
    ensures order > from ==> BlockSize(order - 1) < total
    decreases 19 - from
  {
    LargeBlocks(from);
    if BlockSize(from) >= total then from else LeastOrder(total, from + 1)
  }

  lemma {:induction false} LargeBlocks(n: nat)
    ensures n <= 19 ==> BlockSize(n) <= 0x8000_0000 && Doubled(n) == BlockSize(n)
    ensures n == 19 ==> BlockSize(n) == 0x8000_0000
    ensures n >= 20 ==> Doubled(n) == 0
  {
    hide Pow2;
    Pow2Add(n, 12);
    Pow2Values();
    if n <= 19 {
      Pow2Add(12, 7);
      assert Pow2(19) == 0x8_0000 by { SmallPow2(); Pow2Add(12, 7); }
      if n < 19 { Pow2Monotone(n, 19); }
    } else {
      Pow2Add(n - 20, 32);
      var p := Pow2(n - 20);
      assert BlockSize(n) == p * 0x1_0000_0000;
      ModUnique(BlockSize(n), 0x1_0000_0000, p, 0);
    }
  }

  lemma {:induction false} SmallPow2()
    ensures Pow2(7) == 128
  {
    assert Pow2(3) == 8;
    assert Pow2(7) == 16 * Pow2(3);
  }

  /** `size_to_order` returns exactly for totals up to 2^31, and then the least order
      whose block is large enough. */
  lemma {:induction false} SizeToOrderExact(total: u32)
    ensures Diverges(total) <==> total > 0x8000_0000
    ensures total <= 0x8000_0000 ==>
      var order := LeastOrder(total, 0);
      Doubled(order) >= total && forall n: nat :: n < order ==> Doubled(n) < total
  {
    hide Doubled, BlockSize, LeastOrder;
    LargeBlocks(19);
    if total > 0x8000_0000 {
      forall n: nat ensures Doubled(n) < total { LargeBlocks(n); }
    } else {
      assert Doubled(19) >= total;
      var order := LeastOrder(total, 0);
      LargeBlocks(order);
      forall n: nat | n < order ensures Doubled(n) < total {
        LargeBlocks(n);
        if n < order - 1 { LargerBlock(n, order - 1); }
      }
    }
  }

  lemma {:induction false} LargerBlock(a: nat, b: nat)
    requires a < b
    ensures BlockSize(a) < BlockSize(b)
  {
    Pow2Monotone(a, b);
  }

  // ----- slab

  /** `__builtin_ctz` of a non-zero word. */
  function Ctz(mask: u32, from: nat): (i: nat)
    requires from <= SLOTS
    ensures from <= i <= SLOTS
    ensures i < SLOTS ==> Bit(mask, i)
    ensures forall j :: from <= j < i ==> !Bit(mask, j)
    decreases SLOTS - from
  {
    if from == SLOTS || Bit(mask, from) then from else Ctz(mask, from + 1)
  }

  /** The first free slot, if any. */
  function FreeSlot(slab: Slab): (i: nat)
    ensures i <= SLOTS
  {
    var mask: u32 := 0xFFFF_FFFF - slab.bitmap;
    if mask == 0 then SLOTS else Ctz(mask, 0)
  }

  function SetSlot(slab: Slab, i: nat): (s: Slab)
    requires i < SLOTS
    ensures s.first == slab.first && s.size == slab.size
  {
    Pow2Values();
    WordUpdates(slab.bitmap, i, SLOTS);
    slab.(bitmap := BitOr(slab.bitmap, Pow2(i)))
  }

  /** `slab_free`: the slot number is computed in 32 bits; one out of range is ignored. */
  function SlabFree(slab: Slab, ptr: nat): (s: Slab)
    ensures s.first == slab.first && s.size == slab.size
  {
    var i := Wrap32(ptr - slab.first) / slab.size;
    if i >= SLOTS then slab
    else
      Pow2Values();
      WordUpdates(slab.bitmap, i, SLOTS);
      slab.(bitmap := BitAnd(slab.bitmap, 0xFFFF_FFFF - Pow2(i)))
  }

  /** The first free slot is the lowest clear bit, or there is none. */
  lemma {:induction false} FreeSlotIs(slab: Slab)
    ensures FreeSlot(slab) < SLOTS ==> !Bit(slab.bitmap, FreeSlot(slab))
    ensures forall i :: 0 <= i < FreeSlot(slab) ==> Bit(slab.bitmap, i)
  {
    hide Bit, Ctz, Pow2;
    assert Pow2(32) == 0x1_0000_0000 by { Pow2Values(); }
    var mask: nat := 0xFFFF_FFFF - slab.bitmap;
    forall i | 0 <= i < SLOTS ensures Bit(mask, i) <==> !Bit(slab.bitmap, i) {
      NotBits(slab.bitmap, SLOTS, i);
    }
    forall i | 0 <= i < SLOTS ensures !Bit(0, i) { ZeroBits(i); }
  }

  lemma {:induction false} SetSlotBits(slab: Slab, i: nat, j: nat)
    requires i < SLOTS && j < SLOTS
    ensures Bit(SetSlot(slab, i).bitmap, j) <==> j == i || Bit(slab.bitmap, j)
  {
    SetBit(slab.bitmap, i, j);
  }

  /** Freeing the address of slot `i` clears that bit and no other. */
  lemma {:induction false} SlabFreeBits(slab: Slab, i: nat, j: nat)
    requires i < SLOTS && j < SLOTS && i * slab.size < 0x1_0000_0000
    ensures Bit(SlabFree(slab, slab.first + i * slab.size).bitmap, j) <==> j != i && Bit(slab.bitmap, j)
  {
    hide BitAnd, Bit, Pow2;
    ModUnique(i * slab.size, slab.size, i, 0);
    Pow2Values();
    ClearBit(slab.bitmap, i, SLOTS, j);
  }

  // ----- kmalloc and kfree

  const BUDDY := 2

  datatype Header = Header(kind: nat, order: nat)

  /** Where a pointer came from. */
  datatype Source = SlabSlot(cache: nat, slot: nat) | BuddyBlock(order: nat)

  datatype Grant = Grant(ptr: nat, size: u32, from: Source)

  /** Allocator state; `headers` maps a block address to the type and order words in it. */
  datatype Heap = Heap(lists: Lists, caches: Caches, headers: map<nat, Header>)

  datatype Outcome = Hangs | Refused | Granted(grant: Grant, heap: Heap)

  function SlotSize(i: nat): (s: nat)
    ensures 32 <= s <= 128
  {
    if i == 0 then 32 else if i == 1 then 64 else 128
  }

  /** The cache a request is served from, or 3 for the buddy allocator. */
  function ClassOf(size: u32): (i: nat)
    ensures i < 3 ==> size <= SlotSize(i)
    ensures i <= 3 && forall j :: 0 <= j < i ==> SlotSize(j) < size
    ensures i == 3 <==> size > 128
  {
    if size <= 32 then 0 else if size <= 64 then 1 else if size <= 128 then 2 else 3
  }

  function SlabMalloc(h: Heap, i: nat, size: u32): Outcome
    requires i < 3
  {
    var k := FreeSlot(h.caches[i]);
    if k == SLOTS then Refused
    else Granted(Grant(h.caches[i].first + k * h.caches[i].size, size, SlabSlot(i, k)),
                 h.(caches := h.caches[i := SetSlot(h.caches[i], k)]))
  }

  function Kmalloc(r: Range, h: Heap, size: u32): Outcome {
    if ClassOf(size) < 3 then SlabMalloc(h, ClassOf(size), size)
    else
      var total := Wrap32(size + HEADER);
      if total > 0x8000_0000 then Hangs
      else
        var order := LeastOrder(total, 0);
        match Alloc(r, h.lists, order)
        case None => Refused
        case Some((hdr, lists)) =>
          Granted(Grant(hdr + HEADER, size, BuddyBlock(order)),
                  h.(lists := lists, headers := h.headers[hdr := Header(BUDDY, order)]))
  }

  predicate InPage(slab: Slab, ptr: nat) { slab.first <= ptr < Wrap32(slab.first + 4096) }

  /** The first cache whose page holds `ptr`, or 3. */
  function Route(caches: Caches, ptr: nat): (i: nat)
    ensures i <= 3
  {
    if InPage(caches[0], ptr) then 0 else if InPage(caches[1], ptr) then 1 else if InPage(caches[2], ptr) then 2 else 3
  }

  function Kfree(r: Range, h: Heap, ptr: nat): Heap
  {
    var i := Route(h.caches, ptr);
    var hdr := Wrap32(ptr - HEADER);
    if ptr == 0 then h
    else if i < 3 then h.(caches := h.caches[i := SlabFree(h.caches[i], ptr)])
    else if hdr in h.headers && h.headers[hdr].kind == BUDDY
    then h.(lists := Free(r, h.lists, hdr, h.headers[hdr].order))
    else h
  }

  /** Giving back to a known source, without looking at pages or headers. */
  function Return(r: Range, h: Heap, g: Grant): Heap
    requires g.from.SlabSlot? ==> g.from.cache < 3
    requires g.from.BuddyBlock? ==> g.ptr >= HEADER
  {
    match g.from
    case SlabSlot(i, k) => h.(caches := h.caches[i := SlabFree(h.caches[i], h.caches[i].first + k * h.caches[i].size)])
    case BuddyBlock(order) => h.(lists := Free(r, h.lists, g.ptr - HEADER, order))
  }

  // ----- the invariant

  ghost function Page(h: Heap, i: nat): Block
    requires i < 3
  {
    Block(h.caches[i].first, 0)
  }

  ghost function Pages(h: Heap): set<Block> { {Page(h, 0), Page(h, 1), Page(h, 2)} }

  ghost function BlockOf(g: Grant): Block
    requires g.from.BuddyBlock? && g.ptr >= HEADER
  {
    Block(g.ptr - HEADER, g.from.order)
  }

  ghost function Blocks(grants: seq<Grant>): set<Block>
    requires forall g :: g in grants && g.from.BuddyBlock? ==> g.ptr >= HEADER
  {
    set g | g in grants && g.from.BuddyBlock? :: BlockOf(g)
  }

  predicate GrantOk(h: Heap, g: Grant) {
    match g.from
    case SlabSlot(i, k) =>
      && i < 3 && k < SLOTS && g.ptr == h.caches[i].first + k * SlotSize(i)
      && Bit(h.caches[i].bitmap, k) && g.size <= SlotSize(i)
    case BuddyBlock(order) =>
      && g.ptr >= HEADER && g.size + HEADER <= BlockSize(order)
      && g.ptr - HEADER in h.headers && h.headers[g.ptr - HEADER] == Header(BUDDY, order)
  }

  predicate DistinctPointers(grants: seq<Grant>) {
    forall i, j :: 0 <= i < j < |grants| ==> grants[i].ptr != grants[j].ptr
  }

  /** `outside` are blocks other kernel code got from the buddy allocator directly. */
  ghost predicate HeapInv(h: Heap, grants: seq<Grant>, outside: set<Block>, seed: Block) {
    && (forall i :: 0 <= i < 3 ==> h.caches[i].size == SlotSize(i))
    && Page(h, 0) != Page(h, 1) && Page(h, 0) != Page(h, 2) && Page(h, 1) != Page(h, 2)
    && (forall g :: g in grants ==> GrantOk(h, g))
    && DistinctPointers(grants)
    && Pages(h) !! Blocks(grants) && (Pages(h) + Blocks(grants)) !! outside
    && Partition(h.lists, Pages(h) + Blocks(grants) + outside, seed)
  }

  ghost function Home(h: Heap, g: Grant): Block
    requires GrantOk(h, g)
  {
    if g.from.SlabSlot? then Page(h, g.from.cache) else BlockOf(g)
  }

  lemma {:induction false} SlotInPage(i: nat, k: nat)
    requires i < 3 && k < SLOTS
    ensures k * SlotSize(i) + SlotSize(i) <= 4096
  {
  }

  lemma {:induction false} HomeHolds(h: Heap, grants: seq<Grant>, outside: set<Block>, seed: Block, g: Grant)
    requires HeapInv(h, grants, outside, seed) && g in grants
    ensures Home(h, g) in Pages(h) + Blocks(grants)
    ensures Home(h, g).addr <= g.ptr && g.ptr + g.size <= Home(h, g).End() && g.ptr < Home(h, g).End()
    ensures Within(Home(h, g), seed) && Aligned(Home(h, g))
  {
    hide Partition, Bit;
    assert BlockSize(0) == 4096;
    if g.from.SlabSlot? { SlotInPage(g.from.cache, g.from.slot); }
    var held := Pages(h) + Blocks(grants) + outside;
    assert Home(h, g) in FreeSet(h.lists) + held;
    HeldBlock(h.lists, held, seed, Home(h, g));
  }

  lemma {:induction false} HeldApart(lists: Lists, held: set<Block>, seed: Block, b: Block, c: Block)
    requires Partition(lists, held, seed) && b in held && c in held && b != c
    ensures Disjoint(b, c)
  {
    assert b in FreeSet(lists) + held && c in FreeSet(lists) + held;
  }

  lemma {:induction false} HomesApart(h: Heap, grants: seq<Grant>, outside: set<Block>, seed: Block, b: Block, c: Block)
    requires HeapInv(h, grants, outside, seed)
    requires b in Pages(h) + Blocks(grants) && c in Pages(h) + Blocks(grants) && b != c
    ensures Disjoint(b, c)
  {
    HeldApart(h.lists, Pages(h) + Blocks(grants) + outside, seed, b, c);
  }

  predicate RegionsApart(a: Grant, b: Grant) { a.ptr + a.size <= b.ptr || b.ptr + b.size <= a.ptr }

  lemma {:induction false} SlotsApart(i: nat, j: nat, k: nat)
    requires j < k
    ensures j * SlotSize(i) + SlotSize(i) <= k * SlotSize(i)
  {
  }

  /** Two live regions never meet. */
  lemma {:induction false} GrantsApart(h: Heap, grants: seq<Grant>, outside: set<Block>, seed: Block, a: Grant,
                                       b: Grant)
    requires HeapInv(h, grants, outside, seed) && a in grants && b in grants && a.ptr != b.ptr
    ensures RegionsApart(a, b)
  {
    hide Partition, Bit, BlockSize;
    HomeHolds(h, grants, outside, seed, a);
    HomeHolds(h, grants, outside, seed, b);
    if Home(h, a) != Home(h, b) {
      HomesApart(h, grants, outside, seed, Home(h, a), Home(h, b));
    } else if a.from.SlabSlot? && b.from.SlabSlot? {
      assert a.from.cache == b.from.cache;
      if a.from.slot < b.from.slot {
        SlotsApart(a.from.cache, a.from.slot, b.from.slot);
      } else if b.from.slot < a.from.slot {
        SlotsApart(a.from.cache, b.from.slot, a.from.slot);
      }
    }
  }

  /** Routing: a live pointer is recognised as what it is. */
  lemma {:induction false} RouteFinds(r: Range, h: Heap, grants: seq<Grant>, outside: set<Block>, seed: Block, g: Grant)
    requires GoodSeed(r, seed) && HeapInv(h, grants, outside, seed) && g in grants
    ensures g.ptr != 0
    ensures Route(h.caches, g.ptr) == if g.from.SlabSlot? then g.from.cache else 3
  {
    hide Partition, Bit;
    HomeHolds(h, grants, outside, seed, g);
    assert BlockSize(0) == 4096;
    forall i | 0 <= i < 3 ensures InPage(h.caches[i], g.ptr) <==> Page(h, i) == Home(h, g) {
      PageOk(h, grants, outside, seed, i);
      if Page(h, i) != Home(h, g) {
        HomesApart(h, grants, outside, seed, Page(h, i), Home(h, g));
      }
    }
    assert g.from.BuddyBlock? ==> Home(h, g) in Blocks(grants);
  }

  lemma {:induction false} PageOk(h: Heap, grants: seq<Grant>, outside: set<Block>, seed: Block, i: nat)
    requires HeapInv(h, grants, outside, seed) && i < 3
    ensures Page(h, i) in Pages(h) + Blocks(grants) && Within(Page(h, i), seed)
  {
    var held := Pages(h) + Blocks(grants) + outside;
    assert Page(h, i) in FreeSet(h.lists) + held;
    HeldBlock(h.lists, held, seed, Page(h, i));
  }

  /** `kfree` of a live pointer does to the heap exactly what its source requires. */
  lemma {:induction false} KfreeRoutes(r: Range, h: Heap, grants: seq<Grant>, outside: set<Block>, seed: Block,
                                       g: Grant)
    requires GoodSeed(r, seed) && HeapInv(h, grants, outside, seed) && g in grants
    ensures Kfree(r, h, g.ptr) == Return(r, h, g)
  {
    hide Partition, Bit, Free;
    RouteFinds(r, h, grants, outside, seed, g);
    HomeHolds(h, grants, outside, seed, g);
  }

  // ----- every operation keeps the invariant

  lemma {:induction false} BlocksSnoc(grants: seq<Grant>, g: Grant)
    requires forall x :: x in grants + [g] && x.from.BuddyBlock? ==> x.ptr >= HEADER
    ensures forall x :: x in grants && x.from.BuddyBlock? ==> x in grants + [g]
    ensures Blocks(grants + [g]) == Blocks(grants) + (if g.from.BuddyBlock? then {BlockOf(g)} else {})
  {
    forall x ensures x in grants + [g] <==> x in grants || x == g {}
  }

  lemma {:induction false} SlabMallocKeeps(r: Range, h: Heap, grants: seq<Grant>, outside: set<Block>, seed: Block,
                                           i: nat, size: u32)
    requires GoodSeed(r, seed) && HeapInv(h, grants, outside, seed) && i < 3 && size <= SlotSize(i)
    requires SlabMalloc(h, i, size).Granted?
    ensures var o := SlabMalloc(h, i, size); HeapInv(o.heap, grants + [o.grant], outside, seed)
  {
    hide Partition;
    var o := SlabMalloc(h, i, size);
    var g, h' := o.grant, o.heap;
    var k := g.from.slot;
    FreeSlotIs(h.caches[i]);
    assert GrantOk(h', g) by { SetSlotBits(h.caches[i], k, k); }
    forall x | x in grants ensures GrantOk(h', x) && x.ptr != g.ptr {
      assert GrantOk(h, x);
      if x.from.SlabSlot? { SetSlotBits(h.caches[x.from.cache], k, x.from.slot); }
      SlotIsFresh(r, h, grants, outside, seed, i, k, x);
    }
    assert forall x :: x in grants + [g] <==> x in grants || x == g;
    BlocksSnoc(grants, g);
    assert Blocks(grants + [g]) == Blocks(grants);
    assert Pages(h') == Pages(h);
  }

  /** A slot whose bit is clear is not the address of any live grant. */
  lemma {:induction false} SlotIsFresh(r: Range, h: Heap, grants: seq<Grant>, outside: set<Block>, seed: Block,
                                       i: nat, k: nat, x: Grant)
    requires GoodSeed(r, seed) && HeapInv(h, grants, outside, seed) && x in grants
    requires i < 3 && k < SLOTS && !Bit(h.caches[i].bitmap, k)
    ensures x.ptr != h.caches[i].first + k * SlotSize(i)
  {
    hide Partition, Bit;
    var p := h.caches[i].first + k * SlotSize(i);
    SlotInPage(i, k);
    assert BlockSize(0) == 4096;
    PageOk(h, grants, outside, seed, i);
    HomeHolds(h, grants, outside, seed, x);
    if Home(h, x) != Page(h, i) {
      HomesApart(h, grants, outside, seed, Home(h, x), Page(h, i));
    } else if x.from.SlabSlot? {
      assert x.from.cache == i && x.from.slot != k;
      if x.from.slot < k { SlotsApart(i, x.from.slot, k); } else { SlotsApart(i, k, x.from.slot); }
    }
  }

  lemma {:induction false} BuddyMallocKeeps(r: Range, h: Heap, grants: seq<Grant>, outside: set<Block>, seed: Block,
                                            size: u32)
    requires GoodSeed(r, seed) && HeapInv(h, grants, outside, seed)
    requires size > 128 && size + HEADER < 0x1_0000_0000 && Kmalloc(r, h, size).Granted?
    ensures var o := Kmalloc(r, h, size); HeapInv(o.heap, grants + [o.grant], outside, seed)
  {
    hide Partition, Bit, Alloc, BlockSize;
    var o := Kmalloc(r, h, size);
    var g, h' := o.grant, o.heap;
    var order := g.from.order;
    var b := Block(g.ptr - HEADER, order);
    var held := Pages(h) + Blocks(grants) + outside;
    assert order <= MAX_ORDER by { GrantedOrder(r, h.lists, order); }
    AllocKeeps(r, h.lists, held, seed, order);
    forall x | x in grants ensures x.ptr != g.ptr && x.ptr - HEADER != b.addr && GrantOk(h', x) {
      HomeHolds(h, grants, outside, seed, x);
      HeldApart(h'.lists, held + {b}, seed, Home(h, x), b);
      BlockIsLarge(order);
    }
    assert forall x :: x in grants + [g] <==> x in grants || x == g;
    BlocksSnoc(grants, g);
    assert Pages(h') == Pages(h);
    assert held + {b} == Pages(h') + Blocks(grants + [g]) + outside;
  }

  lemma {:induction false} BlockIsLarge(order: nat)
    ensures BlockSize(order) >= 4096
  {
  }

  lemma {:induction false} GrantedOrder(r: Range, lists: Lists, order: nat)
    requires Alloc(r, lists, order).Some?
    ensures order <= MAX_ORDER
  {
  }

  function Remove(grants: seq<Grant>, i: nat): seq<Grant>
    requires i < |grants|
  {
    grants[..i] + grants[i + 1..]
  }

  lemma {:induction false} RemoveFacts(grants: seq<Grant>, i: nat)
    requires i < |grants| && DistinctPointers(grants)
    ensures DistinctPointers(Remove(grants, i))
    ensures forall x :: x in Remove(grants, i) <==> x in grants && x.ptr != grants[i].ptr
  {
    RemoveAt(grants, i);
    hide Remove;
    var rest := Remove(grants, i);
    forall x | x in grants && x.ptr != grants[i].ptr ensures x in rest {
      var j :| 0 <= j < |grants| && grants[j] == x;
      assert rest[if j < i then j else j - 1] == x;
    }
  }

  lemma {:induction false} RemoveAt(grants: seq<Grant>, i: nat)
    requires i < |grants|
    ensures |Remove(grants, i)| == |grants| - 1
    ensures forall j :: 0 <= j < |grants| - 1 ==> Remove(grants, i)[j] == grants[if j < i then j else j + 1]
  {
  }

  lemma {:induction false} DropKeeps(r: Range, h: Heap, grants: seq<Grant>, outside: set<Block>, seed: Block, i: nat)
    requires GoodSeed(r, seed) && HeapInv(h, grants, outside, seed) && i < |grants|
    ensures HeapInv(Kfree(r, h, grants[i].ptr), Remove(grants, i), outside, seed)
  {
    hide Partition, Kfree, Bit;
    var g := grants[i];
    KfreeRoutes(r, h, grants, outside, seed, g);
    if g.from.SlabSlot? {
      SlabDropKeeps(r, h, grants, outside, seed, i);
    } else {
      BuddyDropKeeps(r, h, grants, outside, seed, i);
    }
  }

  lemma {:induction false} SlabDropKeeps(r: Range, h: Heap, grants: seq<Grant>, outside: set<Block>, seed: Block,
                                         i: nat)
    requires GoodSeed(r, seed) && HeapInv(h, grants, outside, seed) && i < |grants| && grants[i].from.SlabSlot?
    requires GrantOk(h, grants[i])
    ensures HeapInv(Return(r, h, grants[i]), Remove(grants, i), outside, seed)
  {
    hide Partition, Bit, SlabFree;
    var g, rest := grants[i], Remove(grants, i);
    var h' := Return(r, h, g);
    var c, k := g.from.cache, g.from.slot;
    RemoveFacts(grants, i);
    SlotInPage(c, k);
    forall x | x in rest ensures GrantOk(h', x) {
      assert GrantOk(h, x);
      if x.from.SlabSlot? && x.from.cache == c { SlabFreeBits(h.caches[c], k, x.from.slot); }
    }
    assert Blocks(rest) == Blocks(grants) by {
      forall x | x in grants && x.from.BuddyBlock? ensures x in rest {
        DifferentSources(r, h, grants, outside, seed, g, x);
      }
    }
    assert Pages(h') == Pages(h);
  }

  lemma {:induction false} DifferentSources(r: Range, h: Heap, grants: seq<Grant>, outside: set<Block>, seed: Block,
                                            a: Grant, b: Grant)
    requires GoodSeed(r, seed) && HeapInv(h, grants, outside, seed) && a in grants && b in grants
    requires a.from.SlabSlot? && b.from.BuddyBlock?
    ensures a.ptr != b.ptr
  {
    hide Partition, Bit;
    RouteFinds(r, h, grants, outside, seed, a);
    RouteFinds(r, h, grants, outside, seed, b);
  }

  lemma {:induction false} BuddyDropKeeps(r: Range, h: Heap, grants: seq<Grant>, outside: set<Block>, seed: Block,
                                          i: nat)
    requires GoodSeed(r, seed) && HeapInv(h, grants, outside, seed) && i < |grants| && grants[i].from.BuddyBlock?
    requires GrantOk(h, grants[i])
    ensures HeapInv(Return(r, h, grants[i]), Remove(grants, i), outside, seed)
  {
    hide Partition, Bit, Free;
    var g, rest := grants[i], Remove(grants, i);
    var h' := Return(r, h, g);
    var b := BlockOf(g);
    RemoveFacts(grants, i);
    assert GrantOk(h, g);
    assert forall x :: x in rest ==> GrantOk(h', x);
    assert b in Blocks(grants);
    assert Blocks(rest) == Blocks(grants) - {b} by {
      forall x | x in grants && x.from.BuddyBlock? ensures BlockOf(x) == b ==> x.ptr == g.ptr {}
    }
    var held := Pages(h) + Blocks(rest) + outside;
    assert held + {b} == Pages(h) + Blocks(grants) + outside;
    FreeKeeps(r, h.lists, held, seed, b);
    assert Pages(h') == Pages(h);
  }

  /** A user stores one byte at `x`; a header whose type or order word it hits is lost. */
  function Poke(h: Heap, x: nat): Heap {
    h.(headers := map a | a in h.headers && !(a + 4 <= x < a + HEADER) :: h.headers[a])
  }

  lemma {:induction false} PokeKeeps(r: Range, h: Heap, grants: seq<Grant>, outside: set<Block>, seed: Block,
                                     g: Grant, offset: nat)
    requires GoodSeed(r, seed) && HeapInv(h, grants, outside, seed) && g in grants && offset < g.size
    ensures HeapInv(Poke(h, g.ptr + offset), grants, outside, seed)
  {
    hide Partition, Bit;
    var h' := Poke(h, g.ptr + offset);
    HomeHolds(h, grants, outside, seed, g);
    forall x | x in grants ensures GrantOk(h', x) {
      assert GrantOk(h, x);
      if x.from.BuddyBlock? {
        HomeHolds(h, grants, outside, seed, x);
        assert Home(h, x) in Blocks(grants) && (g.from.SlabSlot? ==> Home(h, g) in Pages(h));
        if Home(h, x) != Home(h, g) {
          HomesApart(h, grants, outside, seed, Home(h, x), Home(h, g));
        }
      }
    }
    assert Pages(h') == Pages(h);
  }

  // ----- runs

  /** What the heap's users do, and the kernel code that uses the buddy allocator directly. */
  datatype Op =
    | Malloc(size: u32)
    | Drop(index: nat)
    | Store(index: nat, offset: nat)
    | DirectAlloc(order: int)
    | DirectFree(block: Block)
    | DirectStore(block: Block, offset: nat)

  /** The heap, the live regions, and the blocks got from the buddy allocator directly. */
  datatype RunState = RunState(heap: Heap, grants: seq<Grant>, outside: set<Block>)

  /** Everyone frees what is live, stores inside what they hold, and keeps `size + 12` in 32
      bits. */
  predicate AllowedOp(s: RunState, op: Op) {
    match op
    case Malloc(size) => size + HEADER < 0x1_0000_0000
    case Drop(i) => i < |s.grants|
    case Store(i, offset) => i < |s.grants| && offset < s.grants[i].size
    case DirectAlloc(order) => true
    case DirectFree(b) => b in s.outside
    case DirectStore(b, offset) => b in s.outside && offset < BlockSize(b.order)
  }

  function OpStep(r: Range, s: RunState, op: Op): RunState
    requires AllowedOp(s, op)
  {
    match op
    case Malloc(size) =>
      (match Kmalloc(r, s.heap, size)
       case Granted(g, h) => s.(heap := h, grants := s.grants + [g])
       case _ => s)
    case Drop(i) => s.(heap := Kfree(r, s.heap, s.grants[i].ptr), grants := Remove(s.grants, i))
    case Store(i, offset) => s.(heap := Poke(s.heap, s.grants[i].ptr + offset))
    case DirectAlloc(order) =>
      (match Alloc(r, s.heap.lists, order)
       case Some((addr, lists)) =>
         if order < 0 then s else s.(heap := s.heap.(lists := lists), outside := s.outside + {Block(addr, order)})
       case None => s)
    case DirectFree(b) =>
      s.(heap := s.heap.(lists := Free(r, s.heap.lists, b.addr, b.order)), outside := s.outside - {b})
    case DirectStore(b, offset) => s.(heap := Poke(s.heap, b.addr + offset))
  }

  predicate AllowedOps(r: Range, s: RunState, ops: seq<Op>)
    decreases |ops|
  {
    ops == [] || (AllowedOp(s, ops[0]) && AllowedOps(r, OpStep(r, s, ops[0]), ops[1..]))
  }

  function RunOps(r: Range, s: RunState, ops: seq<Op>): RunState
    requires AllowedOps(r, s, ops)
    decreases |ops|
  {
    if ops == [] then s else RunOps(r, OpStep(r, s, ops[0]), ops[1..])
  }

  ghost predicate StateInv(s: RunState, seed: Block) { HeapInv(s.heap, s.grants, s.outside, seed) }

  lemma {:induction false} DirectAllocKeeps(r: Range, h: Heap, grants: seq<Grant>, outside: set<Block>, seed: Block,
                                            order: nat)
    requires GoodSeed(r, seed) && HeapInv(h, grants, outside, seed) && order <= MAX_ORDER
      && Alloc(r, h.lists, order).Some?
    ensures var (addr, lists) := Alloc(r, h.lists, order).value;
      HeapInv(h.(lists := lists), grants, outside + {Block(addr, order)}, seed)
  {
    hide Partition, Bit, Alloc, BlockSize;
    var (addr, lists) := Alloc(r, h.lists, order).value;
    var h', b, held := h.(lists := lists), Block(addr, order), Pages(h) + Blocks(grants) + outside;
    AllocKeeps(r, h.lists, held, seed, order);
    assert Pages(h') == Pages(h) && forall g :: g in grants ==> GrantOk(h', g);
    assert held + {b} == Pages(h') + Blocks(grants) + (outside + {b});
  }

  lemma {:induction false} DirectFreeKeeps(r: Range, h: Heap, grants: seq<Grant>, outside: set<Block>, seed: Block,
                                           b: Block)
    requires GoodSeed(r, seed) && HeapInv(h, grants, outside, seed) && b in outside
    ensures HeapInv(h.(lists := Free(r, h.lists, b.addr, b.order)), grants, outside - {b}, seed)
  {
    hide Partition, Bit, Free, BlockSize;
    var h', held := h.(lists := Free(r, h.lists, b.addr, b.order)), Pages(h) + Blocks(grants) + (outside - {b});
    assert held + {b} == Pages(h) + Blocks(grants) + outside;
    FreeKeeps(r, h.lists, held, seed, b);
    assert Pages(h') == Pages(h) && forall g :: g in grants ==> GrantOk(h', g);
  }

  /** A block held directly is apart from every live region and its header. */
  lemma {:induction false} OutsideApart(h: Heap, grants: seq<Grant>, outside: set<Block>, seed: Block, g: Grant,
                                        b: Block)
    requires HeapInv(h, grants, outside, seed) && g in grants && b in outside
    ensures Disjoint(Home(h, g), b)
    ensures b.End() <= g.ptr || g.ptr + g.size <= b.addr
  {
    hide Partition, Bit, BlockSize;
    HomeHolds(h, grants, outside, seed, g);
    HeldApart(h.lists, Pages(h) + Blocks(grants) + outside, seed, Home(h, g), b);
  }

  lemma {:induction false} DirectStoreKeeps(h: Heap, grants: seq<Grant>, outside: set<Block>, seed: Block, b: Block,
                                            offset: nat)
    requires HeapInv(h, grants, outside, seed) && b in outside && offset < BlockSize(b.order)
    ensures HeapInv(Poke(h, b.addr + offset), grants, outside, seed)
  {
    hide Partition, Bit;
    var h' := Poke(h, b.addr + offset);
    forall g | g in grants ensures GrantOk(h', g) { OutsideApart(h, grants, outside, seed, g, b); }
    assert Pages(h') == Pages(h);
  }

  lemma {:induction false} OpKeeps(r: Range, s: RunState, seed: Block, op: Op)
    requires GoodSeed(r, seed) && StateInv(s, seed) && AllowedOp(s, op)
    ensures StateInv(OpStep(r, s, op), seed)
  {
    hide HeapInv, GoodSeed, Kfree, SlabMalloc, Alloc, Free, Poke;
    match op
    case Malloc(size) =>
      if ClassOf(size) == 3 {
        if Kmalloc(r, s.heap, size).Granted? { BuddyMallocKeeps(r, s.heap, s.grants, s.outside, seed, size); }
      } else if SlabMalloc(s.heap, ClassOf(size), size).Granted? {
        SlabMallocKeeps(r, s.heap, s.grants, s.outside, seed, ClassOf(size), size);
      }
    case Drop(i) => DropKeeps(r, s.heap, s.grants, s.outside, seed, i);
    case Store(i, offset) => PokeKeeps(r, s.heap, s.grants, s.outside, seed, s.grants[i], offset);
    case DirectAlloc(order) =>
      if Alloc(r, s.heap.lists, order).Some? {
        AllocOrder(r, s.heap.lists, order);
        DirectAllocKeeps(r, s.heap, s.grants, s.outside, seed, order);
      }
    case DirectFree(b) => DirectFreeKeeps(r, s.heap, s.grants, s.outside, seed, b);
    case DirectStore(b, offset) => DirectStoreKeeps(s.heap, s.grants, s.outside, seed, b, offset);
  }

  lemma {:induction false} AllocOrder(r: Range, lists: Lists, order: int)
    requires Alloc(r, lists, order).Some?
    ensures 0 <= order <= MAX_ORDER
  {
  }

  /** The heap invariant over every run of `kmalloc`, `kfree` of live pointers and stores into
      live regions, while other code allocates from, frees to and stores into blocks of the
      buddy allocator directly. */
  lemma {:induction false} HeapRunKeeps(r: Range, s: RunState, seed: Block, ops: seq<Op>)
    requires GoodSeed(r, seed) && StateInv(s, seed) && AllowedOps(r, s, ops)
    ensures StateInv(RunOps(r, s, ops), seed)
    decreases |ops|
  {
    hide StateInv, OpStep;
    if ops != [] {
      OpKeeps(r, s, seed, ops[0]);
      HeapRunKeeps(r, OpStep(r, s, ops[0]), seed, ops[1..]);
    }
  }

  // ----- start-up and the main statements

  /** `slab_init_all`: one page each for the 64, 128 and 32 byte caches, in that order. */
  function SlabInit(r: Range, lists: Lists): Option<Heap> {
    match Alloc(r, lists, 0)
    case None => None
    case Some((p64, l1)) =>
      match Alloc(r, l1, 0)
      case None => None
      case Some((p128, l2)) =>
        match Alloc(r, l2, 0)
        case None => None
        case Some((p32, l3)) => Some(Heap(l3, [Slab(0, p32, 32), Slab(0, p64, 64), Slab(0, p128, 128)], map[]))
  }

  lemma {:induction false} SlabInitInv(r: Range, lists: Lists, outside: set<Block>, seed: Block)
    requires GoodSeed(r, seed) && Partition(lists, outside, seed) && SlabInit(r, lists).Some?
    ensures HeapInv(SlabInit(r, lists).value, [], outside, seed)
  {
    hide Partition, Alloc, GoodSeed, HeapInv, BlockSize, FreeBytes;
    var (p64, l1) := Alloc(r, lists, 0).value;
    var (p128, l2) := Alloc(r, l1, 0).value;
    var (p32, l3) := Alloc(r, l2, 0).value;
    var b64, b128 := Block(p64, 0), Block(p128, 0);
    AllocKeeps(r, lists, outside, seed, 0);
    AllocKeeps(r, l1, outside + {b64}, seed, 0);
    AllocKeeps(r, l2, outside + {b64} + {b128}, seed, 0);
    ThreePages(SlabInit(r, lists).value, outside, seed);
  }

  /** Three distinct pages and no live region. */
  lemma {:induction false} ThreePages(h: Heap, outside: set<Block>, seed: Block)
    requires h.caches[0].size == 32 && h.caches[1].size == 64 && h.caches[2].size == 128
    requires Page(h, 1) !in outside && Page(h, 2) !in outside + {Page(h, 1)}
      && Page(h, 0) !in outside + {Page(h, 1)} + {Page(h, 2)}
    requires Partition(h.lists, outside + {Page(h, 1)} + {Page(h, 2)} + {Page(h, 0)}, seed)
    ensures HeapInv(h, [], outside, seed)
  {
    hide Partition;
    assert outside + {Page(h, 1)} + {Page(h, 2)} + {Page(h, 0)} == Pages(h) + Blocks([]) + outside;
  }

  lemma {:induction false} SomethingFree(lists: Lists, k: nat)
    requires k <= MAX_ORDER + 1 && FreeBytesBelow(lists, k) > 0
    ensures exists b :: b in FreeSet(lists)
  {
    hide BlockSize;
    if |lists[k - 1]| > 0 {
      assert Block(lists[k - 1][0], k - 1) in FreeSet(lists);
    } else {
      SomethingFree(lists, k - 1);
    }
  }

  /** A page can be had while fewer bytes are live than the seed has. */
  lemma {:induction false} PageLeft(r: Range, s: State, seed: Block)
    requires GoodSeed(r, seed) && Inv(s, seed) && BytesOf(s.live) < BlockSize(seed.order)
    ensures var a := Alloc(r, s.lists, 0);
      && a.Some? && Inv(State(a.value.1, s.live + [Block(a.value.0, 0)]), seed)
      && BytesOf(s.live + [Block(a.value.0, 0)]) == BytesOf(s.live) + 4096
  {
    hide BlockSize, Alloc, Partition, FreeBytesBelow, Inv;
    InvBytes(s, seed);
    FreeBytesTotal(s.lists);
    SomethingFree(s.lists, MAX_ORDER + 1);
    AllocFailsIff(r, s.lists, 0);
    RequestKeeps(r, s, seed, 0);
    FirstPage();
    ElementsSnoc(s.live, Block(Alloc(r, s.lists, 0).value.0, 0));
  }

  lemma {:induction false} InvBytes(s: State, seed: Block)
    requires Inv(s, seed)
    ensures FreeBytes(s.lists) + BytesOf(s.live) == BlockSize(seed.order)
  {
  }

  lemma {:induction false} FirstPage()
    ensures BlockSize(0) == 4096
  {
  }

  /** Start-up finds its three pages in every seed of four pages or more. */
  lemma {:induction false} StartUpSucceeds(r: Range, seed: Block)
    requires GoodSeed(r, seed) && seed.order >= 2
    ensures SlabInit(r, Seeded(seed).lists).Some?
    ensures Partition(Seeded(seed).lists, {}, seed)
  {
    hide Alloc, Partition, Inv, FreeBytesBelow, BytesOf;
    SeededInv(r, seed);
    var s0 := Seeded(seed);
    SeedPages(seed, s0);
    PageLeft(r, s0, seed);
    var (a, l1) := Alloc(r, s0.lists, 0).value;
    var s1 := State(l1, s0.live + [Block(a, 0)]);
    PageLeft(r, s1, seed);
    var (b, l2) := Alloc(r, l1, 0).value;
    PageLeft(r, State(l2, s1.live + [Block(b, 0)]), seed);
  }

  lemma {:induction false} SeedPages(seed: Block, s: State)
    requires seed.order >= 2 && seed.order <= MAX_ORDER && s == Seeded(seed) && Inv(s, seed)
    ensures BlockSize(seed.order) >= 4 * 4096 && BytesOf(s.live) == 0 && Partition(s.lists, {}, seed)
  {
    if seed.order > 2 { Pow2Monotone(2, seed.order); }
    assert Pow2(2) == 4;
    assert LiveSet(s) == {};
  }

  /** After every run from start-up: live regions are pairwise disjoint, inside the block or
      slot that holds them and apart from the blocks others hold, and `kfree` gives each
      pointer back to its source. */
  lemma {:induction false} HeapSafety(r: Range, lists: Lists, outside: set<Block>, seed: Block, ops: seq<Op>)
    requires GoodSeed(r, seed) && Partition(lists, outside, seed) && SlabInit(r, lists).Some?
    requires AllowedOps(r, RunState(SlabInit(r, lists).value, [], outside), ops)
    ensures var s := RunOps(r, RunState(SlabInit(r, lists).value, [], outside), ops);
      && (forall g :: g in s.grants ==> GrantOk(s.heap, g) && Kfree(r, s.heap, g.ptr) == Return(r, s.heap, g))
      && (forall i, j :: 0 <= i < j < |s.grants| ==> RegionsApart(s.grants[i], s.grants[j]))
      && (forall g, b :: g in s.grants && b in s.outside ==> b.End() <= g.ptr || g.ptr + g.size <= b.addr)
  {
    hide HeapInv, Partition, GoodSeed, Kfree, Return, OpStep, BlockSize;
    var s0 := RunState(SlabInit(r, lists).value, [], outside);
    SlabInitInv(r, lists, outside, seed);
    HeapRunKeeps(r, s0, seed, ops);
    var s := RunOps(r, s0, ops);
    forall g | g in s.grants
      ensures GrantOk(s.heap, g) && Kfree(r, s.heap, g.ptr) == Return(r, s.heap, g)
    {
      InvGrantOk(s, seed, g);
      KfreeRoutes(r, s.heap, s.grants, s.outside, seed, g);
    }
    forall i, j | 0 <= i < j < |s.grants| ensures RegionsApart(s.grants[i], s.grants[j]) {
      InvDistinct(s, seed, i, j);
      GrantsApart(s.heap, s.grants, s.outside, seed, s.grants[i], s.grants[j]);
    }
    forall g, b | g in s.grants && b in s.outside ensures b.End() <= g.ptr || g.ptr + g.size <= b.addr {
      InvGrantOk(s, seed, g);
      OutsideApart(s.heap, s.grants, s.outside, seed, g, b);
    }
  }

  lemma {:induction false} InvGrantOk(s: RunState, seed: Block, g: Grant)
    requires StateInv(s, seed) && g in s.grants
    ensures GrantOk(s.heap, g)
  {
  }

  lemma {:induction false} InvDistinct(s: RunState, seed: Block, i: nat, j: nat)
    requires StateInv(s, seed) && i < j < |s.grants|
    ensures s.grants[i].ptr != s.grants[j].ptr
  {
  }

  /** The region a pointer is good for holds what was asked for. */
  predicate LargeEnough(g: Grant) {
    match g.from
    case SlabSlot(i, _) => g.size <= SlotSize(i)
    case BuddyBlock(order) => g.size + HEADER <= BlockSize(order)
  }

  /** A granted region is large enough exactly when `size + 12` did not wrap; requests
      just below that never return at all. */
  lemma {:induction false} KmallocSizeExact(r: Range, h: Heap, size: u32)
    ensures Kmalloc(r, h, size).Granted? ==> (LargeEnough(Kmalloc(r, h, size).grant) <==> size < 0xFFFF_FFF4)
    ensures Kmalloc(r, h, size).Hangs? <==> 0x7FFF_FFF4 < size < 0xFFFF_FFF4
  {
    hide Alloc, SetSlot;
    if size >= 0xFFFF_FFF4 {
      var total := Wrap32(size + HEADER);
      assert total == size + HEADER - 0x1_0000_0000;
      assert BlockSize(0) == 4096;
      assert LeastOrder(total, 0) == 0;
    }
  }

  /** The last size in the failing family is served from a single page. */
  lemma {:induction false} UndersizedGrant(r: Range, h: Heap)
    requires Alloc(r, h.lists, 0).Some?
    ensures var o := Kmalloc(r, h, 0xFFFF_FFFF);
      o.Granted? && o.grant.from == BuddyBlock(0) && !LargeEnough(o.grant)
  {
    hide Alloc, SlabMalloc;
    assert Wrap32(0xFFFF_FFFF + HEADER) == 11;
    assert BlockSize(0) == 4096;
    assert LeastOrder(11, 0) == 0;
  }
}
