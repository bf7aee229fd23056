/** kernel/Memory/kheap.c in place, on top of the linked buddy allocator. */
module KHeap {
  import opened Words
  import opened BuddyGeometry
  import opened BuddyModel
  import opened BuddyAllocator
  import opened KHeapModel

  /** The doubling loop; it does not return for larger totals (SizeToOrderExact). */
  method SizeToOrder(total: u32) returns (order: nat)
    requires total <= 0x8000_0000
    ensures order == LeastOrder(total, 0)
    ensures BlockSize(order) >= total && (order > 0 ==> BlockSize(order - 1) < total)
  {
    hide BlockSize, Doubled, LeastOrder;
    order := 0;
    var block: u32 := 4096;
    LargeBlocks(0);
    FirstPage();
    while block < total
      invariant order <= 19 && block == Doubled(order) == BlockSize(order)
      invariant LeastOrder(total, 0) == LeastOrder(total, order)
      decreases 19 - order
    {
      LargeBlocks(order);
      LeastStep(total, order);
      SizeStep(order + 1);
      LargeBlocks(order + 1);
      block := Wrap32(block * 2);
      order := order + 1;
    }
    LeastStep(total, order);
  }

  lemma {:induction false} LeastStep(total: u32, order: nat)
    requires total <= 0x8000_0000 && order <= 19
    ensures LeastOrder(total, order) ==
      if BlockSize(order) >= total || order == 19 then order else LeastOrder(total, order + 1)
  {
    hide BlockSize;
    LargeBlocks(order);
  }

  /** Start-up leaves an intact heap whose pages are the newest live blocks. */
  lemma {:induction false} SlabInitReady(r: Range, lists: Lists, live: seq<Block>, seed: Block)
    requires Accounted(r, State(lists, live), Some(seed)) && SlabInit(r, lists).Some?
    ensures var h := SlabInit(r, lists).value;
      var now := live + [Block(h.caches[1].first, 0)] + [Block(h.caches[2].first, 0)] + [Block(h.caches[0].first, 0)];
      && HeapInv(h, [], Elements(live), seed)
      && Elements(now) == Pages(h) + Blocks([]) + Elements(live)
  {
    AccountedSeed(r, State(lists, live), seed);
    hide HeapInv, SlabInit, Partition, Accounted, GoodSeed;
    SlabInitInv(r, lists, Elements(live), seed);
    var h := SlabInit(r, lists).value;
    ThreeMore(live, Block(h.caches[1].first, 0), Block(h.caches[2].first, 0), Block(h.caches[0].first, 0));
    NoBlocks();
  }

  lemma {:induction false} AccountedSeed(r: Range, s: State, seed: Block)
    requires Accounted(r, s, Some(seed))
    ensures GoodSeed(r, seed) && Partition(s.lists, Elements(s.live), seed)
  {
  }

  lemma {:induction false} ThreeMore(live: seq<Block>, a: Block, b: Block, c: Block)
    ensures Elements(live + [a] + [b] + [c]) == Elements(live) + {a, b, c}
  {
    hide BlockSize, BytesOf, Elements;
    ElementsSnoc(live, a);
    ElementsSnoc(live + [a], b);
    ElementsSnoc(live + [a] + [b], c);
  }

  lemma {:induction false} NoBlocks()
    ensures Blocks([]) == {}
  {
  }

  class Kernel {
    const buddy: Buddy
    var caches: Caches
    var headers: map<nat, Header>
    ghost var grants: seq<Grant>
    /** Blocks the rest of the kernel holds. */
    ghost var outside: set<Block>

    ghost function View(): Heap
      reads this, buddy
    {
      Heap(buddy.lists, caches, headers)
    }

    ghost predicate Valid()
      reads this, buddy, buddy.heads
    {
      && buddy.Valid() && buddy.seed.Some?
      && HeapInv(View(), grants, outside, buddy.seed.value)
      && Elements(buddy.live) == Pages(View()) + Blocks(grants) + outside
    }

    /** `slab_init_all`, when the buddy allocator has its three pages; whatever was live
        before belongs to the rest of the kernel. */
    constructor (b: Buddy)
      requires b.Valid() && b.seed.Some? && SlabInit(b.range, b.lists).Some?
      modifies b, b.heads
      ensures Valid() && buddy == b && grants == [] && outside == Elements(old(b.live))
      ensures View() == SlabInit(old(b.range), old(b.lists)).value
    {
      hide HeapInv, Accounted, Alloc, Pages, BlockSize;
      SlabInitReady(b.range, b.lists, b.live, b.seed.value);
      buddy := b;
      outside := Elements(b.live);
      headers := map[];
      grants := [];
      var page64 := b.Alloc(0);
      var page128 := b.Alloc(0);
      var page32 := b.Alloc(0);
      caches := [Slab(0, page32, 32), Slab(0, page64, 64), Slab(0, page128, 128)];
    }

    method Kmalloc(size: u32) returns (ptr: nat)
      requires Valid()
      requires size <= 0x7FFF_FFF4
      modifies this, buddy, buddy.heads
      ensures Valid() && buddy.range == old(buddy.range) && outside == old(outside)
      ensures match KHeapModel.Kmalloc(buddy.range, old(View()), size)
        case Granted(g, h) => ptr == g.ptr && View() == h && grants == old(grants) + [g]
        case _ => ptr == 0 && View() == old(View()) && grants == old(grants)
    {
      hide HeapInv, Accounted, SlabMalloc, Alloc;
      if size <= 128 {
        ptr := SlabAlloc(if size <= 32 then 0 else if size <= 64 then 1 else 2, size);
      } else {
        ptr := BuddyAlloc(size);
      }
    }

    /** `slab_alloc` of one cache. */
    method SlabAlloc(i: nat, size: u32) returns (ptr: nat)
      requires Valid() && i == ClassOf(size) < 3
      modifies this
      ensures Valid() && outside == old(outside)
      ensures match SlabMalloc(old(View()), i, size)
        case Granted(g, h) => ptr == g.ptr && View() == h && grants == old(grants) + [g]
        case _ => ptr == 0 && View() == old(View()) && grants == old(grants)
    {
      hide HeapInv, Accounted, BlockSize, SetSlot, FreeSlot, Blocks, Pages;
      ghost var before, given, seed := View(), grants, buddy.seed.value;
      GoodFromValid();
      var k := FreeSlot(caches[i]);
      if k == SLOTS {
        return 0;
      }
      SlabMallocKeeps(buddy.range, before, given, outside, seed, i, size);
      ptr := caches[i].first + k * caches[i].size;
      caches := caches[i := SetSlot(caches[i], k)];
      grants := grants + [Grant(ptr, size, SlabSlot(i, k))];
      SamePages(before, View());
      SlabGrantBlocks(before, View(), outside, seed, given, Grant(ptr, size, SlabSlot(i, k)));
    }

    /** The buddy half of `kmalloc`: a block with a header in front of the region. */
    method BuddyAlloc(size: u32) returns (ptr: nat)
      requires Valid() && 128 < size <= 0x7FFF_FFF4
      modifies this, buddy, buddy.heads
      ensures Valid() && buddy.range == old(buddy.range) && outside == old(outside)
      ensures match KHeapModel.Kmalloc(buddy.range, old(View()), size)
        case Granted(g, h) => ptr == g.ptr && View() == h && grants == old(grants) + [g]
        case _ => ptr == 0 && View() == old(View()) && grants == old(grants)
    {
      hide HeapInv, Accounted, BlockSize, Alloc, Blocks, Pages, LeastOrder;
      ghost var before, given, seed := View(), grants, buddy.seed.value;
      GoodFromValid();
      var order := SizeToOrder(Wrap32(size + HEADER));
      ghost var live := buddy.live;
      var hdr := buddy.Alloc(order);
      if hdr == 0 {
        return 0;
      }
      BuddyMallocKeeps(buddy.range, before, given, outside, seed, size);
      ptr := hdr + HEADER;
      headers := headers[hdr := Header(BUDDY, order)];
      grants := grants + [Grant(ptr, size, BuddyBlock(order))];
      BuddyGrantBlocks(before, View(), outside, seed, given, Grant(ptr, size, BuddyBlock(order)));
      ElementsSnoc(live, Block(hdr, order));
    }

    /** `kfree` of NULL, or of the live pointer number `index`. */
    method Kfree(ptr: nat, ghost index: nat)
      requires Valid()
      requires ptr == 0 || (index < |grants| && grants[index].ptr == ptr)
      modifies this, buddy, buddy.heads
      ensures Valid() && buddy.range == old(buddy.range) && outside == old(outside)
      ensures View() == KHeapModel.Kfree(buddy.range, old(View()), ptr)
      ensures grants == if ptr == 0 then old(grants) else Remove(old(grants), index)
    {
      hide HeapInv, Accounted, BlockSize, SlabFree, BuddyModel.Free;
      if ptr == 0 {
        return;
      }
      GoodFromValid();
      ghost var before, given, seed := View(), grants, buddy.seed.value;
      DropKeeps(buddy.range, before, given, outside, seed, index);
      LiveGrant(buddy.range, before, given, outside, seed, index);
      var i := 0;
      while i < 3
        invariant 0 <= i <= 3 && View() == before && grants == given && outside == old(outside)
        invariant forall j :: 0 <= j < i ==> !InPage(caches[j], ptr)
        invariant Valid() && unchanged(buddy) && unchanged(buddy.heads)
      {
        if InPage(caches[i], ptr) {
          caches := caches[i := SlabFree(caches[i], ptr)];
          grants := Remove(grants, index);
          SamePages(before, View());
          DroppedBlocks(buddy.range, before, given, outside, seed, index);
          return;
        }
        i := i + 1;
      }
      assert Route(caches, ptr) == 3;
      var hdr := Wrap32(ptr - HEADER);
      if hdr in headers && headers[hdr].kind == BUDDY {
        DroppedBlocks(buddy.range, before, given, outside, seed, index);
        ghost var b := Block(hdr, headers[hdr].order);
        LiveDistinct(buddy.range, State(buddy.lists, buddy.live), buddy.seed, b);
        buddy.Free(hdr, headers[hdr].order);
        grants := Remove(grants, index);
      }
    }

    /** Kernel code that takes a block from the buddy allocator directly. */
    method DirectAlloc(order: int) returns (ptr: nat)
      requires Valid()
      modifies this`outside, buddy, buddy.heads
      ensures Valid() && buddy.range == old(buddy.range) && grants == old(grants)
      ensures match BuddyModel.Alloc(buddy.range, old(buddy.lists), order)
        case None => ptr == 0 && View() == old(View()) && outside == old(outside)
        case Some((addr, lists)) =>
          && ptr == addr && order >= 0 && View() == old(View()).(lists := lists)
          && outside == old(outside) + {Block(addr, order)}
    {
      hide HeapInv, Accounted, BlockSize, Alloc, Pages, Blocks;
      GoodFromValid();
      ghost var before, was := View(), buddy.live;
      ptr := buddy.Alloc(order);
      if ptr != 0 {
        AllocOrder(buddy.range, before.lists, order);
        DirectAllocKeeps(buddy.range, before, grants, outside, buddy.seed.value, order);
        ElementsSnoc(was, Block(ptr, order));
        SamePages(before, View());
        outside := outside + {Block(ptr, order)};
      }
    }

    /** Giving such a block back. */
    method DirectFree(ptr: nat, order: nat)
      requires Valid() && Block(ptr, order) in outside
      modifies this`outside, buddy, buddy.heads
      ensures Valid() && buddy.range == old(buddy.range) && grants == old(grants)
      ensures View() == old(View()).(lists := BuddyModel.Free(buddy.range, old(buddy.lists), ptr, order))
      ensures outside == old(outside) - {Block(ptr, order)}
    {
      hide HeapInv, Accounted, BlockSize, BuddyModel.Free, Pages, Blocks;
      GoodFromValid();
      ghost var before, b := View(), Block(ptr, order);
      DirectFreeKeeps(buddy.range, before, grants, outside, buddy.seed.value, b);
      OutsideOnly(before, grants, outside, buddy.seed.value, b);
      LiveDistinct(buddy.range, State(buddy.lists, buddy.live), buddy.seed, b);
      buddy.Free(ptr, order);
      SamePages(before, View());
      outside := outside - {b};
    }

    lemma {:induction false} GoodFromValid()
      requires Valid()
      ensures GoodSeed(buddy.range, buddy.seed.value)
    {
    }
  }

  lemma {:induction false} OutsideOnly(h: Heap, grants: seq<Grant>, outside: set<Block>, seed: Block, b: Block)
    requires HeapInv(h, grants, outside, seed) && b in outside
    ensures b !in Pages(h) + Blocks(grants)
  {
  }

  lemma {:induction false} SamePages(h: Heap, h': Heap)
    requires forall i :: 0 <= i < 3 ==> h.caches[i].first == h'.caches[i].first
    ensures Pages(h) == Pages(h')
  {
  }

  lemma {:induction false} SlabGrantBlocks(h: Heap, h': Heap, outside: set<Block>, seed: Block, grants: seq<Grant>,
                                           g: Grant)
    requires HeapInv(h, grants, outside, seed) && HeapInv(h', grants + [g], outside, seed) && g.from.SlabSlot?
    ensures Blocks(grants + [g]) == Blocks(grants)
  {
    BlocksSnoc(grants, g);
  }

  lemma {:induction false} BuddyGrantBlocks(h: Heap, h': Heap, outside: set<Block>, seed: Block, grants: seq<Grant>,
                                            g: Grant)
    requires HeapInv(h, grants, outside, seed) && HeapInv(h', grants + [g], outside, seed) && g.from.BuddyBlock?
    requires g.ptr >= HEADER && h.caches == h'.caches
    ensures Pages(h) == Pages(h') && Blocks(grants + [g]) == Blocks(grants) + {BlockOf(g)}
  {
    BlocksSnoc(grants, g);
  }

  lemma {:induction false} LiveGrant(r: Range, h: Heap, grants: seq<Grant>, outside: set<Block>, seed: Block, i: nat)
    requires GoodSeed(r, seed) && HeapInv(h, grants, outside, seed) && i < |grants|
    ensures var g := grants[i];
      && Route(h.caches, g.ptr) == (if g.from.SlabSlot? then g.from.cache else 3)
      && (g.from.SlabSlot? ==> g.from.cache < 3)
      && (g.from.BuddyBlock? ==>
            g.ptr >= HEADER && g.ptr - HEADER < 0x1_0000_0000 && g.ptr - HEADER in h.headers
            && h.headers[g.ptr - HEADER] == Header(BUDDY, g.from.order)
            && BlockOf(g) in Blocks(grants))
  {
    hide Partition;
    RouteFinds(r, h, grants, outside, seed, grants[i]);
    HomeHolds(h, grants, outside, seed, grants[i]);
  }

  lemma {:induction false} DroppedBlocks(r: Range, h: Heap, grants: seq<Grant>, outside: set<Block>, seed: Block,
                                         i: nat)
    requires GoodSeed(r, seed) && HeapInv(h, grants, outside, seed) && i < |grants|
    ensures forall g :: g in Remove(grants, i) && g.from.BuddyBlock? ==> g.ptr >= HEADER
    ensures grants[i].from.SlabSlot? ==> Blocks(Remove(grants, i)) == Blocks(grants)
    ensures grants[i].from.BuddyBlock? ==>
      && grants[i].ptr >= HEADER
      && Blocks(Remove(grants, i)) == Blocks(grants) - {BlockOf(grants[i])}
      && BlockOf(grants[i]) !in Pages(h) + outside
  {
    hide Partition;
    RemoveFacts(grants, i);
    var g, rest := grants[i], Remove(grants, i);
    assert GrantOk(h, g);
    if g.from.SlabSlot? {
      forall x | x in grants && x.from.BuddyBlock? ensures x in rest {
        DifferentSources(r, h, grants, outside, seed, g, x);
      }
      assert Blocks(rest) == Blocks(grants);
    } else {
      assert BlockOf(g) in Blocks(grants);
      forall x | x in grants && x.from.BuddyBlock? ensures BlockOf(x) == BlockOf(g) <==> x.ptr == g.ptr {
        if x.ptr == g.ptr { SamePointer(grants, x, g); }
      }
      assert Blocks(rest) == Blocks(grants) - {BlockOf(g)};
    }
  }

  lemma {:induction false} SamePointer(grants: seq<Grant>, a: Grant, b: Grant)
    requires DistinctPointers(grants) && a in grants && b in grants && a.ptr == b.ptr
    ensures a == b
  {
    var i :| 0 <= i < |grants| && grants[i] == a;
    var j :| 0 <= j < |grants| && grants[j] == b;
  }

  lemma {:induction false} LiveDistinct(r: Range, s: State, seed: Option<Block>, b: Block)
    requires Accounted(r, s, seed)
    ensures b in s.live ==> Elements(Without(s.live, b)) == Elements(s.live) - {b}
  {
    hide Partition;
    if b in s.live {
      var i := WithoutLive(s.live, b);
    }
  }
}
