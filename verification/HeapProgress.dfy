/** What the heap does grant: over every run the slab bitmaps show exactly the live regions,
    and a request is refused only when nothing large enough is free. */
module HeapProgress {
  import opened Words
  import opened Bits
  import opened BuddyGeometry
  import opened BuddyModel
  import opened KHeapModel

  /** Slot `k` of cache `i` is some live region's. */
  ghost predicate Live(grants: seq<Grant>, i: nat, k: nat) { exists g :: g in grants && g.from == SlabSlot(i, k) }

  /** No slot is marked that is not live. */
  ghost predicate NoLeak(caches: Caches, grants: seq<Grant>) {
    forall i, k :: 0 <= i < 3 && 0 <= k < SLOTS && Bit(caches[i].bitmap, k) ==> Live(grants, i, k)
  }

  lemma {:induction false} LiveKept(grants: seq<Grant>, more: seq<Grant>, i: nat, k: nat)
    requires Live(grants, i, k) && forall g :: g in grants && g.from == SlabSlot(i, k) ==> g in more
    ensures Live(more, i, k)
  {
    var g :| g in grants && g.from == SlabSlot(i, k);
    assert g in more;
  }

  lemma {:induction false} MallocNoLeak(r: Range, s: RunState, size: u32)
    requires NoLeak(s.heap.caches, s.grants) && Kmalloc(r, s.heap, size).Granted?
    ensures var o := Kmalloc(r, s.heap, size); NoLeak(o.heap.caches, s.grants + [o.grant])
  {
    hide Bit, Alloc, SetSlot, FreeSlot, Wrap32, LeastOrder, Live;
    var o := Kmalloc(r, s.heap, size);
    var c, more := ClassOf(size), s.grants + [o.grant];
    forall i, k | 0 <= i < 3 && 0 <= k < SLOTS && Bit(o.heap.caches[i].bitmap, k) ensures Live(more, i, k) {
      if c < 3 { SetSlotBits(s.heap.caches[c], FreeSlot(s.heap.caches[c]), k); }
      if c < 3 && i == c && k == FreeSlot(s.heap.caches[c]) {
        NewIsLive(s.grants, o.grant, i, k);
      } else {
        LiveKept(s.grants, more, i, k);
      }
    }
  }

  lemma {:induction false} NewIsLive(grants: seq<Grant>, g: Grant, i: nat, k: nat)
    requires g.from == SlabSlot(i, k)
    ensures Live(grants + [g], i, k)
  {
    assert g in grants + [g];
  }

  lemma {:induction false} DropNoLeak(r: Range, s: RunState, seed: Block, n: nat)
    requires GoodSeed(r, seed) && StateInv(s, seed) && NoLeak(s.heap.caches, s.grants) && n < |s.grants|
    ensures NoLeak(Kfree(r, s.heap, s.grants[n].ptr).caches, Remove(s.grants, n))
  {
    hide Partition, Bit, SlabFree, Free, Kfree, Remove, Live;
    var g, rest := s.grants[n], Remove(s.grants, n);
    KfreeRoutes(r, s.heap, s.grants, s.outside, seed, g);
    InvGrantOk(s, seed, g);
    RemoveFacts(s.grants, n);
    var caches := Return(r, s.heap, g).caches;
    forall i, k | 0 <= i < 3 && 0 <= k < SLOTS && Bit(caches[i].bitmap, k) ensures Live(rest, i, k) {
      DroppedBit(r, s, g, i, k);
      forall x | x in s.grants && x.from == SlabSlot(i, k) ensures x in rest {
        InvGrantOk(s, seed, x);
        if g.from.BuddyBlock? { DifferentSources(r, s.heap, s.grants, s.outside, seed, x, g); }
        if g.from.SlabSlot? { SlotPointers(r, s, seed, g, x); }
      }
      LiveKept(s.grants, rest, i, k);
    }
  }

  /** A bit still set after a region was given back was set before, and is not its own. */
  lemma {:induction false} DroppedBit(r: Range, s: RunState, g: Grant, i: nat, k: nat)
    requires GrantOk(s.heap, g) && (g.from.SlabSlot? ==> s.heap.caches[g.from.cache].size == SlotSize(g.from.cache))
    requires i < 3 && k < SLOTS && Bit(Return(r, s.heap, g).caches[i].bitmap, k)
    ensures Bit(s.heap.caches[i].bitmap, k) && g.from != SlabSlot(i, k)
  {
    hide Bit, SlabFree, Free;
    if g.from.SlabSlot? {
      SlotInPage(g.from.cache, g.from.slot);
      SlabFreeBits(s.heap.caches[g.from.cache], g.from.slot, k);
    }
  }

  /** Different slots have different pointers. */
  lemma {:induction false} SlotPointers(r: Range, s: RunState, seed: Block, a: Grant, b: Grant)
    requires GoodSeed(r, seed) && StateInv(s, seed) && a in s.grants && b in s.grants
    requires a.from.SlabSlot? && b.from.SlabSlot? && a.from != b.from
    ensures a.ptr != b.ptr
  {
    hide Partition, Bit, HeapInv, GoodSeed;
    RouteFinds(r, s.heap, s.grants, s.outside, seed, a);
    RouteFinds(r, s.heap, s.grants, s.outside, seed, b);
    InvGrantOk(s, seed, a);
    InvGrantOk(s, seed, b);
  }

  lemma {:induction false} OpNoLeak(r: Range, s: RunState, seed: Block, op: KHeapModel.Op)
    requires GoodSeed(r, seed) && StateInv(s, seed) && NoLeak(s.heap.caches, s.grants) && AllowedOp(s, op)
    ensures NoLeak(OpStep(r, s, op).heap.caches, OpStep(r, s, op).grants)
  {
    hide StateInv, GoodSeed, NoLeak, Kfree, Kmalloc, Alloc, Free;
    match op
    case Malloc(size) => if Kmalloc(r, s.heap, size).Granted? { MallocNoLeak(r, s, size); }
    case Drop(n) => DropNoLeak(r, s, seed, n);
    case _ =>
  }

  lemma {:induction false} RunNoLeak(r: Range, s: RunState, seed: Block, ops: seq<KHeapModel.Op>)
    requires GoodSeed(r, seed) && StateInv(s, seed) && NoLeak(s.heap.caches, s.grants) && AllowedOps(r, s, ops)
    ensures var e := RunOps(r, s, ops); NoLeak(e.heap.caches, e.grants) && StateInv(e, seed)
    decreases |ops|
  {
    hide StateInv, GoodSeed, NoLeak, OpStep;
    if ops != [] {
      OpKeeps(r, s, seed, ops[0]);
      OpNoLeak(r, s, seed, ops[0]);
      RunNoLeak(r, OpStep(r, s, ops[0]), seed, ops[1..]);
    }
  }

  lemma {:induction false} StartNoLeak(r: Range, lists: Lists)
    requires SlabInit(r, lists).Some?
    ensures NoLeak(SlabInit(r, lists).value.caches, [])
  {
    hide Bit, Alloc;
    forall k | 0 <= k < SLOTS ensures !Bit(0, k) { ZeroBits(k); }
  }

  /** The smallest cache whose slots are large enough. */
  predicate Serves(c: nat, size: u32) { c < 3 && size <= SlotSize(c) && forall j :: 0 <= j < c ==> SlotSize(j) < size }

  lemma {:induction false} ServesIsClass(c: nat, size: u32)
    requires Serves(c, size)
    ensures c == ClassOf(size)
  {
    assert forall j :: 0 <= j < c ==> !(size <= SlotSize(j));
  }

  lemma {:induction false} BitIsLive(s: RunState, seed: Block, i: nat, k: nat)
    requires StateInv(s, seed) && NoLeak(s.heap.caches, s.grants) && i < 3 && k < SLOTS
    ensures Bit(s.heap.caches[i].bitmap, k) <==> Live(s.grants, i, k)
  {
    hide Bit, Partition;
    if Live(s.grants, i, k) {
      var g :| g in s.grants && g.from == SlabSlot(i, k);
      assert GrantOk(s.heap, g);
    }
  }

  lemma {:induction false} SlabExact(r: Range, s: RunState, seed: Block, c: nat, size: u32)
    requires StateInv(s, seed) && NoLeak(s.heap.caches, s.grants) && Serves(c, size)
    ensures var o := Kmalloc(r, s.heap, size);
      && (o.Refused? <==> forall k: nat :: k < SLOTS ==> Live(s.grants, c, k)) && !o.Hangs?
      && (o.Granted? ==>
            exists k: nat :: o.grant.from == SlabSlot(c, k) && k < SLOTS && !Live(s.grants, c, k)
              && forall j: nat :: j < k ==> Live(s.grants, c, j))
  {
    ServesIsClass(c, size);
    FreeSlotIs(s.heap.caches[c]);
    hide Bit, HeapInv, NoLeak, Live, FreeSlot, SetSlot, Serves;
    forall k: nat | k < SLOTS ensures Bit(s.heap.caches[c].bitmap, k) <==> Live(s.grants, c, k) {
      BitIsLive(s, seed, c, k);
    }
    var f := FreeSlot(s.heap.caches[c]);
    assert f < SLOTS ==> !Live(s.grants, c, f);
    assert forall j: nat :: j < f ==> Live(s.grants, c, j);
  }

  /** After every run from start-up: a request for up to 128 bytes is refused exactly when all
      32 slots of the smallest fitting cache are live, and otherwise gets the lowest free one. */
  lemma {:induction false} SmallExact(r: Range, lists: Lists, outside: set<Block>, seed: Block,
                                      ops: seq<KHeapModel.Op>, c: nat, size: u32)
    requires GoodSeed(r, seed) && Partition(lists, outside, seed) && SlabInit(r, lists).Some?
    requires AllowedOps(r, RunState(SlabInit(r, lists).value, [], outside), ops) && Serves(c, size)
    ensures var s := RunOps(r, RunState(SlabInit(r, lists).value, [], outside), ops);
      var o := Kmalloc(r, s.heap, size);
      && (o.Refused? <==> forall k: nat :: k < SLOTS ==> Live(s.grants, c, k)) && !o.Hangs?
      && (o.Granted? ==>
            exists k: nat :: o.grant.from == SlabSlot(c, k) && k < SLOTS && !Live(s.grants, c, k)
              && forall j: nat :: j < k ==> Live(s.grants, c, j))
  {
    hide HeapInv, Partition, GoodSeed, Kmalloc, OpStep, NoLeak, Live, SlabInit, Serves;
    var s0 := RunState(SlabInit(r, lists).value, [], outside);
    SlabInitInv(r, lists, outside, seed);
    StartNoLeak(r, lists);
    RunNoLeak(r, s0, seed, ops);
    SlabExact(r, RunOps(r, s0, ops), seed, c, size);
  }

  /** The block is large enough for the region and its header. */
  predicate Suffices(order: nat, size: u32) { BlockSize(order) >= size + HEADER }

  lemma {:induction false} SufficesIff(size: u32, order: nat)
    requires size + HEADER <= 0x8000_0000
    ensures Suffices(order, size) <==> order >= LeastOrder(size + HEADER, 0)
  {
    hide BlockSize;
    var least := LeastOrder(size + HEADER, 0);
    if order < least {
      if order < least - 1 { LargerBlock(order, least - 1); }
    } else if least < order {
      LargerBlock(least, order);
    }
  }

  /** A larger request is refused exactly when no free block suffices.  Otherwise it gets a
      block of the least order that does, cut from a free block of the least such order. */
  lemma {:induction false} LargeExact(r: Range, h: Heap, held: set<Block>, seed: Block, size: u32)
    requires GoodSeed(r, seed) && Partition(h.lists, held, seed) && 128 < size <= 0x7FFF_FFF4
    ensures var o := Kmalloc(r, h, size);
      && (o.Refused? <==> forall b :: b in FreeSet(h.lists) ==> !Suffices(b.order, size)) && !o.Hangs?
      && (o.Granted? ==>
            && o.grant.from.BuddyBlock? && Suffices(o.grant.from.order, size)
            && (forall k: nat :: k < o.grant.from.order ==> !Suffices(k, size))
            && exists p :: BestFit(h.lists, o.grant.from.order, p) && o.grant.ptr == p.addr + HEADER)
  {
    hide Partition, GoodSeed, Suffices, Alloc, BestFit, FreeSet, LeastOrder, SlabMalloc, Wrap32;
    var total: u32 := size + HEADER;
    assert Wrap32(size + HEADER) == total;
    var order := LeastOrder(total, 0);
    forall k: nat ensures Suffices(k, size) <==> k >= order { SufficesIff(size, k); }
    if order <= MAX_ORDER {
      AllocFailsIff(r, h.lists, order);
      if Alloc(r, h.lists, order).Some? { var p := AllocExact(r, h.lists, held, seed, order); }
    } else {
      TooLargeOrder(r, h.lists, order);
    }
  }

  lemma {:induction false} TooLargeOrder(r: Range, lists: Lists, order: nat)
    requires order > MAX_ORDER
    ensures Alloc(r, lists, order).None? && forall b :: b in FreeSet(lists) ==> b.order < order
  {
  }
}
