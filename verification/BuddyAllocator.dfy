/** kernel/Memory/buddy.c in place: heads of singly linked lists whose `next` words live in
    the free blocks, changed by splitting, unlinking and merging. */
module BuddyAllocator {
  import opened Words
  import opened Bits
  import opened BuddyGeometry
  import opened BuddyModel

  // ----- linked lists

  function At(s: seq<nat>, i: nat): nat { if i < |s| then s[i] else 0 }

  /** Following `next` from `h` visits exactly `s` and ends in NULL. */
  predicate Chain(h: nat, next: map<nat, nat>, s: seq<nat>) {
    && h == At(s, 0)
    && forall i :: 0 <= i < |s| ==> s[i] != 0 && s[i] in next && next[s[i]] == At(s, i + 1)
  }

  ghost predicate Linked(heads: seq<nat>, next: map<nat, nat>, lists: Lists) {
    |heads| == MAX_ORDER + 1 && forall k :: 0 <= k <= MAX_ORDER ==> Chain(heads[k], next, lists[k])
  }

  /** No list holds `a`. */
  ghost predicate Unlisted(lists: Lists, a: nat) {
    forall k :: 0 <= k <= MAX_ORDER ==> a !in lists[k]
  }

  lemma {:induction false} LinkedPush(heads: seq<nat>, next: map<nat, nat>, lists: Lists, a: nat, k: nat)
    requires Linked(heads, next, lists) && k <= MAX_ORDER && a != 0 && Unlisted(lists, a)
    ensures Linked(heads[k := a], next[a := heads[k]], lists[k := [a] + lists[k]])
  {
    var h', n', l' := heads[k := a], next[a := heads[k]], lists[k := [a] + lists[k]];
    forall j | 0 <= j <= MAX_ORDER ensures Chain(h'[j], n', l'[j]) {
      assert Chain(heads[j], next, lists[j]);
    }
  }

  lemma {:induction false} LinkedPop(heads: seq<nat>, next: map<nat, nat>, lists: Lists, k: nat)
    requires Linked(heads, next, lists) && k <= MAX_ORDER && lists[k] != []
    ensures heads[k] == lists[k][0] && heads[k] in next
    ensures Linked(heads[k := next[heads[k]]], next, lists[k := lists[k][1..]])
  {
    assert Chain(heads[k], next, lists[k]);
    var s := lists[k];
    assert forall i :: 0 <= i ==> At(s[1..], i) == At(s, i + 1);
  }

  lemma {:induction false} LinkedUnlink(heads: seq<nat>, next: map<nat, nat>, lists: Lists, k: nat, i: nat)
    requires Linked(heads, next, lists) && k <= MAX_ORDER && 0 < i < |lists[k]|
    requires NoDuplicates(lists[k])
    requires forall j :: 0 <= j <= MAX_ORDER && j != k ==> lists[k][i - 1] !in lists[j]
    ensures lists[k][i] in next
    ensures Linked(heads, next[lists[k][i - 1] := next[lists[k][i]]], lists[k := lists[k][..i] + lists[k][i + 1..]])
  {
    assert Chain(heads[k], next, lists[k]);
    var s := lists[k];
    var n' := next[s[i - 1] := next[s[i]]];
    var s' := s[..i] + s[i + 1..];
    forall j | 0 <= j <= MAX_ORDER && j != k ensures Chain(heads[j], n', lists[j]) {
      assert Chain(heads[j], next, lists[j]);
    }
    assert Chain(heads[k], n', s');
  }

  lemma {:induction false} LinkedClear(heads: seq<nat>, next: map<nat, nat>, lists: Lists, a: nat)
    requires Linked(heads, next, lists) && Unlisted(lists, a)
    ensures Linked(heads, next[a := 0], lists)
  {
    forall j | 0 <= j <= MAX_ORDER ensures Chain(heads[j], next[a := 0], lists[j]) {
      assert Chain(heads[j], next, lists[j]);
    }
  }

  /** A held block is on no list, whatever the order. */
  lemma {:induction false} HeldIsUnlisted(lists: Lists, held: set<Block>, seed: Block, b: Block)
    requires Partition(lists, held, seed) && b in held
    ensures Unlisted(lists, b.addr)
  {
    forall k | 0 <= k <= MAX_ORDER ensures b.addr !in lists[k] {
      var c := Block(b.addr, k);
      assert !Disjoint(b, c);
      assert c in FreeSet(lists) <==> c.addr in lists[k];
      assert b in FreeSet(lists) + held;
    }
  }

  /** An address is on at most one list. */
  lemma {:induction false} ListedOnce(lists: Lists, held: set<Block>, seed: Block, a: nat, j: nat, k: nat)
    requires Partition(lists, held, seed) && j <= MAX_ORDER && k <= MAX_ORDER
    requires a in lists[j] && a in lists[k]
    ensures j == k
  {
    var b, c := Block(a, j), Block(a, k);
    assert b in FreeSet(lists) && c in FreeSet(lists);
    assert b in FreeSet(lists) + held && c in FreeSet(lists) + held;
    assert !Disjoint(b, c);
  }

  // ----- buddy_init

  /** `(a + size - 1) & ~(size - 1)` in 32 bits. */
  function AlignUp(a: u32, order: nat): (r: nat)
    requires order <= MAX_ORDER
  {
    SizeFits(order);
    BitAnd(Wrap32(a + BlockSize(order) - 1), 0x1_0000_0000 - BlockSize(order))
  }

  /** Where the search from `order` down stops, and the address it has then. */
  function InitScan(r: Range, order: nat): (res: (nat, nat))
    requires order <= MAX_ORDER
    ensures res.0 <= order
  {
    if order == 0 then (0, r.start)
    else if Wrap32(AlignUp(r.start, order) + BlockSize(order)) <= r.end then (order, AlignUp(r.start, order))
    else InitScan(r, order - 1)
  }

  /** The block `buddy_init` lists, if any. */
  function InitSeed(r: Range): Option<Block> {
    var (order, found) := InitScan(r, MAX_ORDER);
    var addr := if order == 0 then AlignUp(r.start, 0) else found;
    if order == 0 && Wrap32(addr + 4096) > r.end then None
    else if addr == 0 || !r.Contains(addr) then None
    else Some(Block(addr, order))
  }

  function EmptyLists(): Lists { seq(MAX_ORDER + 1, _ => []) }

  function InitLists(r: Range): Lists {
    match InitSeed(r)
    case None => EmptyLists()
    case Some(b) => Seeded(b).lists
  }

  ghost predicate Fits(r: Range, b: Block) {
    Aligned(b) && b.order <= MAX_ORDER && r.start <= b.addr && b.End() <= r.end
  }

  /** The largest aligned block that fits is listed, or none fits. */
  ghost predicate SeedsBest(r: Range) {
    match InitSeed(r)
    case None => forall b :: !Fits(r, b)
    case Some(s) => s.addr > 0 && Fits(r, s) && forall b :: Fits(r, b) ==> b.order <= s.order
  }

  /** The first page boundary from `a` on, without wrap-around. */
  function PageUp(a: nat): nat { a + 4095 - (a + 4095) % 4096 }

  lemma {:induction false} AlignUpIs(a: u32, order: nat)
    requires order <= MAX_ORDER
    ensures var s := BlockSize(order);
      var w := Wrap32(a + s - 1);
      AlignUp(a, order) == w - w % s
  {
    SizeFits(order);
    Pow2Values();
    AndHighMask(Wrap32(a + BlockSize(order) - 1), order + 12, 32);
  }

  lemma {:induction false} RoundingUp(a: nat, s: nat) returns (q: nat)
    requires s > 0
    ensures a + s - 1 - (a + s - 1) % s == s * q && a <= s * q < a + s
  {
    var w := a + s - 1;
    q := w / s;
    assert w == s * q + w % s;
  }

  lemma {:induction false} NoAlignedBetween(a: nat, u: nat, order: nat, x: nat)
    requires AlignedTo(u, order) && AlignedTo(x, order) && u < a + BlockSize(order) && a <= x
    ensures u <= x
  {
    if x < u { OverlapAt(x, u, order, u); }
  }

  /** Without wrap-around `AlignUp` is the least aligned address from `a` on. */
  lemma {:induction false} AlignUpLeast(a: u32, order: nat)
    requires order <= MAX_ORDER && a + BlockSize(order) - 1 < 0x1_0000_0000
    ensures AlignedTo(AlignUp(a, order), order)
    ensures a <= AlignUp(a, order) < a + BlockSize(order)
    ensures forall x :: a <= x && AlignedTo(x, order) ==> AlignUp(a, order) <= x
  {
    hide AlignUp, AlignedTo, BlockSize;
    AlignUpIs(a, order);
    var s, u := BlockSize(order), AlignUp(a, order);
    var q := RoundingUp(a, s);
    MultipleAligned(u, order, q);
    forall x | a <= x && AlignedTo(x, order) ensures u <= x {
      NoAlignedBetween(a, u, order, x);
    }
  }

  lemma {:induction false} MultipleAligned(u: nat, order: nat, q: nat)
    requires u == BlockSize(order) * q
    ensures AlignedTo(u, order)
  {
    hide AlignedTo, BlockSize, Pow2;
    SizeIsPower(order);
    ModUnique(u, BlockSize(order), q, 0);
    AlignedMod(u, order);
  }

  lemma {:induction false} SizeIsPower(order: nat)
    ensures BlockSize(order) == Pow2(order + 12)
  {
    Pow2Add(order, 12);
    assert Pow2(12) == 4096 by { Pow2Values(); }
  }

  lemma {:induction false} InitScanFinds(r: Range, order: nat)
    requires order <= MAX_ORDER && r.start <= 0xE000_0000
    ensures var (o, a) := InitScan(r, order);
      && o <= order
      && (o > 0 ==> Fits(r, Block(a, o)) && a == AlignUp(r.start, o))
      && (forall b :: Fits(r, b) && b.order <= order ==> b.order <= o)
  {
    hide AlignUp, BlockSize, AlignedTo;
    if order > 0 {
      SizeFits(order);
      AlignUpLeast(r.start, order);
      InitScanFinds(r, order - 1);
      forall b | Fits(r, b) && b.order == order
        ensures AlignUp(r.start, order) + BlockSize(order) <= r.end
      {
        assert AlignUp(r.start, order) <= b.addr;
      }
    }
  }

  /** Every block that fits starts with a page that fits. */
  lemma {:induction false} FirstPageFits(r: Range, b: Block)
    requires Fits(r, b)
    ensures Fits(r, Block(b.addr, 0))
    decreases b.order
  {
    if b.order > 0 {
      HalvesAt(b.addr, b.order - 1);
      FirstPageFits(r, Block(b.addr, b.order - 1));
    }
  }

  lemma {:induction false} InitCorrectLow(r: Range)
    requires 0 < r.start <= 0xE000_0000
    ensures SeedsBest(r)
  {
    InitScanFinds(r, MAX_ORDER);
    AlignUpLeast(r.start, 0);
    assert BlockSize(0) == 4096;
    var (o, a) := InitScan(r, MAX_ORDER);
    if o == 0 && InitSeed(r).None? {
      forall b ensures !Fits(r, b) {
        if Fits(r, b) { FirstPageFits(r, b); }
      }
    }
  }

  /** In the top two order-16 frames the 32-bit sums wrap at the very first order tried. */
  lemma {:induction false} InitHigh(r: Range)
    requires r.start > 0xE000_0000
    ensures r.start <= 0xF000_0000 ==> InitScan(r, MAX_ORDER) == (MAX_ORDER, 0xF000_0000)
    ensures r.start > 0xF000_0000 ==> AlignUp(r.start, MAX_ORDER) == 0
  {
    var s := BlockSize(MAX_ORDER);
    assert s == 0x1000_0000 by { SizeFits(MAX_ORDER); Pow2Values(); }
    AlignUpIs(r.start, MAX_ORDER);
    hide BlockSize, AlignUp;
    var sum := r.start + s - 1;
    if r.start <= 0xF000_0000 {
      ModUnique(sum, s, 15, sum - 0xF000_0000);
      assert AlignUp(r.start, MAX_ORDER) == 0xF000_0000;
      assert Wrap32(0xF000_0000 + s) == 0;
    } else {
      WrapsToZero(sum, s);
    }
  }

  lemma {:induction false} AlignUpHigh(a: u32, order: nat)
    requires order <= MAX_ORDER
    ensures AlignUp(a, order) == 0 || AlignUp(a, order) >= a
  {
    SizeFits(order);
    hide AlignUp, BlockSize, Pow2;
    var s := BlockSize(order);
    if a + s - 1 < 0x1_0000_0000 {
      AlignUpLeast(a, order);
    } else {
      AlignUpIs(a, order);
      WrapsToZero(a + s - 1, s);
    }
  }

  lemma {:induction false} InitScanHigh(r: Range, order: nat)
    requires order <= MAX_ORDER
    ensures InitScan(r, order).1 == 0 || InitScan(r, order).1 >= r.start
  {
    hide AlignUp, BlockSize;
    if order > 0 {
      AlignUpHigh(r.start, order);
      InitScanHigh(r, order - 1);
    }
  }

  lemma {:induction false} WrapsToZero(sum: nat, s: nat)
    requires s > 0 && 0x1_0000_0000 <= sum < 0x1_0000_0000 + s
    requires s <= 0x1000_0000
    ensures var w := Wrap32(sum); w - w % s == 0
  {
    var w := Wrap32(sum);
    assert w == sum - 0x1_0000_0000;
    ModUnique(w, s, 0, w);
  }

  lemma {:induction false} PageAligned(x: nat)
    ensures AlignedTo(x, 0) <==> x % 4096 == 0
  {
  }

  lemma {:induction false} FirstBoundary(a: nat, x: nat)
    requires a <= x && x % 4096 == 0
    ensures PageUp(a) <= x
  {
  }

  /** Some block fits exactly when the first whole page does. */
  lemma {:induction false} FitsIff(r: Range)
    ensures (exists b :: Fits(r, b)) <==> PageUp(r.start) + 4096 <= r.end
  {
    hide AlignedTo;
    assert BlockSize(0) == 4096;
    if PageUp(r.start) + 4096 <= r.end {
      PageAligned(PageUp(r.start));
      assert Fits(r, Block(PageUp(r.start), 0));
    }
    if b :| Fits(r, b) {
      FirstPageFits(r, b);
      PageAligned(b.addr);
      FirstBoundary(r.start, b.addr);
    }
  }

  /** `buddy_init` seeds the best block exactly for ranges that start above address zero and
      not above 0xE0000000, or that hold no whole page and not the address 0xF0000000. */
  lemma {:induction false} InitExact(r: Range)
    ensures SeedsBest(r) <==>
      || 0 < r.start <= 0xE000_0000
      || (PageUp(r.start) + 4096 > r.end && !(r.start <= 0xF000_0000 < r.end))
  {
    hide PageUp;
    FitsIff(r);
    if 0 < r.start <= 0xE000_0000 {
      InitCorrectLow(r);
    } else if r.start == 0 {
      InitAtZero(r, MAX_ORDER);
      InitAtZeroPage(r);
    } else {
      InitAbove(r);
    }
  }

  lemma {:induction false} InitAtZero(r: Range, order: nat)
    requires r.start == 0 && order <= MAX_ORDER
    ensures InitScan(r, order).1 == 0
    decreases order
  {
    hide AlignUp, BlockSize, AlignedTo;
    if order > 0 {
      AlignUpZero(order);
      InitAtZero(r, order - 1);
    }
  }

  lemma {:induction false} AlignUpZero(order: nat)
    requires order <= MAX_ORDER
    ensures AlignUp(0, order) == 0
  {
    hide AlignUp, BlockSize, AlignedTo, Pow2;
    SizeFits(order);
    AlignUpLeast(0, order);
    AlignedMod(0, order);
  }

  lemma {:induction false} InitAtZeroPage(r: Range)
    requires r.start == 0 && InitScan(r, MAX_ORDER).1 == 0
    ensures InitSeed(r).None?
    ensures r.start <= 0xF000_0000 < r.end ==> Fits(r, Block(0, 0))
  {
    assert BlockSize(0) == 4096;
    AlignUpLeast(0, 0);
    assert AlignUp(0, 0) == 0 by { assert AlignedTo(0, 0); }
  }

  lemma {:induction false} InitAbove(r: Range)
    requires r.start > 0xE000_0000
    ensures SeedsBest(r) <==> (forall b :: !Fits(r, b)) && !(r.start <= 0xF000_0000 < r.end)
  {
    InitHigh(r);
    SizeFits(MAX_ORDER);
    Pow2Values();
    if r.start <= 0xF000_0000 {
      assert InitSeed(r) == if 0xF000_0000 < r.end then Some(Block(0xF000_0000, MAX_ORDER)) else None;
      assert !Fits(r, Block(0xF000_0000, MAX_ORDER));
    } else {
      assert InitSeed(r).None? by {
        if r.end < 0x1000_0000 {
          InitScanHigh(r, MAX_ORDER);
          AlignUpHigh(r.start, 0);
        } else {
          assert InitScan(r, MAX_ORDER) == (MAX_ORDER, 0);
        }
      }
    }
  }

  /** A range in the failing family: the block listed runs past the end of the range. */
  lemma {:induction false} InitOverrun()
    ensures var r := Range(0xF000_0000, 0xF000_2000);
      && InitSeed(r) == Some(Block(0xF000_0000, MAX_ORDER))
      && Block(0xF000_0000, MAX_ORDER).End() > r.end && !SeedsBest(r)
  {
    var r := Range(0xF000_0000, 0xF000_2000);
    InitHigh(r);
    InitExact(r);
  }

  // ----- the allocator object

  class Buddy {
    var range: Range
    const heads: array<nat>
    /** The `next` word of each block that has been on a list. */
    var next: map<nat, nat>

    /** What the chains spell out, the blocks handed out, and the block seeded. */
    ghost var lists: Lists
    ghost var live: seq<Block>
    ghost var seed: Option<Block>

    ghost predicate Valid()
      reads this, heads
    {
      Linked(heads[..], next, lists) && Accounted(range, State(lists, live), seed)
    }

    constructor (start: u32, end: u32)
      ensures fresh(heads) && range == Range(start, end) && live == []
      ensures seed == InitSeed(range) && lists == InitLists(range)
      ensures Linked(heads[..], next, lists)
      ensures SeedsBest(range) ==> Valid()
    {
      hide AlignUp, BlockSize, SeedsBest, Accounted, Seeded;
      range := Range(start, end);
      heads := new nat[MAX_ORDER + 1](_ => 0);
      next := map[];
      lists := EmptyLists();
      live := [];
      seed := InitSeed(Range(start, end));
      new;
      ghost var r := range;
      InitAccounted(r);
      var order, addr := MAX_ORDER, start as nat;
      while order > 0
        invariant 0 <= order <= MAX_ORDER && addr == start
        invariant InitScan(r, MAX_ORDER) == InitScan(r, order)
      {
        var aligned := AlignUp(start, order);
        if Wrap32(aligned + BlockSize(order)) <= end {
          addr := aligned;
          break;
        }
        order := order - 1;
      }
      if order == 0 {
        addr := AlignUp(start, 0);
        if Wrap32(addr + 4096) > end {
          return;
        }
      }
      AddToList(addr, order);
      SeededByAdding(r, addr, order);
    }

    method AddToList(ptr: nat, order: nat)
      requires order <= MAX_ORDER && Linked(heads[..], next, lists) && Unlisted(lists, ptr)
      modifies this`next, this`lists, heads
      ensures lists == BuddyModel.AddToList(range, old(lists), ptr, order)
      ensures Linked(heads[..], next, lists)
    {
      if ptr == 0 || !range.Contains(ptr) {
        return;
      }
      LinkedPush(heads[..], next, lists, ptr, order);
      ghost var was := heads[..];
      next := next[ptr := heads[order]];
      heads[order] := ptr;
      lists := lists[order := [ptr] + lists[order]];
      assert heads[..] == was[order := ptr];
    }

    /** NULL is 0. */
    method Alloc(order: int) returns (ptr: nat)
      requires Valid()
      modifies this`next, this`lists, this`live, heads
      ensures Valid()
      ensures State(lists, live) == Step(range, State(old(lists), old(live)), Request(order))
      ensures ptr == match BuddyModel.Alloc(range, old(lists), order) case None => 0 case Some(res) => res.0
      ensures ptr != 0 <==> BuddyModel.Alloc(range, old(lists), order).Some?
    {
      hide Accounted, Partition, SplitDown;
      ptr := 0;
      if !(0 <= order <= MAX_ORDER) {
        return;
      }
      ghost var was := State(lists, live);
      var i := order;
      while i <= MAX_ORDER && heads[i] == 0
        invariant order <= i <= MAX_ORDER + 1
        invariant FirstNonEmpty(lists, order) == FirstNonEmpty(lists, i)
      {
        assert Chain(heads[i], next, lists[i]);
        i := i + 1;
      }
      if i > MAX_ORDER {
        return;
      }
      assert Chain(heads[i], next, lists[i]);
      AllocAccounted(range, was, seed, order);
      ptr := heads[i];
      ghost var links := heads[..];
      LinkedPop(links, next, lists, i);
      heads[i] := next[ptr];
      lists := lists[i := lists[i][1..]];
      assert heads[..] == links[i := next[ptr]];
      Split(ptr, i, order, Elements(live), seed.value);
      if i == order {
        HeldIsUnlisted(lists, Elements(live) + {Block(ptr, i)}, seed.value, Block(ptr, i));
        LinkedClear(heads[..], next, lists, ptr);
        next := next[ptr := 0];
      }
      live := live + [Block(ptr, order)];
    }

    /** The splitting loop: lists right halves until the block at `block` has `order`. */
    method Split(block: nat, top: nat, order: nat, ghost held: set<Block>, ghost b: Block)
      requires order <= top <= MAX_ORDER && Linked(heads[..], next, lists) && GoodSeed(range, b)
      requires Block(block, top) !in held && Partition(lists, held + {Block(block, top)}, b)
      modifies this`next, this`lists, heads
      ensures Linked(heads[..], next, lists)
      ensures lists == SplitDown(range, old(lists), block, top, order)
      ensures Partition(lists, held + {Block(block, order)}, b)
    {
      hide Partition, GoodSeed, BlockSize, Linked, Unlisted, BuddyModel.AddToList;
      var i := top;
      while i > order
        invariant order <= i <= top && Linked(heads[..], next, lists)
        invariant Block(block, i) !in held && Partition(lists, held + {Block(block, i)}, b)
        invariant SplitDown(range, old(lists), block, top, order) == SplitDown(range, lists, block, i, order)
      {
        SplitIsUnlisted(range, lists, held, b, Block(block, i));
        i := i - 1;
        AddToList(block + BlockSize(i), i);
      }
    }

    /** The caller hands back a block it holds; any other pointer must fail the guards. */
    method Free(ptr: nat, order: int)
      requires Valid()
      requires Releasable(range, ptr, order) ==> Block(ptr, order) in live
      modifies this`next, this`lists, this`live, heads
      ensures Valid()
      ensures lists == BuddyModel.Free(range, old(lists), ptr, order)
      ensures live == if order >= 0 then Without(old(live), Block(ptr, order)) else old(live)
    {
      hide Accounted, Partition, MergeUp, BitAnd, BlockSize;
      if ptr == 0 || !(0 <= order <= MAX_ORDER) || !range.Contains(ptr) || BitAnd(ptr, BlockSize(order) - 1) != 0 {
        if order >= 0 {
          RefusedIsNotLive(range, State(lists, live), seed, Block(ptr, order));
        }
        return;
      }
      ghost var held := Elements(Without(live, Block(ptr, order)));
      FreeAccounted(range, State(lists, live), seed, Block(ptr, order));
      Merge(ptr, order, held, seed.value);
      live := Without(live, Block(ptr, order));
    }

    /** The merging loop: climbs while the buddy is listed, then lists the result. */
    method Merge(block: nat, order: nat, ghost held: set<Block>, ghost b: Block)
      requires order <= MAX_ORDER && Linked(heads[..], next, lists) && GoodSeed(range, b)
      requires Block(block, order) !in held && Partition(lists, held + {Block(block, order)}, b)
      modifies this`next, this`lists, heads
      ensures Linked(heads[..], next, lists)
      ensures lists == MergeUp(range, old(lists), block, order)
    {
      hide Partition, GoodSeed, BuddyAddr, ClearSizeBit, Linked, Unlisted;
      var addr, k := block, order;
      while k < MAX_ORDER
        invariant k <= MAX_ORDER && Linked(heads[..], next, lists)
        invariant Block(addr, k) !in held && Partition(lists, held + {Block(addr, k)}, b)
        invariant MergeUp(range, old(lists), block, order) == MergeUp(range, lists, addr, k)
      {
        var buddy := BuddyAddr(addr, k);
        if !range.Contains(buddy) {
          break;
        }
        ghost var was := lists;
        var found := Unlink(buddy, k, held + {Block(addr, k)}, b);
        if !found {
          break;
        }
        MergeBits(range, was, held, b, Block(addr, k));
        addr := ClearSizeBit(addr, k);
        k := k + 1;
      }
      HeldIsUnlisted(lists, held + {Block(addr, k)}, b, Block(addr, k));
      AddToList(addr, k);
    }

    /** Finds `target` on the list of `order` and takes it out. */
    method Unlink(target: nat, order: nat, ghost held: set<Block>, ghost b: Block) returns (found: bool)
      requires order <= MAX_ORDER && Linked(heads[..], next, lists) && Partition(lists, held, b)
      modifies this`next, this`lists, heads
      ensures found <==> target in old(lists[order])
      ensures !found ==> lists == old(lists)
      ensures lists == old(lists)[order := Without(old(lists[order]), target)]
      ensures Linked(heads[..], next, lists)
    {
      var current, prev := heads[order], 0;
      ghost var i, s := 0, lists[order];
      assert Chain(heads[order], next, s);
      while current != 0 && current != target
        invariant i <= |s| && current == At(s, i) && (i > 0 ==> prev == s[i - 1]) && (i == 0 <==> prev == 0)
        invariant target !in s[..i]
        decreases |s| - i
      {
        prev := current;
        current := next[current];
        i := i + 1;
      }
      found := current != 0;
      if !found {
        assert s[..i] == s;
        return;
      }
      WithoutSplit(s, target, i);
      ghost var links := heads[..];
      if prev != 0 {
        forall j | 0 <= j <= MAX_ORDER && prev in lists[j] ensures j == order {
          ListedOnce(lists, held, b, prev, j, order);
        }
        LinkedUnlink(links, next, lists, order, i);
        next := next[prev := next[current]];
      } else {
        LinkedPop(links, next, lists, order);
        heads[order] := next[current];
        assert heads[..] == links[order := next[current]];
      }
      lists := lists[order := Without(lists[order], target)];
    }

    /** `buddy_free_memory`; the saturation at 2^32 - 1 is never reached. */
    method FreeMemory() returns (total: int)
      requires Valid()
      ensures total == FreeBytes(lists) <= 0xFFFF_FFFF
    {
      hide Accounted, BlockSize, FreeBytes;
      total := 0;
      BytesFit(range, State(lists, live), seed);
      var order := 0;
      while order <= MAX_ORDER
        invariant 0 <= order <= MAX_ORDER + 1 && total == FreeBytesBelow(lists, order)
      {
        var current, bytes := heads[order], BlockSize(order);
        ghost var i, s := 0, lists[order];
        assert Chain(heads[order], next, s);
        FreeBytesMonotone(lists, order + 1);
        assert FreeBytesBelow(lists, order + 1) == FreeBytesBelow(lists, order) + |s| * bytes;
        while current != 0
          invariant 0 <= i <= |s| && current == At(s, i)
          invariant total == FreeBytesBelow(lists, order) + i * bytes
          decreases |s| - i
        {
          OneMore(i, |s|, bytes);
          if total > 0xFFFF_FFFF - bytes {
            total := 0xFFFF_FFFF;
            break;
          }
          total := total + bytes;
          current := next[current];
          i := i + 1;
        }
        order := order + 1;
      }
      FreeBytesTotal(lists);
    }
  }

  ghost function IndexOf(live: seq<Block>, b: Block): (i: nat)
    requires b in live
    ensures i < |live| && live[i] == b && b !in live[..i]
  {
    if live[0] == b then 0 else 1 + IndexOf(live[1..], b)
  }

  /** The right half that a split is about to list is on no list yet. */
  lemma {:induction false} SplitIsUnlisted(r: Range, lists: Lists, held: set<Block>, seed: Block, p: Block)
    requires GoodSeed(r, seed) && 0 < p.order <= MAX_ORDER
    requires p !in held && Partition(lists, held + {p}, seed)
    ensures Unlisted(lists, RightHalf(p).addr)
    ensures LeftHalf(p) !in held
    ensures Partition(BuddyModel.AddToList(r, lists, RightHalf(p).addr, p.order - 1), held + {LeftHalf(p)}, seed)
  {
    SplitStep(r, lists, held, seed, p);
    forall k | 0 <= k <= MAX_ORDER ensures RightHalf(p).addr !in lists[k] {
      var c := Block(RightHalf(p).addr, k);
      assert c in FreeSet(lists) <==> c.addr in lists[k];
      assert p in FreeSet(lists) + (held + {p});
      AlignedHalves(p);
      assert !Disjoint(p, c);
    }
  }

  /** One turn of the merging loop. */
  lemma {:induction false} MergeBits(r: Range, lists: Lists, held: set<Block>, seed: Block, b: Block)
    requires GoodSeed(r, seed) && b.order < MAX_ORDER && b !in held && Partition(lists, held + {b}, seed)
    requires BuddyAddr(b.addr, b.order) in lists[b.order]
    ensures var p := Block(ClearSizeBit(b.addr, b.order), b.order + 1);
      p !in held && Partition(lists[b.order := Without(lists[b.order], BuddyAddr(b.addr, b.order))], held + {p}, seed)
  {
    hide Partition, BuddyAddr, ClearSizeBit, BlockSize;
    HeldBlock(lists, held + {b}, seed, b);
    BuddyBits(b);
    assert BuddyOf(b) == Block(BuddyOf(b).addr, b.order);
    MergeStep(lists, held, seed, b);
  }

  predicate Releasable(r: Range, ptr: nat, order: int) {
    ptr != 0 && 0 <= order <= MAX_ORDER && r.Contains(ptr) && BitAnd(ptr, BlockSize(order) - 1) == 0
  }

  /** Nothing was seeded, or the lists and the live blocks keep the invariant of runs. */
  ghost predicate Accounted(r: Range, s: State, seed: Option<Block>) {
    match seed
    case None => s == State(EmptyLists(), [])
    case Some(b) => GoodSeed(r, b) && Inv(s, b)
  }

  lemma {:induction false} InitAccounted(r: Range)
    ensures SeedsBest(r) ==> Accounted(r, State(InitLists(r), []), InitSeed(r))
  {
    hide Inv;
    if SeedsBest(r) && InitSeed(r).Some? {
      SeededInv(r, InitSeed(r).value);
    }
  }

  lemma {:induction false} SeededByAdding(r: Range, addr: nat, order: nat)
    requires order <= MAX_ORDER
    ensures addr != 0 && r.Contains(addr) ==>
      BuddyModel.AddToList(r, EmptyLists(), addr, order) == Seeded(Block(addr, order)).lists
  {
    assert [addr] + EmptyLists()[order] == [addr];
    assert EmptyLists()[order := [addr]] == Seeded(Block(addr, order)).lists;
  }

  lemma {:induction false} AllocAccounted(r: Range, s: State, seed: Option<Block>, order: nat)
    requires Accounted(r, s, seed) && order <= MAX_ORDER && FirstNonEmpty(s.lists, order) <= MAX_ORDER
    ensures seed.Some? && GoodSeed(r, seed.value)
    ensures Accounted(r, Step(r, s, Request(order)), seed)
    ensures var i := FirstNonEmpty(s.lists, order);
      var b := Block(s.lists[i][0], i);
      b !in LiveSet(s) && Partition(s.lists[i := s.lists[i][1..]], LiveSet(s) + {b}, seed.value)
  {
    var i := FirstNonEmpty(s.lists, order);
    assert seed.Some?;
    RequestKeeps(r, s, seed.value, order);
    PopHead(s.lists, LiveSet(s), seed.value, i);
  }

  lemma {:induction false} FreeAccounted(r: Range, s: State, seed: Option<Block>, b: Block)
    requires Accounted(r, s, seed) && b in s.live
    ensures seed.Some? && GoodSeed(r, seed.value)
    ensures b !in Elements(Without(s.live, b))
    ensures Partition(s.lists, Elements(Without(s.live, b)) + {b}, seed.value)
    ensures Accounted(r, State(BuddyModel.Free(r, s.lists, b.addr, b.order), Without(s.live, b)), seed)
  {
    hide Partition, FreeBytes, BytesOf, BuddyModel.Free, Elements, GoodSeed;
    var i := WithoutLive(s.live, b);
    ReleaseKeeps(r, s, seed.value, i);
  }

  lemma {:induction false} WithoutLive(live: seq<Block>, b: Block) returns (i: nat)
    requires b in live && NoDuplicates(live)
    ensures i < |live| && live[i] == b && Without(live, b) == live[..i] + live[i + 1..]
    ensures b !in Elements(Without(live, b)) && Elements(live) == Elements(Without(live, b)) + {b}
  {
    i := IndexOf(live, b);
    ElementsWithout(live, i);
    WithoutSplit(live, b, i);
  }

  /** A pointer that the guards of `buddy_free` refuse is no live block. */
  lemma {:induction false} RefusedIsNotLive(r: Range, s: State, seed: Option<Block>, b: Block)
    requires Accounted(r, s, seed)
    requires b.addr == 0 || b.order > MAX_ORDER || !r.Contains(b.addr) || BitAnd(b.addr, BlockSize(b.order) - 1) != 0
    ensures b !in s.live
  {
    if b in s.live {
      HeldBlock(s.lists, LiveSet(s), seed.value, b);
      SizeOrder(b.order, seed.value.order);
      AlignmentTest(b.addr, b.order);
    }
  }

  lemma {:induction false} FreeBytesMonotone(lists: Lists, k: nat)
    requires k <= MAX_ORDER + 1
    ensures FreeBytesBelow(lists, k) <= FreeBytes(lists)
    decreases MAX_ORDER + 1 - k
  {
    if k <= MAX_ORDER {
      FreeBytesMonotone(lists, k + 1);
      hide BlockSize;
      assert |lists[k]| * BlockSize(k) >= 0;
    }
  }

  lemma {:induction false} OneMore(i: nat, n: nat, z: nat)
    requires i < n
    ensures (i + 1) * z == i * z + z && (i + 1) * z <= n * z
  {
  }

  lemma {:induction false} BytesFit(r: Range, s: State, seed: Option<Block>)
    requires Accounted(r, s, seed)
    ensures FreeBytes(s.lists) <= 0xFFFF_FFFF
  {
    if seed.None? { EmptyBytes(MAX_ORDER + 1); }
  }

  lemma {:induction false} EmptyBytes(k: nat)
    requires k <= MAX_ORDER + 1
    ensures FreeBytesBelow(EmptyLists(), k) == 0
  {
    if k > 0 { EmptyBytes(k - 1); }
  }
}
