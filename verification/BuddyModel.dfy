/** kernel/Memory/buddy.c as functions on its free lists, and what every run of
    allocations and matching frees keeps. */
module BuddyModel {
  import opened Words
  import opened Bits
  import opened BuddyGeometry

  /** One list of block addresses per order, head first. */
  type Lists = l: seq<seq<nat>> | |l| == MAX_ORDER + 1 witness seq(MAX_ORDER + 1, _ => [])

  /** `buddy_start` and `buddy_end`. */
  datatype Range = Range(start: u32, end: u32) {
    predicate Contains(a: nat) { start <= a < end }
  }

  function AddToList(r: Range, lists: Lists, addr: nat, order: nat): Lists
    requires order <= MAX_ORDER
  {
    if addr == 0 || !r.Contains(addr) then lists else lists[order := [addr] + lists[order]]
  }

  /** The least order from `from` on whose list is not empty, or MAX_ORDER + 1. */
  function FirstNonEmpty(lists: Lists, from: nat): (i: nat)
    requires from <= MAX_ORDER + 1
    ensures from <= i <= MAX_ORDER + 1
    ensures forall k :: from <= k < i ==> lists[k] == []
    ensures i <= MAX_ORDER ==> lists[i] != []
    decreases MAX_ORDER + 1 - from
  {
    if from > MAX_ORDER || lists[from] != [] then from else FirstNonEmpty(lists, from + 1)
  }

  /** Cuts the block of order `i` at `addr` down to `order`, listing each right half. */
  function SplitDown(r: Range, lists: Lists, addr: nat, i: nat, order: nat): Lists
    requires order <= i <= MAX_ORDER
    decreases i
  {
    if i == order then lists
    else SplitDown(r, AddToList(r, lists, addr + BlockSize(i - 1), i - 1), addr, i - 1, order)
  }

  function Alloc(r: Range, lists: Lists, order: int): Option<(nat, Lists)> {
    if !(0 <= order <= MAX_ORDER) then None
    else
      var i := FirstNonEmpty(lists, order);
      if i > MAX_ORDER then None
      else Some((lists[i][0], SplitDown(r, lists[i := lists[i][1..]], lists[i][0], i, order)))
  }

  function BuddyAddr(addr: nat, order: nat): nat { BitXor(addr, BlockSize(order)) }

  /** `address & ~size` on 32-bit addresses. */
  function ClearSizeBit(addr: nat, order: nat): nat
    requires order <= MAX_ORDER
  {
    SizeFits(order);
    BitAnd(addr, 0xFFFF_FFFF - BlockSize(order))
  }

  function MergeUp(r: Range, lists: Lists, addr: nat, order: nat): Lists
    requires order <= MAX_ORDER
    decreases MAX_ORDER - order
  {
    if order == MAX_ORDER then AddToList(r, lists, addr, order)
    else
      var b := BuddyAddr(addr, order);
      if !r.Contains(b) || b !in lists[order] then AddToList(r, lists, addr, order)
      else MergeUp(r, lists[order := Without(lists[order], b)], ClearSizeBit(addr, order), order + 1)
  }

  function Free(r: Range, lists: Lists, ptr: nat, order: int): Lists {
    if ptr == 0 || !(0 <= order <= MAX_ORDER) || !r.Contains(ptr) then lists
    else if BitAnd(ptr, BlockSize(order) - 1) != 0 then lists
    else MergeUp(r, lists, ptr, order)
  }

  // ----- bit tricks and block geometry agree

  lemma {:induction false} SizeFits(order: nat)
    requires order <= MAX_ORDER
    ensures BlockSize(order) == Pow2(order + 12) && BlockSize(order) <= 0x1000_0000
  {
    assert Pow2(order + 12) == Pow2(order) * 4096 by { Pow2Add(order, 12); Pow2Values(); }
    assert Pow2(order) <= 0x1_0000 by {
      Pow2Values();
      if order < MAX_ORDER { Pow2Monotone(order, MAX_ORDER); }
    }
  }

  lemma {:induction false} AlignedBits(a: nat, k: nat)
    requires AlignedTo(a, k)
    ensures Bit(a, k + 12) <==> ParentAddr(a, k) != a
    decreases k
  {
    if k == 0 {
      BitIsUpperHalf(a, 12);
      Pow2Values();
    } else {
      AlignedBits(a / 2, k - 1);
    }
  }

  lemma {:induction false} AlignedMod(a: nat, k: nat)
    ensures AlignedTo(a, k) <==> a % Pow2(k + 12) == 0
    decreases k
  {
    if k == 0 {
      Pow2Values();
    } else {
      AlignedMod(a / 2, k - 1);
      HalfMod(a, Pow2(k + 11));
    }
  }

  /** The alignment test of `buddy_free` accepts exactly the size-aligned pointers. */
  lemma {:induction false} AlignmentTest(a: nat, order: nat)
    requires order <= MAX_ORDER
    ensures BitAnd(a, BlockSize(order) - 1) == 0 <==> AlignedTo(a, order)
  {
    SizeFits(order);
    AndLowMask(a, order + 12);
    AlignedMod(a, order);
  }

  /** `address ^ size` is the buddy and `address & ~size` the parent. */
  lemma {:induction false} BuddyBits(b: Block)
    requires Aligned(b) && b.order < MAX_ORDER && b.addr < 0x1_0000_0000
    ensures BuddyAddr(b.addr, b.order) == BuddyOf(b).addr
    ensures ClearSizeBit(b.addr, b.order) == Parent(b).addr
  {
    hide Pow2, BlockSize, BitXor, BitAnd, Bit, AlignedTo, ParentAddr;
    SizeFits(b.order);
    Pow2Values();
    ParentAt(b.addr, b.order);
    AlignedBits(b.addr, b.order);
    XorPow2(b.addr, b.order + 12);
    AndNotPow2(b.addr, b.order + 12, 32);
  }

  // ----- the invariant

  ghost function FreeSet(lists: Lists): set<Block> {
    set k, a | 0 <= k <= MAX_ORDER && a in lists[k] :: Block(a, k)
  }

  /** The seed is what `buddy_init` lists: an aligned block inside the managed range. */
  ghost predicate GoodSeed(r: Range, seed: Block) {
    && Aligned(seed) && seed.order <= MAX_ORDER
    && 0 < seed.addr && r.start <= seed.addr && seed.End() <= r.end
  }

  ghost predicate Partition(lists: Lists, held: set<Block>, seed: Block) {
    && (forall k :: 0 <= k <= MAX_ORDER ==> NoDuplicates(lists[k]))
    && FreeSet(lists) !! held
    && Tiling(FreeSet(lists) + held, seed)
    && Coalesced(FreeSet(lists))
  }

  lemma {:induction false} FreeSetPush(lists: Lists, a: nat, k: nat)
    requires k <= MAX_ORDER
    ensures FreeSet(lists[k := [a] + lists[k]]) == FreeSet(lists) + {Block(a, k)}
  {
    var l' := lists[k := [a] + lists[k]];
    forall b ensures b in FreeSet(l') <==> b in FreeSet(lists) + {Block(a, k)} {
      assert b.order <= MAX_ORDER ==> (b.addr in l'[b.order] <==> b.addr in lists[b.order] || b == Block(a, k));
    }
  }

  lemma {:induction false} FreeSetRemove(lists: Lists, a: nat, k: nat)
    requires k <= MAX_ORDER && NoDuplicates(lists[k])
    ensures FreeSet(lists[k := Without(lists[k], a)]) == FreeSet(lists) - {Block(a, k)}
    ensures NoDuplicates(Without(lists[k], a))
  {
    WithoutElements(lists[k], a);
    var l' := lists[k := Without(lists[k], a)];
    forall b ensures b in FreeSet(l') <==> b in FreeSet(lists) - {Block(a, k)} {
      assert b.order <= MAX_ORDER ==> (b.addr in l'[b.order] <==> b.addr in lists[b.order] && b != Block(a, k));
    }
  }

  /** Listing a held block whose buddy is not free keeps the partition. */
  lemma {:induction false} ListBlock(r: Range, lists: Lists, held: set<Block>, seed: Block, b: Block)
    requires GoodSeed(r, seed) && b !in held && Partition(lists, held + {b}, seed)
    requires b.order == MAX_ORDER || (b.order < MAX_ORDER && BuddyOf(b) !in FreeSet(lists))
    ensures Partition(AddToList(r, lists, b.addr, b.order), held, seed)
    ensures AddToList(r, lists, b.addr, b.order) == lists[b.order := [b.addr] + lists[b.order]]
  {
    hide AlignedTo, BuddyOf, BlockSize;
    var t := FreeSet(lists) + (held + {b});
    assert b in t && Aligned(b) && Within(b, seed);
    FreeSetPush(lists, b.addr, b.order);
    var l' := lists[b.order := [b.addr] + lists[b.order]];
    assert b !in FreeSet(lists);
    assert b.addr !in lists[b.order];
    assert FreeSet(l') + held == t;
    forall c | c in FreeSet(l') && c.order < MAX_ORDER ensures BuddyOf(c) !in FreeSet(l') {
      assert c in t;
      BuddyFacts(c);
    }
  }

  lemma {:induction false} SplitStep(r: Range, lists: Lists, held: set<Block>, seed: Block, p: Block)
    requires GoodSeed(r, seed) && 0 < p.order <= MAX_ORDER
    requires p !in held && Partition(lists, held + {p}, seed)
    ensures LeftHalf(p) !in held
    ensures Partition(AddToList(r, lists, RightHalf(p).addr, p.order - 1), held + {LeftHalf(p)}, seed)
    ensures FreeBytes(AddToList(r, lists, RightHalf(p).addr, p.order - 1)) == FreeBytes(lists) + BlockSize(p.order - 1)
    ensures FreeSet(AddToList(r, lists, RightHalf(p).addr, p.order - 1)) == FreeSet(lists) + {RightHalf(p)}
  {
    var t := FreeSet(lists) + held;
    assert t + {p} == FreeSet(lists) + (held + {p});
    SplitKeepsTiling(t, seed, p);
    var l, h := LeftHalf(p), RightHalf(p);
    assert t + {l, h} == FreeSet(lists) + (held + {l} + {h});
    assert Partition(lists, held + {l} + {h}, seed);
    assert p in t + {p};
    AlignedHalves(p);
    assert BuddyOf(h) == l;
    ListBlock(r, lists, held + {l}, seed, h);
    FreeBytesUpdate(lists, h.order, [h.addr] + lists[h.order]);
    FreeSetPush(lists, h.addr, h.order);
  }

  lemma {:induction false} SplitDownKeeps(r: Range, lists: Lists, held: set<Block>, seed: Block, addr: nat, i: nat,
                                          order: nat)
    requires GoodSeed(r, seed) && order <= i <= MAX_ORDER
    requires Block(addr, i) !in held && Partition(lists, held + {Block(addr, i)}, seed)
    ensures Block(addr, order) !in held
    ensures Partition(SplitDown(r, lists, addr, i, order), held + {Block(addr, order)}, seed)
    ensures FreeBytes(SplitDown(r, lists, addr, i, order)) + BlockSize(order) == FreeBytes(lists) + BlockSize(i)
    decreases i
  {
    hide Partition, GoodSeed, FreeBytes, AddToList;
    if i > order {
      SplitStep(r, lists, held, seed, Block(addr, i));
      assert BlockSize(i) == 2 * BlockSize(i - 1);
      SplitDownKeeps(r, AddToList(r, lists, addr + BlockSize(i - 1), i - 1), held, seed, addr, i - 1, order);
    }
  }

  lemma {:induction false} ListStep(r: Range, lists: Lists, held: set<Block>, seed: Block, b: Block)
    requires GoodSeed(r, seed) && b !in held && Partition(lists, held + {b}, seed)
    requires b.order == MAX_ORDER || (b.order < MAX_ORDER && BuddyOf(b) !in FreeSet(lists))
    ensures Partition(AddToList(r, lists, b.addr, b.order), held, seed)
    ensures FreeBytes(AddToList(r, lists, b.addr, b.order)) == FreeBytes(lists) + BlockSize(b.order)
  {
    ListBlock(r, lists, held, seed, b);
    FreeBytesUpdate(lists, b.order, [b.addr] + lists[b.order]);
  }

  lemma {:induction false} HeldBlock(lists: Lists, held: set<Block>, seed: Block, b: Block)
    requires Partition(lists, held, seed) && b in FreeSet(lists) + held
    ensures Aligned(b) && Within(b, seed)
  {
  }

  lemma {:induction false} MergeUpKeeps(r: Range, lists: Lists, held: set<Block>, seed: Block, addr: nat, order: nat)
    requires GoodSeed(r, seed) && order <= MAX_ORDER
    requires Block(addr, order) !in held && Partition(lists, held + {Block(addr, order)}, seed)
    ensures Partition(MergeUp(r, lists, addr, order), held, seed)
    ensures FreeBytes(MergeUp(r, lists, addr, order)) == FreeBytes(lists) + BlockSize(order)
    decreases MAX_ORDER - order
  {
    hide Partition, FreeBytes, BuddyAddr, ClearSizeBit, BlockSize, AddToList;
    var b := Block(addr, order);
    HeldBlock(lists, held + {b}, seed, b);
    if order == MAX_ORDER {
      ListStep(r, lists, held, seed, b);
    } else {
      BuddyBits(b);
      var c := BuddyOf(b);
      assert c.order == order;
      assert c in FreeSet(lists) <==> c.addr in lists[order];
      if c in FreeSet(lists) {
        HeldBlock(lists, held + {b}, seed, c);
        MergeStep(lists, held, seed, b);
        var l' := lists[order := Without(lists[order], c.addr)];
        FreeBytesUpdate(lists, order, Without(lists[order], c.addr));
        SizeStep(order + 1);
        MergeUpKeeps(r, l', held, seed, Parent(b).addr, order + 1);
      } else {
        ListStep(r, lists, held, seed, b);
      }
    }
  }

  lemma {:induction false} MergeStep(lists: Lists, held: set<Block>, seed: Block, b: Block)
    requires b.order < MAX_ORDER && Aligned(b) && b !in held && Partition(lists, held + {b}, seed)
    requires BuddyOf(b) in FreeSet(lists)
    ensures Parent(b) !in held
    ensures Partition(lists[b.order := Without(lists[b.order], BuddyOf(b).addr)], held + {Parent(b)}, seed)
  {
    BuddyFacts(b);
    var c := BuddyOf(b);
    FreeSetRemove(lists, c.addr, b.order);
    var l' := lists[b.order := Without(lists[b.order], c.addr)];
    var t := FreeSet(l') + held;
    assert t + {b, c} == FreeSet(lists) + (held + {b});
    MergeKeepsTiling(t, seed, b);
    assert t + {Parent(b)} == FreeSet(l') + (held + {Parent(b)});
  }

  // ----- bytes

  function FreeBytesBelow(lists: Lists, k: nat): nat
    requires k <= MAX_ORDER + 1
  {
    if k == 0 then 0 else FreeBytesBelow(lists, k - 1) + |lists[k - 1]| * BlockSize(k - 1)
  }

  function FreeBytes(lists: Lists): nat { FreeBytesBelow(lists, MAX_ORDER + 1) }

  lemma {:induction false} FreeBytesBelowUpdate(lists: Lists, k: nat, s: seq<nat>, n: nat)
    requires k <= MAX_ORDER && n <= MAX_ORDER + 1
    ensures FreeBytesBelow(lists[k := s], n)
         == FreeBytesBelow(lists, n) + (if k < n then |s| * BlockSize(k) - |lists[k]| * BlockSize(k) else 0)
  {
    if n > 0 { FreeBytesBelowUpdate(lists, k, s, n - 1); }
  }

  lemma {:induction false} OneMoreTimes(n: int, z: nat)
    ensures (n + 1) * z == n * z + z
  {
  }

  lemma {:induction false} FreeBytesUpdate(lists: Lists, k: nat, s: seq<nat>)
    requires k <= MAX_ORDER
    ensures |s| == |lists[k]| + 1 ==> FreeBytes(lists[k := s]) == FreeBytes(lists) + BlockSize(k)
    ensures |s| == |lists[k]| - 1 ==> FreeBytes(lists[k := s]) + BlockSize(k) == FreeBytes(lists)
  {
    hide FreeBytesBelow, BlockSize;
    FreeBytesBelowUpdate(lists, k, s, MAX_ORDER + 1);
    OneMoreTimes(|lists[k]|, BlockSize(k));
    OneMoreTimes(|lists[k]| - 1, BlockSize(k));
  }

  function BytesOf(blocks: seq<Block>): nat {
    if blocks == [] then 0 else BytesOf(blocks[..|blocks| - 1]) + BlockSize(blocks[|blocks| - 1].order)
  }

  lemma {:induction false} BytesWithout(blocks: seq<Block>, i: nat)
    requires i < |blocks|
    ensures BytesOf(blocks) == BytesOf(blocks[..i] + blocks[i + 1..]) + BlockSize(blocks[i].order)
    decreases |blocks|
  {
    var n := |blocks| - 1;
    if i == n {
      assert blocks[..i] + blocks[i + 1..] == blocks[..n];
    } else {
      BytesWithout(blocks[..n], i);
      var rest := blocks[..i] + blocks[i + 1..];
      assert rest[..|rest| - 1] == blocks[..n][..i] + blocks[..n][i + 1..];
    }
  }

  // ----- runs

  /** A request order, or the position of the live block handed back. */
  datatype Op = Request(order: int) | Release(index: nat)

  datatype State = State(lists: Lists, live: seq<Block>)

  predicate Allowed(s: State, op: Op) { op.Release? ==> op.index < |s.live| }

  function Step(r: Range, s: State, op: Op): State
    requires Allowed(s, op)
  {
    match op
    case Request(order) =>
      (match Alloc(r, s.lists, order)
       case None => s
       case Some((addr, lists)) => State(lists, s.live + [Block(addr, order)]))
    case Release(i) =>
      State(Free(r, s.lists, s.live[i].addr, s.live[i].order), s.live[..i] + s.live[i + 1..])
  }

  predicate AllowedRun(r: Range, s: State, ops: seq<Op>)
    decreases |ops|
  {
    ops == [] || (Allowed(s, ops[0]) && AllowedRun(r, Step(r, s, ops[0]), ops[1..]))
  }

  function Run(r: Range, s: State, ops: seq<Op>): State
    requires AllowedRun(r, s, ops)
    decreases |ops|
  {
    if ops == [] then s else Run(r, Step(r, s, ops[0]), ops[1..])
  }

  function Seeded(seed: Block): State
    requires seed.order <= MAX_ORDER
  {
    State(seq(MAX_ORDER + 1, k => if k == seed.order then [seed.addr] else []), [])
  }

  ghost function Elements(blocks: seq<Block>): set<Block> { set b | b in blocks }

  ghost function LiveSet(s: State): set<Block> { Elements(s.live) }

  ghost predicate Inv(s: State, seed: Block) {
    && NoDuplicates(s.live)
    && Partition(s.lists, LiveSet(s), seed)
    && FreeBytes(s.lists) + BytesOf(s.live) == BlockSize(seed.order)
  }

  lemma {:induction false} SeededBytes(seed: Block, n: nat)
    requires seed.order <= MAX_ORDER && n <= MAX_ORDER + 1
    ensures FreeBytesBelow(Seeded(seed).lists, n) == if n > seed.order then BlockSize(seed.order) else 0
  {
    if n > 0 { SeededBytes(seed, n - 1); }
  }

  lemma {:induction false} SeededFree(seed: Block)
    requires seed.order <= MAX_ORDER
    ensures FreeSet(Seeded(seed).lists) == {seed}
  {
    var l := Seeded(seed).lists;
    assert forall k :: 0 <= k <= MAX_ORDER ==> l[k] == if k == seed.order then [seed.addr] else [];
  }

  lemma {:induction false} SingletonTiling(seed: Block)
    requires Aligned(seed)
    ensures Tiling({seed}, seed) && Coalesced({seed})
  {
    BuddyFacts(seed);
    forall x | Covers(seed, x) ensures Covered({seed}, x) { assert seed in {seed}; }
  }

  lemma {:induction false} SeededInv(r: Range, seed: Block)
    requires GoodSeed(r, seed)
    ensures Inv(Seeded(seed), seed)
  {
    hide FreeSet, FreeBytes, BlockSize, Aligned, Tiling, Coalesced;
    SeededFree(seed);
    SingletonTiling(seed);
    SeededBytes(seed, MAX_ORDER + 1);
    assert FreeBytes(Seeded(seed).lists) == BlockSize(seed.order) by { FreeBytesTotal(Seeded(seed).lists); }
    assert {seed} + LiveSet(Seeded(seed)) == {seed};
  }

  lemma {:induction false} FreeBytesTotal(lists: Lists)
    ensures FreeBytes(lists) == FreeBytesBelow(lists, MAX_ORDER + 1)
  {
  }

  /** Taking the head of a list turns a free block into a held one. */
  lemma {:induction false} PopHead(lists: Lists, held: set<Block>, seed: Block, i: nat)
    requires i <= MAX_ORDER && lists[i] != [] && Partition(lists, held, seed)
    ensures Block(lists[i][0], i) !in held
    ensures Partition(lists[i := lists[i][1..]], held + {Block(lists[i][0], i)}, seed)
    ensures FreeBytes(lists[i := lists[i][1..]]) + BlockSize(i) == FreeBytes(lists)
  {
    var a := lists[i][0];
    var b := Block(a, i);
    assert b in FreeSet(lists);
    assert Without(lists[i], a) == lists[i][1..];
    FreeSetRemove(lists, a, i);
    FreeBytesUpdate(lists, i, lists[i][1..]);
    assert FreeSet(lists) - {b} + (held + {b}) == FreeSet(lists) + held;
  }

  lemma {:induction false} AllocKeeps(r: Range, lists: Lists, held: set<Block>, seed: Block, order: nat)
    requires GoodSeed(r, seed) && order <= MAX_ORDER && Partition(lists, held, seed)
    requires Alloc(r, lists, order).Some?
    ensures var (a, lists') := Alloc(r, lists, order).value;
      && Block(a, order) !in held
      && Partition(lists', held + {Block(a, order)}, seed)
      && FreeBytes(lists') + BlockSize(order) == FreeBytes(lists)
  {
    var i := FirstNonEmpty(lists, order);
    var a := lists[i][0];
    PopHead(lists, held, seed, i);
    SplitDownKeeps(r, lists[i := lists[i][1..]], held, seed, a, i, order);
  }

  lemma {:induction false} FreeKeeps(r: Range, lists: Lists, held: set<Block>, seed: Block, b: Block)
    requires GoodSeed(r, seed) && b !in held && Partition(lists, held + {b}, seed)
    ensures Partition(Free(r, lists, b.addr, b.order), held, seed)
    ensures FreeBytes(Free(r, lists, b.addr, b.order)) == FreeBytes(lists) + BlockSize(b.order)
  {
    hide Partition, FreeBytes, MergeUp, BitAnd, AlignedTo, FreeSet, BlockSize;
    HeldBlock(lists, held + {b}, seed, b);
    SizeOrder(b.order, seed.order);
    AlignmentTest(b.addr, b.order);
    MergeUpKeeps(r, lists, held, seed, b.addr, b.order);
  }

  lemma {:induction false} ElementsSnoc(live: seq<Block>, b: Block)
    ensures Elements(live + [b]) == Elements(live) + {b}
    ensures BytesOf(live + [b]) == BytesOf(live) + BlockSize(b.order)
  {
    assert (live + [b])[..|live|] == live;
  }

  lemma {:induction false} ElementsWithout(live: seq<Block>, i: nat)
    requires i < |live| && NoDuplicates(live)
    ensures var rest := live[..i] + live[i + 1..];
      Elements(live) == Elements(rest) + {live[i]} && live[i] !in rest && NoDuplicates(rest)
  {
    var rest := live[..i] + live[i + 1..];
    forall c | c in live && c != live[i] ensures c in rest {
      var j :| 0 <= j < |live| && live[j] == c;
      assert rest[if j < i then j else j - 1] == c;
    }
  }

  lemma {:induction false} RequestKeeps(r: Range, s: State, seed: Block, order: int)
    requires GoodSeed(r, seed) && Inv(s, seed)
    ensures Inv(Step(r, s, Request(order)), seed)
  {
    if Alloc(r, s.lists, order).Some? {
      AllocKeeps(r, s.lists, LiveSet(s), seed, order);
      ElementsSnoc(s.live, Block(Alloc(r, s.lists, order).value.0, order));
    }
  }

  lemma {:induction false} ReleaseKeeps(r: Range, s: State, seed: Block, i: nat)
    requires GoodSeed(r, seed) && Inv(s, seed) && i < |s.live|
    ensures Inv(Step(r, s, Release(i)), seed)
  {
    ElementsWithout(s.live, i);
    FreeKeeps(r, s.lists, Elements(s.live[..i] + s.live[i + 1..]), seed, s.live[i]);
    BytesWithout(s.live, i);
  }

  /** Every run of requests and matching releases keeps the partition, the coalescing
      and the byte count. */
  lemma {:induction false} RunKeeps(r: Range, s: State, seed: Block, ops: seq<Op>)
    requires GoodSeed(r, seed) && Inv(s, seed) && AllowedRun(r, s, ops)
    ensures Inv(Run(r, s, ops), seed)
    decreases |ops|
  {
    if ops != [] {
      match ops[0] {
        case Request(order) => RequestKeeps(r, s, seed, order);
        case Release(i) => ReleaseKeeps(r, s, seed, i);
      }
      RunKeeps(r, Step(r, s, ops[0]), seed, ops[1..]);
    }
  }

  /** Buddy partition, over whole histories: free and live blocks are size-aligned,
      pairwise disjoint, tile the seed, and their bytes add up to it. */
  lemma {:induction false} BuddyPartition(r: Range, seed: Block, ops: seq<Op>)
    requires GoodSeed(r, seed) && AllowedRun(r, Seeded(seed), ops)
    ensures var s := Run(r, Seeded(seed), ops);
      && Tiling(FreeSet(s.lists) + LiveSet(s), seed)
      && FreeSet(s.lists) !! LiveSet(s) && NoDuplicates(s.live)
      && FreeBytes(s.lists) + BytesOf(s.live) == BlockSize(seed.order)
  {
    SeededInv(r, seed);
    RunKeeps(r, Seeded(seed), seed, ops);
  }

  /** Full coalescing, over whole histories: no block and its buddy are both free, and a
      history that has handed everything back ends in the state it started from. */
  lemma {:induction false} FullCoalescing(r: Range, seed: Block, ops: seq<Op>)
    requires GoodSeed(r, seed) && AllowedRun(r, Seeded(seed), ops)
    ensures var s := Run(r, Seeded(seed), ops);
      && Coalesced(FreeSet(s.lists))
      && (s.live == [] ==> s == Seeded(seed))
  {
    SeededInv(r, seed);
    RunKeeps(r, Seeded(seed), seed, ops);
    var s := Run(r, Seeded(seed), ops);
    if s.live == [] {
      assert FreeSet(s.lists) + LiveSet(s) == FreeSet(s.lists);
      CoalescedTilingIsSeed(FreeSet(s.lists), seed);
      forall k | 0 <= k <= MAX_ORDER ensures s.lists[k] == Seeded(seed).lists[k] {
        SingletonList(s.lists, seed, k);
      }
    }
  }

  lemma {:induction false} SingletonList(lists: Lists, seed: Block, k: nat)
    requires k <= MAX_ORDER && FreeSet(lists) == {seed} && NoDuplicates(lists[k])
    ensures lists[k] == if k == seed.order then [seed.addr] else []
  {
    var l := lists[k];
    assert |l| > 1 ==> l[0] != l[1];
    if l != [] {
      assert Block(l[0], k) in FreeSet(lists);
    }
    forall i | 0 <= i < |l| ensures l[i] == seed.addr && k == seed.order {
      assert Block(l[i], k) in FreeSet(lists);
    }
    if k == seed.order {
      assert seed in FreeSet(lists);
      assert seed.addr in l;
    }
  }

  /** An allocation of a valid order fails exactly when no block of that order or a
      higher one is free. */
  lemma {:induction false} AllocFailsIff(r: Range, lists: Lists, order: nat)
    requires order <= MAX_ORDER
    ensures Alloc(r, lists, order).None? <==> forall b :: b in FreeSet(lists) ==> b.order < order
  {
    var i := FirstNonEmpty(lists, order);
    if i <= MAX_ORDER {
      assert Block(lists[i][0], i) in FreeSet(lists);
    }
  }

  /** A successful allocation returns memory that was free and is now live only once. */
  lemma {:induction false} AllocReturnsFreeMemory(r: Range, s: State, seed: Block, order: nat)
    requires GoodSeed(r, seed) && Inv(s, seed) && order <= MAX_ORDER
    requires Alloc(r, s.lists, order).Some?
    ensures var b := Block(Alloc(r, s.lists, order).value.0, order);
      && b.addr > 0 && Aligned(b) && Within(b, seed)
      && (forall c :: c in s.live ==> Disjoint(b, c))
  {
    RequestKeeps(r, s, seed, order);
    var s' := Step(r, s, Request(order));
    var b := s'.live[|s.live|];
    var t := FreeSet(s'.lists) + LiveSet(s');
    assert b in t;
    forall c | c in s.live ensures Disjoint(b, c) {
      var j :| 0 <= j < |s.live| && s.live[j] == c;
      assert s'.live[j] == c && c in t;
    }
  }

  // ----- which block an allocation takes

  /** A free block of the least order that is large enough. */
  ghost predicate BestFit(lists: Lists, order: nat, p: Block) {
    && p in FreeSet(lists) && p.order >= order
    && forall b :: b in FreeSet(lists) && b.order >= order ==> p.order <= b.order
  }

  /** What is left when `p` is halved down to `order` from its low end. */
  ghost function RightHalves(p: Block, order: nat): set<Block> {
    set k | order <= k < p.order :: Block(p.addr + BlockSize(k), k)
  }

  lemma {:induction false} RightHalvesStep(p: Block, order: nat)
    requires order < p.order
    ensures RightHalves(p, order) == RightHalves(LeftHalf(p), order) + {RightHalf(p)}
  {
    hide BlockSize;
  }

  lemma {:induction false} SplitDownSet(r: Range, lists: Lists, held: set<Block>, seed: Block, p: Block, order: nat)
    requires GoodSeed(r, seed) && order <= p.order <= MAX_ORDER
    requires p !in held && Partition(lists, held + {p}, seed)
    ensures FreeSet(SplitDown(r, lists, p.addr, p.order, order)) == FreeSet(lists) + RightHalves(p, order)
    decreases p.order
  {
    hide Partition, GoodSeed, FreeBytes, AddToList, FreeSet, RightHalves;
    if p.order > order {
      SplitStep(r, lists, held, seed, p);
      SplitDownSet(r, AddToList(r, lists, RightHalf(p).addr, p.order - 1), held, seed, LeftHalf(p), order);
      RightHalvesStep(p, order);
    } else {
      NoHalves(p, order);
    }
  }

  lemma {:induction false} NoHalves(p: Block, order: nat)
    requires p.order <= order
    ensures RightHalves(p, order) == {}
  {
  }

  lemma {:induction false} PopHeadSet(lists: Lists, held: set<Block>, seed: Block, i: nat)
    requires i <= MAX_ORDER && lists[i] != [] && Partition(lists, held, seed)
    ensures FreeSet(lists[i := lists[i][1..]]) == FreeSet(lists) - {Block(lists[i][0], i)}
  {
    assert Without(lists[i], lists[i][0]) == lists[i][1..];
    FreeSetRemove(lists, lists[i][0], i);
  }

  /** An allocation takes the low end of a best-fitting free block and frees its right halves
      again; every other free block stays as it is. */
  lemma {:induction false} AllocExact(r: Range, lists: Lists, held: set<Block>, seed: Block, order: nat)
    returns (p: Block)
    requires GoodSeed(r, seed) && order <= MAX_ORDER && Partition(lists, held, seed)
    requires Alloc(r, lists, order).Some?
    ensures var (a, lists') := Alloc(r, lists, order).value;
      && BestFit(lists, order, p) && a == p.addr
      && FreeSet(lists') == FreeSet(lists) - {p} + RightHalves(p, order)
  {
    var i := FirstNonEmpty(lists, order);
    p := Block(lists[i][0], i);
    assert BestFit(lists, order, p);
    PopHead(lists, held, seed, i);
    PopHeadSet(lists, held, seed, i);
    hide Partition, GoodSeed, FreeBytes, FreeSet, RightHalves, SplitDown;
    SplitDownSet(r, lists[i := lists[i][1..]], held, seed, p, order);
  }
}
