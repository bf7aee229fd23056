/** The dyadic geometry behind kernel/Memory/buddy.c: size-aligned blocks, buddies,
    tilings of a seeded block, and why full coalescing leaves a single block. */
module BuddyGeometry {
  import opened Words

  const MAX_ORDER: nat := 16

  /** `(1 << order) * 4096` bytes. */
  function BlockSize(order: nat): (s: nat)
    ensures s >= 4096
  {
    Pow2(order) * 4096
  }

  datatype Block = Block(addr: nat, order: nat) {
    function End(): nat { addr + BlockSize(order) }
  }

  /** `a` is a multiple of `BlockSize(order)`, read off one bit at a time. */
  predicate AlignedTo(a: nat, order: nat)
    decreases order
  {
    if order == 0 then a % 4096 == 0 else a % 2 == 0 && AlignedTo(a / 2, order - 1)
  }

  /** `a` rounded down to a multiple of `BlockSize(order + 1)`. */
  function ParentAddr(a: nat, order: nat): nat
    decreases order
  {
    if order == 0 then a - a % 8192 else 2 * ParentAddr(a / 2, order - 1)
  }

  predicate Aligned(b: Block) { AlignedTo(b.addr, b.order) }

  predicate Covers(b: Block, x: nat) { b.addr <= x < b.End() }

  predicate Within(b: Block, c: Block) { c.addr <= b.addr && b.End() <= c.End() }

  predicate Disjoint(b: Block, c: Block) { b.End() <= c.addr || c.End() <= b.addr }

  function LeftHalf(p: Block): Block
    requires p.order > 0
  {
    Block(p.addr, p.order - 1)
  }

  function RightHalf(p: Block): Block
    requires p.order > 0
  {
    Block(p.addr + BlockSize(p.order - 1), p.order - 1)
  }

  function Parent(b: Block): Block {
    Block(ParentAddr(b.addr, b.order), b.order + 1)
  }

  function BuddyOf(b: Block): Block {
    if b == LeftHalf(Parent(b)) then RightHalf(Parent(b)) else LeftHalf(Parent(b))
  }

  lemma {:induction false} SizeStep(k: nat)
    requires k > 0
    ensures BlockSize(k) == 2 * BlockSize(k - 1)
  {
  }

  lemma {:induction false} AlignedStep(a: nat, k: nat)
    requires k > 0
    ensures AlignedTo(a, k) <==> a % 2 == 0 && AlignedTo(a / 2, k - 1)
  {
  }

  lemma {:induction false} ParentStep(a: nat, k: nat)
    requires k > 0
    ensures ParentAddr(a, k) == 2 * ParentAddr(a / 2, k - 1)
  {
  }

  lemma {:induction false} PageOf(q: nat)
    ensures AlignedTo(4096 * q, 0)
  {
  }

  lemma {:induction false} PairAddr(q: nat)
    ensures ParentAddr(8192 * q, 0) == 8192 * q && ParentAddr(8192 * q + 4096, 0) == 8192 * q
  {
  }

  lemma {:induction false} PairOf(a: nat) returns (q: nat)
    requires AlignedTo(a, 1)
    ensures a == 8192 * q
  {
    assert AlignedTo(a / 2, 0);
    q := (a / 2) / 4096;
  }

  lemma {:induction false} HalvesAtZero(a: nat)
    requires AlignedTo(a, 1)
    ensures AlignedTo(a, 0) && AlignedTo(a + BlockSize(0), 0)
    ensures ParentAddr(a, 0) == a && ParentAddr(a + BlockSize(0), 0) == a
  {
    assert BlockSize(0) == 4096;
    hide AlignedTo, ParentAddr, BlockSize;
    var q := PairOf(a);
    PairAddr(q);
    PageOf(2 * q);
    PageOf(2 * q + 1);
    assert 4096 * (2 * q) == a && 4096 * (2 * q + 1) == a + 4096;
  }

  lemma {:induction false} HalvesAt(a: nat, k: nat)
    requires AlignedTo(a, k + 1)
    ensures AlignedTo(a, k) && AlignedTo(a + BlockSize(k), k)
    ensures ParentAddr(a, k) == a && ParentAddr(a + BlockSize(k), k) == a
    decreases k
  {
    hide AlignedTo, ParentAddr, BlockSize;
    if k == 0 {
      HalvesAtZero(a);
    } else {
      var h, s := a / 2, BlockSize(k - 1);
      SizeStep(k);
      AlignedStep(a, k + 1);
      HalvesAt(h, k - 1);
      assert (a + 2 * s) / 2 == h + s && (a + 2 * s) % 2 == 0;
      AlignedStep(a, k);
      AlignedStep(a + 2 * s, k);
      ParentStep(a, k);
      ParentStep(a + 2 * s, k);
    }
  }

  lemma {:induction false} ParentAtZero(a: nat)
    requires AlignedTo(a, 0)
    ensures AlignedTo(ParentAddr(a, 0), 1)
    ensures ParentAddr(a, 0) == a || ParentAddr(a, 0) + BlockSize(0) == a
  {
    var q := a / 8192;
    PairOfPages(q);
    assert ParentAddr(a, 0) == 8192 * q && BlockSize(0) == 4096;
    hide AlignedTo;
    PagesIn(a, q);
  }

  lemma {:induction false} PairOfPages(q: nat)
    ensures AlignedTo(8192 * q, 1)
  {
    hide AlignedTo;
    AlignedStep(8192 * q, 1);
    assert (8192 * q) / 2 == 4096 * q;
    PageOf(q);
  }

  lemma {:induction false} PagesIn(a: nat, q: nat)
    requires AlignedTo(a, 0) && q == a / 8192
    ensures a == 8192 * q || a == 8192 * q + 4096
  {
  }

  lemma {:induction false} ParentAt(a: nat, k: nat)
    requires AlignedTo(a, k)
    ensures AlignedTo(ParentAddr(a, k), k + 1)
    ensures ParentAddr(a, k) == a || ParentAddr(a, k) + BlockSize(k) == a
    decreases k
  {
    hide AlignedTo, ParentAddr, BlockSize;
    if k == 0 {
      ParentAtZero(a);
    } else {
      AlignedStep(a, k);
      ParentStep(a, k);
      SizeStep(k);
      ParentAt(a / 2, k - 1);
      var p := ParentAddr(a / 2, k - 1);
      assert (2 * p) / 2 == p && (2 * p) % 2 == 0;
      AlignedStep(2 * p, k + 1);
    }
  }

  lemma {:induction false} OverlapAtZero(a: nat, b: nat, x: nat)
    requires AlignedTo(a, 0) && AlignedTo(b, 0)
    requires a <= x < a + BlockSize(0) && b <= x < b + BlockSize(0)
    ensures a == b
  {
  }

  lemma {:induction false} OverlapAt(a: nat, b: nat, k: nat, x: nat)
    requires AlignedTo(a, k) && AlignedTo(b, k)
    requires a <= x < a + BlockSize(k) && b <= x < b + BlockSize(k)
    ensures a == b
    decreases k
  {
    hide AlignedTo, BlockSize;
    if k == 0 {
      OverlapAtZero(a, b, x);
    } else {
      AlignedStep(a, k);
      AlignedStep(b, k);
      SizeStep(k);
      OverlapAt(a / 2, b / 2, k - 1, x / 2);
    }
  }

  lemma {:induction false} AlignedHalves(p: Block)
    requires Aligned(p) && p.order > 0
    ensures Aligned(LeftHalf(p)) && Aligned(RightHalf(p))
    ensures LeftHalf(p).End() == RightHalf(p).addr && RightHalf(p).End() == p.End()
    ensures Parent(LeftHalf(p)) == p && Parent(RightHalf(p)) == p
  {
    HalvesAt(p.addr, p.order - 1);
  }

  lemma {:induction false} ParentHalves(b: Block)
    requires Aligned(b)
    ensures Aligned(Parent(b))
    ensures b == LeftHalf(Parent(b)) || b == RightHalf(Parent(b))
    ensures Within(b, Parent(b))
  {
    ParentAt(b.addr, b.order);
  }

  lemma {:induction false} BuddyFacts(b: Block)
    requires Aligned(b)
    ensures Aligned(BuddyOf(b)) && BuddyOf(b).order == b.order
    ensures BuddyOf(BuddyOf(b)) == b && BuddyOf(b) != b
    ensures Within(BuddyOf(b), Parent(b)) && Parent(BuddyOf(b)) == Parent(b)
  {
    ParentHalves(b);
    AlignedHalves(Parent(b));
  }

  lemma {:induction false} SameOrderOverlap(b: Block, c: Block, x: nat)
    requires Aligned(b) && Aligned(c) && b.order == c.order
    requires Covers(b, x) && Covers(c, x)
    ensures b == c
  {
    OverlapAt(b.addr, c.addr, b.order, x);
  }

  /** Aligned blocks that meet are nested. */
  lemma {:induction false} Nested(b: Block, c: Block, x: nat)
    requires Aligned(b) && Aligned(c) && b.order <= c.order
    requires Covers(b, x) && Covers(c, x)
    ensures Within(b, c)
    decreases c.order - b.order
  {
    if b.order == c.order {
      SameOrderOverlap(b, c, x);
    } else {
      ParentHalves(b);
      Nested(Parent(b), c, x);
    }
  }

  lemma {:induction false} SizeOrder(a: nat, b: nat)
    requires BlockSize(a) <= BlockSize(b)
    ensures a <= b
  {
    if b < a { Pow2Monotone(b, a); }
  }

  ghost predicate PairwiseDisjoint(t: set<Block>) {
    forall b, c :: b in t && c in t && b != c ==> Disjoint(b, c)
  }

  ghost predicate AlignedWithin(t: set<Block>, seed: Block) {
    forall b :: b in t ==> Aligned(b) && Within(b, seed)
  }

  ghost predicate Covered(t: set<Block>, x: nat) {
    exists b :: b in t && Covers(b, x)
  }

  /** The blocks of `t` are size-aligned, pairwise disjoint and cover `seed` exactly. */
  ghost predicate Tiling(t: set<Block>, seed: Block) {
    && AlignedWithin(t, seed)
    && PairwiseDisjoint(t)
    && (forall x :: Covers(seed, x) ==> Covered(t, x))
  }

  ghost predicate Coalesced(free: set<Block>) {
    forall b :: b in free && b.order < MAX_ORDER ==> BuddyOf(b) !in free
  }

  /** `l` and `r` are `p` cut at one point. */
  predicate Cut(p: Block, l: Block, r: Block) {
    l.addr == p.addr && l.End() == r.addr && r.End() == p.End()
  }

  lemma {:induction false} CutDisjoint(t: set<Block>, p: Block, l: Block, r: Block)
    requires PairwiseDisjoint(t + {p}) && p !in t && Cut(p, l, r)
    ensures PairwiseDisjoint(t + {l, r})
  {
    forall b, c | b in t + {l, r} && c in t + {l, r} && b != c ensures Disjoint(b, c) {
      assert b in t ==> b in t + {p} && Disjoint(b, p);
      assert c in t ==> c in t + {p} && Disjoint(c, p);
    }
  }

  lemma {:induction false} JoinDisjoint(t: set<Block>, p: Block, l: Block, r: Block)
    requires PairwiseDisjoint(t + {l, r}) && l !in t && r !in t && Cut(p, l, r)
    ensures PairwiseDisjoint(t + {p})
  {
    forall b, c | b in t + {p} && c in t + {p} && b != c ensures Disjoint(b, c) {
      assert forall d :: d in t ==> d in t + {l, r} && Disjoint(d, l) && Disjoint(d, r);
    }
  }

  lemma {:induction false} CutCovered(t: set<Block>, p: Block, l: Block, r: Block, x: nat)
    requires Cut(p, l, r)
    ensures Covered(t + {p}, x) <==> Covered(t + {l, r}, x)
  {
    if Covered(t + {p}, x) {
      var b :| b in t + {p} && Covers(b, x);
      if b in t {
        assert b in t + {l, r};
      } else {
        assert Covers(l, x) || Covers(r, x);
        assert l in t + {l, r} && r in t + {l, r};
      }
    }
    if Covered(t + {l, r}, x) {
      var b :| b in t + {l, r} && Covers(b, x);
      assert b in t + {p} || Covers(p, x);
      assert p in t + {p};
    }
  }

  lemma {:induction false} SplitKeepsTiling(t: set<Block>, seed: Block, p: Block)
    requires Tiling(t + {p}, seed) && p !in t && p.order > 0
    ensures LeftHalf(p) !in t && RightHalf(p) !in t
    ensures Tiling(t + {LeftHalf(p), RightHalf(p)}, seed)
  {
    var l, r := LeftHalf(p), RightHalf(p);
    assert p in t + {p};
    AlignedHalves(p);
    forall b | b in {l, r} ensures b !in t {
      assert !Disjoint(b, p);
      assert b in t ==> b in t + {p};
    }
    CutDisjoint(t, p, l, r);
    forall x | Covers(seed, x) ensures Covered(t + {l, r}, x) {
      CutCovered(t, p, l, r, x);
    }
    forall b | b in t + {l, r} ensures Aligned(b) && Within(b, seed) {
      assert b in t ==> b in t + {p};
    }
  }

  lemma {:induction false} MergeKeepsTiling(t: set<Block>, seed: Block, b: Block)
    requires Aligned(b) && b !in t && BuddyOf(b) !in t && Tiling(t + {b, BuddyOf(b)}, seed)
    ensures Parent(b) !in t && Tiling(t + {Parent(b)}, seed)
  {
    var p := Parent(b);
    ParentHalves(b);
    AlignedHalves(p);
    var l, r := LeftHalf(p), RightHalf(p);
    assert {b, BuddyOf(b)} == {l, r};
    assert l in t + {l, r} && r in t + {l, r};
    assert !Disjoint(p, l);
    assert p in t ==> p in t + {l, r};
    JoinDisjoint(t, p, l, r);
    forall x | Covers(seed, x) ensures Covered(t + {p}, x) {
      CutCovered(t, p, l, r, x);
    }
    forall c | c in t + {p} ensures Aligned(c) && Within(c, seed) {
      assert c in t ==> c in t + {l, r};
    }
  }

  lemma {:induction false} ParentWithinSeed(b: Block, seed: Block)
    requires Aligned(b) && Aligned(seed) && Within(b, seed) && b.order < seed.order
    ensures Within(Parent(b), seed) && Within(BuddyOf(b), seed)
  {
    ParentHalves(b);
    BuddyFacts(b);
    Nested(Parent(b), seed, b.addr);
  }

  /** The place of the missing buddy can only be filled by a smaller block. */
  lemma {:induction false} SmallerBlock(free: set<Block>, seed: Block, b: Block) returns (c: Block)
    requires Tiling(free, seed) && Coalesced(free) && Aligned(seed) && seed.order <= MAX_ORDER
    requires b in free && b.order < seed.order
    ensures c in free && c.order < b.order
  {
    ParentWithinSeed(b, seed);
    BuddyFacts(b);
    var p, d := Parent(b), BuddyOf(b);
    var x := d.addr;
    assert Covers(d, x) && Covers(p, x) && Covers(seed, x);
    assert Covered(free, x);
    c :| c in free && Covers(c, x);
    assert b != c ==> Disjoint(b, c);
    if c.order == b.order {
      SameOrderOverlap(c, d, x);
    } else if c.order > b.order {
      BuddyMeetsAncestor(b, c, x);
    }
  }

  lemma {:induction false} BuddyMeetsAncestor(b: Block, c: Block, x: nat)
    requires Aligned(b) && Aligned(c) && b.order < c.order
    requires Covers(Parent(b), x) && Covers(c, x)
    ensures !Disjoint(b, c)
  {
    ParentHalves(b);
    Nested(Parent(b), c, x);
  }

  /** In a coalesced tiling no block is smaller than the seed. */
  lemma {:induction false} NoSmallBlock(free: set<Block>, seed: Block, b: Block)
    requires Tiling(free, seed) && Coalesced(free) && Aligned(seed) && seed.order <= MAX_ORDER
    requires b in free
    ensures b.order >= seed.order
    decreases b.order
  {
    if b.order < seed.order {
      var c := SmallerBlock(free, seed, b);
      NoSmallBlock(free, seed, c);
    }
  }

  /** A coalesced set of free blocks that tiles the seed is the seed itself. */
  lemma {:induction false} CoalescedTilingIsSeed(free: set<Block>, seed: Block)
    requires Tiling(free, seed) && Coalesced(free) && Aligned(seed) && seed.order <= MAX_ORDER
    ensures free == {seed}
  {
    forall b | b in free ensures b == seed {
      NoSmallBlock(free, seed, b);
      SizeOrder(b.order, seed.order);
    }
    assert Covers(seed, seed.addr);
    assert Covered(free, seed.addr);
  }
}
