/** Any-order reassembly: the pieces of a payload, in whatever order and interleaved with
    fragments of up to three other packets, complete exactly once, on the last arrival. */
module Reassembly {
  import opened Words
  import opened FragmentModel

  /** A payload and where it is cut; all cuts but the last are multiples of 8. */
  datatype Cut = Cut(key: Key, nextHeader: u8, payload: seq<u8>, at: seq<nat>) {
    predicate Valid() {
      && |at| >= 2 && at[0] == 0 && at[|at| - 1] == |payload| <= MAX_TOTAL
      && (forall i :: 0 <= i < |at| - 1 ==> at[i] < at[i + 1] && at[i] % 8 == 0)
    }

    function Count(): nat
      requires Valid()
    {
      |at| - 1
    }

    function Piece(i: nat): Fragment
      requires Valid() && i < Count()
    {
      InBounds(this, i);
      Fragment(key, nextHeader, at[i] / 8, i + 1 < Count(), payload[at[i]..at[i + 1]])
    }
  }

  lemma {:induction false} Increasing(c: Cut, i: nat, j: nat)
    requires c.Valid() && i <= j < |c.at|
    ensures c.at[i] <= c.at[j] && (i < j ==> c.at[i] < c.at[j])
    decreases j - i
  {
    if i < j { Increasing(c, i + 1, j); }
  }

  lemma {:induction false} InBounds(c: Cut, i: nat)
    requires c.Valid() && i < |c.at| - 1
    ensures c.at[i] < c.at[i + 1] <= |c.payload|
  {
    Increasing(c, i + 1, |c.at| - 1);
  }

  lemma {:induction false} PieceFacts(c: Cut, i: nat)
    requires c.Valid() && i < c.Count()
    ensures var f := c.Piece(i);
      && !Ragged(f) && !TooLong(f) && f.Start() == c.at[i] && f.End() == c.at[i + 1]
      && f.offset in FragUnits(f) && f.offset < (|c.payload| + 7) / 8
      && (i + 1 < c.Count() ==> 8 * f.EndUnit() == c.at[i + 1])
  {
    InBounds(c, i);
  }

  lemma {:induction false} PiecesApart(c: Cut, i: nat, j: nat)
    requires c.Valid() && i < j < c.Count()
    ensures FragUnits(c.Piece(i)) !! FragUnits(c.Piece(j))
  {
    PieceFacts(c, i);
    PieceFacts(c, j);
    Increasing(c, i + 1, j);
    assert c.Piece(i).EndUnit() <= c.Piece(j).offset;
  }

  // ----- a slot that has taken in the pieces of `got`

  ghost predicate UnitsOf(c: Cut, units: set<nat>, got: set<nat>)
    requires c.Valid() && forall i :: i in got ==> i < c.Count()
  {
    && (forall i :: i in got ==> FragUnits(c.Piece(i)) <= units)
    && (forall u :: u in units ==> exists i :: i in got && u in FragUnits(c.Piece(i)))
  }

  ghost predicate Holding(c: Cut, s: Slot, got: set<nat>)
    requires c.Valid()
  {
    && (forall i :: i in got ==> i < c.Count())
    && s.inUse && s.key == c.key && s.nextHeader == c.nextHeader
    && UnitsOf(c, s.units, got)
    && (forall i :: i in got ==> FragmentModel.Holds(s.buf, c.Piece(i)))
    && (s.haveLast <==> c.Count() - 1 in got) && (s.haveLast ==> s.totalLen == |c.payload|)
  }

  lemma {:induction false} FreshUnits(c: Cut, units: set<nat>, got: set<nat>, i: nat)
    requires c.Valid() && (forall j :: j in got ==> j < c.Count()) && UnitsOf(c, units, got)
    requires i < c.Count() && i !in got
    ensures units !! FragUnits(c.Piece(i))
    ensures UnitsOf(c, units + FragUnits(c.Piece(i)), got + {i})
  {
    hide FragUnits;
    forall u | u in units ensures u !in FragUnits(c.Piece(i)) {
      var j :| j in got && u in FragUnits(c.Piece(j));
      if i < j { PiecesApart(c, i, j); } else { PiecesApart(c, j, i); }
    }
    forall u | u in units + FragUnits(c.Piece(i)) ensures exists k :: k in got + {i} && u in FragUnits(c.Piece(k)) {
      if u in units {
        var j :| j in got && u in FragUnits(c.Piece(j));
        assert j in got + {i};
      } else {
        assert i in got + {i};
      }
    }
  }

  lemma {:induction false} WriteBuffer(c: Cut, buf: Buffer, got: set<nat>, i: nat, j: nat)
    requires c.Valid() && i < c.Count() && j < c.Count() && !TooLong(c.Piece(i))
    requires j != i ==> FragmentModel.Holds(buf, c.Piece(j))
    ensures FragmentModel.Holds(Copied(buf, c.Piece(i).Start(), c.Piece(i).data), c.Piece(j))
  {
    hide FragUnits;
    if j != i {
      if i < j { PiecesApart(c, i, j); } else { PiecesApart(c, j, i); }
      CopyHolds(buf, c.Piece(j), c.Piece(i));
    }
  }

  lemma {:induction false} WriteHolding(c: Cut, s: Slot, got: set<nat>, i: nat)
    requires c.Valid() && Holding(c, s, got) && i < c.Count() && i !in got
    ensures !TooLong(c.Piece(i)) && !Refused(s, c.Piece(i)) && Holding(c, Written(s, c.Piece(i)), got + {i})
  {
    hide FragUnits, UnitsOf, FragmentModel.Holds;
    var f := c.Piece(i);
    PieceFacts(c, i);
    FreshUnits(c, s.units, got, i);
    forall j | j in got + {i} ensures FragmentModel.Holds(Written(s, f).buf, c.Piece(j)) {
      WriteBuffer(c, s.buf, got, i, j);
    }
  }

  lemma {:induction false} PieceByte(c: Cut, i: nat, b: nat)
    requires c.Valid() && i < c.Count() && c.at[i] <= b < c.at[i + 1]
    ensures b < |c.payload| && c.Piece(i).Covers(b) && c.Piece(i).At(b) == c.payload[b]
  {
    PieceFacts(c, i);
    InBounds(c, i);
  }

  ghost predicate All(c: Cut, got: set<nat>)
    requires c.Valid()
  {
    forall i :: 0 <= i < c.Count() ==> i in got
  }

  /** The piece that holds byte `b`. */
  lemma {:induction false} PieceAt(c: Cut, b: nat, n: nat) returns (i: nat)
    requires c.Valid() && 0 < n < |c.at| && b < c.at[n]
    ensures i < n && c.at[i] <= b < c.at[i + 1]
  {
    if b >= c.at[n - 1] { i := n - 1; } else { i := PieceAt(c, b, n - 1); }
  }

  /** Complete exactly when every piece is in, and then the buffer is the payload. */
  lemma {:induction false} CompleteIff(c: Cut, s: Slot, got: set<nat>)
    requires c.Valid() && Holding(c, s, got)
    ensures Complete(s) <==> All(c, got)
    ensures All(c, got) ==> s.totalLen == |c.payload| && s.buf[..s.totalLen] == c.payload
  {
    hide FragUnits;
    if All(c, got) {
      assert c.Count() - 1 in got;
      forall u | u in Range(0, (s.totalLen + 7) / 8) ensures u in s.units {
        var i := PieceAt(c, 8 * u, c.Count());
        UnitInPiece(c, i, u);
      }
      forall b | 0 <= b < |c.payload| ensures s.buf[b] == c.payload[b] {
        var i := PieceAt(c, b, c.Count());
        PieceByte(c, i, b);
        assert FragmentModel.Holds(s.buf, c.Piece(i));
      }
    } else {
      var i :| 0 <= i < c.Count() && i !in got;
      PieceFacts(c, i);
      FreshUnits(c, s.units, got, i);
      assert c.Piece(i).offset !in s.units;
      assert s.haveLast ==> c.Piece(i).offset in Range(0, (s.totalLen + 7) / 8);
    }
  }

  lemma {:induction false} UnitInPiece(c: Cut, i: nat, u: nat)
    requires c.Valid() && i < c.Count() && c.at[i] <= 8 * u < c.at[i + 1]
    ensures u in FragUnits(c.Piece(i))
  {
    PieceFacts(c, i);
  }

  // ----- runs

  /** A piece of the packet, a fragment of another packet, or the timeout sweep. */
  datatype Step = Mine(i: nat, now: u32) | Foreign(f: Fragment, now: u32) | Sweep(now: u32)

  predicate AllowedStep(c: Cut, others: set<Key>, slots: Slots, e: Step)
    requires c.Valid()
  {
    match e
    case Mine(i, now) => i < c.Count()
    case Foreign(f, now) => f.key in others
    case Sweep(now) =>
      forall i :: 0 <= i < SLOTS && slots[i].inUse && slots[i].key == c.key ==>
        Wrap32(now - slots[i].created) <= TIMEOUT
  }

  function Take(c: Cut, slots: Slots, e: Step): Outcome
    requires c.Valid() && (e.Mine? ==> e.i < c.Count())
  {
    match e
    case Mine(i, now) => Receive(slots, c.Piece(i), now)
    case Foreign(f, now) => Receive(slots, f, now)
    case Sweep(now) => Outcome(Tick(slots, now), None)
  }

  predicate AllowedRun(c: Cut, others: set<Key>, slots: Slots, es: seq<Step>)
    requires c.Valid()
    decreases |es|
  {
    es == [] ||
    (AllowedStep(c, others, slots, es[0]) && AllowedRun(c, others, Take(c, slots, es[0]).slots, es[1..]))
  }

  /** The pieces of the packet, in order of arrival. */
  function Arrivals(es: seq<Step>): seq<nat> {
    if es == [] then [] else (if es[0].Mine? then [es[0].i] else []) + Arrivals(es[1..])
  }

  /** What `fragment6_receive` returned for each of them. */
  function Results(c: Cut, others: set<Key>, slots: Slots, es: seq<Step>): seq<Option<Packet>>
    requires c.Valid() && AllowedRun(c, others, slots, es)
    decreases |es|
  {
    if es == [] then []
    else
      var r := Take(c, slots, es[0]);
      (if es[0].Mine? then [r.packet] else []) + Results(c, others, r.slots, es[1..])
  }

  ghost predicate DistinctKeys(slots: Slots) {
    forall i, j :: 0 <= i < j < SLOTS && slots[i].inUse && slots[j].inUse ==> slots[i].key != slots[j].key
  }

  ghost predicate KnownKeys(c: Cut, others: set<Key>, slots: Slots) {
    forall i :: 0 <= i < SLOTS && slots[i].inUse ==> slots[i].key == c.key || slots[i].key in others
  }

  /** The table when the pieces in `got` have arrived and not yet completed. */
  ghost predicate Inv(c: Cut, others: set<Key>, slots: Slots, got: set<nat>)
    requires c.Valid()
  {
    && DistinctKeys(slots) && KnownKeys(c, others, slots)
    && (forall i :: 0 <= i < SLOTS && slots[i].inUse && slots[i].key == c.key ==>
      got != {} && Holding(c, slots[i], got))
    && (got != {} ==> exists i :: 0 <= i < SLOTS && slots[i].inUse && slots[i].key == c.key)
  }

  /** With at most three other packets there is always room. */
  lemma {:induction false} RoomForOne(c: Cut, others: set<Key>, slots: Slots)
    requires DistinctKeys(slots) && |others| <= 3
    requires forall i :: 0 <= i < SLOTS && slots[i].inUse ==> slots[i].key in others
    ensures FindFree(slots, 0) < SLOTS
  {
    if FindFree(slots, 0) == SLOTS {
      var keys := {slots[0].key, slots[1].key, slots[2].key, slots[3].key};
      assert |keys| == 4;
      assert keys <= others;
      SubsetSize(keys, others);
    }
  }

  lemma {:induction false} SubsetSize<T>(a: set<T>, b: set<T>)
    requires a <= b
    ensures |a| <= |b|
  {
    assert b == a + (b - a);
    assert |a + (b - a)| == |a| + |b - a|;
  }

  lemma {:induction false} EmptyHolding(c: Cut, s: Slot, f: Fragment, now: u32)
    requires c.Valid() && f.key == c.key && f.nextHeader == c.nextHeader
    ensures Holding(c, Opened(s, f, now), {})
  {
  }

  /** A piece goes to the slot of its packet, which holds the ones before it. */
  lemma {:induction false} MineTarget(c: Cut, others: set<Key>, slots: Slots, got: set<nat>, i: nat, now: u32)
    requires c.Valid() && c.key !in others && |others| <= 3 && Inv(c, others, slots, got) && i < c.Count()
    ensures Place(slots, c.Piece(i)) < SLOTS && Holding(c, Target(slots, c.Piece(i), now), got)
    ensures forall j :: 0 <= j < SLOTS && j != Place(slots, c.Piece(i)) && slots[j].inUse ==> slots[j].key != c.key
  {
    hide Holding;
    if FindSlot(slots, c.key, 0) == SLOTS {
      assert got == {};
      RoomForOne(c, others, slots);
      EmptyHolding(c, slots[Place(slots, c.Piece(i))], c.Piece(i), now);
    }
  }

  /** Replacing the packet's own slot. */
  lemma {:induction false} OwnSlotInv(c: Cut, others: set<Key>, slots: Slots, k: nat, s: Slot, got: set<nat>)
    requires c.Valid() && DistinctKeys(slots) && KnownKeys(c, others, slots) && k < SLOTS
    requires forall j :: 0 <= j < SLOTS && j != k && slots[j].inUse ==> slots[j].key != c.key
    requires if s.inUse then got != {} && Holding(c, s, got) else got == {}
    ensures Inv(c, others, slots[k := s], got)
  {
    if s.inUse { HoldingKey(c, s, got); }
    hide Holding;
    var slots' := slots[k := s];
    assert forall j :: 0 <= j < SLOTS && j != k ==> slots'[j] == slots[j];
    assert s.inUse ==> slots'[k].inUse && slots'[k].key == c.key;
  }

  lemma {:induction false} MineStep(c: Cut, others: set<Key>, slots: Slots, got: set<nat>, i: nat, now: u32)
    requires c.Valid() && c.key !in others && |others| <= 3 && Inv(c, others, slots, got)
    requires i < c.Count() && i !in got
    ensures var r := Receive(slots, c.Piece(i), now);
      if All(c, got + {i})
      then r.packet == Some(Packet(c.nextHeader, c.payload)) && Inv(c, others, r.slots, {})
      else r.packet == None && Inv(c, others, r.slots, got + {i})
  {
    hide Complete, Clashes, All, Holding, Place, Target, Written, Ragged, TooLong;
    var f := c.Piece(i);
    PieceFacts(c, i);
    MineTarget(c, others, slots, got, i, now);
    var k, s := Place(slots, f), Target(slots, f, now);
    WriteHolding(c, s, got, i);
    var w := Written(s, f);
    CompleteIff(c, w, got + {i});
    HoldingKey(c, s, got);
    HoldingKey(c, w, got + {i});
    if Complete(w) {
      OwnSlotInv(c, others, slots, k, Abort(w), {});
    } else {
      assert i in got + {i};
      OwnSlotInv(c, others, slots, k, w, got + {i});
    }
  }

  lemma {:induction false} HoldingKey(c: Cut, s: Slot, got: set<nat>)
    requires c.Valid() && Holding(c, s, got)
    ensures s.inUse && s.key == c.key && s.nextHeader == c.nextHeader
  {
  }

  /** A fragment changes at most one slot, which is or becomes one of its own packet. */
  lemma {:induction false} ReceiveFrame(slots: Slots, f: Fragment, now: u32) returns (k: nat)
    ensures var slots' := Receive(slots, f, now).slots;
      && (forall j :: 0 <= j < SLOTS && j != k ==> slots'[j] == slots[j])
      && (k < SLOTS ==>
            && (slots'[k].inUse ==> slots'[k].key == f.key) && (slots[k].inUse ==> slots[k].key == f.key)
            && forall j :: 0 <= j < SLOTS && j != k && slots[j].inUse && slots[j].key == f.key ==> slots[k].inUse)
  {
    hide Complete, Refused;
    k := if Ragged(f) then SLOTS else if TooLong(f) then FindSlot(slots, f.key, 0) else Place(slots, f);
  }

  lemma {:induction false} ForeignStep(c: Cut, others: set<Key>, slots: Slots, got: set<nat>, f: Fragment, now: u32)
    requires c.Valid() && c.key !in others && Inv(c, others, slots, got) && f.key in others
    ensures Inv(c, others, Receive(slots, f, now).slots, got)
  {
    hide Holding, Receive;
    var slots' := Receive(slots, f, now).slots;
    var k := ReceiveFrame(slots, f, now);
    if got != {} {
      var i :| 0 <= i < SLOTS && slots[i].inUse && slots[i].key == c.key;
      assert slots'[i] == slots[i];
    }
  }

  lemma {:induction false} SweepStep(c: Cut, others: set<Key>, slots: Slots, got: set<nat>, now: u32)
    requires c.Valid() && Inv(c, others, slots, got) && AllowedStep(c, others, slots, Sweep(now))
    ensures Inv(c, others, Tick(slots, now), got)
  {
    hide Holding;
    var slots' := Tick(slots, now);
    if got != {} {
      var i :| 0 <= i < SLOTS && slots[i].inUse && slots[i].key == c.key;
      assert slots'[i] == slots[i];
    }
  }

  /** `es` brings each missing piece exactly once. */
  ghost predicate Brings(c: Cut, es: seq<Step>, got: set<nat>)
    requires c.Valid()
  {
    && NoDuplicates(Arrivals(es))
    && (forall k :: 0 <= k < |Arrivals(es)| ==> Arrivals(es)[k] < c.Count() && Arrivals(es)[k] !in got)
    && (forall i :: 0 <= i < c.Count() ==> i in got || i in Arrivals(es))
  }

  /** All answers are "not yet" except the last, which is the packet. */
  predicate OnceAtTheEnd(c: Cut, rs: seq<Option<Packet>>) {
    && |rs| > 0 && rs[|rs| - 1] == Some(Packet(c.nextHeader, c.payload))
    && forall k :: 0 <= k < |rs| - 1 ==> rs[k] == None
  }

  lemma {:induction false} BringsRest(c: Cut, es: seq<Step>, got: set<nat>)
    requires c.Valid() && es != [] && Brings(c, es, got)
    ensures Brings(c, es[1..], if es[0].Mine? then got + {es[0].i} else got)
    ensures es[0].Mine? ==> es[0].i < c.Count() && es[0].i !in got
    ensures es[0].Mine? ==> (All(c, got + {es[0].i}) <==> Arrivals(es[1..]) == [])
  {
    var a, rest := Arrivals(es), Arrivals(es[1..]);
    if es[0].Mine? {
      assert a[0] == es[0].i;
      assert forall k :: 0 <= k < |rest| ==> rest[k] == a[k + 1];
      assert rest != [] ==> rest[0] == a[1] != a[0];
    } else {
      assert a == rest;
    }
  }

  lemma {:induction false} NoArrivals(c: Cut, others: set<Key>, slots: Slots, es: seq<Step>)
    requires c.Valid() && AllowedRun(c, others, slots, es)
    ensures |Results(c, others, slots, es)| == |Arrivals(es)|
    decreases |es|
  {
    hide Take;
    if es != [] { NoArrivals(c, others, Take(c, slots, es[0]).slots, es[1..]); }
  }

  lemma {:induction false} Completes(c: Cut, others: set<Key>, slots: Slots, got: set<nat>, es: seq<Step>)
    requires c.Valid() && c.key !in others && |others| <= 3 && Inv(c, others, slots, got) && !All(c, got)
    requires AllowedRun(c, others, slots, es) && Brings(c, es, got)
    ensures OnceAtTheEnd(c, Results(c, others, slots, es))
    ensures |Results(c, others, slots, es)| == |Arrivals(es)|
    decreases |es|
  {
    hide Inv, All, Receive, Brings, Tick;
    NoArrivals(c, others, slots, es);
    if es == [] {
      BringsNothing(c, got);
    } else {
      BringsRest(c, es, got);
      var r, rest := Take(c, slots, es[0]), es[1..];
      var later := Results(c, others, r.slots, rest);
      match es[0] {
        case Mine(i, now) =>
          MineStep(c, others, slots, got, i, now);
          NoArrivals(c, others, r.slots, rest);
          if All(c, got + {i}) {
            assert later == [];
            assert Results(c, others, slots, es) == [r.packet];
          } else {
            Completes(c, others, r.slots, got + {i}, rest);
            assert Results(c, others, slots, es) == [None] + later;
          }
        case Foreign(f, now) =>
          ForeignStep(c, others, slots, got, f, now);
          Completes(c, others, r.slots, got, rest);
          assert Results(c, others, slots, es) == later;
        case Sweep(now) =>
          SweepStep(c, others, slots, got, now);
          Completes(c, others, r.slots, got, rest);
          assert Results(c, others, slots, es) == later;
      }
    }
  }

  lemma {:induction false} BringsNothing(c: Cut, got: set<nat>)
    requires c.Valid() && Brings(c, [], got)
    ensures All(c, got)
  {
  }

  /** Any-order reassembly: from a table that holds only other packets, every order of the
      pieces, interleaved with anything from up to three other packets and with timeout
      sweeps that do not hit this one, completes exactly once, on the last arrival, with the
      original payload and next header. */
  lemma {:induction false} AnyOrder(c: Cut, others: set<Key>, slots: Slots, es: seq<Step>)
    requires c.Valid() && c.key !in others && |others| <= 3
    requires DistinctKeys(slots) && forall i :: 0 <= i < SLOTS && slots[i].inUse ==> slots[i].key in others
    requires AllowedRun(c, others, slots, es) && Brings(c, es, {})
    ensures |Results(c, others, slots, es)| == c.Count() == |Arrivals(es)|
    ensures OnceAtTheEnd(c, Results(c, others, slots, es))
  {
    var none: set<nat> := {};
    assert 0 !in none && !All(c, none);
    Completes(c, others, slots, {}, es);
    ArrivalCount(c, Arrivals(es), c.Count());
  }

  lemma {:induction false} ArrivalCount(c: Cut, a: seq<nat>, n: nat)
    requires NoDuplicates(a) && (forall k :: 0 <= k < |a| ==> a[k] < n) && (forall i :: 0 <= i < n ==> i in a)
    ensures |a| == n
    decreases n
  {
    if a != [] { assert a[0] < n; }
    if n > 0 {
      assert n - 1 in a;
      var j :| 0 <= j < |a| && a[j] == n - 1;
      var rest := a[..j] + a[j + 1..];
      forall i | 0 <= i < n - 1 ensures i in rest {
        assert i in a;
        var k :| 0 <= k < |a| && a[k] == i;
        assert rest[if k < j then k else k - 1] == i;
      }
      ArrivalCount(c, rest, n - 1);
    }
  }

  function Deliveries(order: seq<nat>, now: u32): seq<Step> {
    if order == [] then [] else [Mine(order[0], now)] + Deliveries(order[1..], now)
  }

  lemma {:induction false} DeliveriesArrive(order: seq<nat>, now: u32)
    ensures Arrivals(Deliveries(order, now)) == order
  {
    if order != [] {
      DeliveriesArrive(order[1..], now);
      assert Deliveries(order, now)[1..] == Deliveries(order[1..], now);
    }
  }

  lemma {:induction false} DeliveriesAllowed(c: Cut, others: set<Key>, slots: Slots, order: seq<nat>, now: u32)
    requires c.Valid() && forall k :: 0 <= k < |order| ==> order[k] < c.Count()
    ensures AllowedRun(c, others, slots, Deliveries(order, now))
    decreases |order|
  {
    if order != [] {
      var rest := Deliveries(order, now)[1..];
      assert rest == Deliveries(order[1..], now);
      DeliveriesAllowed(c, others, Take(c, slots, Mine(order[0], now)).slots, order[1..], now);
    }
  }

  /** In particular every permutation of the pieces puts the payload together again. */
  lemma {:induction false} EveryPermutation(c: Cut, others: set<Key>, slots: Slots, order: seq<nat>, now: u32)
    requires c.Valid() && c.key !in others && |others| <= 3
    requires DistinctKeys(slots) && forall i :: 0 <= i < SLOTS && slots[i].inUse ==> slots[i].key in others
    requires NoDuplicates(order) && (forall k :: 0 <= k < |order| ==> order[k] < c.Count())
    requires forall i :: 0 <= i < c.Count() ==> i in order
    ensures AllowedRun(c, others, slots, Deliveries(order, now))
    ensures OnceAtTheEnd(c, Results(c, others, slots, Deliveries(order, now)))
  {
    hide AllowedRun, Results, Deliveries, Arrivals, DistinctKeys;
    DeliveriesArrive(order, now);
    DeliveriesAllowed(c, others, slots, order, now);
    AnyOrder(c, others, slots, Deliveries(order, now));
  }

  /** The same with every piece encoded: each arrival is one call on the bytes of a piece. */
  lemma {:induction false} PieceOnWire(c: Cut, slots: Slots, i: nat, now: u32)
    requires c.Valid() && i < c.Count()
    ensures c.Piece(i).offset < 0x2000
    ensures Take(c, slots, Mine(i, now)) == ReceiveBytes(slots, c.key.src, c.key.dst, Encode(c.Piece(i)), now)
  {
    hide Receive, Encode, ReceiveBytes;
    PieceFacts(c, i);
    EncodedArrives(slots, c.Piece(i), now);
  }
}
