/** fragment6.c in place: a byte buffer and a unit bitmap per slot, written and scanned by
    loops. */
module Fragment6 {
  import opened Words
  import opened Bits
  import opened FragmentModel

  const BITMAP_BYTES := 32

  type Index = i: nat | i < SLOTS

  /** The scalar fields of `reassembly_t`. */
  datatype Meta = Meta(inUse: bool, key: Key, nextHeader: u8, totalLen: Length, haveLast: bool, created: u32)

  /** `(bitmap[unit / 8] >> (unit % 8)) & 1`. */
  ghost predicate BitAt(bitmap: array2<u8>, i: Index, u: nat)
    requires bitmap.Length0 == SLOTS && bitmap.Length1 == BITMAP_BYTES && u < UNITS
    reads bitmap
  {
    Bit(bitmap[i, u / 8], u % 8)
  }

  ghost function RowOf(buf: array2<u8>, i: Index): (r: Buffer)
    requires buf.Length0 == SLOTS && buf.Length1 == MAX_TOTAL
    reads buf
    ensures forall k :: 0 <= k < MAX_TOTAL ==> r[k] == buf[i, k]
  {
    seq(MAX_TOTAL, k requires 0 <= k < MAX_TOTAL reads buf => buf[i, k])
  }

  ghost function UnitsOf(bitmap: array2<u8>, i: Index): (r: set<nat>)
    requires bitmap.Length0 == SLOTS && bitmap.Length1 == BITMAP_BYTES
    reads bitmap
    ensures forall u :: u in r <==> 0 <= u < UNITS && BitAt(bitmap, i, u)
  {
    set u: nat | u < UNITS && BitAt(bitmap, i, u)
  }

  /** Setting one bit of a byte changes that bit only. */
  lemma {:induction false} ByteWithBit(byte: u8, k: nat)
    requires k < 8
    ensures 0 <= BitOr(byte, Pow2(k)) < 256
    ensures forall j: nat :: Bit(BitOr(byte, Pow2(k)), j) <==> j == k || Bit(byte, j)
  {
    hide Bit, BitOr;
    assert Pow2(8) == 256 by { Pow2Values(); }
    OrFits(byte, k, 8);
    forall j: nat ensures Bit(BitOr(byte, Pow2(k)), j) <==> j == k || Bit(byte, j) { SetBit(byte, k, j); }
  }

  lemma {:induction false} UnitPlace(u: nat, v: nat)
    ensures u / 8 == v / 8 && u % 8 == v % 8 <==> u == v
  {
  }

  class Reassembler {
    const buf: array2<u8>
    const bitmap: array2<u8>
    var meta: seq<Meta>

    ghost predicate Valid()
      reads this
    {
      && buf.Length0 == SLOTS && buf.Length1 == MAX_TOTAL
      && bitmap.Length0 == SLOTS && bitmap.Length1 == BITMAP_BYTES && buf != bitmap
      && |meta| == SLOTS
    }

    ghost function Row(i: Index): Buffer
      requires Valid()
      reads this, buf
    {
      RowOf(buf, i)
    }

    ghost function Units(i: Index): set<nat>
      requires Valid()
      reads this, bitmap
    {
      UnitsOf(bitmap, i)
    }

    ghost function At(i: Index): Slot
      requires Valid()
      reads this, buf, bitmap
    {
      var m := meta[i];
      Slot(m.inUse, m.key, m.nextHeader, Row(i), Units(i), m.totalLen, m.haveLast, m.created)
    }

    ghost function View(): (s: Slots)
      requires Valid()
      reads this, buf, bitmap
      ensures forall i: Index :: s[i] == At(i)
    {
      [At(0), At(1), At(2), At(3)]
    }

    constructor ()
      ensures Valid() && fresh(buf) && fresh(bitmap)
      ensures forall i: Index :: !At(i).inUse
    {
      buf := new u8[SLOTS, MAX_TOTAL]((i, j) => 0);
      bitmap := new u8[SLOTS, BITMAP_BYTES]((i, j) => 0);
      meta := seq(SLOTS, _ => Meta(false, Key([], [], 0), 0, 0, false, 0));
    }

    method RangeOverlaps(i: Index, start: nat, end: nat) returns (hit: bool)
      requires Valid() && end <= UNITS
      ensures hit <==> !(Units(i) !! Range(start, end))
    {
      var u := start;
      while u < end
        invariant start <= u && forall v :: start <= v < u && v < end ==> v !in Units(i)
      {
        if Bit(bitmap[i, u / 8], u % 8) {
          assert u in Units(i) && u in Range(start, end);
          return true;
        }
        u := u + 1;
      }
      return false;
    }

    method AllSet(i: Index, n: nat) returns (ok: bool)
      requires Valid() && n <= UNITS
      ensures ok <==> Range(0, n) <= Units(i)
    {
      var u := 0;
      while u < n
        invariant 0 <= u <= n && forall v :: 0 <= v < u ==> v in Units(i)
      {
        if !Bit(bitmap[i, u / 8], u % 8) {
          assert u !in Units(i) && u in Range(0, n);
          return false;
        }
        u := u + 1;
      }
      return true;
    }

    /** `bit_set` marks one unit. */
    method MarkUnit(i: Index, u: nat)
      requires Valid() && u < UNITS
      modifies bitmap
      ensures forall v: nat :: v < UNITS ==> (BitAt(bitmap, i, v) <==> old(BitAt(bitmap, i, v)) || v == u)
      ensures forall j: Index, k :: j != i && 0 <= k < BITMAP_BYTES ==> bitmap[j, k] == old(bitmap[j, k])
    {
      var byte := bitmap[i, u / 8];
      ByteWithBit(byte, u % 8);
      bitmap[i, u / 8] := BitOr(byte, Pow2(u % 8));
      forall v: nat | v < UNITS ensures BitAt(bitmap, i, v) <==> old(BitAt(bitmap, i, v)) || v == u {
        UnitPlace(u, v);
      }
    }

    method MarkUnits(i: Index, start: nat, end: nat)
      requires Valid() && end <= UNITS
      modifies bitmap
      ensures Units(i) == old(Units(i)) + Range(start, end)
      ensures forall j: Index :: j != i ==> Units(j) == old(Units(j))
    {
      hide BitAt;
      var u := start;
      while u < end
        invariant start <= u
        invariant forall v: nat :: v < UNITS ==> (BitAt(bitmap, i, v) <==> old(BitAt(bitmap, i, v)) || start <= v < u)
        invariant u <= end || u == start
        invariant forall j: Index, k :: j != i && 0 <= k < BITMAP_BYTES ==> bitmap[j, k] == old(bitmap[j, k])
      {
        MarkUnit(i, u);
        u := u + 1;
      }
      forall j: Index | j != i ensures Units(j) == old(Units(j)) {
        SameUnits(j);
      }
    }

    twostate lemma SameUnits(j: Index)
      requires old(Valid()) && Valid()
      requires forall k :: 0 <= k < BITMAP_BYTES ==> bitmap[j, k] == old(bitmap[j, k])
      ensures Units(j) == old(Units(j))
    {
      assert forall v: nat :: v < UNITS ==> (BitAt(bitmap, j, v) <==> old(BitAt(bitmap, j, v)));
    }

    method ClearUnits(i: Index)
      requires Valid()
      modifies bitmap
      ensures Units(i) == {}
      ensures forall j: Index :: j != i ==> Units(j) == old(Units(j))
    {
      var k := 0;
      while k < BITMAP_BYTES
        invariant 0 <= k <= BITMAP_BYTES
        invariant forall n :: 0 <= n < k ==> bitmap[i, n] == 0
        invariant forall j: Index, n :: j != i && 0 <= n < BITMAP_BYTES ==> bitmap[j, n] == old(bitmap[j, n])
      {
        bitmap[i, k] := 0;
        k := k + 1;
      }
      forall u: nat | u < UNITS ensures !BitAt(bitmap, i, u) { ZeroBits(u % 8); }
      assert Units(i) == {};
      forall j: Index | j != i ensures Units(j) == old(Units(j)) {
        assert forall v: nat :: v < UNITS ==> (BitAt(bitmap, j, v) <==> old(BitAt(bitmap, j, v)));
      }
    }

    method CopyIn(i: Index, at: nat, data: seq<u8>)
      requires Valid() && at + |data| <= MAX_TOTAL
      modifies buf
      ensures Row(i) == Copied(old(Row(i)), at, data)
      ensures forall j: Index :: j != i ==> Row(j) == old(Row(j))
    {
      var k := 0;
      while k < |data|
        invariant 0 <= k <= |data|
        invariant forall b :: 0 <= b < MAX_TOTAL ==>
          buf[i, b] == if at <= b < at + k then data[b - at] else old(buf[i, b])
        invariant forall j: Index, b :: j != i && 0 <= b < MAX_TOTAL ==> buf[j, b] == old(buf[j, b])
      {
        buf[i, at + k] := data[k];
        k := k + 1;
      }
      forall j: Index | j != i ensures Row(j) == old(Row(j)) {}
    }

    method CopyOut(i: Index, n: Length) returns (out: seq<u8>)
      requires Valid()
      ensures out == Row(i)[..n]
    {
      out := [];
      var k := 0;
      while k < n
        invariant 0 <= k <= n && out == Row(i)[..k]
      {
        out := out + [buf[i, k]];
        k := k + 1;
      }
    }

    method Find(key: Key) returns (i: nat)
      requires Valid()
      ensures i == FindSlot(View(), key, 0)
    {
      i := 0;
      while i < SLOTS && !(meta[i].inUse && meta[i].key == key)
        invariant i <= SLOTS && FindSlot(View(), key, 0) == FindSlot(View(), key, i)
      {
        assert View()[i] == At(i);
        i := i + 1;
      }
      assert i < SLOTS ==> View()[i] == At(i);
    }

    method FindUnused() returns (i: nat)
      requires Valid()
      ensures i == FindFree(View(), 0)
    {
      i := 0;
      while i < SLOTS && meta[i].inUse
        invariant i <= SLOTS && FindFree(View(), 0) == FindFree(View(), i)
      {
        assert View()[i] == At(i);
        i := i + 1;
      }
      assert i < SLOTS ==> View()[i] == At(i);
    }

    method Close(i: Index)
      requires Valid()
      modifies this
      ensures Valid() && View() == old(View())[i := Abort(old(View())[i])]
    {
      meta := meta[i := meta[i].(inUse := false)];
      assert forall j: Index :: At(j) == if j == i then Abort(old(At(j))) else old(At(j));
    }

    /** `fragment6_receive`: decodes the header and takes the fragment in. */
    method ReceiveBytes(src: seq<u8>, dst: seq<u8>, bytes: seq<u8>, now: u32) returns (packet: Option<Packet>)
      requires Valid() && |bytes| < 0x1_0000
      modifies this, buf, bitmap
      ensures Valid()
      ensures Outcome(View(), packet) == FragmentModel.ReceiveBytes(old(View()), src, dst, bytes, now)
    {
      hide FragmentModel.Receive;
      if |bytes| < 8 {
        return None;
      }
      var flags := Word(bytes[2], bytes[3]);
      var id: u32 := Word(bytes[4], bytes[5]) * 65536 + Word(bytes[6], bytes[7]);
      packet := Receive(Fragment(Key(src, dst, id), bytes[0], flags / 8, flags % 2 == 1, bytes[8..]), now);
    }

    /** `fragment6_receive` on a parsed header. */
    method Receive(f: Fragment, now: u32) returns (packet: Option<Packet>)
      requires Valid()
      modifies this, buf, bitmap
      ensures Valid()
      ensures Outcome(View(), packet) == FragmentModel.Receive(old(View()), f, now)
    {
      hide AfterFragment, Delivered, RowOf, UnitsOf, FindSlot, FindFree;
      packet := None;
      if f.more && |f.data| % 8 != 0 {
        return;
      }
      var i := Find(f.key);
      if f.End() > MAX_TOTAL {
        if i < SLOTS {
          Close(i);
        }
        return;
      }
      ghost var before := View();
      if i == SLOTS {
        i := FindUnused();
        if i == SLOTS {
          return;
        }
        Open(i, f, now);
      }
      packet := Absorb(i, f);
      assert View() == before[i := AfterFragment(Target(before, f, now), f)];
    }

    method Open(i: Index, f: Fragment, now: u32)
      requires Valid()
      modifies this, bitmap
      ensures Valid() && At(i) == Opened(old(At(i)), f, now)
      ensures forall j: Index :: j != i ==> At(j) == old(At(j))
    {
      hide RowOf, UnitsOf;
      ClearUnits(i);
      meta := meta[i := Meta(true, f.key, f.nextHeader, 0, false, now)];
    }

    /** The slot is known and the fragment fits: check, write, and look for completeness. */
    method Absorb(i: Index, f: Fragment) returns (packet: Option<Packet>)
      requires Valid() && !TooLong(f)
      modifies this, buf, bitmap
      ensures Valid() && At(i) == AfterFragment(old(At(i)), f) && packet == Delivered(old(At(i)), f)
      ensures forall j: Index :: j != i ==> At(j) == old(At(j))
    {
      hide RowOf, UnitsOf;
      packet := None;
      var hit := RangeOverlaps(i, f.offset, f.EndUnit());
      if meta[i].nextHeader != f.nextHeader || hit {
        meta := meta[i := meta[i].(inUse := false)];
        return;
      }
      ghost var s := At(i);
      CopyIn(i, f.Start(), f.data);
      MarkUnits(i, f.offset, f.EndUnit());
      assert At(i) == Stored(s, f);
      assert forall j: Index :: j != i ==> Row(j) == old(Row(j)) && Units(j) == old(Units(j));
      if !f.more {
        if meta[i].haveLast {
          meta := meta[i := meta[i].(inUse := false)];
          return;
        }
        meta := meta[i := meta[i].(haveLast := true, totalLen := f.End())];
      }
      assert At(i) == Written(s, f);
      packet := Finish(i);
    }

    /** The packet, if nothing of it is missing any more. */
    method Finish(i: Index) returns (packet: Option<Packet>)
      requires Valid()
      modifies this
      ensures Valid() && At(i) == if Complete(old(At(i))) then Abort(old(At(i))) else old(At(i))
      ensures packet == if !Complete(old(At(i))) then None
        else Some(Packet(old(At(i)).nextHeader, old(At(i)).buf[..old(At(i)).totalLen]))
      ensures forall j: Index :: j != i ==> At(j) == old(At(j))
    {
      hide RowOf, UnitsOf;
      packet := None;
      if !meta[i].haveLast {
        return;
      }
      var full := AllSet(i, (meta[i].totalLen + 7) / 8);
      if full {
        var out := CopyOut(i, meta[i].totalLen);
        packet := Some(Packet(meta[i].nextHeader, out));
        meta := meta[i := meta[i].(inUse := false)];
      }
    }

    method Sweep(now: u32)
      requires Valid()
      modifies this
      ensures Valid() && View() == Tick(old(View()), now)
    {
      var i := 0;
      while i < SLOTS
        invariant 0 <= i <= SLOTS && Valid()
        invariant forall j: Index :: At(j) == if j < i then TickSlot(old(At(j)), now) else old(At(j))
      {
        var created: int := meta[i].created;
        if meta[i].inUse && Wrap32(now - created) > TIMEOUT {
          meta := meta[i := meta[i].(inUse := false)];
        }
        i := i + 1;
      }
    }
  }
}
