/** Networking/IPv6/Fragment6/fragment6.c: reassembly of IPv6 fragments in four slots, with
    a bitmap of 8-byte units (section 4.5 of RFC 8200, RFC 5722). */
module FragmentModel {
  import opened Words

  const SLOTS := 4
  const MAX_TOTAL := 2048
  const UNITS := 256
  const TIMEOUT := 500

  datatype Key = Key(src: seq<u8>, dst: seq<u8>, id: u32)

  /** A fragment header and what follows it; `offset` counts 8-byte units. */
  datatype Fragment = Fragment(key: Key, nextHeader: u8, offset: nat, more: bool, data: seq<u8>) {
    function Start(): nat { 8 * offset }
    function End(): nat { 8 * offset + |data| }
    function EndUnit(): nat { (End() + 7) / 8 }
    predicate Covers(b: nat) { Start() <= b < End() }
    function At(b: nat): u8
      requires Covers(b)
    {
      data[b - Start()]
    }
  }

  datatype Packet = Packet(nextHeader: u8, payload: seq<u8>)

  type Buffer = b: seq<u8> | |b| == MAX_TOTAL witness seq(MAX_TOTAL, _ => 0)

  type Length = n: nat | n <= MAX_TOTAL

  datatype Slot = Slot(
    inUse: bool, key: Key, nextHeader: u8, buf: Buffer, units: set<nat>,
    totalLen: Length, haveLast: bool, created: u32)

  type Slots = s: seq<Slot> | |s| == SLOTS
    witness seq(SLOTS, _ => Slot(false, Key([], [], 0), 0, seq(MAX_TOTAL, _ => 0), {}, 0, false, 0))

  function Word(hi: u8, lo: u8): nat { hi * 256 + lo }

  /** The header fields of a fragment; `bytes` starts at the fragment header. */
  function Parse(src: seq<u8>, dst: seq<u8>, bytes: seq<u8>): Option<Fragment> {
    if |bytes| < 8 then None
    else
      var flags := Word(bytes[2], bytes[3]);
      Some(Fragment(Key(src, dst, (Word(bytes[4], bytes[5]) * 65536 + Word(bytes[6], bytes[7])) as u32),
                    bytes[0], flags / 8, flags % 2 == 1, bytes[8..]))
  }

  /** The bytes of a fragment header, reserved bits clear, and its data. */
  function Encode(f: Fragment): seq<u8>
    requires f.offset < 0x2000
  {
    var flags := 8 * f.offset + (if f.more then 1 else 0);
    var hi, lo := f.key.id / 65536, f.key.id % 65536;
    [f.nextHeader, 0, flags / 256, flags % 256, hi / 256, hi % 256, lo / 256, lo % 256] + f.data
  }

  lemma {:induction false} ParseEncode(f: Fragment)
    requires f.offset < 0x2000
    ensures Parse(f.key.src, f.key.dst, Encode(f)) == Some(f)
  {
    var bytes := Encode(f);
    assert bytes[8..] == f.data;
    assert Word(bytes[2], bytes[3]) == 8 * f.offset + (if f.more then 1 else 0);
  }

  function Range(lo: nat, hi: nat): (r: set<nat>)
    ensures forall u :: u in r <==> lo <= u < hi
    decreases hi - lo
  {
    if lo >= hi then {} else {lo} + Range(lo + 1, hi)
  }

  function FragUnits(f: Fragment): set<nat> { Range(f.offset, f.EndUnit()) }

  function FindSlot(slots: Slots, key: Key, from: nat): (i: nat)
    requires from <= SLOTS
    ensures from <= i <= SLOTS
    ensures i < SLOTS ==> slots[i].inUse && slots[i].key == key
    ensures forall j :: from <= j < i ==> !(slots[j].inUse && slots[j].key == key)
    decreases SLOTS - from
  {
    if from == SLOTS || (slots[from].inUse && slots[from].key == key) then from else FindSlot(slots, key, from + 1)
  }

  function FindFree(slots: Slots, from: nat): (i: nat)
    requires from <= SLOTS
    ensures from <= i <= SLOTS
    ensures i < SLOTS ==> !slots[i].inUse
    ensures forall j :: from <= j < i ==> slots[j].inUse
    decreases SLOTS - from
  {
    if from == SLOTS || !slots[from].inUse then from else FindFree(slots, from + 1)
  }

  function Opened(s: Slot, f: Fragment, now: u32): Slot {
    s.(inUse := true, key := f.key, nextHeader := f.nextHeader, units := {}, totalLen := 0, haveLast := false,
      created := now)
  }

  /** The length of a non-final fragment is no multiple of 8. */
  predicate Ragged(f: Fragment) { f.more && |f.data| % 8 != 0 }

  predicate TooLong(f: Fragment) { f.End() > MAX_TOTAL }

  /** `buf` with `data` copied in at `at`. */
  function Copied(buf: Buffer, at: nat, data: seq<u8>): (r: Buffer)
    requires at + |data| <= MAX_TOTAL
    ensures forall b :: 0 <= b < MAX_TOTAL ==> r[b] == if at <= b < at + |data| then data[b - at] else buf[b]
  {
    buf[..at] + data + buf[at + |data|..]
  }

  /** The slot with the bytes and the units of the fragment stored. */
  function Stored(s: Slot, f: Fragment): Slot
    requires !TooLong(f)
  {
    s.(buf := Copied(s.buf, f.Start(), f.data), units := s.units + FragUnits(f))
  }

  /** The slot with the fragment taken in, before completeness is looked at. */
  function Written(s: Slot, f: Fragment): Slot
    requires !TooLong(f)
  {
    if f.more then Stored(s, f) else Stored(s, f).(haveLast := true, totalLen := f.End())
  }

  /** Disagrees on the next header, or overlaps what is there. */
  predicate Clashes(s: Slot, f: Fragment) { s.nextHeader != f.nextHeader || !(s.units !! FragUnits(f)) }

  predicate Refused(s: Slot, f: Fragment) { Clashes(s, f) || (!f.more && s.haveLast) }

  predicate Complete(s: Slot) { s.haveLast && Range(0, (s.totalLen + 7) / 8) <= s.units }

  datatype Outcome = Outcome(slots: Slots, packet: Option<Packet>)

  function Abort(s: Slot): Slot { s.(inUse := false) }

  /** What an accepted or refused fragment makes of its slot. */
  function AfterFragment(s: Slot, f: Fragment): Slot
    requires !TooLong(f)
  {
    if Clashes(s, f) then Abort(s)
    else if Refused(s, f) then Abort(Stored(s, f))
    else if Complete(Written(s, f)) then Abort(Written(s, f)) else Written(s, f)
  }

  function Delivered(s: Slot, f: Fragment): Option<Packet>
    requires !TooLong(f)
  {
    if !Refused(s, f) && Complete(Written(s, f))
    then Some(Packet(s.nextHeader, Written(s, f).buf[..Written(s, f).totalLen]))
    else None
  }

  /** Where the fragment goes and the slot it finds there, or SLOTS when the table is full. */
  function Place(slots: Slots, f: Fragment): (i: nat)
    ensures i <= SLOTS
  {
    var i := FindSlot(slots, f.key, 0);
    if i < SLOTS then i else FindFree(slots, 0)
  }

  function Target(slots: Slots, f: Fragment, now: u32): Slot
    requires Place(slots, f) < SLOTS
  {
    var i := Place(slots, f);
    if FindSlot(slots, f.key, 0) < SLOTS then slots[i] else Opened(slots[i], f, now)
  }

  function Receive(slots: Slots, f: Fragment, now: u32): Outcome {
    if Ragged(f) then Outcome(slots, None)
    else if TooLong(f) then
      var i := FindSlot(slots, f.key, 0);
      Outcome(if i < SLOTS then slots[i := Abort(slots[i])] else slots, None)
    else
      var i := Place(slots, f);
      if i == SLOTS then Outcome(slots, None)
      else
        var s := Target(slots, f, now);
        Outcome(slots[i := AfterFragment(s, f)], Delivered(s, f))
  }

  /** `fragment6_receive` from the bytes on; a truncated header is dropped. */
  function ReceiveBytes(slots: Slots, src: seq<u8>, dst: seq<u8>, bytes: seq<u8>, now: u32): Outcome {
    match Parse(src, dst, bytes)
    case None => Outcome(slots, None)
    case Some(f) => Receive(slots, f, now)
  }

  /** A fragment that goes over the wire is received as it was sent. */
  lemma {:induction false} EncodedArrives(slots: Slots, f: Fragment, now: u32)
    requires f.offset < 0x2000
    ensures ReceiveBytes(slots, f.key.src, f.key.dst, Encode(f), now) == Receive(slots, f, now)
  {
    hide Receive, Encode, Parse;
    ParseEncode(f);
  }

  function TickSlot(s: Slot, now: u32): Slot {
    if s.inUse && Wrap32(now - s.created) > TIMEOUT then Abort(s) else s
  }

  function Tick(slots: Slots, now: u32): (r: Slots)
    ensures forall i :: 0 <= i < SLOTS ==> r[i] == TickSlot(slots[i], now)
  {
    seq(SLOTS, i requires 0 <= i < SLOTS => TickSlot(slots[i], now))
  }

  // ----- safety: where each delivered byte comes from

  ghost predicate Admissible(s: Slot, f: Fragment) {
    f.key == s.key && f.nextHeader == s.nextHeader && !TooLong(f) && !Ragged(f)
  }

  ghost predicate UnitsExplained(units: set<nat>, log: seq<Fragment>) {
    && (forall i :: 0 <= i < |log| ==> FragUnits(log[i]) <= units)
    && (forall u :: u in units ==> exists i :: 0 <= i < |log| && u in FragUnits(log[i]))
    && (forall i, j :: 0 <= i < j < |log| ==> FragUnits(log[i]) !! FragUnits(log[j]))
  }

  ghost predicate Holds(buf: Buffer, f: Fragment) {
    forall b: nat :: f.Covers(b) && b < MAX_TOTAL ==> buf[b] == f.At(b)
  }

  ghost predicate LastExplained(s: Slot, log: seq<Fragment>) {
    && (forall i :: 0 <= i < |log| && !log[i].more ==> s.haveLast && s.totalLen == log[i].End())
    && (s.haveLast ==> exists i :: 0 <= i < |log| && !log[i].more)
  }

  /** What the log of a slot (the fragments accepted since it was opened) says about it. */
  ghost predicate Logged(s: Slot, log: seq<Fragment>) {
    && (forall i :: 0 <= i < |log| ==> Admissible(s, log[i]) && Holds(s.buf, log[i]))
    && UnitsExplained(s.units, log)
    && LastExplained(s, log)
  }

  lemma {:induction false} OpenedLogged(s: Slot, f: Fragment, now: u32)
    ensures Logged(Opened(s, f, now), [])
  {
  }

  lemma {:induction false} UnitOf(f: Fragment, b: nat)
    requires f.Covers(b)
    ensures b / 8 in FragUnits(f)
  {
  }

  lemma {:induction false} CoversOf(f: Fragment, b: nat)
    requires b / 8 in FragUnits(f) && (|f.data| % 8 == 0 || b < f.End())
    ensures f.Covers(b)
  {
  }

  lemma {:induction false} ApartUnits(f: Fragment, g: Fragment, b: nat)
    requires FragUnits(f) !! FragUnits(g) && f.Covers(b)
    ensures !g.Covers(b)
  {
    UnitOf(f, b);
    if g.Covers(b) { UnitOf(g, b); }
  }

  lemma {:induction false} UnitsExtend(units: set<nat>, log: seq<Fragment>, f: Fragment)
    requires UnitsExplained(units, log) && units !! FragUnits(f)
    ensures UnitsExplained(units + FragUnits(f), log + [f])
    ensures forall i :: 0 <= i < |log| ==> FragUnits(log[i]) !! FragUnits(f)
  {
    hide FragUnits;
    var log' := log + [f];
    forall i | 0 <= i < |log| ensures FragUnits(log[i]) !! FragUnits(f) {
      assert FragUnits(log[i]) <= units;
    }
    forall u | u in units + FragUnits(f) ensures exists i :: 0 <= i < |log'| && u in FragUnits(log'[i]) {
      if u in units {
        var i :| 0 <= i < |log| && u in FragUnits(log[i]);
        assert log'[i] == log[i];
      } else {
        assert log'[|log|] == f;
      }
    }
  }

  lemma {:induction false} CopyHolds(buf: Buffer, g: Fragment, f: Fragment)
    requires Holds(buf, g) && FragUnits(g) !! FragUnits(f) && !TooLong(f)
    ensures Holds(Copied(buf, f.Start(), f.data), g)
  {
    forall b: nat | g.Covers(b) && b < MAX_TOTAL ensures Copied(buf, f.Start(), f.data)[b] == g.At(b) {
      ApartUnits(g, f, b);
    }
  }

  lemma {:induction false} WrittenLogged(s: Slot, log: seq<Fragment>, f: Fragment)
    requires Logged(s, log) && Admissible(s, f) && !Refused(s, f)
    ensures Logged(Written(s, f), log + [f])
  {
    var w, log' := Written(s, f), log + [f];
    UnitsExtend(s.units, log, f);
    forall i | 0 <= i < |log'| ensures Admissible(w, log'[i]) && Holds(w.buf, log'[i]) {
      if i < |log| { CopyHolds(s.buf, log[i], f); }
    }
    assert LastExplained(w, log') by {
      if f.more && s.haveLast {
        var i :| 0 <= i < |log| && !log[i].more;
        assert !log'[i].more;
      }
      assert log'[|log|] == f;
    }
  }

  /** Exactly one logged fragment covers byte `b`. */
  ghost predicate WrittenOnce(log: seq<Fragment>, b: nat, value: u8) {
    exists i :: 0 <= i < |log| && log[i].Covers(b) && log[i].At(b) == value
      && forall j :: 0 <= j < |log| && j != i ==> !log[j].Covers(b)
  }

  lemma {:induction false} CoveringEntry(s: Slot, log: seq<Fragment>, b: nat) returns (i: nat)
    requires Logged(s, log) && Complete(s) && b < s.totalLen
    ensures i < |log| && log[i].Covers(b) && s.totalLen <= MAX_TOTAL
  {
    hide FragUnits, Holds;
    var last :| 0 <= last < |log| && !log[last].more;
    assert b / 8 in Range(0, (s.totalLen + 7) / 8);
    var k :| 0 <= k < |log| && b / 8 in FragUnits(log[k]);
    i := k;
    CoversOf(log[i], b);
  }

  /** In a complete slot every byte below the total was written by exactly one fragment
      accepted since the slot was opened. */
  lemma {:induction false} CompleteIsWrittenOnce(s: Slot, log: seq<Fragment>, b: nat)
    requires Logged(s, log) && Complete(s) && b < s.totalLen
    ensures s.totalLen <= MAX_TOTAL && WrittenOnce(log, b, s.buf[b])
  {
    hide FragUnits, Complete;
    var i := CoveringEntry(s, log, b);
    assert Holds(s.buf, log[i]);
    forall j | 0 <= j < |log| && j != i ensures !log[j].Covers(b) {
      assert FragUnits(log[i]) !! FragUnits(log[j]);
      ApartUnits(log[i], log[j], b);
    }
  }

  datatype Event = Arrive(f: Fragment, now: u32) | Timeout(now: u32)

  /** The table and, per slot, the fragments accepted since it was last opened. */
  datatype Watched = Watched(slots: Slots, logs: seq<seq<Fragment>>)

  predicate Lands(slots: Slots, f: Fragment) { !Ragged(f) && !TooLong(f) && Place(slots, f) < SLOTS }

  function NewLog(w: Watched, f: Fragment, now: u32): seq<Fragment>
    requires |w.logs| == SLOTS && Lands(w.slots, f)
  {
    var base := if FindSlot(w.slots, f.key, 0) < SLOTS then w.logs[Place(w.slots, f)] else [];
    if Refused(Target(w.slots, f, now), f) then base else base + [f]
  }

  function Watch(w: Watched, e: Event): (r: Watched)
    requires |w.logs| == SLOTS
    ensures |r.logs| == SLOTS
  {
    match e
    case Arrive(f, now) =>
      Watched(Receive(w.slots, f, now).slots,
              if Lands(w.slots, f) then w.logs[Place(w.slots, f) := NewLog(w, f, now)] else w.logs)
    case Timeout(now) => Watched(Tick(w.slots, now), w.logs)
  }

  function WatchRun(w: Watched, es: seq<Event>): (r: Watched)
    requires |w.logs| == SLOTS
    ensures |r.logs| == SLOTS
    decreases |es|
  {
    if es == [] then w else WatchRun(Watch(w, es[0]), es[1..])
  }

  ghost predicate AllLogged(w: Watched) {
    |w.logs| == SLOTS && forall i :: 0 <= i < SLOTS && w.slots[i].inUse ==> Logged(w.slots[i], w.logs[i])
  }

  lemma {:induction false} TargetLogged(w: Watched, f: Fragment, now: u32)
    requires AllLogged(w) && Lands(w.slots, f) && !Refused(Target(w.slots, f, now), f)
    ensures Logged(Written(Target(w.slots, f, now), f), NewLog(w, f, now))
  {
    hide Logged, Written, Refused;
    var i, s := Place(w.slots, f), Target(w.slots, f, now);
    if FindSlot(w.slots, f.key, 0) < SLOTS {
      SameHeader(s, f);
      WrittenLogged(s, w.logs[i], f);
    } else {
      OpenedLogged(w.slots[i], f, now);
      SameHeader(s, f);
      WrittenLogged(s, [], f);
    }
  }

  lemma {:induction false} SameHeader(s: Slot, f: Fragment)
    requires !Refused(s, f)
    ensures s.nextHeader == f.nextHeader
  {
  }

  lemma {:induction false} WatchKeepsLogs(w: Watched, es: seq<Event>)
    requires AllLogged(w)
    ensures AllLogged(WatchRun(w, es))
    decreases |es|
  {
    hide Logged, Written, Refused, Complete;
    if es != [] {
      match es[0] {
        case Arrive(f, now) =>
          if Lands(w.slots, f) && !Refused(Target(w.slots, f, now), f) { TargetLogged(w, f, now); }
        case Timeout(now) =>
      }
      assert AllLogged(Watch(w, es[0]));
      WatchKeepsLogs(Watch(w, es[0]), es[1..]);
    }
  }

  /** Reassembly safety: whatever arrived before, each byte of a delivered packet was
      written by exactly one fragment of that packet since its slot was last opened. */
  lemma {:induction false} DeliveredBytes(w: Watched, es: seq<Event>, f: Fragment, now: u32)
    requires |w.logs| == SLOTS && forall i :: 0 <= i < SLOTS ==> !w.slots[i].inUse
    requires Receive(WatchRun(w, es).slots, f, now).packet.Some?
    ensures var e := WatchRun(w, es);
      var p := Receive(e.slots, f, now).packet.value;
      && Lands(e.slots, f)
      && (forall b :: 0 <= b < |p.payload| ==> WrittenOnce(NewLog(e, f, now), b, p.payload[b]))
      && (forall g :: g in NewLog(e, f, now) ==> g.key == f.key && g.nextHeader == p.nextHeader)
  {
    hide Written, Complete, WrittenOnce;
    WatchKeepsLogs(w, es);
    var e := WatchRun(w, es);
    TargetLogged(e, f, now);
    var s := Target(e.slots, f, now);
    var d, log := Written(s, f), NewLog(e, f, now);
    assert d.key == f.key && d.nextHeader == s.nextHeader by { WrittenKey(s, f); }
    forall b | 0 <= b < d.totalLen <= MAX_TOTAL ensures WrittenOnce(log, b, d.buf[b]) {
      CompleteIsWrittenOnce(d, log, b);
    }
  }

  lemma {:induction false} WrittenKey(s: Slot, f: Fragment)
    requires !TooLong(f)
    ensures Written(s, f).key == s.key && Written(s, f).nextHeader == s.nextHeader
  {
  }
}
