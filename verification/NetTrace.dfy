/** net_trace.c in place: the event table rebuilt from a snapshot, and its look-ups. */
module NetTrace {
  import opened Words
  import opened PairingModel

  const MAX_EVENTS := 128
  const TIMEOUT := 500

  /** One event of the snapshot. */
  datatype Captured = Captured(packet: Packet, tick: nat, valid: bool)

  datatype Status = NoStatus | Pending | Answered | TimedOut

  datatype Event = Event(
    eventId: u32, previousId: u32, relatedId: u32, packet: Packet, isResponse: bool, tick: nat, status: Status)

  /** Events are taken up to the first invalid one, and never more than the table holds. */
  function Usable(s: seq<Captured>): (n: nat)
    ensures n <= |s| && n <= MAX_EVENTS
    ensures forall i :: 0 <= i < n ==> s[i].valid
    ensures n < |s| && n < MAX_EVENTS ==> !s[n].valid
  {
    FirstInvalid(s, 0)
  }

  function FirstInvalid(s: seq<Captured>, from: nat): (n: nat)
    requires from <= |s| && from <= MAX_EVENTS
    ensures from <= n <= |s| && n <= MAX_EVENTS
    ensures forall i :: from <= i < n ==> s[i].valid
    ensures n < |s| && n < MAX_EVENTS ==> !s[n].valid
    decreases |s| - from
  {
    if from == |s| || from == MAX_EVENTS || !s[from].valid then from else FirstInvalid(s, from + 1)
  }

  function Packets(s: seq<Captured>, n: nat): (ev: seq<Packet>)
    requires n <= |s|
    ensures |ev| == n && forall i :: 0 <= i < n ==> ev[i] == s[i].packet
  {
    seq(n, i requires 0 <= i < n => s[i].packet)
  }

  function StatusOf(e: Event, claimed: bool, now: nat): Status {
    if e.packet.direction != Tx then e.status
    else if claimed then Answered
    else if e.packet.dstIp == 0xFFFF_FFFF || e.packet.dstIp == 0xFFFF_FFFE || e.packet.dstIp / 0x1000_0000 == 0xE
    then NoStatus
    else if now > e.tick && now - e.tick > TIMEOUT then TimedOut
    else Pending
  }

  /** Limited broadcast, the marker for group traffic, and class D. */
  predicate IsGroup(ip: u32) { ip >= 0xFFFF_FFFE || 0xE000_0000 <= ip < 0xF000_0000 }

  /** A later event is the reply to event `i`. */
  ghost predicate Replied(p: Pairs, i: nat) { exists j :: i < j < |p.answers| && p.answers[j] == Some(i) }

  /** What each status means: a sent event is answered exactly when it has a reply; without one
      it has timed out or is pending by its age, unless it went to a group. */
  predicate StatusMeans(status: Status, e: Packet, tick: nat, replied: bool, now: nat) {
    var waits := e.direction == Tx && !replied && !IsGroup(e.dstIp);
    && (status == Answered <==> e.direction == Tx && replied)
    && (status == TimedOut <==> waits && now > tick + 500)
    && (status == Pending <==> waits && now <= tick + 500)
  }

  lemma {:induction false} ClaimedIsReplied(ev: seq<Packet>, i: nat)
    requires i < |ev|
    ensures i in Pairing(ev, |ev|).claimed <==> Replied(Pairing(ev, |ev|), i)
  {
    hide Pairing;
    var p := Pairing(ev, |ev|);
    PairingSound(ev, |ev|);
    if i in p.claimed {
      var j :| 0 <= j < |p.answers| && p.answers[j] == Some(i);
      assert Replies(ev, p, j, i);
    }
    if j :| i < j < |p.answers| && p.answers[j] == Some(i) { assert Replies(ev, p, j, i); }
  }

  lemma {:induction false} StatusOfMeans(e: Event, claimed: bool, now: nat)
    requires e.status == NoStatus
    ensures StatusMeans(StatusOf(e, claimed, now), e.packet, e.tick, claimed, now)
  {
  }

  /** Event `i` as the pairing `p` of `ev` describes it. */
  ghost predicate Describes(e: Event, s: seq<Captured>, ev: seq<Packet>, p: Pairs, i: nat) {
    && i < |ev| <= |s| && i < |p.answers|
    && e.packet == ev[i] && e.eventId == ev[i].id && e.tick == s[i].tick
    && e.previousId == (if i > 0 then ev[i - 1].id else 0)
    && e.isResponse == p.answers[i].Some?
    && e.relatedId == (if p.answers[i].Some? && p.answers[i].value < |ev| then ev[p.answers[i].value].id else 0)
  }

  ghost predicate RowOk(e: Event, taken: bool, s: seq<Captured>, ev: seq<Packet>, p: Pairs, i: nat) {
    Describes(e, s, ev, p, i) && e.status == NoStatus && taken == (i in p.claimed)
  }

  /** The table after the first `i` events. */
  ghost predicate Rows(events: seq<Event>, claimed: seq<bool>, s: seq<Captured>, ev: seq<Packet>, i: nat) {
    && i <= |ev| && |events| == |claimed| == i
    && forall j :: 0 <= j < i ==> RowOk(events[j], claimed[j], s, ev, Pairing(ev, i), j)
  }

  lemma {:induction false} RowsNone(s: seq<Captured>, ev: seq<Packet>)
    ensures Rows([], [], s, ev, 0)
  {
  }

  lemma {:induction false} RowsOf(events: seq<Event>, claimed: seq<bool>, s: seq<Captured>, ev: seq<Packet>, i: nat)
    requires Rows(events, claimed, s, ev, i)
    ensures i <= |ev| && |events| == |claimed| == i
    ensures forall j :: 0 <= j < i ==> RowOk(events[j], claimed[j], s, ev, Pairing(ev, i), j)
  {
  }

  lemma {:induction false} NotYetClaimed(ev: seq<Packet>, i: nat)
    requires i < |ev|
    ensures i !in Pairing(ev, i + 1).claimed
  {
    PairingSound(ev, i);
  }

  lemma {:induction false} PairingStep(ev: seq<Packet>, i: nat)
    requires i < |ev|
    ensures Pairing(ev, i + 1) == PairNext(ev, Pairing(ev, i))
  {
    hide PairNext;
  }

  /** Pairing the next event marks the one it answers as taken and leaves the others alone. */
  lemma {:induction false} RowStep(e: Event, taken: bool, s: seq<Captured>, ev: seq<Packet>, p: Pairs, j: nat, k: nat)
    requires |p.answers| < |ev| && j < |p.answers| && RowOk(e, taken, s, ev, p, j)
    requires k == FirstOpen(ev, p, |p.answers|, 0)
    ensures RowOk(e, taken || j == k, s, ev, PairNext(ev, p), j)
  {
    hide FirstOpen;
  }

  lemma {:induction false} RowNew(e: Event, s: seq<Captured>, ev: seq<Packet>, p: Pairs, k: nat)
    requires var i := |p.answers|;
      && i < |ev| <= |s| && k == FirstOpen(ev, p, i, 0) && i !in PairNext(ev, p).claimed
      && e == Event(ev[i].id, if i > 0 then ev[i - 1].id else 0, if k < i then ev[k].id else 0,
                    ev[i], k < i, s[i].tick, NoStatus)
    ensures RowOk(e, false, s, ev, PairNext(ev, p), |p.answers|)
  {
    hide FirstOpen;
  }

  /** A row that the pairing describes is the entry that the look-ups are stated about. */
  lemma {:induction false} RowEntry(e: Event, s: seq<Captured>, ev: seq<Packet>, i: nat)
    requires i < |ev| && Describes(e, s, ev, Pairing(ev, |ev|), i)
    ensures TableOf(ev)[i] == Entry(e.eventId, e.relatedId)
  {
    hide Pairing;
    var p := Pairing(ev, |ev|);
    PairingSound(ev, |ev|);
    if p.answers[i].Some? { assert Replies(ev, p, i, p.answers[i].value); }
  }

  class Tracer {
    var events: seq<Event>
    var claimed: seq<bool>

    /** What a rebuild leaves: the maximum pairing of the usable events, and for each sent
        event whether it was answered, is pending or timed out. */
    method Rebuild(s: seq<Captured>, now: nat)
      modifies this
      ensures |events| == |claimed| == Usable(s)
      ensures var ev := Packets(s, Usable(s));
        var p := Pairing(ev, |ev|);
        forall i :: 0 <= i < |events| ==>
          && Describes(events[i], s, ev, p, i) && claimed[i] == (i in p.claimed)
          && events[i].status == StatusOf(events[i].(status := NoStatus), claimed[i], now)
          && StatusMeans(events[i].status, ev[i], s[i].tick, Replied(p, i), now)
      ensures Table() == TableOf(Packets(s, Usable(s)))
    {
      hide FirstInvalid, Rows, Pairing, TableOf;
      events, claimed := [], [];
      ghost var n := Usable(s);
      ghost var ev := Packets(s, n);
      RowsNone(s, ev);
      var i := 0;
      while i < |s| && i < MAX_EVENTS && s[i].valid
        invariant 0 <= i <= n && Rows(events, claimed, s, ev, i)
      {
        AddEvent(s, i, ev);
        i := i + 1;
      }
      RowsOf(events, claimed, s, ev, i);
      SetStatus(now);
      forall j: nat | j < |events|
        ensures Table()[j] == TableOf(ev)[j]
        ensures StatusMeans(events[j].status, ev[j], s[j].tick, Replied(Pairing(ev, |ev|), j), now)
      {
        RowEntry(events[j], s, ev, j);
        ClaimedIsReplied(ev, j);
        StatusOfMeans(events[j].(status := NoStatus), claimed[j], now);
      }
    }

    /** One turn of the outer loop: event `i` is entered and paired. */
    method AddEvent(s: seq<Captured>, i: nat, ghost ev: seq<Packet>)
      requires i < |ev| <= |s| && Rows(events, claimed, s, ev, i) && forall j :: 0 <= j < |ev| ==> ev[j] == s[j].packet
      modifies this
      ensures Rows(events, claimed, s, ev, i + 1)
    {
      hide FirstOpen, IsReverseMatch, RowOk, PairNext, Pairing;
      var k := FindOpen(s, i, ev);
      ghost var p, q := Pairing(ev, i), Pairing(ev, i + 1);
      PairingStep(ev, i);
      ghost var before, taken := events, claimed;
      var related: u32 := if k < i then s[k].packet.id else 0;
      var previous: u32 := if i > 0 then s[i - 1].packet.id else 0;
      events := events + [Event(s[i].packet.id, previous, related, s[i].packet, k < i, s[i].tick, NoStatus)];
      claimed := (if k < i then claimed[k := true] else claimed) + [false];
      NotYetClaimed(ev, i);
      forall j | 0 <= j < i ensures RowOk(events[j], claimed[j], s, ev, q, j) {
        RowStep(before[j], taken[j], s, ev, p, j, k);
      }
      RowNew(events[i], s, ev, p, k);
    }

    /** The inner scan: the earliest event still open that event `i` replies to. */
    method FindOpen(s: seq<Captured>, i: nat, ghost ev: seq<Packet>) returns (k: nat)
      requires i < |ev| <= |s| && Rows(events, claimed, s, ev, i) && forall j :: 0 <= j < |ev| ==> ev[j] == s[j].packet
      ensures k == FirstOpen(ev, Pairing(ev, i), i, 0)
    {
      k := 0;
      while k < i && !(!claimed[k] && !events[k].isResponse && IsReverseMatch(s[i].packet, s[k].packet))
        invariant 0 <= k <= i && FirstOpen(ev, Pairing(ev, i), i, 0) == FirstOpen(ev, Pairing(ev, i), i, k)
      {
        assert RowOk(events[k], claimed[k], s, ev, Pairing(ev, i), k);
        k := k + 1;
      }
      assert k < i ==> RowOk(events[k], claimed[k], s, ev, Pairing(ev, i), k);
    }

    method SetStatus(now: nat)
      requires |events| == |claimed|
      modifies this`events
      ensures |events| == |old(events)|
      ensures forall i :: 0 <= i < |events| ==>
        events[i] == old(events)[i].(status := StatusOf(old(events)[i], claimed[i], now))
    {
      var i := 0;
      while i < |events|
        invariant 0 <= i <= |events| == |old(events)|
        invariant forall j :: 0 <= j < i ==>
          events[j] == old(events)[j].(status := StatusOf(old(events)[j], claimed[j], now))
        invariant forall j :: i <= j < |events| ==> events[j] == old(events)[j]
      {
        events := events[i := events[i].(status := StatusOf(events[i], claimed[i], now))];
        i := i + 1;
      }
    }

    ghost function Table(): (t: seq<Entry>)
      reads this
      ensures |t| == |events|
    {
      seq(|events|, i requires 0 <= i < |events| reads this => Entry(events[i].eventId, events[i].relatedId))
    }

    /** -1 when there is no such event. */
    method FindEvent(id: u32) returns (r: int)
      ensures var i := PairingModel.FindEvent(Table(), id); r == if i < |events| then i else -1
    {
      var i := 0;
      while i < |events|
        invariant 0 <= i <= |events| && PairingModel.FindEvent(Table(), id) == FindFrom(Table(), id, i)
      {
        if events[i].eventId == id {
          return i;
        }
        i := i + 1;
      }
      return -1;
    }

    method FindRelated(id: u32) returns (r: int)
      ensures var i := PairingModel.FindRelated(Table(), id); r == if i < |events| then i else -1
    {
      var index := FindEvent(id);
      if index < 0 {
        return -1;
      }
      if events[index].relatedId != 0 {
        r := FindEvent(events[index].relatedId);
        return;
      }
      var i := 0;
      while i < |events|
        invariant 0 <= i <= |events| && FindReplyFrom(Table(), id, 0) == FindReplyFrom(Table(), id, i)
      {
        if events[i].relatedId == id {
          return i;
        }
        i := i + 1;
      }
      return -1;
    }
  }
}
