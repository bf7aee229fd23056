/** Nothing is left out of a reassembled packet: it is made of every fragment of its key that
    arrived since its slot was opened.  So a fragment that overlaps another one, or disagrees
    on the next header, discards what was there (RFC 5722), and no sweep past the timeout lies
    between the first fragment and the last. */
module Overlap {
  import opened Words
  import opened FragmentModel
  import Reassembly

  /** Every fragment of the key that arrived, except those of a ragged length, which are
      ignored. */
  function Own(es: seq<Event>, key: Key): seq<Fragment> {
    if es == [] then []
    else
      var e := es[|es| - 1];
      Own(es[..|es| - 1], key) + (if e.Arrive? && e.f.key == key && !Ragged(e.f) then [e.f] else [])
  }

  /** Two fragments of one key that cannot belong to one packet. */
  predicate Clash(f: Fragment, g: Fragment) { f.nextHeader != g.nextHeader || !(FragUnits(f) !! FragUnits(g)) }

  // ----- one fragment

  predicate Owns(slots: Slots, key: Key) { exists i :: 0 <= i < SLOTS && slots[i].inUse && slots[i].key == key }

  /** A fragment that overlaps what its slot has, disagrees with it on the next header, is a
      second final one, or is too long: afterwards no slot has its key, and nothing is delivered. */
  lemma {:induction false} ClashFrees(slots: Slots, i: nat, f: Fragment, now: u32)
    requires Reassembly.DistinctKeys(slots) && i < SLOTS && slots[i].inUse && slots[i].key == f.key && !Ragged(f)
    requires !(slots[i].units !! FragUnits(f)) || slots[i].nextHeader != f.nextHeader
      || (slots[i].haveLast && !f.more) || f.End() > MAX_TOTAL
    ensures !Owns(Receive(slots, f, now).slots, f.key) && Receive(slots, f, now).packet.None?
  {
    hide Complete, FragUnits;
    assert FindSlot(slots, f.key, 0) == i;
  }

  // ----- over runs

  /** Slot `s` was opened by event `n` and has taken every fragment of its key since. */
  ghost predicate OpenedAt(s: Slot, log: seq<Fragment>, es: seq<Event>, n: nat) {
    && n < |es| && es[n].Arrive? && es[n].f.key == s.key && s.created == es[n].now
    && log == Own(es[n..], s.key) && NoLateSweep(es, n)
  }

  /** No sweep after event `n` came more than the timeout after it. */
  predicate NoLateSweep(es: seq<Event>, n: nat) {
    && n < |es|
    && forall k :: n < k < |es| && es[k].Timeout? ==> Wrap32(es[k].now - es[n].now) <= 500
  }

  ghost predicate AllSince(w: Watched, es: seq<Event>, since: seq<nat>) {
    && AllLogged(w) && Reassembly.DistinctKeys(w.slots) && |since| == SLOTS
    && forall i :: 0 <= i < SLOTS && w.slots[i].inUse ==> OpenedAt(w.slots[i], w.logs[i], es, since[i])
  }

  lemma {:induction false} OwnSnoc(es: seq<Event>, n: nat, e: Event, key: Key)
    requires n <= |es|
    ensures Own((es + [e])[n..], key) ==
      Own(es[n..], key) + (if e.Arrive? && e.f.key == key && !Ragged(e.f) then [e.f] else [])
  {
    var s := (es + [e])[n..];
    assert s[..|s| - 1] == es[n..] && s[|s| - 1] == e;
  }

  /** A slot the event does not concern. */
  lemma {:induction false} OthersSince(s: Slot, log: seq<Fragment>, es: seq<Event>, n: nat, e: Event)
    requires OpenedAt(s, log, es, n)
    requires e.Arrive? ==> e.f.key != s.key || Ragged(e.f)
    requires e.Timeout? ==> Wrap32(e.now - s.created) <= TIMEOUT
    ensures OpenedAt(s, log, es + [e], n)
  {
    OwnSnoc(es, n, e, s.key);
    assert forall k :: 0 <= k < |es| ==> (es + [e])[k] == es[k];
  }

  /** The slot a fragment was written to. */
  lemma {:induction false} WrittenSince(s: Slot, log: seq<Fragment>, es: seq<Event>, n: nat, f: Fragment, now: u32)
    requires OpenedAt(s, log, es, n) && f.key == s.key && !Ragged(f) && !TooLong(f)
    ensures OpenedAt(Written(s, f), log + [f], es + [Arrive(f, now)], n)
  {
    OwnSnoc(es, n, Arrive(f, now), s.key);
    assert forall k :: 0 <= k < |es| ==> (es + [Arrive(f, now)])[k] == es[k];
  }

  lemma {:induction false} OpenedNow(s: Slot, es: seq<Event>, f: Fragment, now: u32)
    requires !Ragged(f) && !TooLong(f)
    ensures OpenedAt(Written(Opened(s, f, now), f), [f], es + [Arrive(f, now)], |es|)
  {
    OwnSnoc(es, |es|, Arrive(f, now), f.key);
  }

  lemma {:induction false} ReceiveSince(w: Watched, es: seq<Event>, since: seq<nat>, f: Fragment, now: u32)
    returns (since': seq<nat>)
    requires AllSince(w, es, since)
    ensures AllSince(Watch(w, Arrive(f, now)), es + [Arrive(f, now)], since')
  {
    var w', full := Watch(w, Arrive(f, now)), es + [Arrive(f, now)];
    LoggedStep(w, Arrive(f, now));
    DistinctStep(w.slots, f, now);
    var opens := Lands(w.slots, f) && FindSlot(w.slots, f.key, 0) == SLOTS;
    since' := if opens then since[Place(w.slots, f) := |es|] else since;
    hide OpenedAt, Logged, Complete, FragUnits, Written;
    forall i | 0 <= i < SLOTS && w'.slots[i].inUse
      ensures OpenedAt(w'.slots[i], w'.logs[i], full, since'[i])
    {
      SlotSince(w, es, since, f, now, i);
    }
  }

  lemma {:induction false} LoggedStep(w: Watched, e: Event)
    requires AllLogged(w)
    ensures AllLogged(Watch(w, e))
  {
    hide Logged, Watch;
    WatchKeepsLogs(w, [e]);
    assert [e][1..] == [];
    assert WatchRun(w, [e]) == WatchRun(Watch(w, e), []);
  }

  lemma {:induction false} DistinctStep(slots: Slots, f: Fragment, now: u32)
    requires Reassembly.DistinctKeys(slots)
    ensures Reassembly.DistinctKeys(Receive(slots, f, now).slots)
  {
    hide Receive;
    var k := Reassembly.ReceiveFrame(slots, f, now);
  }

  /** What a fragment does to one slot in use afterwards. */
  lemma {:induction false} SlotSince(w: Watched, es: seq<Event>, since: seq<nat>, f: Fragment, now: u32, i: nat)
    requires AllSince(w, es, since) && i < SLOTS && Watch(w, Arrive(f, now)).slots[i].inUse
    ensures var w' := Watch(w, Arrive(f, now));
      var n := if Lands(w.slots, f) && FindSlot(w.slots, f.key, 0) == SLOTS && i == Place(w.slots, f)
               then |es| else since[i];
      OpenedAt(w'.slots[i], w'.logs[i], es + [Arrive(f, now)], n)
  {
    hide OpenedAt, Logged, Complete, FragUnits, Written;
    var s, e := w.slots[i], Arrive(f, now);
    if Lands(w.slots, f) && i == Place(w.slots, f) {
      if FindSlot(w.slots, f.key, 0) < SLOTS {
        WrittenSince(s, w.logs[i], es, since[i], f, now);
      } else {
        OpenedNow(s, es, f, now);
        assert [] + [f] == [f];
      }
    } else {
      OthersSince(s, w.logs[i], es, since[i], e);
    }
  }

  lemma {:induction false} SweepSince(w: Watched, es: seq<Event>, since: seq<nat>, now: u32)
    requires AllSince(w, es, since)
    ensures AllSince(Watch(w, Timeout(now)), es + [Timeout(now)], since)
  {
    LoggedStep(w, Timeout(now));
    hide OpenedAt, Logged;
    var w' := Watch(w, Timeout(now));
    forall i | 0 <= i < SLOTS && w'.slots[i].inUse
      ensures OpenedAt(w'.slots[i], w'.logs[i], es + [Timeout(now)], since[i])
    {
      OthersSince(w.slots[i], w.logs[i], es, since[i], Timeout(now));
    }
  }

  lemma {:induction false} WatchSnoc(w: Watched, es: seq<Event>, e: Event)
    requires |w.logs| == SLOTS
    ensures WatchRun(w, es + [e]) == Watch(WatchRun(w, es), e)
    decreases |es|
  {
    hide Watch;
    if es == [] {
      assert [e][1..] == [];
      assert WatchRun(w, [e]) == WatchRun(Watch(w, e), []);
      assert [] + [e] == [e];
    } else {
      assert (es + [e])[1..] == es[1..] + [e];
      WatchSnoc(Watch(w, es[0]), es[1..], e);
    }
  }

  predicate NoneInUse(slots: Slots) { forall i :: 0 <= i < SLOTS ==> !slots[i].inUse }

  lemma {:induction false} RunSince(w: Watched, es: seq<Event>) returns (since: seq<nat>)
    requires |w.logs| == SLOTS && NoneInUse(w.slots)
    ensures AllSince(WatchRun(w, es), es, since)
    decreases |es|
  {
    if es == [] {
      since := [0, 0, 0, 0];
    } else {
      hide AllSince, Watch;
      var before, e := es[..|es| - 1], es[|es| - 1];
      assert es == before + [e];
      since := RunSince(w, before);
      WatchSnoc(w, before, e);
      match e {
        case Arrive(f, now) => since := ReceiveSince(WatchRun(w, before), before, since, f, now);
        case Timeout(now) => SweepSince(WatchRun(w, before), before, since, now);
      }
    }
  }

  // ----- what it means

  /** `all` is the whole of the packet: the fragments are pairwise apart and agree with it on
      the next header, a final one ends it, and each byte comes from exactly one of them. */
  ghost predicate MadeOf(p: Packet, all: seq<Fragment>) {
    && (forall i, j :: 0 <= i < j < |all| ==> !Clash(all[i], all[j]))
    && (forall g :: g in all ==> g.nextHeader == p.nextHeader)
    && (forall b :: 0 <= b < |p.payload| ==> WrittenOnce(all, b, p.payload[b]))
    && (exists i :: 0 <= i < |all| && !all[i].more && all[i].End() == |p.payload|)
  }

  lemma {:induction false} CompleteIsMade(s: Slot, log: seq<Fragment>)
    requires Logged(s, log) && Complete(s)
    ensures MadeOf(Packet(s.nextHeader, s.buf[..s.totalLen]), log)
  {
    hide FragUnits, Holds, WrittenOnce;
    var p := Packet(s.nextHeader, s.buf[..s.totalLen]);
    forall b | 0 <= b < |p.payload| ensures WrittenOnce(log, b, p.payload[b]) {
      hide Logged, Complete;
      CompleteIsWrittenOnce(s, log, b);
    }
  }

  /** Whatever arrived before: a delivered packet is made of every fragment of its key that
      arrived since its slot was opened, and of no others. */
  lemma {:induction false} DeliveredFromAll(w: Watched, es: seq<Event>, f: Fragment, now: u32) returns (n: nat)
    requires |w.logs| == SLOTS && NoneInUse(w.slots)
    requires Receive(WatchRun(w, es).slots, f, now).packet.Some?
    ensures var full, p := es + [Arrive(f, now)], Receive(WatchRun(w, es).slots, f, now).packet.value;
      && n < |full| && full[n].Arrive? && full[n].f.key == f.key && NoLateSweep(full, n)
      && !Ragged(f) && MadeOf(p, Own(full[n..], f.key))
  {
    var since := RunSince(w, es);
    var e, full := WatchRun(w, es), es + [Arrive(f, now)];
    hide WatchRun, Logged, Complete, FragUnits, Written, MadeOf, OpenedAt;
    var i, s := Place(e.slots, f), Target(e.slots, f, now);
    TargetLogged(e, f, now);
    CompleteIsMade(Written(s, f), NewLog(e, f, now));
    WrittenKey(s, f);
    if FindSlot(e.slots, f.key, 0) < SLOTS {
      n := since[i];
      WrittenSince(s, e.logs[i], es, n, f, now);
    } else {
      n := |es|;
      OpenedNow(e.slots[i], es, f, now);
      assert [] + [f] == [f];
    }
    OpenedFacts(Written(s, f), NewLog(e, f, now), full, n);
  }

  lemma {:induction false} OpenedFacts(s: Slot, log: seq<Fragment>, es: seq<Event>, n: nat)
    requires OpenedAt(s, log, es, n)
    ensures n < |es| && es[n].Arrive? && es[n].f.key == s.key && log == Own(es[n..], s.key) && NoLateSweep(es, n)
  {
  }

  predicate Counts(es: seq<Event>, a: nat, key: Key) {
    a < |es| && es[a].Arrive? && es[a].f.key == key && !Ragged(es[a].f)
  }

  /** Where an arrival stands among those of its key. */
  lemma {:induction false} OwnAt(es: seq<Event>, key: Key, a: nat)
    requires Counts(es, a, key)
    ensures var k := |Own(es[..a], key)|; k < |Own(es, key)| && Own(es, key)[k] == es[a].f
    decreases |es|
  {
    var before := es[..|es| - 1];
    if a < |before| {
      assert before[..a] == es[..a] && before[a] == es[a];
      OwnAt(before, key, a);
    } else {
      assert es[..a] == before;
    }
  }

  lemma {:induction false} OwnGrows(es: seq<Event>, key: Key, a: nat, b: nat)
    requires Counts(es, a, key) && a < b <= |es|
    ensures |Own(es[..a], key)| < |Own(es[..b], key)|
  {
    var front := es[..b];
    assert front[..a] == es[..a] && front[a] == es[a];
    OwnAt(front, key, a);
  }

  /** Of two fragments of one key that clash, the earlier one is in no packet delivered at or
      after the later one: all of the packet's fragments came after it. */
  lemma {:induction false} ClashForgets(w: Watched, es: seq<Event>, f: Fragment, now: u32, a: nat, b: nat)
    returns (n: nat)
    requires |w.logs| == SLOTS && NoneInUse(w.slots)
    requires Receive(WatchRun(w, es).slots, f, now).packet.Some?
    requires var full := es + [Arrive(f, now)];
      a < b && Counts(full, a, f.key) && Counts(full, b, f.key) && Clash(full[a].f, full[b].f)
    ensures var full, p := es + [Arrive(f, now)], Receive(WatchRun(w, es).slots, f, now).packet.value;
      a < n < |full| && MadeOf(p, Own(full[n..], f.key))
  {
    hide WatchRun, Receive, Clash, MadeOf, Own;
    n := DeliveredFromAll(w, es, f, now);
    if n <= a { BothInside(es + [Arrive(f, now)], f.key, n, a, b); }
  }

  /** Two arrivals that clash are not both part of one packet. */
  lemma {:induction false} BothInside(es: seq<Event>, key: Key, n: nat, a: nat, b: nat)
    requires n <= a < b && Counts(es, a, key) && Counts(es, b, key) && Clash(es[a].f, es[b].f)
    ensures forall p :: !MadeOf(p, Own(es[n..], key))
  {
    hide Clash, Own, WrittenOnce;
    var s := es[n..];
    assert s[a - n] == es[a] && s[b - n] == es[b];
    OwnAt(s, key, a - n);
    OwnAt(s, key, b - n);
    OwnGrows(s, key, a - n, b - n);
  }
}
