/** Exactly when the ack of a resent segment is timed, over whole connections: the window of
    SendWindow together with what RetransmitTimer remembers about its slots. */
module KarnRule {
  import opened Words
  import opened Rapport
  import opened SchedulerModel
  import opened SendWindow
  import Timer = RetransmitTimer

  datatype Watched = Watched(link: Link, timed: Timer.Timed)

  /** The scheduler calls that an event of the connection makes. */
  function Calls(l: Link, e: Event): seq<Timer.Event> {
    match e
    case Send(n, sent, now) =>
      if Sends(l, n, sent) then [Timer.Tracked(l.conn.sendSeq, n, 54 + n, now)] else []
    case Close(sent, now) =>
      if Closes(l, sent) then [Timer.Tracked(l.conn.sendSeq, 1, 54, now)] else []
    case AckInOrder(ack, now) =>
      (if OnAck(l.conn, ack, now).release then [Timer.Cancelled] else []) + [Timer.Acked(ack, now)]
    case AckEarly(ack, now) => if ack <= l.conn.sendSeq then [Timer.Acked(ack, now)] else []
    case Timer(now) =>
      [Timer.Ticked(now)] + (if GivesUp(l.sched, now) && OnRst(l.conn).release then [Timer.Cancelled] else [])
    case PeerRst => if OnRst(l.conn).release then [Timer.Cancelled] else []
    case _ => []
  }

  function Begin(l: Link): Watched { Watched(l, Timer.Timed(l.sched, [], {}, {}, {})) }

  function WatchOne(w: Watched, e: Event): Watched {
    Watched(Apply(w.link, e), Timer.Run(w.timed, Calls(w.link, e)))
  }

  function Watch(w: Watched, es: seq<Event>): Watched
    decreases |es|
  {
    if es == [] then w else Watch(WatchOne(w, es[0]), es[1..])
  }

  lemma {:induction false} RunOne(t: Timer.Timed, a: Timer.Event)
    ensures Timer.Run(t, [a]) == Timer.Apply(t, a)
  {
    hide Timer.Apply;
    assert [a][1..] == [];
  }

  lemma {:induction false} RunTwo(t: Timer.Timed, a: Timer.Event, b: Timer.Event)
    ensures Timer.Run(t, [a] + [b]) == Timer.Apply(Timer.Apply(t, a), b)
  {
    hide Timer.Apply;
    assert ([a] + [b])[1..] == [b] && [b][1..] == [];
    RunOne(Timer.Apply(t, a), b);
  }

  /** A segment resent on duplicate acks stays the oldest as long as it is in flight. */
  predicate FastIsOldest(t: Timer.Timed) {
    forall i :: i in t.fast && i < WINDOW && t.sched.segs[i].inUse ==> i == Oldest(t.sched.segs)
  }

  lemma {:induction false} TrackKeepsFast(t: Timer.Timed, seqNo: u32, n: u16, len: nat, now: u32)
    requires FastIsOldest(t)
    requires var o := Oldest(t.sched.segs); o < WINDOW ==> Oldest(Track(t.sched, seqNo, n, len, now).segs) == o
    ensures FastIsOldest(Timer.Apply(t, Timer.Tracked(seqNo, n, len, now)))
  {
    hide Oldest;
  }

  lemma {:induction false} AckKeepsFast(t: Timer.Timed, ack: u32, now: u32)
    requires FastIsOldest(t) && (Oldest(t.sched.segs) < WINDOW ==> Leads(t.sched.segs, Oldest(t.sched.segs)))
    ensures FastIsOldest(Timer.Apply(t, Timer.Acked(ack, now)))
  {
    hide Oldest, SeqBefore, Covered, Estimate;
    var o, t' := Oldest(t.sched.segs), Timer.Apply(t, Timer.Acked(ack, now));
    if o < WINDOW && t'.sched.segs[o].inUse {
      assert Leads(t'.sched.segs, o);
      LeadsIsOldest(t'.sched.segs, o);
    }
  }

  lemma {:induction false} LeadsIsOldest(segs: Segs, o: nat)
    requires Leads(segs, o)
    ensures Oldest(segs) == o
  {
    LeaderIsOldest(segs, o, 0, WINDOW);
  }

  lemma {:induction false} OldestFrame(a: Segs, b: Segs, i: nat, best: nat)
    requires i <= WINDOW && best <= WINDOW && (best < WINDOW ==> a[best].inUse)
    requires forall j :: 0 <= j < WINDOW ==> a[j].inUse == b[j].inUse && a[j].seqNo == b[j].seqNo
    ensures OldestFrom(a, i, best) == OldestFrom(b, i, best)
    decreases WINDOW - i
  {
    hide SeqBefore;
    if i < WINDOW {
      if a[i].inUse { OldestFrame(a, b, i + 1, i); }
      OldestFrame(a, b, i + 1, best);
    }
  }

  lemma {:induction false} TickKeepsFast(t: Timer.Timed, now: u32)
    requires FastIsOldest(t)
    ensures FastIsOldest(Timer.Apply(t, Timer.Ticked(now)))
  {
    hide OldestFrom, SeqBefore;
    var c, c' := t.sched, Tick(t.sched, now);
    if !GivesUp(c, now) { OldestFrame(c.segs, c'.segs, 0, WINDOW); }
  }

  ghost predicate Karn(w: Watched, ord: seq<nat>) {
    && Tiled(w.link, ord) && w.timed.sched == w.link.sched
    && FastIsOldest(w.timed) && Timer.SlotsOk(w.timed)
  }

  lemma {:induction false} OldestOf(l: Link, ord: seq<nat>)
    requires Tiled(l, ord)
    ensures var o := Oldest(l.sched.segs);
      && (ord == [] ==> o == WINDOW) && (ord != [] ==> o == ord[0] && Leads(l.sched.segs, o) && l.sched.phase == Retry)
  {
    hide Leads;
    OldestIsFirst(l.sched.segs, ord, Una(l), l.conn.sendSeq);
    if ord != [] { FirstLeads(l.sched.segs, ord, Una(l), l.conn.sendSeq); }
  }

  lemma {:induction false} TrackKeepsKarn(w: Watched, ord: seq<nat>, n: u16, len: nat, now: u32, c: Conn)
    returns (ord': seq<nat>)
    requires Karn(w, ord) && n > 0 && 0 < len <= MAX_FRAME && FreeFrom(w.link.sched.segs, 0) < WINDOW
    requires c.sendSeq == Wrap32(w.link.conn.sendSeq + n)
    ensures var call := Timer.Tracked(w.link.conn.sendSeq, n, len, now);
      Karn(Watched(Link(Track(w.link.sched, w.link.conn.sendSeq, n, len, now), c), Timer.Apply(w.timed, call)), ord')
  {
    hide Tiled, Track, Timer.SlotsOk, Leads, Wrap32;
    var l, seqNo := w.link, w.link.conn.sendSeq;
    ord' := TrackTiled(l, ord, n, len, now, c);
    OldestOf(l, ord);
    OldestOf(Link(Track(l.sched, seqNo, n, len, now), c), ord');
    TrackKeepsFast(w.timed, seqNo, n, len, now);
    Timer.SlotsEvent(w.timed, Timer.Tracked(seqNo, n, len, now));
  }

  lemma {:induction false} CancelKeepsKarn(w: Watched, ord: seq<nat>, c: Conn) returns (ord': seq<nat>)
    requires Karn(w, ord) && c.sendSeq == w.link.conn.sendSeq
    ensures Karn(Watched(Link(Cancel(w.link.sched), c), Timer.Apply(w.timed, Timer.Cancelled)), ord')
  {
    hide Tiled, Timer.SlotsOk;
    ord' := CancelTiled(w.link, ord, true, c);
    Timer.SlotsEvent(w.timed, Timer.Cancelled);
  }

  lemma {:induction false} ConnKeepsKarn(w: Watched, ord: seq<nat>, c: Conn) returns (ord': seq<nat>)
    requires Karn(w, ord) && c.sendSeq == w.link.conn.sendSeq
    ensures Karn(w.(link := w.link.(conn := c)), ord')
  {
    hide Tiled, Timer.SlotsOk, FastIsOldest;
    ord' := CancelTiled(w.link, ord, false, c);
  }

  lemma {:induction false} AckKeepsKarn(w: Watched, ord: seq<nat>, ack: u32, now: u32) returns (ord': seq<nat>)
    requires Karn(w, ord) && InHalf(Una(w.link), w.link.conn.sendSeq, ack)
    ensures var l := w.link.(sched := Ack(w.link.sched, ack, now));
      Karn(Watched(l, Timer.Apply(w.timed, Timer.Acked(ack, now))), ord')
  {
    hide Tiled, Ack, Timer.SlotsOk, FastIsOldest, Leads;
    OldestOf(w.link, ord);
    ord' := AckTiled(w.link, ord, ack, now);
    AckKeepsFast(w.timed, ack, now);
    Timer.SlotsEvent(w.timed, Timer.Acked(ack, now));
  }

  lemma {:induction false} TickKeepsKarn(w: Watched, ord: seq<nat>, now: u32) returns (ord': seq<nat>)
    requires Karn(w, ord)
    ensures Karn(Watched(w.link.(sched := Tick(w.link.sched, now)), Timer.Apply(w.timed, Timer.Ticked(now))), ord')
  {
    hide Tiled, Tick, Timer.SlotsOk, FastIsOldest;
    ord' := TimerTiled(w.link, ord, now);
    TickKeepsFast(w.timed, now);
    Timer.SlotsEvent(w.timed, Timer.Ticked(now));
  }

  lemma {:induction false} AckInOrderKeepsKarn(w: Watched, ord: seq<nat>, ack: u32, now: u32) returns (ord': seq<nat>)
    requires Karn(w, ord) && InHalf(Una(w.link), w.link.conn.sendSeq, ack)
    ensures Karn(WatchOne(w, AckInOrder(ack, now)), ord')
  {
    hide Karn, OnAck, Timer.Apply, Timer.Run, Ack, Cancel, InHalf;
    var r := OnAck(w.link.conn, ack, now);
    AckKeepsSendSeq(w.link.conn, ack, now);
    CancelInHalf(w.link, r, ack);
    if r.release {
      ord' := CancelKeepsKarn(w, ord, r.conn);
      var m := Watched(Link(Cancel(w.link.sched), r.conn), Timer.Apply(w.timed, Timer.Cancelled));
      ord' := AckKeepsKarn(m, ord', ack, now);
      RunTwo(w.timed, Timer.Cancelled, Timer.Acked(ack, now));
    } else {
      ord' := ConnKeepsKarn(w, ord, r.conn);
      ord' := AckKeepsKarn(w.(link := w.link.(conn := r.conn)), ord', ack, now);
      assert [] + [Timer.Acked(ack, now)] == [Timer.Acked(ack, now)];
      RunOne(w.timed, Timer.Acked(ack, now));
    }
  }

  lemma {:induction false} TimerKeepsKarn(w: Watched, ord: seq<nat>, now: u32) returns (ord': seq<nat>)
    requires Karn(w, ord)
    ensures Karn(WatchOne(w, Timer(now)), ord')
  {
    hide Karn, Timer.Apply, Timer.Run, Tick, Cancel, GivesUp;
    ord' := TickKeepsKarn(w, ord, now);
    var m := Watched(w.link.(sched := Tick(w.link.sched, now)), Timer.Apply(w.timed, Timer.Ticked(now)));
    if GivesUp(w.link.sched, now) && OnRst(w.link.conn).release {
      ord' := CancelKeepsKarn(m, ord', OnRst(w.link.conn).conn);
      RunTwo(w.timed, Timer.Ticked(now), Timer.Cancelled);
    } else {
      assert [Timer.Ticked(now)] + [] == [Timer.Ticked(now)];
      RunOne(w.timed, Timer.Ticked(now));
    }
  }

  lemma {:induction false} StepKeepsKarn(w: Watched, ord: seq<nat>, e: Event) returns (ord': seq<nat>)
    requires Karn(w, ord) && Allowed(w.link, e)
    ensures Karn(WatchOne(w, e), ord')
  {
    var l := w.link;
    if e.Close? && Closes(l, e.sent) { NothingInFlight(l, ord); }
    hide Karn, Timer.Apply, Track, Ack, Tick, Cancel, OnFin, OnTick, InHalf, BytesInFlight;
    ord' := ord;
    match e
    case Send(n, sent, now) =>
      if Sends(l, n, sent) {
        ord' := TrackKeepsKarn(w, ord, n, 54 + n, now, Apply(l, e).conn);
        RunOne(w.timed, Timer.Tracked(l.conn.sendSeq, n, 54 + n, now));
      }
    case Close(sent, now) =>
      if Closes(l, sent) {
        ord' := TrackKeepsKarn(w, ord, 1, 54, now, Apply(l, e).conn);
        RunOne(w.timed, Timer.Tracked(l.conn.sendSeq, 1, 54, now));
      }
    case AckInOrder(ack, now) => ord' := AckInOrderKeepsKarn(w, ord, ack, now);
    case AckEarly(ack, now) =>
      if ack <= l.conn.sendSeq {
        ord' := AckKeepsKarn(w, ord, ack, now);
        RunOne(w.timed, Timer.Acked(ack, now));
      }
    case Timer(now) => ord' := TimerKeepsKarn(w, ord, now);
    case PeerWindow(v) => ord' := ConnKeepsKarn(w, ord, Apply(l, e).conn);
    case PeerFin(now) =>
      FinKeepsSendSeq(l.conn, now);
      ord' := ConnKeepsKarn(w, ord, Apply(l, e).conn);
    case PeerRst =>
      if OnRst(l.conn).release {
        ord' := CancelKeepsKarn(w, ord, OnRst(l.conn).conn);
        RunOne(w.timed, Timer.Cancelled);
      }
    case TimeWaitTick(now) =>
      TickKeepsSendSeq(l.conn, now);
      ord' := ConnKeepsKarn(w, ord, Apply(l, e).conn);
  }

  lemma {:induction false} TickKeepsSendSeq(c: Conn, now: u32)
    ensures OnTick(c, now).conn.sendSeq == c.sendSeq
  {
  }

  lemma {:induction false} RunKeepsKarn(w: Watched, ord: seq<nat>, es: seq<Event>) returns (ord': seq<nat>)
    requires Karn(w, ord) && AllowedRun(w.link, es)
    ensures Karn(Watch(w, es), ord') && Watch(w, es).link == Run(w.link, es)
    decreases |es|
  {
    hide Karn, Apply, Calls, Timer.Run;
    if es == [] {
      ord' := ord;
    } else {
      var o := StepKeepsKarn(w, ord, es[0]);
      ord' := RunKeepsKarn(WatchOne(w, es[0]), o, es[1..]);
    }
  }

  // ----- the exact condition

  /** `ack` is within half the sequence space and takes its sample from a resent segment. */
  predicate TimesResent(w: Watched, ack: u32) {
    var c := w.link.sched;
    && InHalf(Una(w.link), w.link.conn.sendSeq, ack)
    && Timer.Samples(c, ack) && SampleFrom(c.segs, ack, 0) in w.timed.resent
  }

  /** The ack of exactly the oldest segment takes its sample from it, unless it is marked. */
  lemma {:induction false} OldestAlone(l: Link, ord: seq<nat>) returns (ack: u32)
    requires Tiled(l, ord) && ord != [] && !l.sched.segs[Oldest(l.sched.segs)].retransmitted
    ensures InHalf(Una(l), l.conn.sendSeq, ack) && Timer.Samples(l.sched, ack)
    ensures SampleFrom(l.sched.segs, ack, 0) == Oldest(l.sched.segs)
  {
    hide SeqBefore;
    OldestOf(l, ord);
    var segs, una := l.sched.segs, Una(l);
    var e, rest := segs[ord[0]], ord[1..];
    ack := EndOf(e);
    CoveredIff(una, e, ack, e.seqLen);
    DistinctBelow(ord, WINDOW);
    LengthBound(segs, rest);
    AckAtEnd(ack);
    var k := AckCoversPrefix(segs, rest, ack, l.conn.sendSeq, ack, 0);
    EndIsNear(una, e);
    hide Covered, Wrap32;
    forall i | 0 <= i < WINDOW && i != ord[0] ensures !Covered(segs[i], ack) {
      if segs[i].inUse {
        var j :| 0 <= j < |ord| && ord[j] == i;
        assert rest[j - 1] == i;
      } else {
        NotInUse(segs[i], ack);
      }
    }
    assert Covered(segs[ord[0]], ack);
  }

  lemma {:induction false} NotInUse(e: Seg, ack: u32)
    requires !e.inUse
    ensures !Covered(e, ack)
  {
  }

  lemma {:induction false} AckAtEnd(a: u32)
    ensures a == Wrap32(a + 0)
  {
  }

  lemma {:induction false} EndIsNear(una: u32, e: Seg)
    requires e.seqNo == una
    ensures Wrap32(EndOf(e) - una) == e.seqLen
  {
  }

  lemma {:induction false} TimesResentIff(w: Watched, ord: seq<nat>)
    requires Karn(w, ord)
    ensures var segs := w.link.sched.segs;
      (exists ack :: TimesResent(w, ack)) <==>
        (Oldest(segs) < WINDOW && Oldest(segs) in w.timed.fast && !segs[Oldest(segs)].retransmitted)
  {
    hide Tiled, InHalf, SeqBefore, Una;
    var segs := w.link.sched.segs;
    var o := Oldest(segs);
    if ack :| TimesResent(w, ack) {
      var i := SampleFrom(segs, ack, 0);
      assert Covered(segs[i], ack) && i in w.timed.fast;
    }
    if o < WINDOW && o in w.timed.fast && !segs[o].retransmitted {
      OldestOf(w.link, ord);
      var ack := OldestAlone(w.link, ord);
      assert TimesResent(w, ack);
    }
  }

  /** Karn's rule, over every run of a connection that starts with an empty window: some ack can
      still take its sample from a segment that was sent twice exactly when the oldest segment
      was resent on duplicate acks and no timer expiry has marked it since. */
  lemma {:induction false} KarnExact(l: Link, es: seq<Event>)
    requires (forall i :: 0 <= i < WINDOW ==> !l.sched.segs[i].inUse) && AllowedRun(l, es)
    ensures var w := Watch(Begin(l), es);
      var segs := w.link.sched.segs;
      && w.link == Run(l, es)
      && ((exists ack :: TimesResent(w, ack)) <==>
            (Oldest(segs) < WINDOW && Oldest(segs) in w.timed.fast && !segs[Oldest(segs)].retransmitted))
  {
    hide AllowedRun, Run, Watch;
    EmptyTiled(l);
    assert Karn(Begin(l), []);
    var ord := RunKeepsKarn(Begin(l), [], es);
    TimesResentIff(Watch(Begin(l), es), ord);
  }
}
