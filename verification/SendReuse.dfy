/** The send side of a slot over several connections: when the window is empty as the slot is
    let go of, so that the next connection inherits no segment. */
module SendReuse {
  import opened Words
  import opened Rapport
  import opened SchedulerModel
  import opened SendWindow

  /** An event of the current connection, the claim of the slot for a new one by either side,
      or the answer to our SYN. `sent` tells whether our SYN-ACK or SYN went out. */
  datatype LifeEvent =
    | Within(event: Event)
    | Accept(peerIsn: u32, ourIsn: u32, sent: bool, now: u32)
    | Connect(ourIsn: u32, sent: bool, now: u32)
    | SynAcked(peerIsn: u32, ack: u32)

  /** While our SYN is out, only resets and the SYN-ACK are looked at. */
  predicate Ignored(l: Link, x: Event) {
    l.conn.status == SynSent && (x.AckInOrder? || x.AckEarly? || x.PeerWindow? || x.PeerFin?)
  }

  /** A SYN or SYN-ACK takes one sequence number. */
  function Opening(l: Link, c: Conn, sent: bool, now: u32): Link {
    Link(if sent then Track(l.sched, c.ourIsn, 1, 54, now) else l.sched, c)
  }

  function ApplyLife(l: Link, e: LifeEvent): Link {
    match e
    case Within(x) => if Ignored(l, x) then l else Apply(l, x)
    case Accept(peerIsn, ourIsn, sent, now) =>
      if l.conn.status == Closed then Opening(l, OnSyn(l.conn, peerIsn, ourIsn), sent, now) else l
    case Connect(ourIsn, sent, now) =>
      if l.conn.status == Closed then Opening(l, InitiateConnect(l.conn, ourIsn), sent, now) else l
    case SynAcked(peerIsn, ack) => l.(conn := OnSynAck(l.conn, peerIsn, ack))
  }

  function RunLife(l: Link, es: seq<LifeEvent>): Link
    decreases |es|
  {
    if es == [] then l else RunLife(ApplyLife(l, es[0]), es[1..])
  }

  predicate WindowEmpty(segs: Segs) { forall i :: 0 <= i < WINDOW ==> !segs[i].inUse }

  /** The numbers a FIN may have so that the plain unsigned test of rapport.c and the modular
      one of scheduler.c agree on every ack within half the sequence space. */
  predicate SafeFin(fin: u32) { 0x7FFF_FFFF <= fin < 0xFFFF_FFFF }

  /** Acks are within half the space, and a connection that we close first has a safe FIN. */
  predicate AllowedLife(l: Link, e: LifeEvent) {
    e.Within? && !Ignored(l, e.event) ==>
      && Allowed(l, e.event)
      && (e.event.Close? && Closes(l, e.event.sent) && l.conn.status == Established ==> SafeFin(l.conn.sendSeq))
  }

  predicate AllowedLives(l: Link, es: seq<LifeEvent>)
    decreases |es|
  {
    es == [] || (AllowedLife(l, es[0]) && AllowedLives(ApplyLife(l, es[0]), es[1..]))
  }

  /** Our FIN has been sent first and the state does not yet count it as acknowledged. */
  predicate FinOut(s: Status) { s == FinWait1 || s == Closing }

  /** States that are only left for CLOSED together with a cancel of the window. */
  predicate Flying(s: Status) {
    s == SynSent || s == SynReceived || s == Established || s == CloseWait || s == LastAck
  }

  /** Nothing but the FIN can be in flight. */
  predicate OnlyFin(l: Link) {
    && SafeFin(l.conn.finSeq) && l.conn.sendSeq == Wrap32(l.conn.finSeq + 1)
    && forall i :: 0 <= i < WINDOW && l.sched.segs[i].inUse ==>
         l.sched.segs[i].seqNo == l.conn.finSeq && l.sched.segs[i].seqLen == 1
  }

  predicate FlightOk(l: Link) {
    if FinOut(l.conn.status) then OnlyFin(l)
    else Flying(l.conn.status) || WindowEmpty(l.sched.segs)
  }

  /** The number after the last one sent; `send_seq` is only set once our SYN is answered. */
  function NextSeq(c: Conn): u32 { if c.status == SynSent then Wrap32(c.ourIsn + 1) else c.sendSeq }

  function Settled(l: Link): Link { l.(conn := l.conn.(sendSeq := NextSeq(l.conn))) }

  ghost predicate Life(l: Link, ord: seq<nat>) { Tiled(Settled(l), ord) && FlightOk(l) }

  /** On an ack within half the space, the state test implies the window's for a safe FIN. */
  lemma {:induction false} FinTestsAgree(fin: u32, e: Seg, ack: u32)
    requires SafeFin(fin) && e.inUse && e.seqNo == fin && e.seqLen == 1 && InHalf(fin, Wrap32(fin + 1), ack)
    requires ack >= Wrap32(fin + 1)
    ensures Covered(e, ack)
  {
  }

  lemma {:induction false} InUseRetries(l: Link, ord: seq<nat>, i: nat)
    requires Tiled(l, ord) && i < WINDOW && l.sched.segs[i].inUse
    ensures l.sched.phase == Retry && Oldest(l.sched.segs) < WINDOW
  {
    hide Una;
    assert i in ord;
    OldestIsFirst(l.sched.segs, ord, Una(l), l.conn.sendSeq);
  }

  /** An ack that moves the state on frees the FIN. */
  lemma {:induction false} AckFreesFin(l: Link, ord: seq<nat>, ack: u32, now: u32)
    requires Tiled(l, ord) && OnlyFin(l) && InHalf(Una(l), l.conn.sendSeq, ack) && ack >= Wrap32(l.conn.finSeq + 1)
    ensures WindowEmpty(Ack(l.sched, ack, now).segs)
  {
    hide Tiled, InHalf, SeqBefore, Estimate, OldestFrom, Covered;
    var segs := l.sched.segs;
    forall i | 0 <= i < WINDOW && segs[i].inUse ensures l.sched.phase == Retry && Covered(segs[i], ack) {
      InUseRetries(l, ord, i);
      FinTestsAgree(l.conn.finSeq, segs[i], ack);
    }
  }

  /** An ack frees segments and changes none of the rest. */
  lemma {:induction false} AckShrinks(c: Sched, ack: u32, now: u32)
    ensures var segs := Ack(c, ack, now).segs;
      forall i :: 0 <= i < WINDOW && segs[i].inUse ==> segs[i] == c.segs[i]
  {
    hide SeqBefore, Estimate, OldestFrom, Covered;
  }

  lemma {:induction false} TickShrinks(c: Sched, now: u32)
    ensures var segs := Tick(c, now).segs;
      && (GivesUp(c, now) ==> WindowEmpty(segs))
      && forall i :: 0 <= i < WINDOW && segs[i].inUse ==>
           c.segs[i].inUse && segs[i].seqNo == c.segs[i].seqNo && segs[i].seqLen == c.segs[i].seqLen
  {
    hide SeqBefore, OldestFrom;
  }

  lemma {:induction false} AckKeepsFlight(l: Link, ord: seq<nat>, ack: u32, now: u32)
    requires Tiled(l, ord) && FlightOk(l) && InHalf(Una(l), l.conn.sendSeq, ack)
    ensures FlightOk(Apply(l, AckInOrder(ack, now)))
  {
    hide Tiled, InHalf, Ack;
    var r := OnAck(l.conn, ack, now);
    AckShrinks(CancelIf(l.sched, r.release), ack, now);
    if FinOut(l.conn.status) && !FinOut(r.conn.status) { AckFreesFin(l, ord, ack, now); }
  }

  lemma {:induction false} TrackFin(l: Link, now: u32)
    requires WindowEmpty(l.sched.segs)
    ensures var segs := Track(l.sched, l.conn.sendSeq, 1, 54, now).segs;
      forall i :: 0 <= i < WINDOW && segs[i].inUse ==> segs[i].seqNo == l.conn.sendSeq && segs[i].seqLen == 1
  {
  }

  lemma {:induction false} CloseKeepsFlight(l: Link, ord: seq<nat>, now: u32)
    requires Tiled(l, ord) && Closes(l, true) && (l.conn.status == Established ==> SafeFin(l.conn.sendSeq))
    ensures FlightOk(Apply(l, Close(true, now)))
  {
    NothingInFlight(l, ord);
    NoneListed(l, ord);
    TrackFin(l, now);
    hide Tiled, Track, BytesInFlight;
  }

  lemma {:induction false} TimerKeepsFlight(l: Link, now: u32)
    requires FlightOk(l)
    ensures FlightOk(Apply(l, Timer(now)))
  {
    hide Tick;
    TickShrinks(l.sched, now);
  }

  /** Events that touch the state only. */
  lemma {:induction false} StateKeepsFlight(l: Link, e: Event)
    requires FlightOk(l) && (e.PeerWindow? || e.PeerFin? || e.PeerRst? || e.TimeWaitTick?)
    ensures FlightOk(Apply(l, e))
  {
  }

  lemma {:induction false} EventKeepsFlight(l: Link, ord: seq<nat>, e: Event)
    requires Tiled(l, ord) && FlightOk(l) && AllowedLife(l, Within(e)) && !Ignored(l, e)
    ensures FlightOk(Apply(l, e))
  {
    hide Tiled, InHalf, Ack, Track, Tick, BytesInFlight, GivesUp, OnAck, OnFin, OnTick;
    match e
    case Send(n, sent, now) =>
    case Close(sent, now) => if Closes(l, sent) { CloseKeepsFlight(l, ord, now); }
    case AckInOrder(ack, now) => AckKeepsFlight(l, ord, ack, now);
    case AckEarly(ack, now) => AckShrinks(l.sched, ack, now);
    case Timer(now) => TimerKeepsFlight(l, now);
    case _ => StateKeepsFlight(l, e);
  }

  lemma {:induction false} NoneListed(l: Link, ord: seq<nat>)
    requires Tiled(l, ord) && ord == []
    ensures WindowEmpty(l.sched.segs)
  {
  }

  /** A SYN or SYN-ACK on an empty window tiles from our initial number. */
  lemma {:induction false} OpeningTiled(l: Link, c: Conn, sent: bool, now: u32) returns (ord: seq<nat>)
    requires WindowEmpty(l.sched.segs) && NextSeq(c) == Wrap32(c.ourIsn + 1)
    ensures Tiled(Settled(Opening(l, c, sent, now)), ord)
  {
    if sent {
      var base := Link(l.sched, c.(sendSeq := c.ourIsn));
      EmptyTiled(base);
      assert FreeFrom(l.sched.segs, 0) == 0;
      hide Tiled, Track, Wrap32;
      ord := TrackTiled(base, [], 1, 54, now, Settled(Opening(l, c, sent, now)).conn);
    } else {
      ord := [];
      EmptyTiled(Settled(Opening(l, c, sent, now)));
    }
  }

  /** Before our SYN is answered, an event that is not ignored closes the slot with an empty
      window or touches the window only. */
  lemma {:induction false} SynSentStep(l: Link, x: Event)
    requires l.conn.status == SynSent && !Ignored(l, x)
    ensures var m := Apply(l, x);
      || (m.conn.status == Closed && WindowEmpty(m.sched.segs))
      || (m.conn.status == SynSent && Settled(m) == Apply(Settled(l), x))
  {
    hide Track, Ack, Tick, BytesInFlight;
  }

  lemma {:induction false} WithinKeepsLife(l: Link, ord: seq<nat>, x: Event) returns (ord': seq<nat>)
    requires Life(l, ord) && AllowedLife(l, Within(x)) && !Ignored(l, x)
    ensures Life(Apply(l, x), ord')
  {
    hide Tiled, Apply, Allowed;
    var m := Apply(l, x);
    if l.conn.status == SynSent {
      SynSentStep(l, x);
      if m.conn.status == Closed {
        ord' := [];
        EmptyTiled(Settled(m));
      } else {
        OnlyAcksMatter(l, x);
        ord' := EventKeepsTiling(Settled(l), ord, x);
      }
    } else {
      assert Settled(l) == l;
      ord' := EventKeepsTiling(l, ord, x);
      EventKeepsFlight(l, ord, x);
      NotBackToSyn(l, x);
      assert Settled(m) == m;
    }
  }

  lemma {:induction false} OnlyAcksMatter(l: Link, x: Event)
    requires l.conn.status == SynSent && !Ignored(l, x)
    ensures Allowed(Settled(l), x)
  {
  }

  lemma {:induction false} NotBackToSyn(l: Link, x: Event)
    requires l.conn.status != SynSent
    ensures Apply(l, x).conn.status != SynSent
  {
    hide Track, Ack, Tick, BytesInFlight, GivesUp;
  }

  lemma {:induction false} StepKeepsLife(l: Link, ord: seq<nat>, e: LifeEvent) returns (ord': seq<nat>)
    requires Life(l, ord) && AllowedLife(l, e)
    ensures Life(ApplyLife(l, e), ord')
  {
    hide Tiled, Apply, Allowed, Track;
    ord' := ord;
    match e
    case Within(x) => if !Ignored(l, x) { ord' := WithinKeepsLife(l, ord, x); }
    case Accept(p, o, sent, now) =>
      if l.conn.status == Closed { ord' := OpeningTiled(l, OnSyn(l.conn, p, o), sent, now); }
    case Connect(o, sent, now) =>
      if l.conn.status == Closed { ord' := OpeningTiled(l, InitiateConnect(l.conn, o), sent, now); }
    case SynAcked(p, ack) => ord' := SynAckKeepsLife(l, ord, p, ack);
  }

  lemma {:induction false} SynAckKeepsLife(l: Link, ord: seq<nat>, peerIsn: u32, ack: u32) returns (ord': seq<nat>)
    requires Life(l, ord)
    ensures Life(ApplyLife(l, SynAcked(peerIsn, ack)), ord')
  {
    hide Tiled;
    var m := ApplyLife(l, SynAcked(peerIsn, ack));
    ord' := CancelTiled(Settled(l), ord, false, Settled(m).conn);
  }

  /** Over every run of connections on one slot, opened by either side, where those that we close
      first have a safe FIN: the segments in use tile from `una` to the next number to be sent,
      and a slot that is closed has an empty window, so the next connection inherits nothing. */
  lemma {:induction false} LivesIsolated(l: Link, ord: seq<nat>, es: seq<LifeEvent>) returns (ord': seq<nat>)
    requires Life(l, ord) && AllowedLives(l, es)
    ensures Tiled(Settled(RunLife(l, es)), ord')
    ensures var e := RunLife(l, es); e.conn.status == Closed ==> WindowEmpty(e.sched.segs)
    decreases |es|
  {
    hide Tiled, ApplyLife, AllowedLife;
    if es == [] {
      ord' := ord;
    } else {
      var o := StepKeepsLife(l, ord, es[0]);
      ord' := LivesIsolated(ApplyLife(l, es[0]), o, es[1..]);
    }
  }

  // ----- exactly when

  /** A connection with nothing in flight closes; however it goes on, the slot is only let go of
      with an empty window. */
  ghost predicate AlwaysReleasedEmpty(fin: u32) {
    forall l: Link, now: u32, es: seq<Event> ::
      ClosingNow(l, fin) && AllowedRun(Apply(l, Close(true, now)), es) ==>
        ReleasedEmpty(Run(Apply(l, Close(true, now)), es))
  }

  predicate ClosingNow(l: Link, fin: u32) {
    l.conn.status == Established && l.conn.sendSeq == fin && WindowEmpty(l.sched.segs)
  }

  predicate ReleasedEmpty(l: Link) { l.conn.status == Closed ==> WindowEmpty(l.sched.segs) }

  function Lives(es: seq<Event>): seq<LifeEvent> { if es == [] then [] else [Within(es[0])] + Lives(es[1..]) }

  /** Past the close there is no second one. */
  predicate PastClose(s: Status) { FinOut(s) || s == FinWait2 || s == TimeWait || s == Closed }

  lemma {:induction false} StaysPastClose(l: Link, e: Event)
    requires PastClose(l.conn.status)
    ensures PastClose(Apply(l, e).conn.status)
  {
    hide Track, Ack, Tick, BytesInFlight, GivesUp;
  }

  lemma {:induction false} OneLife(l: Link, es: seq<Event>)
    requires PastClose(l.conn.status) && AllowedRun(l, es)
    ensures AllowedLives(l, Lives(es)) && RunLife(l, Lives(es)) == Run(l, es)
    decreases |es|
  {
    hide Apply, Allowed, BytesInFlight;
    if es != [] {
      StaysPastClose(l, es[0]);
      OneLife(Apply(l, es[0]), es[1..]);
      assert Lives(es)[1..] == Lives(es[1..]);
    }
  }

  lemma {:induction false} SafeIsEnough(l: Link, fin: u32, now: u32, es: seq<Event>)
    requires SafeFin(fin) && ClosingNow(l, fin) && AllowedRun(Apply(l, Close(true, now)), es)
    ensures ReleasedEmpty(Run(Apply(l, Close(true, now)), es))
  {
    var m := Apply(l, Close(true, now));
    EmptyTiled(l);
    EmptyBytes(l.sched.segs);
    var ord := StepKeepsLife(l, [], Within(Close(true, now)));
    hide Apply, Life;
    OneLife(m, es);
    var o := LivesIsolated(m, ord, Lives(es));
  }

  lemma {:induction false} EmptyBytes(segs: Segs)
    requires WindowEmpty(segs)
    ensures BytesInFlight(segs) == 0
  {
    TotalEmpty(segs, 0);
  }

  const LAST := 0xFFFF_FFFF

  /** The counterexample for every other FIN: the highest ack passes the unsigned test without
      covering the FIN, the peer's FIN and the end of TIME_WAIT follow, and the next connection
      starts with the old FIN in its window. */
  lemma {:induction false} FinInherited(fin: u32)
    requires !SafeFin(fin)
    ensures var l := Link(ZERO, Conn(Established, 0, 0, 0, 0, 0, fin));
      var es := [AckInOrder(LAST, 0), PeerFin(0), TimeWaitTick(TIME_WAIT_TICKS)];
      var m := Apply(l, Close(true, 0));
      var r := Run(m, es);
      && ClosingNow(l, fin) && AllowedRun(m, es)
      && r.conn.status == Closed && r.sched.segs[0].inUse
      && var n := ApplyLife(r, Accept(0, 0, true, 0));
         n.conn.status == SynReceived && n.sched.segs[0].inUse && n.sched.segs[0].seqNo == fin
  {
    var l := Link(ZERO, Conn(Established, 0, 0, 0, 0, 0, fin));
    var m := Apply(l, Close(true, 0));
    FinTracked(fin);
    FinMissed(m, fin);
    RunThree(m, AckInOrder(LAST, 0), PeerFin(0), TimeWaitTick(TIME_WAIT_TICKS));
    hide Run, AllowedRun, Track, Ack, BytesInFlight;
    var a := Apply(m, AckInOrder(LAST, 0));
    var b := Apply(a, PeerFin(0));
    assert b.conn.status == TimeWait && b.conn.timeWaitStarted == 0 && b.sched == a.sched;
    TrackBehind(b.sched, 0, 0, 0);
  }

  /** Tracking leaves the segments in use alone. */
  lemma {:induction false} TrackBehind(c: Sched, seqNo: u32, now: u32, i: nat)
    requires i < WINDOW && c.segs[i].inUse
    ensures Track(c, seqNo, 1, 54, now).segs[i] == c.segs[i]
  {
  }

  lemma {:induction false} RunThree(l: Link, a: Event, b: Event, c: Event)
    requires Allowed(l, a) && b.PeerFin? && c.TimeWaitTick?
    ensures AllowedRun(l, [a, b, c]) && Run(l, [a, b, c]) == Apply(Apply(Apply(l, a), b), c)
  {
    hide Apply;
    assert [a, b, c][1..] == [b, c] && [b, c][1..] == [c] && [c][1..] == [];
    var m := Apply(l, a);
    var n := Apply(m, b);
    assert AllowedRun(n, [c]) && Run(n, [c]) == Apply(n, c);
    assert AllowedRun(m, [b, c]) && Run(m, [b, c]) == Run(n, [c]);
  }

  lemma {:induction false} FinTracked(fin: u32)
    ensures var m := Apply(Link(ZERO, Conn(Established, 0, 0, 0, 0, 0, fin)), Close(true, 0));
      && m.conn.status == FinWait1 && m.conn.finSeq == fin && m.conn.sendSeq == Wrap32(fin + 1)
      && m.sched.segs[0] == Seg(true, fin, 1, 0, false) && Oldest(m.sched.segs) == 0
      && forall i :: 1 <= i < WINDOW ==> !m.sched.segs[i].inUse
  {
    EmptyBytes(ZERO.segs);
  }

  lemma {:induction false} FinMissed(m: Link, fin: u32)
    requires !SafeFin(fin) && m.conn.status == FinWait1 && m.conn.finSeq == fin && m.conn.sendSeq == Wrap32(fin + 1)
    requires m.sched.segs[0] == Seg(true, fin, 1, 0, false) && Oldest(m.sched.segs) == 0
    requires forall i :: 1 <= i < WINDOW ==> !m.sched.segs[i].inUse
    ensures Allowed(m, AckInOrder(LAST, 0))
    ensures var a := Apply(m, AckInOrder(LAST, 0)); a.conn.status == FinWait2 && a.sched.segs == m.sched.segs
  {
    assert !Covered(m.sched.segs[0], LAST);
    assert !Frees(m.sched.segs, LAST);
  }

  /** The window is empty at every release, however the connection goes, exactly for safe FINs. */
  lemma {:induction false} ReleaseExact(fin: u32)
    ensures AlwaysReleasedEmpty(fin) <==> SafeFin(fin)
  {
    if SafeFin(fin) {
      forall l: Link, now: u32, es: seq<Event> | ClosingNow(l, fin) && AllowedRun(Apply(l, Close(true, now)), es)
        ensures ReleasedEmpty(Run(Apply(l, Close(true, now)), es))
      {
        SafeIsEnough(l, fin, now, es);
      }
    } else {
      hide Run, AllowedRun, Apply;
      FinInherited(fin);
      var l := Link(ZERO, Conn(Established, 0, 0, 0, 0, 0, fin));
      var es := [AckInOrder(LAST, 0), PeerFin(0), TimeWaitTick(TIME_WAIT_TICKS)];
      assert !ReleasedEmpty(Run(Apply(l, Close(true, 0)), es));
    }
  }
}
