/** What scheduler.c keeps in its fields against books kept from the calls alone: when each
    segment was handed over and last timed, what has expired, repeated or been sampled since.
    Over every run the two agree, so the timer, the fast retransmit and the round-trip samples
    happen exactly when the books say (sections 2, 3 and 5 of RFC 6298, section 3.2 of RFC 5681). */
module TimerBooks {
  import opened Words
  import opened SchedulerModel
  import Timer = RetransmitTimer

  type Times = t: seq<u32> | |t| == WINDOW witness [0, 0, 0, 0]

  /** Per slot, when its segment was handed over (`tracked`), when it last was handed over or
      resent by the timer (`timed`), and whether an expiry found it outstanding (`late`).
      `fires` counts expiries since the last newly acknowledged segment, or since the window was
      last empty; `anchor` is the timeout of the last sample, or the initial one, and `since`
      counts the expiries after it; `prev` is the last ack looked at, repeated `repeats` times. */
  datatype Book = Book(
    sched: Sched, tracked: Times, timed: Times, late: set<nat>, fires: nat,
    anchor: u32, since: nat, prev: u32, repeats: nat)

  const BLANK := Book(ZERO, [0, 0, 0, 0], [0, 0, 0, 0], {}, 0, 0, 0, 0, 0)

  function First(b: Book): (o: nat)
    ensures o <= WINDOW && (o < WINDOW ==> b.sched.segs[o].inUse)
  {
    Oldest(b.sched.segs)
  }

  /** The oldest segment has waited for the doubled timeout since it was last timed. */
  predicate Due(b: Book, now: u32) {
    First(b) < WINDOW && Wrap32(now - b.timed[First(b)]) >= Timer.Backed(b.anchor, b.since)
  }

  /** An ack that frees nothing and repeats the one before for the third, sixth, ... time. */
  predicate Third(b: Book, ack: u32) {
    First(b) < WINDOW && !Frees(b.sched.segs, ack) && ack == b.prev && (b.repeats + 1) % 3 == 0
  }

  /** Slot `i` can time the ack: it is acknowledged now and no expiry found it outstanding. */
  predicate Timeable(b: Book, ack: u32, i: nat) { i < WINDOW && Covered(b.sched.segs[i], ack) && i !in b.late }

  ghost predicate Timed(b: Book, ack: u32) { exists i :: Timeable(b, ack, i) }

  ghost function Apply(b: Book, e: Timer.Event): Book {
    var c := b.sched;
    match e
    case Tracked(seqNo, seqLen, frameLen, now) => TrackBook(b, seqNo, seqLen, frameLen, now)
    case Acked(ack, now) =>
      var b' := b.(sched := Ack(c, ack, now));
      if First(b) == WINDOW then b'
      else if Frees(c.segs, ack) then
        var b1 := b'.(fires := 0, prev := ack, repeats := 0);
        if Timed(b, ack) then b1.(anchor := b'.sched.rto, since := 0) else b1
      else if ack == b.prev then b'.(repeats := b.repeats + 1)
      else b'.(prev := ack, repeats := 0)
    case Ticked(now) =>
      var b' := b.(sched := Tick(c, now));
      if Due(b, now) && b.fires < 8
      then b'.(timed := b.timed[First(b) := now], late := Timer.InUse(c.segs),
               fires := b.fires + 1, since := b.since + 1)
      else b'
    case Cancelled => b.(sched := Cancel(c), late := {}, fires := 0, anchor := 0, since := 0, repeats := 0)
  }

  function TrackBook(b: Book, seqNo: u32, seqLen: u16, frameLen: nat, now: u32): Book {
    var i := Timer.TrackedAt(b.sched, frameLen);
    var b' := b.(sched := Track(b.sched, seqNo, seqLen, frameLen, now));
    if i >= WINDOW then b'
    else
      var b1 := b'.(tracked := b.tracked[i := now], timed := b.timed[i := now], late := b.late - {i},
                    anchor := if b.anchor == 0 then 100 else b.anchor);
      if First(b) == WINDOW then b1.(fires := 0, repeats := 0) else b1
  }

  ghost function Run(b: Book, es: seq<Timer.Event>): Book
    decreases |es|
  {
    if es == [] then b else Run(Apply(b, es[0]), es[1..])
  }

  // ----- agreement

  predicate SlotAgrees(b: Book, i: nat)
    requires i < WINDOW
  {
    var e := b.sched.segs[i];
    e.inUse ==>
      e.start == b.timed[i] && (e.retransmitted <==> i in b.late) && (i !in b.late ==> b.timed[i] == b.tracked[i])
  }

  predicate CountsAgree(b: Book) {
    && b.sched.lastAck == b.prev
    && (First(b) < WINDOW ==>
          b.sched.retries == b.fires <= 8 && b.sched.dupAcks == b.repeats % 3)
  }

  predicate TimeoutAgrees(b: Book) {
    && b.sched.rto == Timer.Backed(b.anchor, b.since)
    && ((b.anchor == 0 && b.since == 0) || MIN_RTO <= b.anchor <= MAX_RTO)
    && (First(b) < WINDOW ==> b.anchor != 0)
  }

  predicate PhaseAgrees(b: Book) { b.sched.phase == Retry <==> First(b) < WINDOW }

  predicate SlotsAgree(b: Book) { forall i :: 0 <= i < WINDOW ==> SlotAgrees(b, i) }

  predicate Agrees(b: Book) { PhaseAgrees(b) && SlotsAgree(b) && CountsAgree(b) && TimeoutAgrees(b) }

  lemma {:induction false} BackedRange(anchor: u32, k: nat)
    requires MIN_RTO <= anchor <= MAX_RTO
    ensures MIN_RTO <= Timer.Backed(anchor, k) <= MAX_RTO && Timer.Backed(anchor, 0) == anchor
  {
    assert anchor <= anchor * Pow2(k);
  }

  lemma {:induction false} BackedZero(k: nat)
    ensures Timer.Backed(0, k) == 0
  {
  }

  lemma {:induction false} TrackAgrees(b: Book, seqNo: u32, seqLen: u16, frameLen: nat, now: u32)
    requires Agrees(b)
    ensures Agrees(TrackBook(b, seqNo, seqLen, frameLen, now))
  {
    var i := Timer.TrackedAt(b.sched, frameLen);
    if i < WINDOW {
      Timer.OldestExists(Track(b.sched, seqNo, seqLen, frameLen, now).segs, i);
      if b.anchor == 0 {
        BackedRange(INITIAL_RTO, 0);
        BackedZero(0);
      } else {
        BackedRange(b.anchor, b.since);
      }
    }
    hide SeqBefore, Oldest, Timer.Backed;
    var b' := TrackBook(b, seqNo, seqLen, frameLen, now);
    assert SlotsAgree(b') by {
      forall j | 0 <= j < WINDOW ensures SlotAgrees(b', j) { assert SlotAgrees(b, j); }
    }
  }

  /** The slot the ack loop samples is the first one the books allow. */
  lemma {:induction false} SampleAgrees(b: Book, ack: u32)
    requires SlotsAgree(b)
    ensures var i := SampleFrom(b.sched.segs, ack, 0);
      (i < WINDOW <==> Timed(b, ack)) && (i < WINDOW ==> Timeable(b, ack, i))
      && forall j: nat :: j < i ==> !Timeable(b, ack, j)
  {
    hide SeqBefore, Oldest;
    var segs := b.sched.segs;
    var i := SampleFrom(segs, ack, 0);
    forall j | 0 <= j < WINDOW ensures Timeable(b, ack, j) <==> Covered(segs[j], ack) && !segs[j].retransmitted {
      assert SlotAgrees(b, j);
    }
    if i < WINDOW { assert Timeable(b, ack, i); }
  }

  /** What an ack leaves of the window. */
  lemma {:induction false} AckWindow(c: Sched, ack: u32, now: u32)
    ensures var c' := Ack(c, ack, now);
      && (forall i :: 0 <= i < WINDOW ==> c'.segs[i] == c.segs[i] || c'.segs[i] == c.segs[i].(inUse := false))
      && (c.phase == Retry && Oldest(c.segs) < WINDOW ==> (c'.phase == Retry <==> Oldest(c'.segs) < WINDOW))
      && (c.phase != Retry ==> c' == c)
      && (!Frees(c.segs, ack) ==>
            c'.segs == c.segs && c'.rto == c.rto && c'.phase == c.phase && c'.retries == c.retries)
  {
    hide SeqBefore, OldestFrom, Covered, NewSrtt, NewRttvar, Clamp, Wrap32;
  }

  lemma {:induction false} AckSlots(b: Book, ack: u32, now: u32)
    requires SlotsAgree(b) && PhaseAgrees(b)
    ensures SlotsAgree(Apply(b, Timer.Acked(ack, now))) && PhaseAgrees(Apply(b, Timer.Acked(ack, now)))
  {
    AckWindow(b.sched, ack, now);
    hide Oldest, Ack, Timed;
    var b' := Apply(b, Timer.Acked(ack, now));
    forall j | 0 <= j < WINDOW ensures SlotAgrees(b', j) { assert SlotAgrees(b, j); }
  }

  lemma {:induction false} AckTimeout(b: Book, ack: u32, now: u32)
    requires Agrees(b)
    ensures TimeoutAgrees(Apply(b, Timer.Acked(ack, now)))
  {
    AckWindow(b.sched, ack, now);
    SampleAgrees(b, ack);
    hide SeqBefore, Oldest, Covered, Timed, Timer.Backed, NewSrtt, NewRttvar, Wrap32, SlotsAgree;
    var c := b.sched;
    if First(b) < WINDOW && Frees(c.segs, ack) && Timed(b, ack) {
      assert MIN_RTO <= Ack(c, ack, now).rto <= MAX_RTO;
      BackedRange(Ack(c, ack, now).rto, 0);
    }
  }

  lemma {:induction false} AckCounts(b: Book, ack: u32, now: u32)
    requires PhaseAgrees(b) && CountsAgree(b)
    ensures CountsAgree(Apply(b, Timer.Acked(ack, now)))
  {
    AckWindow(b.sched, ack, now);
    hide SeqBefore, OldestFrom, Covered, Timed, Estimate;
  }

  lemma {:induction false} AckAgrees(b: Book, ack: u32, now: u32)
    requires Agrees(b)
    ensures Agrees(Apply(b, Timer.Acked(ack, now)))
  {
    AckSlots(b, ack, now);
    AckTimeout(b, ack, now);
    AckCounts(b, ack, now);
    hide Apply, PhaseAgrees, SlotsAgree, TimeoutAgrees, CountsAgree;
  }

  lemma {:induction false} DueIsExpiry(b: Book, now: u32)
    requires Agrees(b)
    ensures Due(b, now) <==> Expires(b.sched, now)
    ensures Due(b, now) && b.fires == 8 <==> GivesUp(b.sched, now)
  {
    hide SeqBefore, OldestFrom, Timer.Backed;
    if First(b) < WINDOW { assert SlotAgrees(b, First(b)); }
  }

  lemma {:induction false} DoubledRto(b: Book)
    requires TimeoutAgrees(b) && b.anchor != 0
    ensures var rto := b.sched.rto;
      (if Wrap32(rto * 2) > MAX_RTO then MAX_RTO else Wrap32(rto * 2)) == Timer.Backed(b.anchor, b.since + 1)
  {
    BackedRange(b.anchor, b.since);
    Timer.BackedStep(b.anchor, b.since);
  }

  lemma {:induction false} TickAgrees(b: Book, now: u32)
    requires Agrees(b)
    ensures Agrees(Apply(b, Timer.Ticked(now)))
  {
    DueIsExpiry(b, now);
    var c, c', b' := b.sched, Tick(b.sched, now), Apply(b, Timer.Ticked(now));
    var o := First(b);
    if Due(b, now) && b.fires < 8 {
      DoubledRto(b);
      Timer.OldestExists(c'.segs, o);
      hide SeqBefore, Oldest, Timer.Backed;
      forall j | 0 <= j < WINDOW ensures SlotAgrees(b', j) { assert SlotAgrees(b, j); }
    } else {
      if Due(b, now) { assert forall j :: 0 <= j < WINDOW ==> !c'.segs[j].inUse; }
      hide SeqBefore, OldestFrom, Timer.Backed;
      forall j | 0 <= j < WINDOW ensures SlotAgrees(b', j) { assert SlotAgrees(b, j); }
    }
  }

  lemma {:induction false} CancelAgrees(b: Book)
    requires Agrees(b)
    ensures Agrees(Apply(b, Timer.Cancelled))
  {
    hide SeqBefore;
    var c' := Cancel(b.sched);
    assert forall j :: 0 <= j < WINDOW ==> !c'.segs[j].inUse;
    BackedZero(0);
  }

  lemma {:induction false} RunAgrees(b: Book, es: seq<Timer.Event>)
    requires Agrees(b)
    ensures Agrees(Run(b, es))
    decreases |es|
  {
    hide Agrees, TrackBook;
    if es != [] {
      match es[0] {
        case Tracked(seqNo, seqLen, frameLen, now) => TrackAgrees(b, seqNo, seqLen, frameLen, now);
        case Acked(ack, now) => AckAgrees(b, ack, now);
        case Ticked(now) => TickAgrees(b, now);
        case Cancelled => CancelAgrees(b);
      }
      RunAgrees(Apply(b, es[0]), es[1..]);
    }
  }

  lemma {:induction false} BlankAgrees()
    ensures Agrees(BLANK)
  {
    BackedZero(0);
    assert forall i :: 0 <= i < WINDOW ==> SlotAgrees(BLANK, i);
  }

  // ----- what follows, over every run from boot

  /** What a resending tick does to the window. */
  predicate Restarted(b: Book, c': Sched, now: u32) {
    forall i :: 0 <= i < WINDOW ==>
      var e, e' := b.sched.segs[i], c'.segs[i];
      && e'.inUse == e.inUse && e'.seqNo == e.seqNo && e'.seqLen == e.seqLen
      && (e.inUse ==> e'.start == if i == First(b) then now else b.timed[i])
  }

  lemma {:induction false} TickActs(b: Book, now: u32)
    requires Agrees(b)
    ensures var c, c' := b.sched, Tick(b.sched, now);
      && TimerResent(c, now) == (if Due(b, now) && b.fires < 8 then First(b) else WINDOW)
      && (!Due(b, now) ==> c' == c)
      && (Due(b, now) && b.fires < 8 ==> Restarted(b, c', now))
      && (Due(b, now) && b.fires >= 8 ==>
            GivesUp(c, now) && forall i :: 0 <= i < WINDOW ==> !c'.segs[i].inUse)
  {
    DueIsExpiry(b, now);
    hide SeqBefore, OldestFrom, Due;
    if Due(b, now) && b.fires < 8 { TickRestarts(b, now); }
  }

  lemma {:induction false} TickRestarts(b: Book, now: u32)
    requires Agrees(b) && Expires(b.sched, now) && !GivesUp(b.sched, now)
    ensures Restarted(b, Tick(b.sched, now), now)
  {
    hide SeqBefore, OldestFrom, TimeoutAgrees, CountsAgree;
    var c, c', o := b.sched, Tick(b.sched, now), First(b);
    forall i | 0 <= i < WINDOW
      ensures c'.segs[i] == c.segs[i].(retransmitted := true, start := if i == o then now else c.segs[i].start)
      ensures c.segs[i].inUse ==> c.segs[i].start == b.timed[i]
    {
      assert SlotAgrees(b, i);
      assert AllRetransmitted(c.segs)[i] == c.segs[i].(retransmitted := true);
    }
  }

  /** The timer: a tick acts exactly when the oldest segment has waited for the doubled timeout
      since it was handed over or last timed out.  It then resends that segment and starts its
      timer again, and no other, as long as fewer than eight expiries have passed without
      anything newly acknowledged; the ninth gives the window up. */
  lemma {:induction false} TimerExact(es: seq<Timer.Event>, now: u32)
    ensures var b := Run(BLANK, es);
      var c, c' := b.sched, Tick(b.sched, now);
      && TimerResent(c, now) == (if Due(b, now) && b.fires < 8 then First(b) else WINDOW)
      && (!Due(b, now) ==> c' == c)
      && (Due(b, now) && b.fires < 8 ==> Restarted(b, c', now))
      && (Due(b, now) && b.fires >= 8 ==>
            GivesUp(c, now) && forall i :: 0 <= i < WINDOW ==> !c'.segs[i].inUse)
  {
    BlankAgrees();
    RunAgrees(BLANK, es);
    TickActs(Run(BLANK, es), now);
  }

  lemma {:induction false} ThirdResends(b: Book, ack: u32)
    requires PhaseAgrees(b) && CountsAgree(b)
    ensures FastResent(b.sched, ack) == if Third(b, ack) then First(b) else WINDOW
  {
    hide SeqBefore, OldestFrom, Frees;
  }

  /** Fast retransmit: an ack resends the oldest segment exactly when it frees nothing and is
      the third, sixth, ... repetition of the ack before. */
  lemma {:induction false} FastExact(es: seq<Timer.Event>, ack: u32)
    ensures var b := Run(BLANK, es);
      FastResent(b.sched, ack) == if Third(b, ack) then First(b) else WINDOW
  {
    BlankAgrees();
    RunAgrees(BLANK, es);
    ThirdResends(Run(BLANK, es), ack);
  }

  /** `y` is the mean of `was` and `x` with weights `n - 1` and 1, to within one. */
  predicate Smooths(y: int, was: int, x: int, n: int) { -n < n * y - ((n - 1) * was + x) < n }

  function Gap(a: int, b: int): nat { if a > b then a - b else b - a }

  /** RFC 6298 to within the rounding of its shifts: the first sample starts the estimator,
      a later one moves SRTT by an eighth and RTTVAR by a quarter towards it. */
  predicate Estimates(c: Sched, c': Sched, x: u32) {
    && (c.srtt == 0 ==> c'.srtt == x && c'.rttvar == x / 2)
    && (c.srtt != 0 ==> Smooths(c'.srtt, c.srtt, x, 8) && Smooths(c'.rttvar, c.rttvar, Gap(c.srtt, x), 4))
    && c'.rto == Clamp(Wrap32(c'.srtt + 4 * c'.rttvar))
  }

  lemma {:induction false} EstimateExact(c: Sched, x: u32)
    ensures Estimates(c, Estimate(c, x), x)
  {
    var d := Gap(c.srtt, x);
    assert 0 <= c.srtt - c.srtt / 8 + x / 8 < 0x1_0000_0000;
    assert 0 <= c.rttvar - c.rttvar / 4 + d / 4 < 0x1_0000_0000;
  }

  /** The first slot that can time the ack does, from when its segment was handed over. */
  ghost predicate Sampled(b: Book, ack: u32, c': Sched, now: u32) {
    exists i: nat :: Timeable(b, ack, i) && (forall j: nat :: j < i ==> !Timeable(b, ack, j))
      && Estimates(b.sched, c', Wrap32(now - b.tracked[i]))
  }

  lemma {:induction false} UntimedAck(c: Sched, ack: u32, now: u32)
    requires SampleFrom(c.segs, ack, 0) == WINDOW
    ensures var c' := Ack(c, ack, now); c'.srtt == c.srtt && c'.rttvar == c.rttvar && c'.rto == c.rto
  {
    hide SeqBefore, OldestFrom, Covered, Estimate;
  }

  lemma {:induction false} TimedAck(c: Sched, ack: u32, now: u32, i: nat)
    requires c.phase == Retry && i == SampleFrom(c.segs, ack, 0) < WINDOW
    ensures Estimates(c, Ack(c, ack, now), Wrap32(now - c.segs[i].start))
  {
    hide SeqBefore, OldestFrom, Covered, Estimates, Estimate;
    var x := Wrap32(now - c.segs[i].start);
    EstimateExact(c, x);
    SameEstimates(c, Estimate(c, x), Ack(c, ack, now), x);
  }

  lemma {:induction false} SampleStart(b: Book, ack: u32, i: nat)
    requires PhaseAgrees(b) && SlotsAgree(b) && Timeable(b, ack, i)
    ensures b.sched.phase == Retry && b.sched.segs[i].start == b.tracked[i]
  {
    hide SeqBefore, OldestFrom;
    assert SlotAgrees(b, i);
    Timer.OldestExists(b.sched.segs, i);
  }

  lemma {:induction false} AckSamples(b: Book, ack: u32, now: u32)
    requires PhaseAgrees(b) && SlotsAgree(b)
    ensures var c, c' := b.sched, Ack(b.sched, ack, now);
      && (!Timed(b, ack) ==> c'.srtt == c.srtt && c'.rttvar == c.rttvar && c'.rto == c.rto)
      && (Timed(b, ack) ==> Sampled(b, ack, c', now))
  {
    hide SeqBefore, Oldest, Estimates, Ack, Timed, Covered, SampleFrom, SlotsAgree, SlotAgrees, Timeable;
    SampleAgrees(b, ack);
    var c, i := b.sched, SampleFrom(b.sched.segs, ack, 0);
    if i == WINDOW {
      UntimedAck(c, ack, now);
    } else {
      SampleStart(b, ack, i);
      TimedAck(c, ack, now, i);
    }
  }

  /** Round-trip samples: an ack changes the estimate exactly when it newly acknowledges a
      segment that no expiry found outstanding.  The sample is then the time since the first
      such slot's segment was handed over. */
  lemma {:induction false} SampleExact(es: seq<Timer.Event>, ack: u32, now: u32)
    ensures var b := Run(BLANK, es);
      var c, c' := b.sched, Ack(b.sched, ack, now);
      && (!Timed(b, ack) ==> c'.srtt == c.srtt && c'.rttvar == c.rttvar && c'.rto == c.rto)
      && (Timed(b, ack) ==> Sampled(b, ack, c', now))
  {
    BlankAgrees();
    RunAgrees(BLANK, es);
    AckSamples(Run(BLANK, es), ack, now);
  }

  lemma {:induction false} SameEstimates(c: Sched, a: Sched, b: Sched, x: u32)
    requires Estimates(c, a, x) && a.srtt == b.srtt && a.rttvar == b.rttvar && a.rto == b.rto
    ensures Estimates(c, b, x)
  {
  }
}
