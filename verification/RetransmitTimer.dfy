/** The retransmission timer over whole runs: estimator bounds, Karn's rule for timer
    expiries, exponential backoff and the give-up rule (sections 2, 3 and 5 of RFC 6298). */
module RetransmitTimer {
  import opened Words
  import opened Rapport
  import opened SchedulerModel
  import opened SendWindow

  datatype Event =
    | Tracked(seqNo: u32, seqLen: u16, frameLen: nat, now: u32)
    | Acked(ack: u32, now: u32)
    | Ticked(now: u32)
    | Cancelled

  /** The window, the samples taken since the last cancel, and three sets of slots, each as of
      the segment last tracked there: `marked` was outstanding at a timer expiry, `fast` was
      resent on a third duplicate ack, `resent` was sent again at all. */
  datatype Timed = Timed(sched: Sched, samples: seq<u32>, marked: set<nat>, fast: set<nat>, resent: set<nat>)

  /** A window as at boot. */
  const START := Timed(ZERO, [], {}, {}, {})

  predicate Samples(c: Sched, ack: u32) {
    c.phase == Retry && Frees(c.segs, ack) && SampleFrom(c.segs, ack, 0) < WINDOW
  }

  function InUse(segs: Segs): set<nat> { set i: nat | 0 <= i < WINDOW && segs[i].inUse }

  /** The slot a tracked segment goes to, or WINDOW. */
  function TrackedAt(c: Sched, frameLen: nat): nat {
    if frameLen == 0 || frameLen > MAX_FRAME then WINDOW else FreeFrom(c.segs, 0)
  }

  function Apply(t: Timed, e: Event): Timed {
    var c := t.sched;
    match e
    case Tracked(seqNo, seqLen, frameLen, now) =>
      var i := TrackedAt(c, frameLen);
      Timed(Track(c, seqNo, seqLen, frameLen, now), t.samples, t.marked - {i}, t.fast - {i}, t.resent - {i})
    case Acked(ack, now) =>
      var i := FastResent(c, ack);
      Timed(Ack(c, ack, now),
            if Samples(c, ack) then t.samples + [Wrap32(now - c.segs[SampleFrom(c.segs, ack, 0)].start)] else t.samples,
            t.marked,
            if i < WINDOW then t.fast + {i} else t.fast,
            if i < WINDOW then t.resent + {i} else t.resent)
    case Ticked(now) =>
      var i := TimerResent(c, now);
      t.(sched := Tick(c, now),
         marked := if i < WINDOW then InUse(c.segs) else t.marked,
         resent := if i < WINDOW then t.resent + {i} else t.resent)
    case Cancelled => Timed(Cancel(c), [], {}, {}, {})
  }

  function Run(t: Timed, es: seq<Event>): Timed
    decreases |es|
  {
    if es == [] then t else Run(Apply(t, es[0]), es[1..])
  }

  // ----- estimator

  predicate Between(x: int, samples: seq<u32>) {
    (exists i :: 0 <= i < |samples| && samples[i] <= x) && (exists j :: 0 <= j < |samples| && x <= samples[j])
  }

  predicate Below(x: int, samples: seq<u32>) { exists j :: 0 <= j < |samples| && x <= samples[j] }

  /** SRTT lies between the smallest and the largest sample, RTTVAR below the largest. */
  predicate EstimatorOk(t: Timed) {
    if t.samples == [] then t.sched.srtt == 0 && t.sched.rttvar == 0
    else Between(t.sched.srtt, t.samples) && Below(t.sched.rttvar, t.samples)
  }

  lemma {:induction false} SmoothedBetween(s: u32, x: u32)
    ensures var n := s - s / 8 + x / 8; (s <= n <= x) || (x <= n <= s)
  {
  }

  lemma {:induction false} VarianceBelow(v: u32, d: u32, m: int)
    requires v <= m && d <= m
    ensures 0 <= v - v / 4 + d / 4 <= m
  {
  }

  lemma {:induction false} Larger(samples: seq<u32>, a: int, b: int) returns (m: u32)
    requires Below(a, samples) && Below(b, samples)
    ensures m in samples && a <= m && b <= m
  {
    var i :| 0 <= i < |samples| && a <= samples[i];
    var j :| 0 <= j < |samples| && b <= samples[j];
    m := if samples[i] <= samples[j] then samples[j] else samples[i];
  }

  lemma {:induction false} BetweenMore(samples: seq<u32>, x: u32, a: int)
    requires Between(a, samples)
    ensures Between(a, samples + [x]) && Below(a, samples + [x]) && Between(x, samples + [x])
  {
    var more := samples + [x];
    var i :| 0 <= i < |samples| && samples[i] <= a;
    var j :| 0 <= j < |samples| && a <= samples[j];
    assert more[i] <= a && a <= more[j] && more[|samples|] == x;
  }

  lemma {:induction false} BetweenEnds(samples: seq<u32>, a: int, b: int, n: int)
    requires Between(a, samples) && Between(b, samples) && (a <= n <= b || b <= n <= a)
    ensures Between(n, samples)
  {
    var i :| 0 <= i < |samples| && samples[i] <= a;
    var j :| 0 <= j < |samples| && a <= samples[j];
    var k :| 0 <= k < |samples| && samples[k] <= b;
    var l :| 0 <= l < |samples| && b <= samples[l];
    if a <= n <= b { assert samples[i] <= n && n <= samples[l]; } else { assert samples[k] <= n && n <= samples[j]; }
  }

  lemma {:induction false} EstimateOk(t: Timed, x: u32)
    requires EstimatorOk(t)
    ensures EstimatorOk(t.(sched := Estimate(t.sched, x), samples := t.samples + [x]))
  {
    var c, more := t.sched, t.samples + [x];
    assert more[|t.samples|] == x;
    if c.srtt == 0 {
      assert Between(x, more) && Below(x / 2, more);
    } else {
      BetweenMore(t.samples, x, c.srtt);
      SmoothedBetween(c.srtt, x);
      BetweenEnds(more, c.srtt, x, NewSrtt(c, x));
      assert Below(c.rttvar, more) by {
        var j :| 0 <= j < |t.samples| && c.rttvar <= t.samples[j];
        assert c.rttvar <= more[j];
      }
      var m := Larger(more, c.srtt, c.rttvar);
      var m' := Larger(more, m, x);
      var diff := if x > c.srtt then x - c.srtt else c.srtt - x;
      VarianceBelow(c.rttvar, diff, m');
      assert NewRttvar(c, x) == c.rttvar - c.rttvar / 4 + diff / 4;
    }
  }

  // ----- timeouts and Karn's rule

  predicate RtoOk(c: Sched) {
    && (c.rto == 0 || MIN_RTO <= c.rto <= MAX_RTO)
    && ((exists i :: 0 <= i < WINDOW && c.segs[i].inUse) ==> c.rto != 0)
  }

  predicate MarksOk(t: Timed) {
    forall i :: i in t.marked && i < WINDOW && t.sched.segs[i].inUse ==> t.sched.segs[i].retransmitted
  }

  /** What was sent again but not on duplicate acks was sent again by the timer, and is marked. */
  predicate ResentOk(t: Timed) {
    && t.fast <= t.resent
    && forall i :: i in t.resent && i !in t.fast && i < WINDOW && t.sched.segs[i].inUse ==>
      t.sched.segs[i].retransmitted
  }

  predicate SlotsOk(t: Timed) { MarksOk(t) && ResentOk(t) }

  predicate TimerOk(t: Timed) { EstimatorOk(t) && RtoOk(t.sched) && SlotsOk(t) }

  lemma {:induction false} AckOk(t: Timed, ack: u32, now: u32)
    requires TimerOk(t)
    ensures TimerOk(Apply(t, Acked(ack, now)))
  {
    hide SeqBefore, Covered, EstimatorOk, RtoOk, SlotsOk, Estimate;
    AckRto(t.sched, ack, now);
    AckMarks(t, ack, now);
    AckEstimator(t, ack, now);
  }

  lemma {:induction false} AckEstimator(t: Timed, ack: u32, now: u32)
    requires EstimatorOk(t)
    ensures EstimatorOk(Apply(t, Acked(ack, now)))
  {
    hide SeqBefore, Covered, EstimatorOk, OldestFrom, NewSrtt, NewRttvar, Clamp, Wrap32;
    var c := t.sched;
    if Samples(c, ack) {
      var x := Wrap32(now - c.segs[SampleFrom(c.segs, ack, 0)].start);
      EstimateOk(t, x);
      SameEstimate(t.(sched := Estimate(c, x), samples := t.samples + [x]), Apply(t, Acked(ack, now)));
    } else {
      SameEstimate(t, Apply(t, Acked(ack, now)));
    }
  }

  lemma {:induction false} AckRto(c: Sched, ack: u32, now: u32)
    requires RtoOk(c)
    ensures RtoOk(Ack(c, ack, now))
  {
    hide SeqBefore, Covered, NewSrtt, NewRttvar, Wrap32;
    assert forall i :: 0 <= i < WINDOW ==> (Ack(c, ack, now).segs[i].inUse ==> c.segs[i].inUse);
  }

  lemma {:induction false} AckMarks(t: Timed, ack: u32, now: u32)
    requires SlotsOk(t)
    ensures SlotsOk(Apply(t, Acked(ack, now)))
  {
    hide SeqBefore, Covered, NewSrtt, NewRttvar, Wrap32;
  }

  lemma {:induction false} SameEstimate(a: Timed, b: Timed)
    requires EstimatorOk(a) && a.samples == b.samples && a.sched.srtt == b.sched.srtt
      && a.sched.rttvar == b.sched.rttvar
    ensures EstimatorOk(b)
  {
  }

  lemma {:induction false} SlotsEvent(t: Timed, e: Event)
    requires SlotsOk(t)
    ensures SlotsOk(Apply(t, e))
  {
    hide SeqBefore;
    match e
    case Tracked(seqNo, seqLen, frameLen, now) =>
    case Acked(ack, now) => AckMarks(t, ack, now);
    case Ticked(now) =>
    case Cancelled =>
  }

  lemma {:induction false} EventOk(t: Timed, e: Event)
    requires TimerOk(t)
    ensures TimerOk(Apply(t, e))
  {
    SlotsEvent(t, e);
    hide SeqBefore, SlotsOk;
    match e
    case Tracked(seqNo, seqLen, frameLen, now) =>
      SameEstimate(t, Apply(t, e));
    case Acked(ack, now) => AckOk(t, ack, now);
    case Ticked(now) =>
      SameEstimate(t, Apply(t, e));
      if GivesUp(t.sched, now) { assert forall i :: 0 <= i < WINDOW ==> !Apply(t, e).sched.segs[i].inUse; }
    case Cancelled =>
      assert forall i :: 0 <= i < WINDOW ==> !Apply(t, e).sched.segs[i].inUse;
  }

  lemma {:induction false} RunOk(t: Timed, es: seq<Event>)
    requires TimerOk(t)
    ensures TimerOk(Run(t, es))
    decreases |es|
  {
    hide TimerOk, Apply;
    if es != [] {
      EventOk(t, es[0]);
      RunOk(Apply(t, es[0]), es[1..]);
    }
  }

  /** The estimator and the timeout over every run from an empty window. */
  lemma {:induction false} EstimatorBounds(es: seq<Event>)
    ensures var t := Run(START, es);
      && (t.samples != [] ==> Between(t.sched.srtt, t.samples) && Below(t.sched.rttvar, t.samples))
      && ((exists i :: 0 <= i < WINDOW && t.sched.segs[i].inUse) ==> MIN_RTO <= t.sched.rto <= MAX_RTO)
  {
    hide Run;
    assert TimerOk(START);
    RunOk(START, es);
  }

  /** A segment outstanding at a timer expiry never supplies a sample. */
  lemma {:induction false} ExpiredNeverSamples(es: seq<Event>, ack: u32)
    ensures var t := Run(START, es);
      Samples(t.sched, ack) ==> SampleFrom(t.sched.segs, ack, 0) !in t.marked
  {
    hide Run, SeqBefore;
    assert TimerOk(START);
    RunOk(START, es);
  }

  /** Karn's rule over every run: of the segments that supply a sample, those that were sent
      again are exactly those that were resent on duplicate acks. */
  lemma {:induction false} ResentSampleIsFast(es: seq<Event>, ack: u32)
    ensures var t := Run(START, es);
      var i := SampleFrom(t.sched.segs, ack, 0);
      Samples(t.sched, ack) ==> (i in t.resent <==> i in t.fast)
  {
    hide Run, SeqBefore;
    assert TimerOk(START);
    RunOk(START, es);
  }

  /** A segment sent twice supplies the sample: after three duplicate acks the segment in slot
      0 is resent but not marked, and the ack that covers it samples it. */
  lemma {:induction false} FastRetransmitSamples()
    ensures var t := Run(START, [Tracked(10, 5, 60, 0), Acked(10, 1), Acked(10, 1), Acked(10, 1), Acked(10, 1)]);
      0 in t.resent && Samples(t.sched, 15) && SampleFrom(t.sched.segs, 15, 0) == 0
  {
    var t1 := Apply(START, Tracked(10, 5, 60, 0));
    var seg := Seg(true, 10, 5, 0, false);
    assert t1.sched.segs[0] == seg && forall i :: 1 <= i < WINDOW ==> !t1.sched.segs[i].inUse;
    assert !Frees(t1.sched.segs, 10) && Oldest(t1.sched.segs) == 0;
    var t2 := Apply(t1, Acked(10, 1));
    var t3 := Apply(t2, Acked(10, 1));
    var t4 := Apply(t3, Acked(10, 1));
    var t5 := Apply(t4, Acked(10, 1));
    assert t5.sched.segs == t1.sched.segs && t5.resent == {0};
    assert Covered(seg, 15);
    var es := [Tracked(10, 5, 60, 0), Acked(10, 1), Acked(10, 1), Acked(10, 1), Acked(10, 1)];
    RunFive(START, es[0], es[1], es[2], es[3], es[4]);
  }

  lemma {:induction false} RunFive(t: Timed, a: Event, b: Event, c: Event, d: Event, e: Event)
    ensures Run(t, [a, b, c, d, e]) == Apply(Apply(Apply(Apply(Apply(t, a), b), c), d), e)
  {
    hide Apply;
    var t1 := Apply(t, a);
    var t2 := Apply(t1, b);
    var t3 := Apply(t2, c);
    var t4 := Apply(t3, d);
    assert [a, b, c, d, e][1..] == [b, c, d, e] && [b, c, d, e][1..] == [c, d, e];
    assert [c, d, e][1..] == [d, e] && [d, e][1..] == [e] && [e][1..] == [];
    assert Run(t4, [e]) == Apply(t4, e);
    assert Run(t2, [c, d, e]) == Run(t3, [d, e]) == Run(t4, [e]);
  }

  // ----- backoff and give-up

  /** Nothing newly acknowledged, nothing given up. */
  predicate Quiet(c: Sched, e: Event) {
    match e
    case Tracked(_, _, _, _) => true
    case Acked(ack, now) => !Frees(c.segs, ack)
    case Ticked(now) => !GivesUp(c, now)
    case Cancelled => false
  }

  predicate QuietRun(t: Timed, es: seq<Event>)
    decreases |es|
  {
    es == [] || (Quiet(t.sched, es[0]) && QuietRun(Apply(t, es[0]), es[1..]))
  }

  /** Timer expiries in a run; each resends the oldest segment once. */
  function Expiries(t: Timed, es: seq<Event>): nat
    decreases |es|
  {
    if es == [] then 0
    else (if es[0].Ticked? && Expires(t.sched, es[0].now) then 1 else 0) + Expiries(Apply(t, es[0]), es[1..])
  }

  function Backed(rto: u32, k: nat): nat { if rto * Pow2(k) > MAX_RTO then MAX_RTO else rto * Pow2(k) }

  lemma {:induction false} BackedStep(rto: u32, k: nat)
    requires rto >= 1
    ensures Backed(rto, k + 1) == if Backed(rto, k) * 2 > MAX_RTO then MAX_RTO else Backed(rto, k) * 2
  {
    var x := rto * Pow2(k);
    assert rto * Pow2(k + 1) == 2 * x;
  }

  predicate Waiting(c: Sched) {
    c.phase == Retry && Oldest(c.segs) < WINDOW && c.retries <= RETRY_LIMIT && 0 < c.rto <= MAX_RTO
  }

  lemma {:induction false} OldestExists(segs: Segs, i: nat)
    requires i < WINDOW && segs[i].inUse
    ensures Oldest(segs) < WINDOW
  {
    OldestKeepsBest(segs, 0, WINDOW, i);
  }

  lemma {:induction false} OldestKeepsBest(segs: Segs, k: nat, best: nat, i: nat)
    requires k <= WINDOW && best <= WINDOW && (best < WINDOW ==> segs[best].inUse)
    requires i < WINDOW && segs[i].inUse && (best < WINDOW || k <= i)
    ensures OldestFrom(segs, k, best) < WINDOW
    decreases WINDOW - k
  {
    hide SeqBefore;
    if k < WINDOW {
      if segs[k].inUse && (best == WINDOW || SeqBefore(segs[k].seqNo, segs[best].seqNo)) {
        OldestKeepsBest(segs, k + 1, k, i);
      } else {
        OldestKeepsBest(segs, k + 1, best, i);
      }
    }
  }

  lemma {:induction false} QuietStep(t: Timed, e: Event)
    requires Waiting(t.sched) && Quiet(t.sched, e)
    ensures var c, c' := t.sched, Apply(t, e).sched;
      var fired := e.Ticked? && Expires(c, e.now);
      && Waiting(c')
      && c'.retries == c.retries + (if fired then 1 else 0)
      && c'.rto == (if !fired then c.rto else if c.rto * 2 > MAX_RTO then MAX_RTO else c.rto * 2)
  {
    hide SeqBefore;
    var c, c' := t.sched, Apply(t, e).sched;
    var o := Oldest(c.segs);
    OldestExists(c'.segs, o);
  }

  /** After `k` expiries with nothing newly acknowledged, whatever was tracked or acked in
      between: the timeout is doubled `k` times up to its cap, and `k` is at most eight. */
  lemma {:induction false} Backoff(t: Timed, es: seq<Event>, rto0: u32, done: nat)
    requires Waiting(t.sched) && QuietRun(t, es) && rto0 >= 1
    requires t.sched.retries == done && t.sched.rto == Backed(rto0, done)
    ensures var k := done + Expiries(t, es);
      var c := Run(t, es).sched;
      k <= RETRY_LIMIT && c.retries == k && c.rto == Backed(rto0, k) && Waiting(c)
    decreases |es|
  {
    hide Apply, Waiting, Backed, Expires;
    if es == [] {
      WaitingLimit(t.sched);
    } else {
      QuietStep(t, es[0]);
      BackedStep(rto0, done);
      var fired := es[0].Ticked? && Expires(t.sched, es[0].now);
      Backoff(Apply(t, es[0]), es[1..], rto0, if fired then done + 1 else done);
    }
  }

  lemma {:induction false} WaitingLimit(c: Sched)
    requires Waiting(c)
    ensures c.retries <= RETRY_LIMIT
  {
  }

  // ----- the connection gives up at the ninth expiry

  /** Nothing newly acknowledged, and the connection not let go of by the peer. */
  predicate QuietEvent(l: Link, e: SendWindow.Event) {
    match e
    case AckInOrder(ack, now) => !Frees(l.sched.segs, ack) && !OnAck(l.conn, ack, now).release
    case AckEarly(ack, now) => !Frees(l.sched.segs, ack)
    case PeerRst => l.conn.status == Closed
    case _ => true
  }

  predicate QuietLinkRun(l: Link, es: seq<SendWindow.Event>)
    decreases |es|
  {
    es == [] || (QuietEvent(l, es[0]) && QuietLinkRun(SendWindow.Apply(l, es[0]), es[1..]))
  }

  predicate Fires(l: Link, e: SendWindow.Event) { e.Timer? && Expires(l.sched, e.now) }

  function LinkExpiries(l: Link, es: seq<SendWindow.Event>): nat
    decreases |es|
  {
    if es == [] then 0 else (if Fires(l, es[0]) then 1 else 0) + LinkExpiries(SendWindow.Apply(l, es[0]), es[1..])
  }

  /** The window's part of a quiet event. */
  lemma {:induction false} QuietWindow(l: Link, e: SendWindow.Event)
    requires QuietEvent(l, e) && (Fires(l, e) ==> l.sched.retries < RETRY_LIMIT)
    ensures var c' := SendWindow.Apply(l, e).sched;
      match e
      case Send(n, sent, now) => c' == l.sched || (n < 0x1_0000 && c' == Track(l.sched, l.conn.sendSeq, n, 54 + n, now))
      case Close(sent, now) => c' == l.sched || c' == Track(l.sched, l.conn.sendSeq, 1, 54, now)
      case AckInOrder(ack, now) => c' == Ack(l.sched, ack, now)
      case AckEarly(ack, now) => c' == l.sched || c' == Ack(l.sched, ack, now)
      case Timer(now) => c' == Tick(l.sched, now)
      case _ => c' == l.sched
  {
    hide Track, Ack, Tick, OnAck, Oldest, BytesInFlight;
  }

  lemma {:induction false} QuietLinkStep(l: Link, e: SendWindow.Event)
    requires Waiting(l.sched) && QuietEvent(l, e) && (Fires(l, e) ==> l.sched.retries < RETRY_LIMIT)
    ensures var c, c' := l.sched, SendWindow.Apply(l, e).sched;
      && Waiting(c')
      && c'.retries == c.retries + (if Fires(l, e) then 1 else 0)
      && c'.rto == (if !Fires(l, e) then c.rto else if c.rto * 2 > MAX_RTO then MAX_RTO else c.rto * 2)
  {
    QuietWindow(l, e);
    var t := Timed(l.sched, [], {}, {}, {});
    hide Waiting, Track, Ack, Tick, Oldest, SendWindow.Apply, Expires, Frees;
    match e
    case Send(n, sent, now) => if n < 0x1_0000 { QuietStep(t, Tracked(l.conn.sendSeq, n, 54 + n, now)); }
    case Close(sent, now) => QuietStep(t, Tracked(l.conn.sendSeq, 1, 54, now));
    case AckInOrder(ack, now) => QuietStep(t, Acked(ack, now));
    case AckEarly(ack, now) => QuietStep(t, Acked(ack, now));
    case Timer(now) => QuietStep(t, Ticked(now));
    case _ =>
  }

  lemma {:induction false} QuietLinkRunKeeps(l: Link, es: seq<SendWindow.Event>, rto0: u32, done: nat)
    requires Waiting(l.sched) && QuietLinkRun(l, es) && rto0 >= 1
    requires l.sched.retries == done && l.sched.rto == Backed(rto0, done) && done + LinkExpiries(l, es) <= RETRY_LIMIT
    ensures var k, c := done + LinkExpiries(l, es), SendWindow.Run(l, es).sched;
      Waiting(c) && c.retries == k && c.rto == Backed(rto0, k)
    decreases |es|
  {
    hide SendWindow.Apply, Waiting, Backed, Fires, QuietEvent;
    if es != [] {
      QuietLinkStep(l, es[0]);
      BackedStep(rto0, done);
      QuietLinkRunKeeps(SendWindow.Apply(l, es[0]), es[1..], rto0, if Fires(l, es[0]) then done + 1 else done);
    }
  }

  lemma {:induction false} BackedStart(rto: u32)
    requires rto <= MAX_RTO
    ensures Backed(rto, 0) == rto
  {
  }

  /** Whatever a connection sends and receives in between, as long as nothing is newly
      acknowledged: each of the first eight expiries resends the oldest segment and doubles the
      timeout, and the ninth empties the window and closes the connection. */
  lemma {:induction false} NinthExpiryGivesUp(l: Link, es: seq<SendWindow.Event>, now: u32)
    requires Waiting(l.sched) && l.sched.retries == 0 && QuietLinkRun(l, es) && LinkExpiries(l, es) <= RETRY_LIMIT
    requires Expires(SendWindow.Run(l, es).sched, now)
    ensures var k, m := LinkExpiries(l, es), SendWindow.Run(l, es);
      var m' := SendWindow.Apply(m, Timer(now));
      && m.sched.rto == Backed(l.sched.rto, k)
      && (k < RETRY_LIMIT ==> TimerResent(m.sched, now) < WINDOW && Waiting(m'.sched) && m'.conn == m.conn)
      && (k == RETRY_LIMIT ==>
            (forall i :: 0 <= i < WINDOW ==> !m'.sched.segs[i].inUse) && m'.sched.phase != Retry
              && m'.conn.status == Closed)
  {
    BackedStart(l.sched.rto);
    QuietLinkRunKeeps(l, es, l.sched.rto, 0);
    var m := SendWindow.Run(l, es);
    if LinkExpiries(l, es) < RETRY_LIMIT { QuietLinkStep(m, Timer(now)); }
    hide SendWindow.Run, LinkExpiries, QuietLinkRun, Oldest, Backed;
  }
}
