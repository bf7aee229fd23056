/** When the retransmissions of an unanswered segment happen: over every quiet run the waits
    between them double up to the cap, and giving up takes the sum of them. */
module ResendClock {
  import opened Words
  import opened Rapport
  import opened SchedulerModel
  import opened SendWindow
  import opened Timer = RetransmitTimer
  import KarnRule

  /** The times at which the timer expired in a run. */
  function FireTimes(l: Link, es: seq<SendWindow.Event>): seq<u32>
    decreases |es|
  {
    if es == [] then []
    else (if Fires(l, es[0]) then [es[0].now] else []) + FireTimes(SendWindow.Apply(l, es[0]), es[1..])
  }

  /** From `start` on, each wait is at least the timeout doubled once more than the one before. */
  predicate Spaced(times: seq<u32>, start: u32, rto: u32, k: nat)
    decreases |times|
  {
    times == [] || (Wrap32(times[0] - start) >= Backed(rto, k) && Spaced(times[1..], times[0], rto, k + 1))
  }

  /** The oldest segment, and when its timer was last started. */
  predicate Runs(c: Sched, o: nat, start: u32) { Oldest(c.segs) == o < WINDOW && c.segs[o].start == start }

  lemma {:induction false} SendKeepsFirst(l: Link, ord: seq<nat>, n: nat, sent: bool, now: u32, o: nat, start: u32)
    requires Tiled(l, ord) && Runs(l.sched, o, start)
    ensures Runs(SendWindow.Apply(l, Send(n, sent, now)).sched, o, start)
  {
    hide Tiled, Oldest, BytesInFlight, Leads;
    if Sends(l, n, sent) {
      var l' := SendWindow.Apply(l, Send(n, sent, now));
      var ord' := TrackTiled(l, ord, n, 54 + n, now, l'.conn);
      KarnRule.OldestOf(l, ord);
      KarnRule.OldestOf(l', ord');
    }
  }

  lemma {:induction false} CloseWaits(l: Link, ord: seq<nat>, sent: bool)
    requires Tiled(l, ord) && Oldest(l.sched.segs) < WINDOW
    ensures !Closes(l, sent)
  {
    hide Tiled, Oldest, Leads, BytesInFlight;
    KarnRule.OldestOf(l, ord);
    if BytesInFlight(l.sched.segs) == 0 { NothingInFlight(l, ord); }
  }

  lemma {:induction false} TickKeepsFirst(c: Sched, now: u32, o: nat, start: u32)
    requires Runs(c, o, start) && c.phase == Retry && !GivesUp(c, now)
    ensures Runs(Tick(c, now), o, if Expires(c, now) then now else start)
  {
    hide OldestFrom, SeqBefore;
    KarnRule.OldestFrame(c.segs, Tick(c, now).segs, 0, WINDOW);
  }

  /** A quiet event leaves the oldest segment the oldest, and starts its timer again exactly
      when it has expired. */
  lemma {:induction false} QuietKeepsFirst(l: Link, ord: seq<nat>, e: SendWindow.Event, o: nat, start: u32)
    requires Tiled(l, ord) && Runs(l.sched, o, start) && Timer.Waiting(l.sched)
    requires QuietEvent(l, e) && (Fires(l, e) ==> l.sched.retries < RETRY_LIMIT)
    ensures Runs(SendWindow.Apply(l, e).sched, o, if Fires(l, e) then e.now else start)
  {
    hide Tiled, Track, Oldest, OnAck, OnFin, OnTick, Cancel, BytesInFlight;
    var c := l.sched;
    match e
    case Send(n, sent, now) => SendKeepsFirst(l, ord, n, sent, now, o, start);
    case Close(sent, now) => CloseWaits(l, ord, sent);
    case Timer(now) => TickKeepsFirst(c, now, o, start);
    case _ =>
  }

  lemma {:induction false} SpacedRun(l: Link, ord: seq<nat>, es: seq<SendWindow.Event>, now: u32,
                                     o: nat, start: u32, rto: u32, k: nat)
    requires Tiled(l, ord) && Runs(l.sched, o, start) && Timer.Waiting(l.sched)
    requires AllowedRun(l, es) && QuietLinkRun(l, es) && k + LinkExpiries(l, es) <= RETRY_LIMIT
    requires rto >= 1 && l.sched.retries == k && l.sched.rto == Backed(rto, k)
    requires Expires(SendWindow.Run(l, es).sched, now)
    ensures Spaced(FireTimes(l, es) + [now], start, rto, k)
    decreases |es|
  {
    hide Tiled, Timer.Waiting, SendWindow.Apply, Backed, QuietEvent, Allowed, Oldest, Wrap32;
    if es == [] {
      assert [now][1..] == [];
    } else {
      var e, l' := es[0], SendWindow.Apply(l, es[0]);
      QuietLinkStep(l, e);
      QuietKeepsFirst(l, ord, e, o, start);
      BackedStep(rto, k);
      var ord' := EventKeepsTiling(l, ord, e);
      var rest := FireTimes(l', es[1..]);
      if Fires(l, e) {
        SpacedRun(l', ord', es[1..], now, o, e.now, rto, k + 1);
        assert ([e.now] + rest + [now])[1..] == rest + [now];
      } else {
        SpacedRun(l', ord', es[1..], now, o, start, rto, k);
        assert [] + rest == rest;
      }
    }
  }

  /** Whatever a connection did before, and whatever it sends and receives without anything
      newly acknowledged after its timer was started afresh: the first expiry comes no sooner
      than the timeout after that, and each further one, the one that gives up included, no
      sooner after the one before than the timeout doubled once more, up to the cap. */
  lemma {:induction false} ResendSpacing(l0: Link, before: seq<SendWindow.Event>, es: seq<SendWindow.Event>, now: u32)
    requires (forall i :: 0 <= i < WINDOW ==> !l0.sched.segs[i].inUse) && AllowedRun(l0, before)
    requires var l := SendWindow.Run(l0, before);
      && Timer.Waiting(l.sched) && l.sched.retries == 0
      && AllowedRun(l, es) && QuietLinkRun(l, es) && LinkExpiries(l, es) <= RETRY_LIMIT
      && Expires(SendWindow.Run(l, es).sched, now)
    ensures var c := SendWindow.Run(l0, before).sched;
      Spaced(FireTimes(SendWindow.Run(l0, before), es) + [now], c.segs[Oldest(c.segs)].start, c.rto, 0)
  {
    hide Tiled, SendWindow.Run, AllowedRun, QuietLinkRun, LinkExpiries, FireTimes, Spaced, Backed, Tiles, Lists;
    EmptyTiled(l0);
    var ord := RunKeepsTiling(l0, [], before);
    var l := SendWindow.Run(l0, before);
    TiledFrom(l, ord, Una(l));
    BackedStart(l.sched.rto);
    var o := Oldest(l.sched.segs);
    SpacedRun(l, ord, es, now, o, l.sched.segs[o].start, l.sched.rto, 0);
  }

  // ----- with a clock that does not go back

  /** The first `n` waits from the `k`-th on. */
  function Waits(rto: u32, k: nat, n: nat): nat
    decreases n
  {
    if n == 0 then 0 else Backed(rto, k) + Waits(rto, k + 1, n - 1)
  }

  predicate Ascends(clock: seq<nat>) { forall i :: 0 < i < |clock| ==> clock[i - 1] <= clock[i] }

  lemma {:induction false} ClockGap(a: nat, b: nat)
    requires a <= b
    ensures Wrap32(Wrap32(b) - Wrap32(a)) <= b - a
  {
  }

  /** Seen on an unbounded clock whose low 32 bits the ticks are, from `clock[0]` on. */
  lemma {:induction false} WaitsAddUp(times: seq<u32>, clock: seq<nat>, rto: u32, k: nat)
    requires |clock| == |times| + 1 && Ascends(clock)
    requires forall i :: 0 <= i < |times| ==> times[i] == Wrap32(clock[i + 1])
    requires Spaced(times, Wrap32(clock[0]), rto, k)
    ensures clock[|times|] - clock[0] >= Waits(rto, k, |times|)
    decreases |times|
  {
    hide Wrap32, Backed;
    if times != [] {
      ClockGap(clock[0], clock[1]);
      assert times[0] == Wrap32(clock[1]);
      var rest := clock[1..];
      assert forall i :: 0 <= i < |rest| ==> rest[i] == clock[i + 1];
      WaitsAddUp(times[1..], rest, rto, k + 1);
    }
  }

  /** With the initial timeout the nine waits come to 6500 ticks. */
  lemma {:induction false} InitialWaits()
    ensures Waits(INITIAL_RTO, 0, RETRY_LIMIT + 1) == 6500
  {
    assert Pow2(3) == 8 && Pow2(4) == 16;
    forall k: nat | k >= 4 ensures Backed(INITIAL_RTO, k) == MAX_RTO {
      if k > 4 { Pow2Monotone(4, k); }
    }
    assert Waits(INITIAL_RTO, 9, 0) == 0;
    assert Waits(INITIAL_RTO, 7, 2) == 2000;
    assert Waits(INITIAL_RTO, 4, 5) == 5000;
    assert Waits(INITIAL_RTO, 2, 7) == 6200;
  }

  /** No connection gives up earlier than the nine waits after its timer was started. */
  lemma {:induction false} GivesUpNoSooner(l0: Link, before: seq<SendWindow.Event>, es: seq<SendWindow.Event>,
                                           now: u32, clock: seq<nat>)
    requires (forall i :: 0 <= i < WINDOW ==> !l0.sched.segs[i].inUse) && AllowedRun(l0, before)
    requires var l := SendWindow.Run(l0, before);
      && Timer.Waiting(l.sched) && l.sched.retries == 0
      && AllowedRun(l, es) && QuietLinkRun(l, es) && LinkExpiries(l, es) <= RETRY_LIMIT
      && GivesUp(SendWindow.Run(l, es).sched, now)
      && var times := FireTimes(l, es) + [now];
         && |clock| == |times| + 1 && Ascends(clock)
         && Wrap32(clock[0]) == l.sched.segs[Oldest(l.sched.segs)].start
         && forall i :: 0 <= i < |times| ==> times[i] == Wrap32(clock[i + 1])
    ensures clock[|clock| - 1] - clock[0] >= Waits(SendWindow.Run(l0, before).sched.rto, 0, RETRY_LIMIT + 1)
  {
    hide SendWindow.Run, AllowedRun, QuietLinkRun, FireTimes, Spaced, Backed, Waits;
    ResendSpacing(l0, before, es, now);
    var l := SendWindow.Run(l0, before);
    BackedStart(l.sched.rto);
    QuietLinkRunKeeps(l, es, l.sched.rto, 0);
    FireCount(l, es);
    WaitsAddUp(FireTimes(l, es) + [now], clock, l.sched.rto, 0);
  }

  lemma {:induction false} FireCount(l: Link, es: seq<SendWindow.Event>)
    ensures |FireTimes(l, es)| == LinkExpiries(l, es)
    decreases |es|
  {
    hide SendWindow.Apply, Fires;
    if es != [] { FireCount(SendWindow.Apply(l, es[0]), es[1..]); }
  }
}
