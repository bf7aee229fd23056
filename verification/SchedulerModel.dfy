/** Networking/Scheduler/scheduler.c for one connection: a window of four unacknowledged
    segments, the retransmission timer and its estimator. */
module SchedulerModel {
  import opened Words

  const WINDOW := 4
  const RETRY_LIMIT := 8
  const INITIAL_RTO := 100
  const MIN_RTO := 20
  const MAX_RTO := 1000
  const DUP_ACKS := 3
  const MAX_FRAME := 1600
  const MAX_PAYLOAD := 1460

  datatype Seg = Seg(inUse: bool, seqNo: u32, seqLen: u16, start: u32, retransmitted: bool)

  type Segs = s: seq<Seg> | |s| == WINDOW
    witness seq(WINDOW, _ => Seg(false, 0, 0, 0, false))

  datatype Phase = Idle | Retry | Failure

  datatype Sched = Sched(
    segs: Segs, phase: Phase, retries: nat, srtt: u32, rttvar: u32, rto: u32, lastAck: u32, dupAcks: nat)

  /** `(int32_t)(a - b) < 0`. */
  predicate SeqBefore(a: u32, b: u32) { Wrap32(a - b) >= 0x8000_0000 }

  function EndOf(e: Seg): u32 { Wrap32(e.seqNo + e.seqLen) }

  /** The scan of `oldest` from slot `i` with `best` found so far; WINDOW means none. */
  function OldestFrom(segs: Segs, i: nat, best: nat): (r: nat)
    requires i <= WINDOW && best <= WINDOW && (best < WINDOW ==> segs[best].inUse)
    ensures r <= WINDOW && (r < WINDOW ==> segs[r].inUse)
    decreases WINDOW - i
  {
    if i == WINDOW then best
    else if segs[i].inUse && (best == WINDOW || SeqBefore(segs[i].seqNo, segs[best].seqNo))
    then OldestFrom(segs, i + 1, i)
    else OldestFrom(segs, i + 1, best)
  }

  function Oldest(segs: Segs): (r: nat)
    ensures r <= WINDOW && (r < WINDOW ==> segs[r].inUse)
  {
    OldestFrom(segs, 0, WINDOW)
  }

  function FreeFrom(segs: Segs, i: nat): (r: nat)
    requires i <= WINDOW
    ensures i <= r <= WINDOW && (r < WINDOW ==> !segs[r].inUse)
    ensures forall j :: i <= j < r ==> segs[j].inUse
    decreases WINDOW - i
  {
    if i == WINDOW || !segs[i].inUse then i else FreeFrom(segs, i + 1)
  }

  function Track(c: Sched, seqNo: u32, seqLen: u16, frameLen: nat, now: u32): Sched {
    var i := FreeFrom(c.segs, 0);
    if frameLen == 0 || frameLen > MAX_FRAME || i == WINDOW then c
    else
      var c' := c.(segs := c.segs[i := Seg(true, seqNo, seqLen, now, false)],
                   rto := if c.rto == 0 then INITIAL_RTO else c.rto);
      if c.phase == Retry then c' else c'.(phase := Retry, retries := 0, dupAcks := 0)
  }

  // ----- scheduler_ack

  predicate Covered(e: Seg, ack: u32) { e.inUse && !SeqBefore(ack, EndOf(e)) }

  function AckSegs(segs: Segs, ack: u32): (r: Segs)
    ensures forall i :: 0 <= i < WINDOW ==> r[i] == if Covered(segs[i], ack) then segs[i].(inUse := false) else segs[i]
  {
    seq(WINDOW, i requires 0 <= i < WINDOW => if Covered(segs[i], ack) then segs[i].(inUse := false) else segs[i])
  }

  /** The slot that supplies the round-trip sample of an ack, or WINDOW. */
  function SampleFrom(segs: Segs, ack: u32, i: nat): (r: nat)
    requires i <= WINDOW
    ensures i <= r <= WINDOW
    ensures r < WINDOW ==> Covered(segs[r], ack) && !segs[r].retransmitted
    ensures forall j :: i <= j < r ==> !(Covered(segs[j], ack) && !segs[j].retransmitted)
    decreases WINDOW - i
  {
    if i == WINDOW || (Covered(segs[i], ack) && !segs[i].retransmitted) then i else SampleFrom(segs, ack, i + 1)
  }

  predicate Frees(segs: Segs, ack: u32) { exists i :: 0 <= i < WINDOW && Covered(segs[i], ack) }

  function Clamp(x: u32): u32 { if x < MIN_RTO then MIN_RTO else if x > MAX_RTO then MAX_RTO else x }

  function NewSrtt(c: Sched, sample: u32): int {
    if c.srtt == 0 then sample else c.srtt - c.srtt / 8 + sample / 8
  }

  function NewRttvar(c: Sched, sample: u32): int {
    if c.srtt == 0 then sample / 2
    else
      var diff := if sample > c.srtt then sample - c.srtt else c.srtt - sample;
      c.rttvar - c.rttvar / 4 + diff / 4
  }

  /** Everything in 32 bits; the sum for the timeout may wrap before it is clamped. */
  function Estimate(c: Sched, sample: u32): Sched {
    var s, v := Wrap32(NewSrtt(c, sample)), Wrap32(NewRttvar(c, sample));
    c.(srtt := s, rttvar := v, rto := Clamp(Wrap32(s + 4 * v)))
  }

  function Ack(c: Sched, ack: u32, now: u32): Sched {
    if c.phase != Retry then c
    else if Frees(c.segs, ack) then
      var i := SampleFrom(c.segs, ack, 0);
      var e := if i < WINDOW then Estimate(c, Wrap32(now - c.segs[i].start)) else c;
      var f := e.(segs := AckSegs(c.segs, ack), retries := 0, dupAcks := 0, lastAck := ack);
      if Oldest(f.segs) == WINDOW then f.(phase := Idle) else f
    else if ack == c.lastAck then c.(dupAcks := if c.dupAcks + 1 >= DUP_ACKS then 0 else c.dupAcks + 1)
    else c.(lastAck := ack, dupAcks := 0)
  }

  /** The slot an ack resends: the oldest one at the third duplicate; WINDOW means none. */
  function FastResent(c: Sched, ack: u32): (i: nat)
    ensures i <= WINDOW && (i < WINDOW ==> c.segs[i].inUse)
  {
    if c.phase == Retry && !Frees(c.segs, ack) && ack == c.lastAck && c.dupAcks + 1 >= DUP_ACKS
    then Oldest(c.segs) else WINDOW
  }

  // ----- scheduler_cancel and scheduler_tick

  function Freed(segs: Segs): Segs {
    seq(WINDOW, i requires 0 <= i < WINDOW => segs[i].(inUse := false))
  }

  function ClearWindow(c: Sched): Sched { c.(segs := Freed(c.segs), phase := Idle, retries := 0, dupAcks := 0) }

  function Cancel(c: Sched): Sched { ClearWindow(c).(rto := 0, srtt := 0, rttvar := 0) }

  /** The timer of the oldest segment has run out. */
  predicate Expires(c: Sched, now: u32) {
    c.phase == Retry && Oldest(c.segs) < WINDOW && Wrap32(now - c.segs[Oldest(c.segs)].start) >= c.rto
  }

  predicate GivesUp(c: Sched, now: u32) { Expires(c, now) && c.retries >= RETRY_LIMIT }

  /** The slot a tick resends, or WINDOW. */
  function TimerResent(c: Sched, now: u32): (i: nat)
    ensures i <= WINDOW && (i < WINDOW ==> c.segs[i].inUse)
  {
    if Expires(c, now) && !GivesUp(c, now) then Oldest(c.segs) else WINDOW
  }

  function AllRetransmitted(segs: Segs): (r: Segs)
    ensures forall i :: 0 <= i < WINDOW ==> r[i] == segs[i].(retransmitted := true)
  {
    seq(WINDOW, i requires 0 <= i < WINDOW => segs[i].(retransmitted := true))
  }

  function Tick(c: Sched, now: u32): Sched {
    var o := Oldest(c.segs);
    if c.phase != Retry then c
    else if o == WINDOW then c.(phase := Idle)
    else if Wrap32(now - c.segs[o].start) < c.rto then c
    else if c.retries >= RETRY_LIMIT then ClearWindow(c).(phase := Failure)
    else
      var segs := AllRetransmitted(c.segs);
      c.(segs := segs[o := segs[o].(start := now)],
         rto := if Wrap32(c.rto * 2) > MAX_RTO then MAX_RTO else Wrap32(c.rto * 2),
         retries := c.retries + 1)
  }

  function TotalFrom(segs: Segs, i: nat): nat
    requires i <= WINDOW
    decreases WINDOW - i
  {
    if i == WINDOW then 0 else (if segs[i].inUse then segs[i].seqLen else 0) + TotalFrom(segs, i + 1)
  }

  /** Sequence numbers in flight. */
  function Total(segs: Segs): nat { TotalFrom(segs, 0) }

  function BytesInFlight(segs: Segs): u16 { if Total(segs) > 0xFFFF then 0xFFFF else Total(segs) }

  const EMPTY: Segs := seq(WINDOW, _ => Seg(false, 0, 0, 0, false))
  const ZERO := Sched(EMPTY, Idle, 0, 0, 0, 0, 0, 0)
}
