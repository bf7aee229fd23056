/** scheduler.c in place: a table of windows, scanned and changed slot by slot. */
module Scheduler {
  import opened Words
  import opened Rapport
  import opened SchedulerModel
  import opened ReceivePath
  import SendWindow

  /** The calls of `resend` in one pass over the first `n` windows: connection and slot. */
  function TickResends(conns: seq<Sched>, now: u32, n: nat): seq<(nat, nat)>
    requires n <= |conns|
  {
    if n == 0 then []
    else
      var i := TimerResent(conns[n - 1], now);
      TickResends(conns, now, n - 1) + if i < WINDOW then [(n - 1, i)] else []
  }

  /** The tick gives the connection up and lets go of its slot. */
  predicate Resets(l: SendWindow.Link, now: u32) { GivesUp(l.sched, now) && l.conn.status != Closed }

  class Timers {
    const lockbox: LockBox
    const rapport: RapportTable
    var conns: seq<Sched>
    /** Every call of `resend` so far: connection and slot. */
    var resends: seq<(nat, nat)>

    ghost predicate Valid()
      reads this, lockbox, rapport
    {
      |conns| == CAPACITY && lockbox.Valid() && rapport.Valid()
    }

    ghost function LinkOf(id: Id): SendWindow.Link
      requires Valid()
      reads this, lockbox, rapport
    {
      SendWindow.Link(conns[id], rapport.conns[id])
    }

    constructor (box: LockBox, r: RapportTable)
      requires box.Valid() && r.Valid()
      ensures Valid() && lockbox == box && rapport == r && resends == []
      ensures forall i :: 0 <= i < CAPACITY ==> conns[i] == ZERO
    {
      lockbox := box;
      rapport := r;
      conns := seq(CAPACITY, _ => ZERO);
      resends := [];
    }

    /** The segment in use that no other precedes, or WINDOW. */
    method FindOldest(segs: Segs) returns (best: nat)
      ensures best == Oldest(segs)
    {
      best := WINDOW;
      var i := 0;
      while i < WINDOW
        invariant 0 <= i <= WINDOW && best <= WINDOW && (best < WINDOW ==> segs[best].inUse)
        invariant Oldest(segs) == OldestFrom(segs, i, best)
      {
        if segs[i].inUse && (best == WINDOW || SeqBefore(segs[i].seqNo, segs[best].seqNo)) {
          best := i;
        }
        i := i + 1;
      }
    }

    method Track(id: Id, seqNo: u32, seqLen: u16, frameLen: nat, now: u32) returns (ok: bool)
      requires Valid()
      modifies this`conns
      ensures Valid()
      ensures conns == old(conns)[id := SchedulerModel.Track(old(conns)[id], seqNo, seqLen, frameLen, now)]
      ensures ok <==> 0 < frameLen <= MAX_FRAME && exists i :: 0 <= i < WINDOW && !old(conns)[id].segs[i].inUse
    {
      if frameLen == 0 || frameLen > MAX_FRAME {
        return false;
      }
      var c, i := conns[id], 0;
      while i < WINDOW && c.segs[i].inUse
        invariant 0 <= i <= WINDOW && FreeFrom(c.segs, 0) == FreeFrom(c.segs, i)
        invariant forall j :: 0 <= j < i ==> c.segs[j].inUse
      {
        i := i + 1;
      }
      if i == WINDOW {
        return false;
      }
      c := c.(segs := c.segs[i := Seg(true, seqNo, seqLen, now, false)]);
      if c.phase != Retry {
        c := c.(phase := Retry, retries := 0, dupAcks := 0);
      }
      if c.rto == 0 {
        c := c.(rto := INITIAL_RTO);
      }
      conns := conns[id := c];
      return true;
    }

    method Ack(id: Id, ack: u32, now: u32)
      requires Valid()
      modifies this
      ensures Valid()
      ensures conns == old(conns)[id := SchedulerModel.Ack(old(conns)[id], ack, now)]
      ensures var i := FastResent(old(conns)[id], ack);
        resends == old(resends) + if i < WINDOW then [(id, i)] else []
    {
      hide Frees, SampleFrom, AckSegs, Estimate, Oldest;
      var c := conns[id];
      if c.phase != Retry {
        return;
      }
      var segs, freed, first := FreeCovered(c.segs, ack);
      if freed > 0 {
        if first < WINDOW {
          var start: int := c.segs[first].start;
          c := Estimate(c, Wrap32(now - start));
        }
        c := c.(segs := segs, retries := 0, dupAcks := 0, lastAck := ack);
        var o := FindOldest(segs);
        if o == WINDOW {
          c := c.(phase := Idle);
        }
      } else if ack == c.lastAck {
        c := c.(dupAcks := c.dupAcks + 1);
        if c.dupAcks >= DUP_ACKS {
          var o := FindOldest(c.segs);
          if o < WINDOW {
            resends := resends + [(id, o)];
          }
          c := c.(dupAcks := 0);
        }
      } else {
        c := c.(lastAck := ack, dupAcks := 0);
      }
      conns := conns[id := c];
    }

    /** The scan of `scheduler_ack`: frees what the ack covers and remembers the first segment
        that was never marked. */
    method FreeCovered(was: Segs, ack: u32) returns (segs: Segs, freed: nat, first: nat)
      ensures segs == AckSegs(was, ack) && (freed > 0 <==> Frees(was, ack)) && first == SampleFrom(was, ack, 0)
    {
      hide SeqBefore, Covered;
      segs, freed, first := was, 0, WINDOW;
      var i := 0;
      while i < WINDOW
        invariant 0 <= i <= WINDOW && first <= WINDOW
        invariant forall j :: 0 <= j < i ==> segs[j] == if Covered(was[j], ack) then was[j].(inUse := false) else was[j]
        invariant forall j :: i <= j < WINDOW ==> segs[j] == was[j]
        invariant freed > 0 <==> exists j :: 0 <= j < i && Covered(was[j], ack)
        invariant SampleFrom(was, ack, 0) == if first < WINDOW then first else SampleFrom(was, ack, i)
      {
        if Covered(segs[i], ack) {
          if !segs[i].retransmitted && first == WINDOW {
            first := i;
          }
          segs := segs[i := segs[i].(inUse := false)];
          freed := freed + 1;
        }
        i := i + 1;
      }
    }

    /** One pass over every window; a window that gives up resets its connection, which
        cancels the window and releases the slot. */
    method Tick(now: u32)
      requires Valid()
      modifies this, rapport, lockbox`table
      ensures Valid()
      ensures forall i: Id :: LinkOf(i) == SendWindow.Apply(old(LinkOf(i)), SendWindow.Timer(now))
      ensures forall i: Id :: lockbox.table[i].inUse == (old(lockbox.table[i].inUse) && !Resets(old(LinkOf(i)), now))
      ensures resends == old(resends) + TickResends(old(conns), now, CAPACITY)
    {
      hide SendWindow.Apply, Resets, TimerResent;
      ghost var was := conns;
      var i := 0;
      while i < CAPACITY
        invariant 0 <= i <= CAPACITY && Valid()
        invariant forall j: Id ::
          LinkOf(j) == if j < i then SendWindow.Apply(old(LinkOf(j)), SendWindow.Timer(now)) else old(LinkOf(j))
        invariant forall j: Id ::
          lockbox.table[j].inUse == (old(lockbox.table[j].inUse) && !(j < i && Resets(old(LinkOf(j)), now)))
        invariant resends == old(resends) + TickResends(was, now, i)
      {
        assert was[i] == LinkOf(i).sched;
        TickSlot(i, now);
        i := i + 1;
      }
    }

    /** The same for one window. */
    method TickSlot(i: Id, now: u32)
      requires Valid()
      modifies this, rapport, lockbox`table
      ensures Valid()
      ensures LinkOf(i) == SendWindow.Apply(old(LinkOf(i)), SendWindow.Timer(now))
      ensures lockbox.table[i].inUse == (old(lockbox.table[i].inUse) && !Resets(old(LinkOf(i)), now))
      ensures forall j: Id :: j != i ==> LinkOf(j) == old(LinkOf(j)) && lockbox.table[j] == old(lockbox.table[j])
      ensures var o := TimerResent(old(conns)[i], now);
        resends == old(resends) + if o < WINDOW then [(i, o)] else []
    {
      hide SchedulerModel.Tick, GivesUp, Cancel, TimerResent;
      var c, gaveUp, resent := TickOne(conns[i], now);
      conns := conns[i := c];
      if resent < WINDOW {
        resends := resends + [(i, resent)];
      }
      if gaveUp && rapport.conns[i].status != Closed {
        rapport.conns := rapport.conns[i := rapport.conns[i].(status := Closed)];
        conns := conns[i := Cancel(conns[i])];
        lockbox.Release(i);
      }
    }

    /** `resent` is the slot that is sent again, or WINDOW. */
    method TickOne(c: Sched, now: u32) returns (c': Sched, gaveUp: bool, resent: nat)
      ensures c' == SchedulerModel.Tick(c, now) && (gaveUp <==> GivesUp(c, now)) && resent == TimerResent(c, now)
    {
      c', gaveUp, resent := c, false, WINDOW;
      if c.phase != Retry {
        return;
      }
      var o := FindOldest(c.segs);
      if o == WINDOW {
        c' := c.(phase := Idle);
        return;
      }
      if Wrap32(now - c.segs[o].start as int) < c.rto {
        return;
      }
      if c.retries >= RETRY_LIMIT {
        c' := ClearWindow(c).(phase := Failure);
        gaveUp := true;
        return;
      }
      resent := o;
      var segs, k: int := c.segs, 0;
      while k < WINDOW
        invariant 0 <= k <= WINDOW && |segs| == WINDOW
        invariant forall j :: 0 <= j < k ==> segs[j] == c.segs[j].(retransmitted := true)
        invariant forall j :: k <= j < WINDOW ==> segs[j] == c.segs[j]
      {
        segs := segs[k := segs[k].(retransmitted := true)];
        k := k + 1;
      }
      assert segs == AllRetransmitted(c.segs);
      var twice: u32 := Wrap32(c.rto as int * 2);
      c' := c.(segs := segs[o := segs[o].(start := now)],
               rto := if twice > MAX_RTO then MAX_RTO else twice,
               retries := c.retries + 1);
    }

    method BytesInFlight(id: Id) returns (n: nat)
      requires Valid()
      ensures n == SchedulerModel.BytesInFlight(conns[id].segs)
    {
      var segs, total, i: nat := conns[id].segs, 0, 0;
      while i < WINDOW
        invariant i <= WINDOW && total + TotalFrom(segs, i) == Total(segs)
      {
        if segs[i].inUse {
          total := total + segs[i].seqLen;
        }
        i := i + 1;
      }
      n := if total > 0xFFFF then 0xFFFF else total;
    }

    method FreeSlots(id: Id) returns (n: nat)
      requires Valid()
      ensures n > 0 <==> exists i :: 0 <= i < WINDOW && !conns[id].segs[i].inUse
      ensures n <= WINDOW && (n == WINDOW <==> forall i :: 0 <= i < WINDOW ==> !conns[id].segs[i].inUse)
    {
      var segs, i: nat := conns[id].segs, 0;
      n := 0;
      while i < WINDOW
        invariant n <= i <= WINDOW
        invariant n > 0 <==> exists j :: 0 <= j < i && !segs[j].inUse
        invariant n == i <==> forall j :: 0 <= j < i ==> !segs[j].inUse
      {
        if !segs[i].inUse {
          n := n + 1;
        }
        i := i + 1;
      }
    }
  }
}
