/** conversation.c in place: how a segment drives the receive path and the send window of its
    slot. */
module Conversation {
  import opened Words
  import opened Rapport
  import opened ReceiveModel
  import opened ReceivePath
  import SchedulerModel
  import SendWindow
  import Scheduler

  /** What a segment for an existing connection does to the send window. */
  function WindowAfter(l: SendWindow.Link, g: Segment, now: u32): SchedulerModel.Sched {
    if l.conn.status == SynSent then
      if g.rst then SendWindow.Apply(l, SendWindow.PeerRst).sched else l.sched
    else if g.seqNo != l.conn.expected then
      if g.ack.Some? then SendWindow.Apply(l, SendWindow.AckEarly(g.ack.value, now)).sched else l.sched
    else InOrderWindow(l, g, now)
  }

  function InOrderWindow(l: SendWindow.Link, g: Segment, now: u32): SchedulerModel.Sched {
    if g.rst then SendWindow.Apply(l, SendWindow.PeerRst).sched
    else if g.ack.Some? then SendWindow.Apply(l, SendWindow.AckInOrder(g.ack.value, now)).sched
    else l.sched
  }

  lemma {:induction false} PeerWindowAside(l: SendWindow.Link, g: Segment, now: u32)
    ensures InOrderWindow(l.(conn := l.conn.(peerWindow := g.window)), g, now) == InOrderWindow(l, g, now)
  {
    hide SchedulerModel.Ack, SchedulerModel.Cancel;
  }

  class Handler {
    const way: WayStation
    const timers: Scheduler.Timers

    ghost predicate Valid()
      reads way, way.inbox, way.inbox.lockbox, way.rapport, timers
    {
      && way.Valid() && |timers.conns| == CAPACITY
      && timers.rapport == way.rapport && timers.lockbox == way.inbox.lockbox
    }

    ghost function LinkOf(id: Id): SendWindow.Link
      requires Valid()
      reads way, way.inbox, way.inbox.lockbox, way.rapport, timers
    {
      timers.LinkOf(id)
    }

    constructor (w: WayStation, t: Scheduler.Timers)
      requires w.Valid() && t.Valid() && t.rapport == w.rapport && t.lockbox == w.inbox.lockbox
      ensures Valid() && way == w && timers == t
    {
      way := w;
      timers := t;
    }

    /** A SYN from a new peer: a slot is claimed and the handshake starts in it. */
    method OnNewSyn(t: Tuple, peerIsn: u32, ourIsn: u32) returns (r: ClaimResult)
      requires Valid()
      modifies way.inbox.lockbox, way.rapport
      ensures Valid()
      ensures !r.Claimed? ==> forall i: Id :: way.View(i) == old(way.View(i))
      ensures r.Claimed? ==>
        && r.id < CAPACITY && !old(way.View(r.id)).inUse
        && way.View(r.id) == Claim(old(way.View(r.id))).(conn := OnSyn(old(way.View(r.id)).conn, peerIsn, ourIsn))
        && forall i: Id :: i != r.id ==> way.View(i) == old(way.View(i))
    {
      r := way.inbox.lockbox.Claim(t);
      if r.Claimed? {
        way.rapport.conns := way.rapport.conns[r.id := OnSyn(way.rapport.conns[r.id], peerIsn, ourIsn)];
      }
    }

    /** What Rapport decides on an ack or a reset, carried out in the tables; letting go of the
        slot cancels its window. */
    method Carry(id: Id, reaction: Reaction)
      requires Valid()
      modifies way.rapport, way.inbox.lockbox`table, timers`conns
      ensures Valid() && way.View(id) == React(old(way.View(id)), reaction)
      ensures timers.conns == old(timers.conns)[id := SendWindow.CancelIf(old(timers.conns)[id], reaction.release)]
      ensures forall i: Id :: i != id ==> way.View(i) == old(way.View(i))
    {
      way.rapport.conns := way.rapport.conns[id := reaction.conn];
      if reaction.release {
        timers.conns := timers.conns[id := SchedulerModel.Cancel(timers.conns[id])];
        way.inbox.lockbox.Release(id);
      }
    }

    method SetConn(id: Id, c: Conn)
      requires Valid()
      modifies way.rapport
      ensures Valid() && way.View(id) == old(way.View(id)).(conn := c)
      ensures forall i: Id :: i != id ==> way.View(i) == old(way.View(i))
    {
      way.rapport.conns := way.rapport.conns[id := c];
    }

    /** A segment for an existing connection, from the window update to the FIN: the receive
        path takes its step, and the send window its part of it. */
    method HandleSegment(id: Id, g: Segment, now: u32)
      requires Valid() && SlotOk(way.View(id))
      modifies way, way.inbox, way.inbox.storage, way.inbox.lockbox`table, way.rapport, timers
      ensures Valid() && way.View(id) == Handle(old(way.View(id)), g, now)
      ensures timers.conns == old(timers.conns)[id := WindowAfter(old(LinkOf(id)), g, now)]
      ensures forall i: Id :: i != id ==> way.View(i) == old(way.View(i))
    {
      hide SlotOk, ReceiveModel.Hold, HandleInOrder, InOrderWindow, SchedulerModel.Ack, SchedulerModel.Cancel,
        IsStaleRetransmit;
      var conn := way.rapport.conns[id];
      if conn.status == SynSent {
        if g.rst {
          Carry(id, OnRst(conn));
        }
        return;
      }
      WindowSlot(way.View(id), g.window);
      PeerWindowAside(LinkOf(id), g, now);
      conn := conn.(peerWindow := g.window);
      SetConn(id, conn);
      if g.seqNo != conn.expected {
        Early(id, g, now);
      } else {
        InOrder(id, g, now);
      }
    }

    /** A segment that does not start at `expected`. */
    method Early(id: Id, g: Segment, now: u32)
      requires Valid()
      modifies way, timers
      ensures Valid()
      ensures var s := old(way.View(id));
        way.View(id) == if IsStaleRetransmit(s.conn, g.seqNo, |g.data|) || |g.data| == 0 then s
          else ReceiveModel.Hold(s, g.seqNo, g.data)
      ensures timers.conns == old(timers.conns)[id :=
        if g.ack.Some? then SendWindow.Apply(old(LinkOf(id)), SendWindow.AckEarly(g.ack.value, now)).sched
        else old(timers.conns)[id]]
      ensures forall i: Id :: i != id ==> way.View(i) == old(way.View(i))
    {
      hide ReceiveModel.Hold, SchedulerModel.Ack, IsStaleRetransmit;
      EarlyAck(id, g, now);
      if !IsStaleRetransmit(way.rapport.conns[id], g.seqNo, |g.data|) && |g.data| > 0 {
        var held := way.Hold(id, g.seqNo, g.data);
      }
    }

    /** Its ack counts for the window if it is not ahead of what was sent. */
    method EarlyAck(id: Id, g: Segment, now: u32)
      requires Valid()
      modifies timers
      ensures Valid()
      ensures timers.conns == old(timers.conns)[id :=
        if g.ack.Some? then SendWindow.Apply(old(LinkOf(id)), SendWindow.AckEarly(g.ack.value, now)).sched
        else old(timers.conns)[id]]
    {
      hide SchedulerModel.Ack;
      if g.ack.Some? && g.ack.value <= way.rapport.conns[id].sendSeq {
        timers.Ack(id, g.ack.value, now);
      }
    }

    method InOrder(id: Id, g: Segment, now: u32)
      requires Valid() && SlotOk(way.View(id))
      modifies way, way.inbox, way.inbox.storage, way.inbox.lockbox`table, way.rapport, timers
      ensures Valid() && way.View(id) == HandleInOrder(old(way.View(id)), g, now)
      ensures timers.conns == old(timers.conns)[id := InOrderWindow(old(LinkOf(id)), g, now)]
      ensures forall i: Id :: i != id ==> way.View(i) == old(way.View(i))
    {
      hide SlotOk, ReceiveModel.Drain, OnFin, AfterAck, AfterData, SchedulerModel.Ack, SchedulerModel.Cancel;
      ghost var s := way.View(id);
      if g.rst {
        Carry(id, OnRst(way.rapport.conns[id]));
        return;
      }
      TakeAck(id, g, now);
      AckSlot(s, g, now);
      TakeData(id, g.data);
      if g.fin {
        SetConn(id, OnFin(way.rapport.conns[id], now));
      }
    }

    /** The ack of an in-order segment: first the state, then the window. */
    method TakeAck(id: Id, g: Segment, now: u32)
      requires Valid() && !g.rst
      modifies way.rapport, way.inbox.lockbox`table, timers
      ensures Valid() && way.View(id) == AfterAck(old(way.View(id)), g, now)
      ensures timers.conns == old(timers.conns)[id := InOrderWindow(old(LinkOf(id)), g, now)]
      ensures forall i: Id :: i != id ==> way.View(i) == old(way.View(i))
    {
      hide OnAck, SchedulerModel.Ack, SchedulerModel.Cancel;
      if g.ack.Some? {
        Carry(id, OnAck(way.rapport.conns[id], g.ack.value, now));
        timers.Ack(id, g.ack.value, now);
      }
    }

    method TakeData(id: Id, data: Payload)
      requires Valid() && SlotOk(way.View(id))
      modifies way, way.inbox, way.inbox.storage, way.inbox.lockbox`table, way.rapport
      ensures Valid() && way.View(id) == AfterData(old(way.View(id)), data)
      ensures forall i: Id :: i != id ==> way.View(i) == old(way.View(i))
    {
      hide SlotOk, ReceiveModel.Drain;
      if |data| == 0 {
        return;
      }
      ghost var s := way.View(id);
      DepositReady(s);
      var ok := way.inbox.Deposit(id, data);
      if ok {
        var expected: int := way.rapport.conns[id].expected;
        SetConn(id, way.rapport.conns[id].(expected := Wrap32(expected + |data|)));
        AdvancedSlot(s, data);
        assert way.View(id) == Advanced(s, data);
        var drained := way.Drain(id);
      }
    }

    /** The segment just sent is tracked at `send_seq`, and the connection moves on to `c`. */
    method TrackSent(id: Id, seqLen: u16, frameLen: nat, now: u32, c: Conn)
      requires Valid()
      modifies way.rapport, timers`conns
      ensures Valid()
      ensures var l := old(LinkOf(id));
        LinkOf(id) == SendWindow.Link(SchedulerModel.Track(l.sched, l.conn.sendSeq, seqLen, frameLen, now), c)
      ensures way.View(id) == old(way.View(id)).(conn := c)
      ensures forall i: Id :: i != id ==> way.View(i) == old(way.View(i)) && LinkOf(i) == old(LinkOf(i))
    {
      hide SchedulerModel.Track;
      var tracked := timers.Track(id, way.rapport.conns[id].sendSeq, seqLen, frameLen, now);
      SetConn(id, c);
    }

    /** `conversation_dispatch_data`; `sent` tells whether the frame was built and passed on. */
    method SendData(id: Id, length: u16, sent: bool, now: u32) returns (ok: bool)
      requires Valid()
      modifies way.rapport, timers`conns
      ensures Valid() && LinkOf(id) == SendWindow.Apply(old(LinkOf(id)), SendWindow.Send(length, sent, now))
      ensures ok <==> SendWindow.Sends(old(LinkOf(id)), length, sent)
      ensures way.View(id) == old(way.View(id)).(conn := LinkOf(id).conn)
      ensures forall i: Id :: i != id ==> way.View(i) == old(way.View(i)) && LinkOf(i) == old(LinkOf(i))
    {
      hide SchedulerModel.Track, SchedulerModel.BytesInFlight, Wrap32;
      if length == 0 || length > SchedulerModel.MAX_PAYLOAD {
        return false;
      }
      var conn := way.rapport.conns[id];
      if conn.status != Established {
        return false;
      }
      var slots := timers.FreeSlots(id);
      if slots == 0 {
        return false;
      }
      var inFlight := timers.BytesInFlight(id);
      if inFlight + length > conn.peerWindow {
        return false;
      }
      if !sent {
        return false;
      }
      TrackSent(id, length, 54 + length as int, now, conn.(sendSeq := Wrap32(conn.sendSeq + length)));
      return true;
    }

    /** `conversation_dispatch_fin`: only once everything is acknowledged. */
    method SendFin(id: Id, sent: bool, now: u32) returns (ok: bool)
      requires Valid()
      modifies way.rapport, timers`conns
      ensures Valid() && LinkOf(id) == SendWindow.Apply(old(LinkOf(id)), SendWindow.Close(sent, now))
      ensures ok <==> SendWindow.Closes(old(LinkOf(id)), sent)
      ensures way.View(id) == old(way.View(id)).(conn := LinkOf(id).conn)
      ensures forall i: Id :: i != id ==> way.View(i) == old(way.View(i)) && LinkOf(i) == old(LinkOf(i))
    {
      hide SchedulerModel.Track, SchedulerModel.BytesInFlight;
      var conn := way.rapport.conns[id];
      if conn.status != Established && conn.status != CloseWait {
        return false;
      }
      var inFlight := timers.BytesInFlight(id);
      if inFlight > 0 {
        return false;
      }
      if !sent {
        return false;
      }
      var seqNo: int := conn.sendSeq;
      TrackSent(id, 1, 54, now, InitiateClose(conn.(sendSeq := Wrap32(seqNo + 1)), seqNo));
      return true;
    }

    /** `rapport_tick`: TIME_WAIT slots that have waited long enough are let go of; their windows
        are left as they are. */
    method TimeWaitTick(now: u32)
      requires Valid()
      modifies way.rapport, way.inbox.lockbox`table
      ensures Valid()
      ensures forall i: Id :: way.View(i) == React(old(way.View(i)), OnTick(old(way.View(i)).conn, now))
      ensures forall i: Id :: LinkOf(i) == SendWindow.Apply(old(LinkOf(i)), SendWindow.TimeWaitTick(now))
    {
      ghost var conns, table := way.rapport.conns, way.inbox.lockbox.table;
      var i := 0;
      while i < CAPACITY
        invariant 0 <= i <= CAPACITY && Valid()
        invariant forall j: Id :: way.rapport.conns[j] == if j < i then OnTick(conns[j], now).conn else conns[j]
        invariant forall j: Id ::
          way.inbox.lockbox.table[j] ==
            if j < i && OnTick(conns[j], now).release then table[j].(inUse := false) else table[j]
      {
        var c := way.rapport.conns[i];
        if c.status == TimeWait && Wrap32(now - c.timeWaitStarted as int) >= TIME_WAIT_TICKS {
          way.rapport.conns := way.rapport.conns[i := c.(status := Closed)];
          way.inbox.lockbox.Release(i);
        }
        i := i + 1;
      }
      hide OnTick;
    }
  }

  lemma {:induction false} WindowSlot(s: Slot, window: u16)
    requires SlotOk(s)
    ensures SlotOk(s.(conn := s.conn.(peerWindow := window)))
  {
  }

  lemma {:induction false} AckSlot(s: Slot, g: Segment, now: u32)
    requires SlotOk(s)
    ensures SlotOk(AfterAck(s, g, now))
  {
  }

  lemma {:induction false} AdvancedSlot(s: Slot, data: Payload)
    requires SlotOk(s) && Accepts(FreshInbox(s), |data|)
    ensures SlotOk(Advanced(s, data))
  {
  }
}
