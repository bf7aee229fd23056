/** What the receive path does make available: the drain loop takes out every held segment
    that has become next in line, so the bytes before the first missing piece of the peer's
    stream are always there, whatever order its pieces came in. */
module Delivery {
  import opened Words
  import opened Rapport
  import opened ReceiveModel
  import StreamIntegrity

  // ----- one segment

  /** The ack of the segment makes Rapport let go of the slot. */
  predicate LetsGo(c: Conn, g: Segment, now: u32) { g.ack.Some? && OnAck(c, g.ack.value, now).release }

  /** No row starts at `seqNo`, unless the Inbox has no room for it. */
  predicate NoneLeft(s: Slot, seqNo: u32) {
    forall i :: 0 <= i < MAX_PENDING && Waiting(s)[i].Held? && Waiting(s)[i].seqNo == seqNo ==>
      |Pending(s)| + |Waiting(s)[i].data| > MAX_BUFFERED
  }

  /** Data in order is taken, and with it all that it makes contiguous: the ring grows by the
      data and `n - |data|` bytes more, and no row is left that starts `n` further on. */
  predicate Takes(s: Slot, s': Slot, data: Payload, n: nat) {
    && n >= |data|
    && Pending(s) + data <= Pending(s') && |Pending(s')| == |Pending(s)| + n
    && NoneLeft(s', Wrap32(s.conn.expected + n))
  }

  lemma {:induction false} DeliverTakes(s: Slot, i: nat)
    requires SlotOk(s) && s.wayGen == s.gen && s.inUse && i < MAX_PENDING && s.rows[i].Held?
    requires Accepts(FreshInbox(s), |s.rows[i].data|)
    ensures var t, d := DeliverRow(s, i), s.rows[i].data;
      && SlotOk(t) && t.wayGen == t.gen && t.inUse && Pending(t) == Pending(s) + d && t.rows == s.rows[i := Free]
      && t.conn == s.conn.(expected := Wrap32(s.conn.expected + |d|))
  {
    StreamIntegrity.DepositSlot(s, s.rows[i].data);
  }

  lemma {:induction false} InboxKeeps(s: Slot)
    requires SlotOk(s)
    ensures SlotOk(FreshInbox(s)) && Pending(FreshInbox(s)) == Pending(s)
  {
  }

  lemma {:induction false} DrainTakes(s: Slot) returns (n: nat)
    requires SlotOk(s) && s.wayGen == s.gen && s.inUse
    ensures var e := DrainLoop(s);
      && Pending(s) <= Pending(e) && |Pending(e)| == |Pending(s)| + n && SlotOk(e) && e.wayGen == e.gen && e.inUse
      && e.conn == s.conn.(expected := Wrap32(s.conn.expected + n))
    decreases HeldCount(s.rows)
  {
    hide Wrap32, SlotOk, Pending, DeliverRow, Accepts;
    var i := FindHeld(s.rows, s.conn.expected, 0);
    n := 0;
    WrapSame(s.conn.expected);
    InboxKeeps(s);
    if i < MAX_PENDING && Accepts(FreshInbox(s), |s.rows[i].data|) {
      var d, t := s.rows[i].data, DeliverRow(s, i);
      DeliverTakes(s, i);
      HeldCountFree(s.rows, i);
      n := DrainTakes(t);
      WrapMore(s.conn.expected, |d|, n);
      n := |d| + n;
    }
  }

  lemma {:induction false} WrapSame(a: u32)
    ensures Wrap32(a + 0) == a
  {
  }

  lemma {:induction false} WrapMore(a: u32, d: nat, n: nat)
    ensures Wrap32(Wrap32(a + d) + n) == Wrap32(a + (d + n))
  {
  }

  /** No two rows hold segments that start at the same number. */
  predicate OneEach(rows: Rows) {
    forall i, j :: 0 <= i < j < MAX_PENDING && rows[i].Held? && rows[j].Held? ==> rows[i].seqNo != rows[j].seqNo
  }

  lemma {:induction false} DrainOneEach(s: Slot)
    requires OneEach(s.rows)
    ensures OneEach(DrainLoop(s).rows)
    decreases HeldCount(s.rows)
  {
    var i := FindHeld(s.rows, s.conn.expected, 0);
    if i < MAX_PENDING && Accepts(FreshInbox(s), |s.rows[i].data|) {
      HeldCountFree(s.rows, i);
      DrainOneEach(DeliverRow(s, i));
    }
  }

  lemma {:induction false} DrainLeavesNone(s: Slot)
    requires OneEach(s.rows)
    requires var e := DrainLoop(s); SlotOk(e) && e.wayGen == e.gen && e.inUse
    ensures var e := DrainLoop(s); NoneLeft(e, e.conn.expected)
  {
    StreamIntegrity.DrainComplete(s);
    DrainOneEach(s);
    hide DrainLoop, Wrap32;
    var e := DrainLoop(s);
    var k := FindHeld(e.rows, e.conn.expected, 0);
    assert forall i :: 0 <= i < MAX_PENDING && e.rows[i].Held? && e.rows[i].seqNo == e.conn.expected ==> i == k;
  }

  lemma {:induction false} DepositedSlot(s: Slot, data: Payload)
    requires SlotOk(s) && s.inUse && |Pending(s)| + |data| <= MAX_BUFFERED
    ensures var t := FreshWay(Advanced(s, data));
      && Accepts(FreshInbox(s), |data|)
      && SlotOk(t) && Pending(t) == Pending(s) + data && t.inUse && t.rows == Waiting(s) && t.wayGen == t.gen
      && t.conn == s.conn.(expected := Wrap32(s.conn.expected + |data|))
  {
    StreamIntegrity.DepositSlot(s, data);
  }

  lemma {:induction false} DataTakes(s: Slot, data: Payload) returns (n: nat)
    requires SlotOk(s) && s.inUse && |data| > 0 && |Pending(s)| + |data| <= MAX_BUFFERED && OneEach(Waiting(s))
    ensures var e := AfterData(s, data);
      Takes(s, e, data, n) && SlotOk(e) && e.conn == s.conn.(expected := Wrap32(s.conn.expected + n))
  {
    hide DrainLoop, Wrap32, SlotOk, Pending, Waiting, NoneLeft, OneEach, FreshInbox, Advanced, FreshWay, Accepts;
    DepositedSlot(s, data);
    var t := FreshWay(Advanced(s, data));
    n := DrainTakes(t);
    DrainLeavesNone(t);
    WrapMore(s.conn.expected, |data|, n);
    n := |data| + n;
  }

  lemma {:induction false} AckSlot(s: Slot, g: Segment, now: u32)
    requires SlotOk(s) && s.inUse && !LetsGo(s.conn, g, now)
    ensures var a := AfterAck(s, g, now);
      && SlotOk(a) && a.inUse && a.conn.expected == s.conn.expected
      && Pending(a) == Pending(s) && Waiting(a) == Waiting(s)
  {
  }

  lemma {:induction false} FinSlot(s: Slot, fin: bool, now: u32)
    ensures var f := AfterFin(s, fin, now);
      && Pending(f) == Pending(s) && Waiting(f) == Waiting(s)
      && (f.conn.expected == s.conn.expected || (fin && f.conn.expected == Wrap32(s.conn.expected + 1)))
  {
  }

  /** A segment at `expected` with data that fits is taken by `conversation_handle`. */
  lemma {:induction false} InOrderTakes(s: Slot, g: Segment, now: u32) returns (n: nat)
    requires SlotOk(s) && s.inUse && s.conn.status != SynSent && OneEach(Waiting(s))
    requires g.seqNo == s.conn.expected && !g.rst && !LetsGo(s.conn, g, now)
    requires |g.data| > 0 && |Pending(s)| + |g.data| <= MAX_BUFFERED
    ensures var s' := Handle(s, g, now);
      && Takes(s, s', g.data, n)
      && (!g.fin ==> s'.conn.expected == Wrap32(s.conn.expected + n))
      && (s'.conn.expected == Wrap32(s.conn.expected + n) || s'.conn.expected == Wrap32(s.conn.expected + n + 1))
  {
    hide SlotOk, AfterData, AfterAck, AfterFin, Pending, Waiting, OneEach, Wrap32, Handle;
    var w := s.(conn := s.conn.(peerWindow := g.window));
    WindowSlot(s, g.window);
    AckSlot(w, g, now);
    var a := AfterAck(w, g, now);
    n := DataTakes(a, g.data);
    FinSlot(AfterData(a, g.data), g.fin, now);
    WrapMore(s.conn.expected, n, 1);
    HandleAtExpected(s, g, now);
    TakesFrom(a, AfterData(a, g.data), s, Handle(s, g, now), g.data, n);
  }

  lemma {:induction false} WindowSlot(s: Slot, window: u16)
    requires SlotOk(s)
    ensures var w := s.(conn := s.conn.(peerWindow := window));
      SlotOk(w) && Pending(w) == Pending(s) && Waiting(w) == Waiting(s)
  {
  }

  lemma {:induction false} HandleAtExpected(s: Slot, g: Segment, now: u32)
    requires s.conn.status != SynSent && g.seqNo == s.conn.expected && !g.rst
    ensures var w := s.(conn := s.conn.(peerWindow := g.window));
      Handle(s, g, now) == AfterFin(AfterData(AfterAck(w, g, now), g.data), g.fin, now)
  {
    hide AfterData, AfterAck, AfterFin;
  }

  /** What is taken depends on the ring, the rows and `expected` alone. */
  lemma {:induction false} TakesFrom(a: Slot, a': Slot, b: Slot, b': Slot, data: Payload, n: nat)
    requires Takes(a, a', data, n) && a.conn.expected == b.conn.expected
    requires Pending(a) == Pending(b) && Pending(a') == Pending(b') && Waiting(a') == Waiting(b')
    ensures Takes(b, b', data, n)
  {
    hide Pending, Waiting, Wrap32;
  }

  predicate HoldsNumber(rows: Rows, seqNo: u32) {
    exists i :: 0 <= i < MAX_PENDING && rows[i].Held? && rows[i].seqNo == seqNo
  }

  /** A segment out of line is held exactly when it ends past `expected`, no row holds its
      number and one is free; apart from that row, nothing of the stream moves.  Numbers do
      not wrap here. */
  lemma {:induction false} EarlyExact(s: Slot, g: Segment, now: u32)
    requires s.conn.status != SynSent && g.seqNo != s.conn.expected
    requires 0 < |g.data| <= MAX_SEGMENT && g.seqNo + |g.data| < 0x1_0000_0000
    ensures var s', rows := Handle(s, g, now), Waiting(s);
      && Pending(s') == Pending(s) && s'.conn.expected == s.conn.expected && s'.inUse == s.inUse
      && if g.seqNo + |g.data| > s.conn.expected && !HoldsNumber(rows, g.seqNo) && Free in rows
         then exists f :: 0 <= f < MAX_PENDING && rows[f].Free? && Waiting(s') == rows[f := Held(g.seqNo, g.data)]
         else Waiting(s') == rows
  {
    var w, rows := s.(conn := s.conn.(peerWindow := g.window)), Waiting(s);
    assert Waiting(w) == rows && Pending(w) == Pending(s);
    var i, f := FindHeld(rows, g.seqNo, 0), FindFree(rows, 0);
    assert i < MAX_PENDING <==> HoldsNumber(rows, g.seqNo);
    assert f < MAX_PENDING <==> Free in rows;
  }

  /** The peer's window follows every segment, in line or not, except while our SYN is
      unanswered. */
  lemma {:induction false} WindowFollows(s: Slot, g: Segment, now: u32)
    requires SlotOk(s) && s.conn.status != SynSent
    ensures Handle(s, g, now).conn.peerWindow == g.window
  {
    var w := s.(conn := s.conn.(peerWindow := g.window));
    var a := AfterAck(w, g, now);
    DataKeepsConn(a, g.data);
    hide AfterData, IsStaleRetransmit;
  }

  lemma {:induction false} DrainKeepsConn(s: Slot)
    ensures DrainLoop(s).conn == s.conn.(expected := DrainLoop(s).conn.expected)
    decreases HeldCount(s.rows)
  {
    var i := FindHeld(s.rows, s.conn.expected, 0);
    if i < MAX_PENDING && Accepts(FreshInbox(s), |s.rows[i].data|) {
      HeldCountFree(s.rows, i);
      DrainKeepsConn(DeliverRow(s, i));
    }
  }

  lemma {:induction false} DataKeepsConn(s: Slot, data: Payload)
    ensures AfterData(s, data).conn == s.conn.(expected := AfterData(s, data).conn.expected)
  {
    DrainKeepsConn(FreshWay(Advanced(s, data)));
    hide DrainLoop;
  }

  /** A reset ends an open connection exactly when it stands at `expected`. */
  lemma {:induction false} ResetExact(s: Slot, g: Segment, now: u32)
    requires s.inUse && s.conn.status != SynSent && s.conn.status != Closed && g.rst
    ensures var s' := Handle(s, g, now);
      if g.seqNo == s.conn.expected then !s'.inUse && s'.conn.status == Closed
      else s'.inUse && s'.conn == s.conn.(peerWindow := g.window) && Pending(s') == Pending(s)
  {
    hide IsStaleRetransmit;
  }

  /** The advertised window is what fits beside the bytes buffered and held, and no more. */
  lemma {:induction false} WindowExact(s: Slot, n: nat)
    ensures n <= Window(s) <==> n == 0 || |Pending(s)| + HeldBytes(Waiting(s)) + n <= 4096
  {
    assert Touch(s).ring == Pending(s) && Touch(s).rows == Waiting(s);
  }

  // ----- over runs

  lemma {:induction false} DataOneEach(s: Slot, data: Payload)
    requires OneEach(Waiting(s))
    ensures OneEach(Waiting(AfterData(s, data)))
  {
    var t := FreshWay(Advanced(s, data));
    assert t.rows == Waiting(s);
    DrainOneEach(t);
    StreamIntegrity.DrainLooks(t);
    hide DrainLoop, Deposit, OneEach;
  }

  lemma {:induction false} HandleOneEach(s: Slot, g: Segment, now: u32)
    requires OneEach(Waiting(s))
    ensures OneEach(Waiting(Handle(s, g, now)))
  {
    var w := s.(conn := s.conn.(peerWindow := g.window));
    var a := AfterAck(w, g, now);
    assert Waiting(w) == Waiting(s) && Waiting(a) == Waiting(s);
    DataOneEach(a, g.data);
    HoldOneEach(w, g.seqNo, g.data);
    FinSlot(AfterData(a, g.data), g.fin, now);
    RstWaiting(s);
    RstWaiting(w);
    hide AfterData, AfterAck, AfterFin, OnRst, OneEach, Hold, Waiting, IsStaleRetransmit;
  }

  lemma {:induction false} RstWaiting(s: Slot)
    ensures Waiting(React(s, OnRst(s.conn))) == Waiting(s)
  {
  }

  lemma {:induction false} HoldOneEach(s: Slot, seqNo: u32, data: Payload)
    requires OneEach(Waiting(s))
    ensures OneEach(Waiting(Hold(s, seqNo, data)))
  {
  }

  lemma {:induction false} RowsStayDistinct(es: seq<Event>)
    requires NeverLapses(BOOT, es)
    ensures OneEach(Waiting(Run(BOOT, es).slot))
    decreases |es|
  {
    if es != [] {
      var before := es[..|es| - 1];
      forall n | 0 <= n <= |before| ensures NoLapse(Run(BOOT, before[..n]).slot) {
        assert before[..n] == es[..n];
      }
      RowsStayDistinct(before);
      assert es[..|es|] == es;
      var h := Run(BOOT, before);
      var chain := StreamIntegrity.RunGood(before);
      StepOneEach(h, es[|es| - 1]);
    }
  }

  lemma {:induction false} StepOneEach(h: History, e: Event)
    requires SlotOk(h.slot) && OneEach(Waiting(h.slot)) && NoLapse(Apply(h, e).slot)
    ensures OneEach(Waiting(Apply(h, e).slot))
  {
    hide Handle, OnSyn, OnSynAck, OnAck, OnFin, OnRst, OnTick, InitiateConnect, InitiateClose;
    if e.Arrive? { HandleOneEach(h.slot, e.segment, e.now); }
  }

  /** In every reachable state of an open connection, a segment at `expected` with data that
      fits moves `expected` on by at least its length, and afterwards no held segment starts
      there unless the Inbox has no room for it. */
  lemma {:induction false} ArrivalTakes(es: seq<Event>, g: Segment, now: u32) returns (n: nat)
    requires NeverLapses(BOOT, es)
    requires var s := Run(BOOT, es).slot;
      && s.conn.status != SynSent && s.conn.status != Closed && !LetsGo(s.conn, g, now)
      && g.seqNo == s.conn.expected && !g.rst && |g.data| > 0 && |Pending(s)| + |g.data| <= MAX_BUFFERED
    ensures var s, s' := Run(BOOT, es).slot, Run(BOOT, es + [Arrive(g, now)]).slot;
      && Takes(s, s', g.data, n)
      && (!g.fin ==> s'.conn.expected == Wrap32(s.conn.expected + n))
      && (s'.conn.expected == Wrap32(s.conn.expected + n) || s'.conn.expected == Wrap32(s.conn.expected + n + 1))
  {
    var chain := StreamIntegrity.RunGood(es);
    RowsStayDistinct(es);
    StreamIntegrity.RunSnoc(BOOT, es, Arrive(g, now));
    hide NeverLapses, Handle, Takes, OneEach, Run;
    n := InOrderTakes(Run(BOOT, es).slot, g, now);
  }
}
