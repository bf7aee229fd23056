/** The peer's stream cut into segments that arrive in any order, again and again, interleaved
    with everything else that happens to the slot: as long as the peer keeps to the advertised
    window and a row is free for what comes early, all bytes before the first missing piece
    are delivered or buffered.  The exact condition is that no piece starts past the wrap of
    the sequence numbers. */
module StreamDelivery {
  import opened Words
  import opened Rapport
  import opened ReceiveModel
  import Delivery
  import StreamIntegrity

  /** A stream whose first byte has number `base`, and where it is cut. */
  datatype Cut = Cut(stream: seq<u8>, base: u32, at: seq<nat>) {
    predicate Valid() {
      && |at| >= 2 && at[0] == 0 && at[|at| - 1] == |stream| < 0x1_0000_0000
      && (forall i :: 0 <= i < |at| - 1 ==> at[i] < at[i + 1] <= at[i] + MAX_SEGMENT)
    }

    function Count(): nat
      requires Valid()
    {
      |at| - 1
    }

    /** The sequence number of the first byte of piece `i`, or after the last piece. */
    function Number(i: nat): u32
      requires Valid() && i <= Count()
    {
      Wrap32(base + at[i])
    }

    function Data(i: nat): Payload
      requires Valid() && i < Count()
    {
      InBounds(this, i);
      stream[at[i]..at[i + 1]]
    }
  }

  lemma {:induction false} Increasing(c: Cut, i: nat, j: nat)
    requires c.Valid() && i <= j <= c.Count()
    ensures c.at[i] <= c.at[j] <= |c.stream| && (i < j ==> c.at[i] < c.at[j])
    decreases c.Count() - i
  {
    if i < j { Increasing(c, i + 1, j); } else if j < c.Count() { Increasing(c, i + 1, j + 1); }
  }

  lemma {:induction false} InBounds(c: Cut, i: nat)
    requires c.Valid() && i < c.Count()
    ensures c.at[i] < c.at[i + 1] <= |c.stream| && c.at[i + 1] <= c.at[i] + MAX_SEGMENT
  {
    Increasing(c, i, i + 1);
  }

  lemma {:induction false} SameNumber(base: u32, a: nat, b: nat)
    requires a < 0x1_0000_0000 && b < 0x1_0000_0000 && Wrap32(base + a) == Wrap32(base + b)
    ensures a == b
  {
  }

  lemma {:induction false} NumbersDiffer(c: Cut, i: nat, j: nat)
    requires c.Valid() && i <= c.Count() && j <= c.Count() && c.Number(i) == c.Number(j)
    ensures i == j
  {
    hide Wrap32;
    if i < j { Increasing(c, i, j); Increasing(c, j, j); } else { Increasing(c, j, i); Increasing(c, i, i); }
    SameNumber(c.base, c.at[i], c.at[j]);
  }

  /** The first piece from `i` on that is not in `got`. */
  function Missing(c: Cut, got: set<nat>, i: nat): (m: nat)
    requires c.Valid() && i <= c.Count()
    ensures i <= m <= c.Count() && (m < c.Count() ==> m !in got) && forall j :: i <= j < m ==> j in got
    decreases c.Count() - i
  {
    if i == c.Count() || i !in got then i else Missing(c, got, i + 1)
  }

  // ----- the rows

  /** `who[k]` is the piece that row `k` holds, or -1. */
  type Who = w: seq<int> | |w| == MAX_PENDING witness [-1, -1, -1, -1]

  function RowOf(c: Cut, j: int): Row
    requires c.Valid() && j < c.Count()
  {
    if j < 0 then Free else Held(c.Number(j), c.Data(j))
  }

  /** The rows hold the pieces of `got` from `m` on, each once, and nothing else. */
  ghost predicate RowsHold(c: Cut, rows: Rows, who: Who, got: set<nat>, m: nat)
    requires c.Valid()
  {
    && (forall k :: 0 <= k < MAX_PENDING ==> who[k] < c.Count() && rows[k] == RowOf(c, who[k]))
    && (forall k, l :: 0 <= k < l < MAX_PENDING && who[k] >= 0 ==> who[k] != who[l])
    && (forall k :: 0 <= k < MAX_PENDING && who[k] >= 0 ==> who[k] in got && m <= who[k])
    && (forall j :: j in got && m <= j < c.Count() ==> j in who)
  }

  lemma {:induction false} HeldBytesSet(rows: seq<Row>, i: nat, r: Row)
    requires i < |rows|
    ensures HeldBytes(rows[i := r]) == HeldBytes(rows)
      - (if rows[i].Held? then |rows[i].data| else 0) + (if r.Held? then |r.data| else 0)
  {
    if i > 0 {
      assert rows[i := r][1..] == rows[1..][i - 1 := r];
      HeldBytesSet(rows[1..], i - 1, r);
    }
  }

  /** The row that is next in line, if the piece has arrived. */
  lemma {:induction false} NextRow(c: Cut, rows: Rows, who: Who, got: set<nat>, m: nat)
    requires c.Valid() && m <= c.Count() && RowsHold(c, rows, who, got, m)
    ensures var i := FindHeld(rows, c.Number(m), 0);
      && (i < MAX_PENDING <==> m < c.Count() && m in got)
      && (i < MAX_PENDING ==> who[i] == m && rows[i].data == c.Data(m))
  {
    hide Wrap32;
    if m < c.Count() && m in got {
      var k :| 0 <= k < MAX_PENDING && who[k] == m;
      assert rows[k] == RowOf(c, m);
    }
    var i := FindHeld(rows, c.Number(m), 0);
    if i < MAX_PENDING { NumbersDiffer(c, who[i], m); }
  }

  lemma {:induction false} FreeNext(c: Cut, rows: Rows, who: Who, got: set<nat>, m: nat, i: nat)
    requires c.Valid() && m < c.Count() && RowsHold(c, rows, who, got, m) && i < MAX_PENDING && who[i] == m
    ensures RowsHold(c, rows[i := Free], who[i := -1], got, m + 1)
  {
    hide Wrap32;
    var who' := who[i := -1];
    forall j | j in got && m + 1 <= j < c.Count() ensures j in who' {
      var k :| 0 <= k < MAX_PENDING && who[k] == j;
      assert who'[k] == j;
    }
  }

  lemma {:induction false} HoldNew(c: Cut, rows: Rows, who: Who, got: set<nat>, m: nat, f: nat, j: nat)
    requires c.Valid() && RowsHold(c, rows, who, got, m) && f < MAX_PENDING && rows[f].Free?
    requires m <= j < c.Count() && j !in got
    ensures RowsHold(c, rows[f := Held(c.Number(j), c.Data(j))], who[f := j], got + {j}, m)
  {
    hide Wrap32;
    var who' := who[f := j];
    assert forall k :: 0 <= k < MAX_PENDING && who[k] >= 0 ==> who[k] in got;
    forall i | i in got + {j} && m <= i < c.Count() ensures i in who' {
      if i == j {
        assert who'[f] == j;
      } else {
        var k :| 0 <= k < MAX_PENDING && who[k] == i;
        assert who'[k] == i;
      }
    }
  }

  // ----- the drain

  function Between(c: Cut, m: nat, n: nat): seq<u8>
    requires c.Valid() && m <= n <= c.Count()
  {
    Increasing(c, m, n);
    c.stream[c.at[m]..c.at[n]]
  }

  lemma {:induction false} BetweenOne(c: Cut, m: nat, n: nat)
    requires c.Valid() && m < n <= c.Count()
    ensures Between(c, m, n) == c.Data(m) + Between(c, m + 1, n)
  {
    InBounds(c, m);
    Increasing(c, m + 1, n);
  }

  lemma {:induction false} NumberNext(c: Cut, m: nat)
    requires c.Valid() && m < c.Count()
    ensures c.Number(m + 1) == Wrap32(c.Number(m) + |c.Data(m)|)
  {
    InBounds(c, m);
    Delivery.WrapMore(c.base, c.at[m], |c.Data(m)|);
  }

  /** A slot that waits for piece `m` and holds the pieces of `got` from there on. */
  ghost predicate WaitsFor(c: Cut, s: Slot, who: Who, got: set<nat>, m: nat)
    requires c.Valid() && m <= c.Count()
  {
    && SlotOk(s) && s.inUse && s.wayGen == s.gen
    && s.conn.expected == c.Number(m) && RowsHold(c, s.rows, who, got, m)
    && |Pending(s)| + HeldBytes(s.rows) <= MAX_BUFFERED
  }

  lemma {:induction false} DeliverNext(c: Cut, s: Slot, who: Who, got: set<nat>, m: nat, i: nat)
    requires c.Valid() && m < c.Count() && WaitsFor(c, s, who, got, m)
    requires i < MAX_PENDING && who[i] == m
    ensures s.rows[i].Held? && Accepts(FreshInbox(s), |s.rows[i].data|)
    ensures var t := DeliverRow(s, i);
      WaitsFor(c, t, who[i := -1], got, m + 1) && Pending(t) == Pending(s) + c.Data(m)
        && t.conn == s.conn.(expected := t.conn.expected)
  {
    FreeNext(c, s.rows, who, got, m, i);
    HeldBytesSet(s.rows, i, Free);
    NumberNext(c, m);
    hide RowsHold, Wrap32, HeldBytes;
    assert s.rows[i] == RowOf(c, m) by { RowAt(c, s.rows, who, got, m, i); }
    StreamIntegrity.DepositSlot(s, s.rows[i].data);
  }

  lemma {:induction false} RowAt(c: Cut, rows: Rows, who: Who, got: set<nat>, m: nat, i: nat)
    requires c.Valid() && RowsHold(c, rows, who, got, m) && i < MAX_PENDING
    ensures who[i] < c.Count() && rows[i] == RowOf(c, who[i])
  {
  }

  /** One turn of the drain loop. */
  lemma {:induction false} DrainTurn(c: Cut, s: Slot, who: Who, got: set<nat>, m: nat) returns (i: nat)
    requires c.Valid() && m <= c.Count() && WaitsFor(c, s, who, got, m)
    ensures !(m < c.Count() && m in got) ==> DrainLoop(s) == s
    ensures m < c.Count() && m in got ==>
      && i < MAX_PENDING && s.rows[i].Held? && DrainLoop(s) == DrainLoop(DeliverRow(s, i))
      && WaitsFor(c, DeliverRow(s, i), who[i := -1], got, m + 1)
      && Pending(DeliverRow(s, i)) == Pending(s) + c.Data(m)
      && DeliverRow(s, i).conn == s.conn.(expected := DeliverRow(s, i).conn.expected)
  {
    NextRow(c, s.rows, who, got, m);
    i := FindHeld(s.rows, s.conn.expected, 0);
    if i < MAX_PENDING {
      HeldCountFree(s.rows, i);
      DeliverNext(c, s, who, got, m, i);
    }
    hide RowsHold, Wrap32, HeldBytes, SlotOk, Pending, DeliverRow, WaitsFor;
  }

  lemma {:induction false} DrainAll(c: Cut, s: Slot, who: Who, got: set<nat>, m: nat) returns (who': Who)
    requires c.Valid() && m <= c.Count() && WaitsFor(c, s, who, got, m)
    ensures var e, n := DrainLoop(s), Missing(c, got, m);
      && WaitsFor(c, e, who', got, n) && Pending(e) == Pending(s) + Between(c, m, n)
      && e.conn == s.conn.(expected := e.conn.expected)
    decreases c.Count() - m
  {
    hide WaitsFor, Wrap32, Pending, DeliverRow, DrainLoop, RowsHold, Between;
    who' := who;
    var i := DrainTurn(c, s, who, got, m);
    if m < c.Count() && m in got {
      var t, n := DeliverRow(s, i), Missing(c, got, m);
      who' := DrainAll(c, t, who[i := -1], got, m + 1);
      BetweenOne(c, m, n);
      Joined(Pending(s), c.Data(m), Between(c, m + 1, n));
    } else {
      BetweenNone(c, m);
    }
  }

  lemma {:induction false} Joined(a: seq<u8>, b: seq<u8>, d: seq<u8>)
    ensures a + b + d == a + (b + d)
  {
  }

  lemma {:induction false} BetweenNone(c: Cut, m: nat)
    requires c.Valid() && m <= c.Count()
    ensures Between(c, m, m) == []
  {
    Increasing(c, m, m);
  }

  // ----- steps

  /** Piece `i` arrives; or a segment without data; or anything else that happens to a slot. */
  datatype Step =
    | Take(i: nat, ack: Option<u32>, window: u16, now: u32)
    | Bare(seqNo: u32, ack: Option<u32>, window: u16, now: u32)
    | Other(event: Event)

  function PieceOf(c: Cut, i: nat, ack: Option<u32>, window: u16): Segment
    requires c.Valid() && i < c.Count()
  {
    Segment(c.Number(i), c.Data(i), ack, false, false, window)
  }

  /** A piece that has not arrived yet fits the window the receiver would advertise, and one
      that comes early finds a row; no reset comes, and the scheduler does not give up. */
  predicate AllowedStep(c: Cut, s: Slot, got: set<nat>, e: Step)
    requires c.Valid()
  {
    match e
    case Take(i, _, _, _) =>
      && i < c.Count()
      && (i in got || (|c.Data(i)| <= Window(s) && (i == Missing(c, got, 0) || Free in Waiting(s))))
    case Bare(_, _, _, _) => true
    case Other(event) => !event.Arrive? && !event.GiveUp?
  }

  function EventOf(c: Cut, e: Step): Event
    requires c.Valid() && (e.Take? ==> e.i < c.Count())
  {
    match e
    case Take(i, ack, window, now) => Arrive(PieceOf(c, i, ack, window), now)
    case Bare(seqNo, ack, window, now) => Arrive(Segment(seqNo, [], ack, false, false, window), now)
    case Other(event) => event
  }

  function GotWith(got: set<nat>, e: Step): set<nat> { if e.Take? then got + {e.i} else got }

  predicate AllowedRun(c: Cut, h: History, got: set<nat>, es: seq<Step>)
    requires c.Valid()
    decreases |es|
  {
    es == [] ||
    (AllowedStep(c, h.slot, got, es[0])
     && AllowedRun(c, Apply(h, EventOf(c, es[0])), GotWith(got, es[0]), es[1..]))
  }

  function RunSteps(c: Cut, h: History, got: set<nat>, es: seq<Step>): History
    requires c.Valid() && AllowedRun(c, h, got, es)
    decreases |es|
  {
    if es == [] then h else RunSteps(c, Apply(h, EventOf(c, es[0])), GotWith(got, es[0]), es[1..])
  }

  function GotAfter(got: set<nat>, es: seq<Step>): set<nat>
    decreases |es|
  {
    if es == [] then got else GotAfter(GotWith(got, es[0]), es[1..])
  }

  predicate Open(status: Status) {
    status == SynReceived || status == Established || status == FinWait1 || status == FinWait2
  }

  ghost predicate In(c: Cut, h: History, got: set<nat>, who: Who)
    requires c.Valid()
  {
    var s, m := h.slot, Missing(c, got, 0);
    && SlotOk(s) && s.inUse && Open(s.conn.status) && s.conn.expected == c.Number(m)
    && h.delivered + Pending(s) == Between(c, 0, m)
    && (m < c.Count() ==>
          RowsHold(c, Waiting(s), who, got, m) && |Pending(s)| + HeldBytes(Waiting(s)) <= MAX_BUFFERED)
  }

  /** `t` differs from `s` in nothing that matters to the stream. */
  ghost predicate Alike(s: Slot, t: Slot) {
    && SlotOk(t) && t.inUse && Open(t.conn.status) && t.conn.expected == s.conn.expected
    && Pending(t) == Pending(s) && Waiting(t) == Waiting(s)
  }

  lemma {:induction false} MissingIs(c: Cut, got: set<nat>, i: nat, m: nat)
    requires c.Valid() && i <= m <= c.Count() && (m < c.Count() ==> m !in got)
    requires forall j :: i <= j < m ==> j in got
    ensures Missing(c, got, i) == m
    decreases m - i
  {
    if i < m { MissingIs(c, got, i + 1, m); }
  }

  /** Acks move an open connection to an open one and let go of nothing. */
  lemma {:induction false} AckAlike(s: Slot, g: Segment, now: u32)
    requires SlotOk(s) && s.inUse && Open(s.conn.status)
    ensures Alike(s, AfterAck(s, g, now)) && !Delivery.LetsGo(s.conn, g, now)
  {
  }

  lemma {:induction false} WindowAlike(s: Slot, window: u16)
    requires SlotOk(s) && s.inUse && Open(s.conn.status)
    ensures Alike(s, s.(conn := s.conn.(peerWindow := window)))
  {
  }

  // ----- the piece in line

  lemma {:induction false} Deposited(c: Cut, a: Slot, who: Who, got: set<nat>, m: nat)
    requires c.Valid() && m < c.Count() && m !in got && SlotOk(a) && a.inUse && a.conn.expected == c.Number(m)
    requires RowsHold(c, Waiting(a), who, got, m)
    requires |Pending(a)| + HeldBytes(Waiting(a)) + |c.Data(m)| <= MAX_BUFFERED
    ensures var t := FreshWay(Advanced(a, c.Data(m)));
      && Accepts(FreshInbox(a), |c.Data(m)|) && Pending(t) == Pending(a) + c.Data(m)
      && WaitsFor(c, t, who, got + {m}, m + 1) && t.conn == a.conn.(expected := t.conn.expected)
  {
    Delivery.DepositedSlot(a, c.Data(m));
    NumberNext(c, m);
    assert RowsHold(c, Waiting(a), who, got + {m}, m + 1);
    hide RowsHold, SlotOk, Pending, HeldBytes, FreshInbox, Advanced, FreshWay, Wrap32;
  }

  lemma {:induction false} DataInLine(c: Cut, a: Slot, who: Who, got: set<nat>, m: nat) returns (who': Who)
    requires c.Valid() && m < c.Count() && m !in got && SlotOk(a) && a.inUse && a.conn.expected == c.Number(m)
    requires RowsHold(c, Waiting(a), who, got, m)
    requires |Pending(a)| + HeldBytes(Waiting(a)) + |c.Data(m)| <= MAX_BUFFERED
    ensures var e, n := AfterData(a, c.Data(m)), Missing(c, got + {m}, m + 1);
      && WaitsFor(c, e, who', got + {m}, n) && Pending(e) == Pending(a) + Between(c, m, n)
      && e.conn == a.conn.(expected := e.conn.expected)
  {
    hide RowsHold, WaitsFor, SlotOk, Pending, HeldBytes, FreshInbox, Advanced, FreshWay, DrainLoop, Wrap32, Between;
    Deposited(c, a, who, got, m);
    InBounds(c, m);
    var t, n := FreshWay(Advanced(a, c.Data(m))), Missing(c, got + {m}, m + 1);
    who' := DrainAll(c, t, who, got + {m}, m + 1);
    BetweenOne(c, m, n);
    Joined(Pending(a), c.Data(m), Between(c, m + 1, n));
  }

  lemma {:induction false} MissingGrows(c: Cut, got: set<nat>, m: nat)
    requires c.Valid() && m == Missing(c, got, 0) < c.Count()
    ensures Missing(c, got + {m}, 0) == Missing(c, got + {m}, m + 1)
  {
    MissingIs(c, got + {m}, 0, Missing(c, got + {m}, m + 1));
  }

  lemma {:induction false} BetweenJoin(c: Cut, m: nat, n: nat)
    requires c.Valid() && m <= n <= c.Count()
    ensures Between(c, 0, n) == Between(c, 0, m) + Between(c, m, n)
  {
    Increasing(c, 0, m);
    Increasing(c, m, n);
  }

  /** What `conversation_handle` makes of the piece in line. */
  lemma {:induction false} HandleInLine(s: Slot, g: Segment, now: u32)
    requires s.conn.status != SynSent && g.seqNo == s.conn.expected && !g.rst && !g.fin
    ensures var w := s.(conn := s.conn.(peerWindow := g.window));
      Handle(s, g, now) == AfterData(AfterAck(w, g, now), g.data)
  {
    hide AfterData, AfterAck;
  }

  lemma {:induction false} TakeInLine(c: Cut, h: History, got: set<nat>, who: Who, g: Segment, now: u32)
    returns (who': Who)
    requires c.Valid() && In(c, h, got, who) && Missing(c, got, 0) < c.Count()
    requires var m := Missing(c, got, 0); g == PieceOf(c, m, g.ack, g.window) && |c.Data(m)| <= Window(h.slot)
    ensures In(c, Apply(h, Arrive(g, now)), got + {Missing(c, got, 0)}, who')
  {
    hide RowsHold, SlotOk, Pending, Waiting, HeldBytes, AfterData, AfterAck, Wrap32, Between, Missing, Window;
    var s, m := h.slot, Missing(c, got, 0);
    var w := s.(conn := s.conn.(peerWindow := g.window));
    var a := AfterAck(w, g, now);
    WindowAlike(s, g.window);
    AckAlike(w, g, now);
    HandleInLine(s, g, now);
    InBounds(c, m);
    Delivery.WindowExact(s, |c.Data(m)|);
    who' := DataInLine(c, a, who, got, m);
    MissingGrows(c, got, m);
    var n, e := Missing(c, got + {m}, m + 1), AfterData(a, c.Data(m));
    BetweenJoin(c, m, n);
    Joined(h.delivered, Pending(s), Between(c, m, n));
    WaitingIs(c, e, who', got + {m}, n);
  }

  lemma {:induction false} WaitingIs(c: Cut, s: Slot, who: Who, got: set<nat>, m: nat)
    requires c.Valid() && m <= c.Count() && WaitsFor(c, s, who, got, m)
    ensures Waiting(s) == s.rows && SlotOk(s) && s.inUse && s.conn.expected == c.Number(m)
    ensures RowsHold(c, Waiting(s), who, got, m) && |Pending(s)| + HeldBytes(Waiting(s)) <= MAX_BUFFERED
  {
  }

  // ----- pieces out of line

  /** No piece starts past the wrap of the sequence numbers. */
  predicate NoWrap(c: Cut)
    requires c.Valid()
  {
    c.base + c.at[c.Count() - 1] < 0x1_0000_0000
  }

  lemma {:induction false} PlainNumber(c: Cut, i: nat)
    requires c.Valid() && NoWrap(c) && i < c.Count()
    ensures c.Number(i) == c.base + c.at[i]
  {
    Increasing(c, i, c.Count() - 1);
  }

  /** The stale test tells the pieces behind from the pieces ahead. */
  lemma {:induction false} StaleIsBehind(c: Cut, k: Conn, i: nat, m: nat)
    requires c.Valid() && NoWrap(c) && i < c.Count() && m < c.Count() && i != m && k.expected == c.Number(m)
    ensures IsStaleRetransmit(k, c.Number(i), |c.Data(i)|) <==> i < m
  {
    PlainNumber(c, i);
    PlainNumber(c, m);
    InBounds(c, i);
    if i < m {
      Increasing(c, i + 1, m);
      PlainNumber(c, m);
    } else {
      Increasing(c, m, i);
    }
  }

  lemma {:induction false} HandleEarly(s: Slot, g: Segment, now: u32)
    requires s.conn.status != SynSent && g.seqNo != s.conn.expected
    ensures var w := s.(conn := s.conn.(peerWindow := g.window));
      Handle(s, g, now) ==
        if IsStaleRetransmit(s.conn, g.seqNo, |g.data|) || |g.data| == 0 then w else Hold(w, g.seqNo, g.data)
  {
    hide Hold;
  }

  /** Holding a segment, or not, touches the rows alone. */
  lemma {:induction false} HoldSlot(s: Slot, seqNo: u32, data: Payload)
    requires SlotOk(s) && 0 < |data| <= MAX_SEGMENT
    ensures var t := Hold(s, seqNo, data);
      && SlotOk(t) && t.inUse == s.inUse && t.conn == s.conn && Pending(t) == Pending(s)
      && Waiting(t) == (if FindHeld(Waiting(s), seqNo, 0) < MAX_PENDING || FindFree(Waiting(s), 0) == MAX_PENDING
                        then Waiting(s) else Waiting(s)[FindFree(Waiting(s), 0) := Held(seqNo, data)])
  {
  }

  lemma {:induction false} KnownRow(c: Cut, rows: Rows, who: Who, got: set<nat>, m: nat, i: nat)
    requires c.Valid() && m <= c.Count() && RowsHold(c, rows, who, got, m) && m <= i < c.Count()
    ensures FindHeld(rows, c.Number(i), 0) < MAX_PENDING <==> i in got
  {
    hide Wrap32;
    if i in got {
      var k :| 0 <= k < MAX_PENDING && who[k] == i;
      assert rows[k] == RowOf(c, i);
    }
    var f := FindHeld(rows, c.Number(i), 0);
    if f < MAX_PENDING { NumbersDiffer(c, who[f], i); }
  }

  lemma {:induction false} TakeEarly(c: Cut, h: History, got: set<nat>, who: Who, i: nat, g: Segment, now: u32)
    returns (who': Who)
    requires c.Valid() && NoWrap(c) && In(c, h, got, who) && Missing(c, got, 0) < i < c.Count() && i !in got
    requires g == PieceOf(c, i, g.ack, g.window)
    requires |c.Data(i)| <= Window(h.slot) && Free in Waiting(h.slot)
    ensures In(c, Apply(h, Arrive(g, now)), got + {i}, who')
  {
    hide RowsHold, SlotOk, Pending, Waiting, HeldBytes, Wrap32, Between, Missing, Window, Hold, IsStaleRetransmit,
      Handle;
    var s, m := h.slot, Missing(c, got, 0);
    var w := s.(conn := s.conn.(peerWindow := g.window));
    WindowAlike(s, g.window);
    if c.Number(i) == c.Number(m) { NumbersDiffer(c, i, m); }
    StaleIsBehind(c, s.conn, i, m);
    InBounds(c, i);
    HandleEarly(s, g, now);
    HoldSlot(w, g.seqNo, g.data);
    KnownRow(c, Waiting(s), who, got, m, i);
    var f := FindFree(Waiting(s), 0);
    HoldNew(c, Waiting(s), who, got, m, f, i);
    HeldBytesSet(Waiting(s), f, Held(g.seqNo, g.data));
    Delivery.WindowExact(s, |c.Data(i)|);
    who' := who[f := i];
    MissingStays(c, got, i);
  }

  lemma {:induction false} MissingStays(c: Cut, got: set<nat>, i: nat)
    requires c.Valid() && i != Missing(c, got, 0)
    ensures Missing(c, got + {i}, 0) == Missing(c, got, 0)
  {
    MissingIs(c, got + {i}, 0, Missing(c, got, 0));
  }

  /** A piece that has arrived already changes nothing of the stream. */
  lemma {:induction false} TakeAgain(c: Cut, h: History, got: set<nat>, who: Who, i: nat, g: Segment, now: u32)
    requires c.Valid() && NoWrap(c) && In(c, h, got, who) && i < c.Count() && i in got
    requires g == PieceOf(c, i, g.ack, g.window)
    ensures In(c, Apply(h, Arrive(g, now)), got, who)
  {
    hide RowsHold, SlotOk, Pending, Waiting, HeldBytes, Wrap32, Between, Missing, Hold, IsStaleRetransmit, Handle;
    var s, m := h.slot, Missing(c, got, 0);
    var w := s.(conn := s.conn.(peerWindow := g.window));
    WindowAlike(s, g.window);
    if c.Number(i) == c.Number(m) { NumbersDiffer(c, i, m); }
    InBounds(c, i);
    HandleEarly(s, g, now);
    HoldSlot(w, g.seqNo, g.data);
    if m < c.Count() {
      StaleIsBehind(c, s.conn, i, m);
      if m < i { KnownRow(c, Waiting(s), who, got, m, i); }
    }
  }

  // ----- everything else

  lemma {:induction false} TakeBare(c: Cut, h: History, got: set<nat>, who: Who, g: Segment, now: u32)
    requires c.Valid() && In(c, h, got, who) && g.data == [] && !g.rst && !g.fin
    ensures In(c, Apply(h, Arrive(g, now)), got, who)
  {
    hide RowsHold, SlotOk, Pending, Waiting, HeldBytes, Wrap32, Between, Missing, Hold, IsStaleRetransmit, Handle,
      AfterAck;
    var s := h.slot;
    var w := s.(conn := s.conn.(peerWindow := g.window));
    WindowAlike(s, g.window);
    AckAlike(w, g, now);
    if g.seqNo == s.conn.expected { HandleInLine(s, g, now); } else { HandleEarly(s, g, now); }
  }

  lemma {:induction false} ReadSlot(s: Slot, max: nat)
    requires SlotOk(s)
    ensures var t := AfterRead(s, max);
      && SlotOk(t) && t.inUse == s.inUse && t.conn == s.conn && Waiting(t) == Waiting(s)
      && Pending(s) == ReadBytes(s, max) + Pending(t) && (max >= |Pending(s)| ==> Pending(t) == [])
  {
  }

  lemma {:induction false} OtherIn(c: Cut, h: History, got: set<nat>, who: Who, e: Event)
    requires c.Valid() && In(c, h, got, who) && !e.Arrive? && !e.GiveUp?
    ensures In(c, Apply(h, e), got, who)
  {
    var s := h.slot;
    if e.Read? {
      hide RowsHold, SlotOk, Pending, Waiting, HeldBytes, Between, Missing, AfterRead, ReadBytes;
      ReadSlot(s, e.max);
      Joined(h.delivered, ReadBytes(s, e.max), Pending(AfterRead(s, e.max)));
    } else {
      OtherAlike(h, e);
      hide RowsHold, SlotOk, Pending, Waiting, HeldBytes, Between, Missing, Apply;
    }
  }

  lemma {:induction false} OtherAlike(h: History, e: Event)
    requires SlotOk(h.slot) && h.slot.inUse && Open(h.slot.conn.status) && !e.Arrive? && !e.GiveUp? && !e.Read?
    ensures Alike(h.slot, Apply(h, e).slot) && Apply(h, e).delivered == h.delivered
  {
  }

  lemma {:induction false} StepIn(c: Cut, h: History, got: set<nat>, who: Who, e: Step) returns (who': Who)
    requires c.Valid() && NoWrap(c) && In(c, h, got, who) && AllowedStep(c, h.slot, got, e)
    ensures In(c, Apply(h, EventOf(c, e)), GotWith(got, e), who')
  {
    hide In, Apply, Missing, Window, Waiting;
    who' := who;
    match e
    case Take(i, ack, window, now) =>
      var g := PieceOf(c, i, ack, window);
      if i in got {
        assert got + {i} == got;
        TakeAgain(c, h, got, who, i, g, now);
      } else if i == Missing(c, got, 0) {
        who' := TakeInLine(c, h, got, who, g, now);
      } else {
        MissingFirst(c, got, i);
        who' := TakeEarly(c, h, got, who, i, g, now);
      }
    case Bare(seqNo, ack, window, now) =>
      TakeBare(c, h, got, who, Segment(seqNo, [], ack, false, false, window), now);
    case Other(event) => OtherIn(c, h, got, who, event);
  }

  lemma {:induction false} MissingFirst(c: Cut, got: set<nat>, i: nat)
    requires c.Valid() && i < c.Count() && i !in got
    ensures Missing(c, got, 0) <= i
  {
  }

  lemma {:induction false} RunIn(c: Cut, h: History, got: set<nat>, who: Who, es: seq<Step>) returns (who': Who)
    requires c.Valid() && NoWrap(c) && In(c, h, got, who) && AllowedRun(c, h, got, es)
    ensures In(c, RunSteps(c, h, got, es), GotAfter(got, es), who')
    decreases |es|
  {
    hide In, Apply, Missing, Window, Waiting, NoWrap;
    who' := who;
    if es != [] {
      var w := StepIn(c, h, got, who, es[0]);
      who' := RunIn(c, Apply(h, EventOf(c, es[0])), GotWith(got, es[0]), w, es[1..]);
    }
  }

  // ----- the law

  /** A connection whose stream starts at the base of the cut, nothing taken yet. */
  ghost predicate Starts(c: Cut, h: History) {
    && SlotOk(h.slot) && h.slot.inUse && Open(h.slot.conn.status) && StreamIntegrity.StartsClean(h.slot)
    && h.slot.conn.expected == h.base == c.base && h.delivered == []
  }

  /** What is delivered or buffered is the stream up to its first missing piece, and that is
      where `expected` stands. */
  ghost predicate Available(c: Cut, h: History, got: set<nat>)
    requires c.Valid()
  {
    var m := Missing(c, got, 0);
    h.slot.conn.expected == c.Number(m) && h.delivered + Pending(h.slot) == Between(c, 0, m)
  }

  ghost predicate Law(c: Cut)
    requires c.Valid()
  {
    forall h, es :: Starts(c, h) && AllowedRun(c, h, {}, es) ==> Available(c, RunSteps(c, h, {}, es), GotAfter({}, es))
  }

  const NOBODY: Who := [-1, -1, -1, -1]

  lemma {:induction false} StartIn(c: Cut, h: History)
    requires c.Valid() && Starts(c, h)
    ensures In(c, h, {}, NOBODY)
  {
    BetweenNone(c, 0);
    FreeHolds(c, Waiting(h.slot), 0);
  }

  /** Free rows hold nothing. */
  lemma {:induction false} FreeHolds(c: Cut, rows: Rows, m: nat)
    requires c.Valid() && AllFree(rows)
    ensures RowsHold(c, rows, NOBODY, {}, m) && HeldBytes(rows) == 0 && Free in rows
  {
    NoHeldBytes(rows);
    assert rows[0] == Free;
  }

  lemma {:induction false} NoHeldBytes(rows: seq<Row>)
    requires forall i :: 0 <= i < |rows| ==> rows[i].Free?
    ensures HeldBytes(rows) == 0
  {
    if rows != [] { NoHeldBytes(rows[1..]); }
  }

  // ----- past the wrap

  /** Pieces `j` to `n - 1` in order, each read out at once. */
  function InLine(j: nat, n: nat): seq<Step>
    decreases n - j
  {
    if j >= n then [] else [Take(j, None, 0, 0), Other(Read(MAX_BUFFERED))] + InLine(j + 1, n)
  }

  /** A clean slot that waits for piece `j`. */
  ghost predicate Clean(c: Cut, s: Slot, j: nat)
    requires c.Valid() && j <= c.Count()
  {
    && SlotOk(s) && s.inUse && Open(s.conn.status) && s.conn.expected == c.Number(j)
    && Pending(s) == [] && AllFree(Waiting(s))
  }

  lemma {:induction false} CleanAllows(c: Cut, s: Slot, j: nat, i: nat)
    requires c.Valid() && j <= c.Count() && Clean(c, s, j) && i < c.Count()
    ensures |c.Data(i)| <= Window(s) && Free in Waiting(s)
  {
    hide Window, SlotOk, Wrap32;
    InBounds(c, i);
    FreeHolds(c, Waiting(s), 0);
    Delivery.WindowExact(s, |c.Data(i)|);
  }

  lemma {:induction false} CleanTake(c: Cut, h: History, j: nat)
    requires c.Valid() && j < c.Count() && Clean(c, h.slot, j)
    ensures Clean(c, Apply(Apply(h, EventOf(c, Take(j, None, 0, 0))), Read(MAX_BUFFERED)).slot, j + 1)
  {
    hide SlotOk, Pending, Waiting, HeldBytes, AfterData, AfterAck, Wrap32, Between, Missing, Window, AfterRead,
      AllFree, Handle;
    var s, g := h.slot, PieceOf(c, j, None, 0);
    var w := s.(conn := s.conn.(peerWindow := 0));
    var a := AfterAck(w, g, 0);
    WindowAlike(s, 0);
    AckAlike(w, g, 0);
    HandleInLine(s, g, 0);
    FreeHolds(c, Waiting(s), j);
    CleanAllows(c, s, j, j);
    Delivery.WindowExact(s, |c.Data(j)|);
    var who := DataInLine(c, a, NOBODY, {}, j);
    MissingIs(c, {} + {j}, j + 1, j + 1);
    var e := AfterData(a, g.data);
    WaitingIs(c, e, who, {} + {j}, j + 1);
    OnlyBehind(c, Waiting(e), who, j);
    ReadSlot(e, MAX_BUFFERED);
  }

  lemma {:induction false} OnlyBehind(c: Cut, rows: Rows, who: Who, j: nat)
    requires c.Valid() && RowsHold(c, rows, who, {} + {j}, j + 1)
    ensures AllFree(rows)
  {
    hide Wrap32;
    assert forall k :: 0 <= k < MAX_PENDING ==> rows[k] == RowOf(c, who[k]);
  }

  /** With the last piece dropped before, the pieces in order bring `expected` to it. */
  lemma {:induction false} CleanRun(c: Cut, h: History, got: set<nat>, j: nat, n: nat)
    requires c.Valid() && j <= n < c.Count() && Clean(c, h.slot, j)
    requires (j < n ==> Missing(c, got, 0) == j) && forall i :: i in got ==> i < j || i == n
    ensures AllowedRun(c, h, got, InLine(j, n))
    ensures Clean(c, RunSteps(c, h, got, InLine(j, n)).slot, n)
    ensures forall i: nat :: i in got || j <= i < n ==> i in GotAfter(got, InLine(j, n))
    decreases n - j
  {
    hide Clean, Apply, Window, Waiting;
    if j < n {
      var take, read := Take(j, None, 0, 0), Other(Read(MAX_BUFFERED));
      var rest := InLine(j + 1, n);
      var es := [take, read] + rest;
      assert es[0] == take && es[1..] == [read] + rest && es[1..][0] == read && es[1..][1..] == rest;
      CleanAllows(c, h.slot, j, j);
      var h1 := Apply(h, EventOf(c, take));
      var h2 := Apply(h1, EventOf(c, read));
      CleanTake(c, h, j);
      MissingGrows(c, got, j);
      if j + 1 < n { MissingIs(c, got + {j}, j + 1, j + 1); }
      CleanRun(c, h2, got + {j}, j + 1, n);
      assert AllowedRun(c, h1, got + {j}, es[1..]);
    }
  }

  /** A piece that starts past the wrap, sent before the first one, passes for an old one. */
  lemma {:induction false} WrappedIsStale(c: Cut, k: Conn, n: nat)
    requires c.Valid() && n < c.Count() && c.base + c.at[n] >= 0x1_0000_0000 && k.expected == c.base
    ensures IsStaleRetransmit(k, c.Number(n), |c.Data(n)|) && c.Number(n) != c.base
  {
    InBounds(c, n);
    Increasing(c, n, n + 1);
    assert c.Number(n) == c.base + c.at[n] - 0x1_0000_0000;
  }

  lemma {:induction false} DroppedTake(c: Cut, h: History, n: nat)
    requires c.Valid() && Starts(c, h) && 0 < n < c.Count() && c.base + c.at[n] >= 0x1_0000_0000
    ensures Clean(c, h.slot, 0) && AllowedStep(c, h.slot, {}, Take(n, None, 0, 0))
    ensures Clean(c, Apply(h, EventOf(c, Take(n, None, 0, 0))).slot, 0)
  {
    var s, g := h.slot, PieceOf(c, n, None, 0);
    assert Clean(c, s, 0);
    hide SlotOk, Pending, Waiting, Wrap32, Window, AllFree, Handle, IsStaleRetransmit;
    CleanAllows(c, s, 0, n);
    WindowAlike(s, 0);
    WrappedIsStale(c, s.conn, n);
    HandleEarly(s, g, 0);
  }

  /** All pieces arrive, the wrapped one first, and it is still missing at the end. */
  lemma {:induction false} WrappedRun(c: Cut, h: History, n: nat) returns (es: seq<Step>)
    requires c.Valid() && Starts(c, h) && 0 < n == c.Count() - 1 && c.base + c.at[n] >= 0x1_0000_0000
    ensures AllowedRun(c, h, {}, es) && Clean(c, RunSteps(c, h, {}, es).slot, n)
    ensures Missing(c, GotAfter({}, es), 0) == c.Count()
  {
    hide Apply, Clean, Starts, Window, Waiting, Wrap32;
    var take := Take(n, None, 0, 0);
    DroppedTake(c, h, n);
    var h1, got := Apply(h, EventOf(c, take)), {} + {n};
    MissingIs(c, got, 0, 0);
    CleanRun(c, h1, got, 0, n);
    es := [take] + InLine(0, n);
    assert es[0] == take && es[1..] == InLine(0, n);
    MissingIs(c, GotAfter({}, es), 0, c.Count());
  }

  lemma {:induction false} LawNeedsNoWrap(c: Cut, h: History)
    requires c.Valid() && !NoWrap(c) && Starts(c, h)
    ensures !Law(c)
  {
    hide AllowedRun, RunSteps, GotAfter, Clean, Starts, Missing, Wrap32, Available;
    var n := c.Count() - 1;
    assert n > 0;
    var es := WrappedRun(c, h, n);
    NotThere(c, RunSteps(c, h, {}, es), GotAfter({}, es), n);
  }

  lemma {:induction false} NotThere(c: Cut, h: History, got: set<nat>, n: nat)
    requires c.Valid() && n < c.Count() && Clean(c, h.slot, n) && Missing(c, got, 0) == c.Count()
    ensures !Available(c, h, got)
  {
    hide Wrap32, SlotOk;
    if c.Number(n) == c.Number(c.Count()) { NumbersDiffer(c, n, c.Count()); }
  }

  /** There is a connection for every base. */
  lemma {:induction false} SomeStart(c: Cut) returns (h: History)
    requires c.Valid()
    ensures Starts(c, h)
  {
    h := Apply(BOOT, Accept(Wrap32(c.base - 1), 0));
  }

  /** Delivery in any order: for every cut of the peer's stream, all bytes before the first
      missing piece are delivered or buffered after every allowed run exactly when no piece
      starts past the wrap of the sequence numbers.  A piece that does can be dropped as an
      old one although it is still ahead. */
  lemma {:induction false} AnyOrder(c: Cut)
    requires c.Valid()
    ensures Law(c) <==> NoWrap(c)
  {
    hide Starts, In, NoWrap;
    if NoWrap(c) {
      forall h, es | Starts(c, h) && AllowedRun(c, h, {}, es)
        ensures Available(c, RunSteps(c, h, {}, es), GotAfter({}, es))
      {
        StartIn(c, h);
        var who := RunIn(c, h, {}, NOBODY, es);
        InAvailable(c, RunSteps(c, h, {}, es), GotAfter({}, es), who);
      }
    } else {
      var h := SomeStart(c);
      LawNeedsNoWrap(c, h);
    }
  }

  lemma {:induction false} InAvailable(c: Cut, h: History, got: set<nat>, who: Who)
    requires c.Valid() && In(c, h, got, who)
    ensures Available(c, h, got)
  {
  }

  /** Both ways to open a connection start the stream one past the peer's SYN. */
  lemma {:induction false} AcceptStarts(c: Cut, h: History, peerIsn: u32, ourIsn: u32)
    requires SlotOk(h.slot) && !h.slot.inUse && c.base == Wrap32(peerIsn + 1)
    requires NoLapse(Apply(h, Accept(peerIsn, ourIsn)).slot)
    ensures Starts(c, Apply(h, Accept(peerIsn, ourIsn)))
  {
  }

  lemma {:induction false} SynAckStarts(c: Cut, h: History, peerIsn: u32, ourIsn: u32)
    requires SlotOk(h.slot) && !h.slot.inUse && c.base == Wrap32(peerIsn + 1)
    requires NoLapse(Apply(h, Connect(ourIsn)).slot)
    ensures Starts(c, Apply(Apply(h, Connect(ourIsn)), SynAck(peerIsn, Wrap32(ourIsn + 1))))
  {
  }
}
