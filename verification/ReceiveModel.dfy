/** The TCP receive path of one slot: LockBox entry, Inbox ring, WayStation rows and
    Rapport state, as conversation_handle drives them. */
module ReceiveModel {
  import opened Words
  import opened Rapport

  const MAX_BUFFERED := 4096
  const MAX_SEGMENT := 1460
  const MAX_PENDING := 4

  /** TCP payloads are measured in 16 bits. */
  type Payload = d: seq<u8> | |d| < 0x1_0000

  datatype Row = Free | Held(seqNo: u32, data: Payload)

  type Rows = r: seq<Row> | |r| == MAX_PENDING witness [Free, Free, Free, Free]

  /** `gen` counts every claim of the slot; `inboxGen` and `wayGen` are its values when the
      Inbox and the WayStation last looked.  The kernel keeps these three modulo 2^32. */
  datatype Slot = Slot(
    inUse: bool, buffered: nat, gen: nat,  // lockbox.c
    ring: seq<u8>, inboxGen: nat,          // inbox.c, oldest byte first
    rows: Rows, wayGen: nat,               // waystation.c
    conn: Conn)                            // rapport.c

  // ----- lockbox.c

  function Claim(s: Slot): Slot { s.(inUse := true, buffered := 0, gen := s.gen + 1) }

  function Release(s: Slot): Slot { s.(inUse := false) }

  function Consume(s: Slot, n: nat): Slot { s.(buffered := if n > s.buffered then 0 else s.buffered - n) }

  // ----- inbox.c

  function FreshInbox(s: Slot): Slot {
    s.(ring := if Wrap32(s.inboxGen) == Wrap32(s.gen) then s.ring else [], inboxGen := s.gen)
  }

  predicate Accepts(s: Slot, n: nat) { s.inUse && s.buffered + n <= MAX_BUFFERED }

  function Deposit(s: Slot, data: Payload): Slot {
    var f := FreshInbox(s);
    if Accepts(f, |data|) then f.(buffered := f.buffered + |data|, ring := f.ring + data) else f
  }

  function ReadCount(s: Slot, max: nat): nat { var f := FreshInbox(s); if max < |f.ring| then max else |f.ring| }

  function ReadBytes(s: Slot, max: nat): seq<u8> { FreshInbox(s).ring[..ReadCount(s, max)] }

  function AfterRead(s: Slot, max: nat): Slot {
    var n := ReadCount(s, max);
    var f := FreshInbox(s);
    var t := f.(ring := f.ring[n..]);
    if n > 0 then Consume(t, n) else t
  }

  // ----- waystation.c

  function FreshWay(s: Slot): Slot {
    s.(rows := if Wrap32(s.wayGen) == Wrap32(s.gen) then s.rows else [Free, Free, Free, Free], wayGen := s.gen)
  }

  /** The first row from `from` on that holds `seqNo`, or MAX_PENDING. */
  function FindHeld(rows: Rows, seqNo: u32, from: nat): (i: nat)
    requires from <= MAX_PENDING
    ensures from <= i <= MAX_PENDING
    ensures i < MAX_PENDING ==> rows[i].Held? && rows[i].seqNo == seqNo
    ensures forall j :: from <= j < i ==> !(rows[j].Held? && rows[j].seqNo == seqNo)
    decreases MAX_PENDING - from
  {
    if from == MAX_PENDING || (rows[from].Held? && rows[from].seqNo == seqNo) then from
    else FindHeld(rows, seqNo, from + 1)
  }

  function FindFree(rows: Rows, from: nat): (i: nat)
    requires from <= MAX_PENDING
    ensures from <= i <= MAX_PENDING
    ensures i < MAX_PENDING ==> rows[i].Free?
    ensures forall j :: from <= j < i ==> rows[j].Held?
    decreases MAX_PENDING - from
  {
    if from == MAX_PENDING || rows[from].Free? then from else FindFree(rows, from + 1)
  }

  function Hold(s: Slot, seqNo: u32, data: Payload): Slot {
    if |data| == 0 || |data| > MAX_SEGMENT then s
    else
      var f := FreshWay(s);
      var i := FindFree(f.rows, 0);
      if FindHeld(f.rows, seqNo, 0) < MAX_PENDING || i == MAX_PENDING then f
      else f.(rows := f.rows[i := Held(seqNo, data)])
  }

  function HeldCount(rows: seq<Row>): nat {
    if rows == [] then 0 else (if rows[0].Held? then 1 else 0) + HeldCount(rows[1..])
  }

  lemma {:induction false} HeldCountFree(rows: seq<Row>, i: nat)
    requires i < |rows| && rows[i].Held?
    ensures HeldCount(rows[i := Free]) == HeldCount(rows) - 1
  {
    if i > 0 {
      assert rows[i := Free][1..] == rows[1..][i - 1 := Free];
      HeldCountFree(rows[1..], i - 1);
    }
  }

  /** Delivers the row at index `i`, the one the receiver waits for. */
  function DeliverRow(s: Slot, i: nat): Slot
    requires i < MAX_PENDING && s.rows[i].Held?
  {
    var d := Advanced(s, s.rows[i].data);
    d.(rows := d.rows[i := Free])
  }

  /** The drain loop once the rows are fresh. */
  function DrainLoop(s: Slot): Slot
    decreases HeldCount(s.rows)
  {
    var i := FindHeld(s.rows, s.conn.expected, 0);
    if i == MAX_PENDING then s
    else if !Accepts(FreshInbox(s), |s.rows[i].data|) then FreshInbox(s)
    else
      HeldCountFree(s.rows, i);
      DrainLoop(DeliverRow(s, i))
  }

  function Drain(s: Slot): Slot { DrainLoop(FreshWay(s)) }

  function HeldBytes(rows: seq<Row>): nat {
    if rows == [] then 0 else (if rows[0].Held? then |rows[0].data| else 0) + HeldBytes(rows[1..])
  }

  /** `waystation_receive_window` refreshes both stores before it measures them. */
  function Touch(s: Slot): Slot { FreshInbox(FreshWay(s)) }

  function Window(s: Slot): int {
    var t := Touch(s);
    var free := MAX_BUFFERED - |t.ring|;
    if HeldBytes(t.rows) >= free then 0 else free - HeldBytes(t.rows)
  }

  // ----- conversation_handle on an existing connection

  datatype Segment = Segment(seqNo: u32, data: Payload, ack: Option<u32>, rst: bool, fin: bool, window: u16)

  function React(s: Slot, r: Reaction): Slot {
    var t := s.(conn := r.conn);
    if r.release then Release(t) else t
  }

  function AfterAck(s: Slot, g: Segment, now: u32): Slot {
    if g.ack.Some? then React(s, OnAck(s.conn, g.ack.value, now)) else s
  }

  /** The slot after `data` has been deposited and counted. */
  function Advanced(s: Slot, data: Payload): Slot {
    var d := Deposit(s, data);
    d.(conn := d.conn.(expected := Wrap32(d.conn.expected + |data|)))
  }

  function AfterData(s: Slot, data: Payload): Slot {
    if |data| == 0 then s
    else if Accepts(FreshInbox(s), |data|) then Drain(Advanced(s, data))
    else FreshInbox(s)
  }

  function AfterFin(s: Slot, fin: bool, now: u32): Slot {
    if fin then s.(conn := OnFin(s.conn, now)) else s
  }

  function HandleInOrder(s: Slot, g: Segment, now: u32): Slot {
    if g.rst then React(s, OnRst(s.conn))
    else AfterFin(AfterData(AfterAck(s, g, now), g.data), g.fin, now)
  }

  function Handle(s: Slot, g: Segment, now: u32): Slot {
    if s.conn.status == SynSent then
      // only RST and SYN-ACK are looked at; SYN-ACK is an event of its own
      if g.rst then React(s, OnRst(s.conn)) else s
    else
      var w := s.(conn := s.conn.(peerWindow := g.window));
      if g.seqNo != w.conn.expected then
        if IsStaleRetransmit(w.conn, g.seqNo, |g.data|) then w
        else if |g.data| > 0 then Hold(w, g.seqNo, g.data)
        else w
      else HandleInOrder(w, g, now)
  }

  // ----- events of a slot, with what the run has seen of the current connection

  datatype Event =
    | Listening
    | Accept(peerIsn: u32, ourIsn: u32)
    | Connect(ourIsn: u32)
    | SynAck(peerIsn: u32, ack: u32)
    | Arrive(segment: Segment, now: u32)
    | Read(max: nat)
    | Measure
    | Close
    | Tick(now: u32)
    | GiveUp

  datatype Piece = Piece(seqNo: u32, data: Payload)

  /** The slot, and of the current connection: the pieces that arrived, the bytes the reader
      got, the sequence number the stream starts at, and whether a FIN was taken in order.
      The stream starts one past the number of the peer's SYN, as the events give it. */
  datatype History = History(slot: Slot, arrived: set<Piece>, delivered: seq<u8>, base: u32, fin: bool)

  function NewConnection(s: Slot, base: u32): History { History(s, {}, [], base, false) }

  /** The SYN-ACK that acknowledges our SYN. */
  predicate AnswersSyn(c: Conn, ack: u32) { c.status == SynSent && ack == Wrap32(c.ourIsn + 1) }

  function Apply(h: History, e: Event): History {
    var s := h.slot;
    match e
    case Listening => if s.inUse then h else NewConnection(Claim(s), s.conn.expected)
    case Accept(peerIsn, ourIsn) =>
      if s.inUse then h
      else NewConnection(Claim(s).(conn := OnSyn(s.conn, peerIsn, ourIsn)), Wrap32(peerIsn + 1))
    case Connect(ourIsn) =>
      if s.inUse then h
      else NewConnection(Claim(s).(conn := InitiateConnect(s.conn, ourIsn)), s.conn.expected)
    case SynAck(peerIsn, ack) =>
      h.(slot := s.(conn := OnSynAck(s.conn, peerIsn, ack)),
         base := if AnswersSyn(s.conn, ack) then Wrap32(peerIsn + 1) else h.base)
    case Arrive(g, now) =>
      h.(slot := Handle(s, g, now),
         arrived := h.arrived + {Piece(g.seqNo, g.data)},
         fin := h.fin || (g.fin && g.seqNo == s.conn.expected))
    case Read(max) =>
      h.(slot := AfterRead(s, max), delivered := h.delivered + ReadBytes(s, max))
    case Measure => h.(slot := Touch(s))
    case Close =>
      if s.conn.status != Established && s.conn.status != CloseWait then h
      else h.(slot := s.(conn := InitiateClose(s.conn.(sendSeq := Wrap32(s.conn.sendSeq + 1)), s.conn.sendSeq)))
    case Tick(now) => h.(slot := React(s, OnTick(s.conn, now)))
    case GiveUp => h.(slot := React(s, OnRst(s.conn)))
  }

  function Run(h: History, es: seq<Event>): History {
    if es == [] then h else Apply(Run(h, es[..|es| - 1]), es[|es| - 1])
  }

  const ZERO_CONN := Conn(Closed, 0, 0, 0, 0, 0, 0)

  /** All tables zeroed, as at boot. */
  const BOOT := History(Slot(false, 0, 0, [], 0, [Free, Free, Free, Free], 0, ZERO_CONN), {}, [], 0, false)

  /** The 32-bit generations agree although the slot was claimed since `seen`. */
  predicate Lapsed(gen: nat, seen: nat) { seen != gen && Wrap32(seen) == Wrap32(gen) }

  predicate AllFree(rows: Rows) { forall i :: 0 <= i < MAX_PENDING ==> rows[i].Free? }

  /** Nothing of an earlier connection passes for the current one's. */
  predicate NoLapse(s: Slot) {
    (Lapsed(s.gen, s.inboxGen) ==> s.ring == []) && (Lapsed(s.gen, s.wayGen) ==> AllFree(s.rows))
  }

  predicate NeverLapses(h: History, es: seq<Event>) {
    forall n :: 0 <= n <= |es| ==> NoLapse(Run(h, es[..n]).slot)
  }

  // ----- the invariant

  function Bytes(chain: seq<Piece>): seq<u8> {
    if chain == [] then [] else Bytes(chain[..|chain| - 1]) + chain[|chain| - 1].data
  }

  /** Each piece starts where the ones before it end, modulo 2^32, counted from `base`. */
  predicate Contiguous(chain: seq<Piece>, base: u32) {
    chain == [] ||
    var front, last := chain[..|chain| - 1], chain[|chain| - 1];
    Contiguous(front, base) && last.seqNo == Wrap32(base + |Bytes(front)|)
  }

  /** The ring as its next user will see it. */
  function Pending(s: Slot): seq<u8> { FreshInbox(s).ring }

  function Waiting(s: Slot): Rows { FreshWay(s).rows }

  ghost predicate SlotOk(s: Slot) {
    && s.inboxGen <= s.gen && s.wayGen <= s.gen
    && (s.conn.status != Closed ==> s.inUse)
    && s.buffered == |Pending(s)| <= MAX_BUFFERED
  }

  ghost predicate RowsArrived(rows: Rows, arrived: set<Piece>) {
    forall i :: 0 <= i < MAX_PENDING && rows[i].Held? ==> Piece(rows[i].seqNo, rows[i].data) in arrived
  }

  /** `chain` explains all that the connection has delivered or buffered. */
  ghost predicate Explains(chain: seq<Piece>, h: History) {
    && (forall p :: p in chain ==> p in h.arrived)
    && Bytes(chain) == h.delivered + Pending(h.slot)
    && (!h.fin ==> Contiguous(chain, h.base) && h.slot.conn.expected == Wrap32(h.base + |Bytes(chain)|))
    && (h.slot.conn.status == SynSent ==> chain == [])
  }

  ghost predicate Good(h: History, chain: seq<Piece>) {
    SlotOk(h.slot) && RowsArrived(Waiting(h.slot), h.arrived) && Explains(chain, h)
  }
}
