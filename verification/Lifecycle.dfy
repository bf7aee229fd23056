/** The TCP state of a connection against what has happened to it: over every run the state is
    determined by who has acknowledged and closed what, and in which order (figure 5 of
    RFC 9293), the numbers by what was taken and sent, and the slot is let go of exactly when
    the connection ends. */
module Lifecycle {
  import opened Words
  import opened Rapport

  datatype Event =
    | Accept(peerIsn: u32, ourIsn: u32)
    | Connect(ourIsn: u32)
    | SynAck(peerIsn: u32, ack: u32)
    | Ack(ack: u32, now: u32)
    | Data(length: u16)
    | Sent(length: u16)
    | Fin(now: u32)
    | Close
    | Rst
    | Tick(now: u32)

  /** What rapport.c makes of an event, and whether it lets go of the slot. */
  function React(c: Conn, e: Event): Reaction {
    match e
    case Accept(peerIsn, ourIsn) => Reaction(OnSyn(c, peerIsn, ourIsn), false)
    case Connect(ourIsn) => Reaction(InitiateConnect(c, ourIsn), false)
    case SynAck(peerIsn, ack) => Reaction(OnSynAck(c, peerIsn, ack), false)
    case Ack(ack, now) => OnAck(c, ack, now)
    case Data(n) => Reaction(c.(expected := Wrap32(c.expected + n)), false)
    case Sent(n) => Reaction(c.(sendSeq := Wrap32(c.sendSeq + n)), false)
    case Fin(now) => Reaction(OnFin(c, now), false)
    case Close =>
      if c.status != Established && c.status != CloseWait then Reaction(c, false)
      else Reaction(InitiateClose(c.(sendSeq := Wrap32(c.sendSeq + 1)), c.sendSeq), false)
    case Rst => OnRst(c)
    case Tick(now) => OnTick(c, now)
  }

  /** The connection, and what has happened to it: whether we opened it (`active`), whether
      our SYN was acknowledged (`proved`), our FIN sent (`ourFin`) and acknowledged
      (`finAcked`), the peer's FIN taken (`peerFin`), before ours (`peerFirst`), since when
      both were done, where the peer's stream starts and how much was taken and sent. */
  datatype Book = Book(
    conn: Conn, open: bool, active: bool, proved: bool,
    ourFin: bool, finAcked: bool, peerFin: bool, peerFirst: bool, doneAt: u32,
    ourIsn: u32, base: u32, taken: nat, sent: nat)

  function Begin(c: Conn): Book { Book(c, false, false, false, false, false, false, false, 0, 0, 0, 0, 0) }

  /** The number our FIN has. */
  function FinNumber(b: Book): u32 { Wrap32(b.ourIsn + 1 + b.sent) }

  /** What an ack of an open connection proves. */
  function Acked(b: Book, ack: u32, now: u32): Book {
    if !b.proved then b.(proved := !b.active && ack == Wrap32(b.ourIsn + 1))
    else if !b.ourFin || b.finAcked || ack < Wrap32(FinNumber(b) + 1) then b
    else if b.peerFirst then b.(open := false)
    else b.(finAcked := true, doneAt := if b.peerFin then now else b.doneAt)
  }

  function Finned(b: Book, now: u32): Book {
    if !b.proved || b.peerFin then b
    else b.(peerFin := true, peerFirst := !b.ourFin, doneAt := if b.finAcked then now else b.doneAt)
  }

  /** The books of an open connection. */
  function Note(b: Book, e: Event): Book {
    match e
    case SynAck(peerIsn, ack) =>
      if !b.active || b.proved || ack != Wrap32(b.ourIsn + 1) then b
      else b.(proved := true, base := Wrap32(peerIsn + 1))
    case Ack(ack, now) => Acked(b, ack, now)
    case Data(n) => b.(taken := b.taken + n)
    case Sent(n) => b.(sent := b.sent + n)
    case Fin(now) => Finned(b, now)
    case Close => if b.proved && !b.ourFin then b.(ourFin := true) else b
    case Rst => b.(open := false)
    case Tick(now) =>
      b.(open := !(b.finAcked && b.peerFin && Wrap32(now - b.doneAt) >= 400))
    case _ => b
  }

  function Apply(b: Book, e: Event): Book {
    var c := React(b.conn, e).conn;
    match e
    case Accept(peerIsn, ourIsn) =>
      Begin(c).(open := true, ourIsn := ourIsn, base := Wrap32(peerIsn + 1))
    case Connect(ourIsn) => Begin(c).(open := true, active := true, ourIsn := ourIsn)
    case _ => if b.open then Note(b, e).(conn := c) else b.(conn := c)
  }

  /** A connection is opened on a closed slot; data comes once the peer's number is known; it
      is sent on an established connection only. */
  predicate Allowed(b: Book, e: Event) {
    match e
    case Accept(_, _) => !b.open
    case Connect(_) => !b.open
    case Data(_) => b.open && (b.proved || !b.active)
    case Sent(_) => b.open && b.proved && !b.ourFin && !b.peerFin
    case _ => true
  }

  predicate AllowedRun(b: Book, es: seq<Event>)
    decreases |es|
  {
    es == [] || (Allowed(b, es[0]) && AllowedRun(Apply(b, es[0]), es[1..]))
  }

  function Run(b: Book, es: seq<Event>): Book
    decreases |es|
  {
    if es == [] then b else Run(Apply(b, es[0]), es[1..])
  }

  // ----- the state diagram

  function StatusOf(b: Book): Status {
    if !b.open then Closed
    else if !b.proved then if b.active then SynSent else SynReceived
    else if !b.ourFin then if b.peerFin then CloseWait else Established
    else if b.peerFirst then LastAck
    else if !b.peerFin then if b.finAcked then FinWait2 else FinWait1
    else if b.finAcked then TimeWait else Closing
  }

  function One(fin: bool): nat { if fin then 1 else 0 }

  /** The next number to take and the next one to send. */
  predicate NumbersAgree(b: Book) {
    && b.conn.expected == Wrap32(b.base + b.taken + One(b.peerFin))
    && b.conn.sendSeq == Wrap32(b.ourIsn + 1 + b.sent + One(b.ourFin))
  }

  predicate FactsFit(b: Book) {
    && (b.ourFin || b.peerFin ==> b.proved) && (b.finAcked ==> b.ourFin && !b.peerFirst)
    && (b.peerFirst ==> b.peerFin) && (b.peerFin && !b.ourFin ==> b.peerFirst)
  }

  predicate Agrees(b: Book) {
    && b.conn.status == StatusOf(b)
    && (b.open ==>
          && FactsFit(b) && b.conn.ourIsn == b.ourIsn
          && (b.proved || !b.active ==> NumbersAgree(b))
          && (!b.proved ==> b.taken == 0 || !b.active) && (!b.proved ==> b.sent == 0)
          && (b.ourFin ==> b.conn.finSeq == FinNumber(b))
          && (b.finAcked && b.peerFin ==> b.conn.timeWaitStarted == b.doneAt))
  }

  lemma {:induction false} WrapMore(a: int, n: nat)
    ensures Wrap32(Wrap32(a) + n) == Wrap32(a + n)
  {
  }

  lemma {:induction false} OpenAgrees(b: Book, e: Event)
    requires Agrees(b) && Allowed(b, e) && (e.Accept? || e.Connect?)
    ensures Agrees(Apply(b, e))
  {
    if e.Accept? {
      WrapMore(e.peerIsn + 1, 0);
      WrapMore(e.ourIsn + 1, 0);
    }
  }

  lemma {:induction false} DataAgrees(b: Book, n: u16)
    requires Agrees(b) && Allowed(b, Data(n))
    ensures Agrees(Apply(b, Data(n)))
  {
    hide Wrap32;
    WrapMore(b.base + b.taken + One(b.peerFin), n);
  }

  lemma {:induction false} SentAgrees(b: Book, n: u16)
    requires Agrees(b) && Allowed(b, Sent(n))
    ensures Agrees(Apply(b, Sent(n)))
  {
    hide Wrap32;
    WrapMore(b.ourIsn + 1 + b.sent + One(b.ourFin), n);
  }

  lemma {:induction false} CloseAgrees(b: Book)
    requires Agrees(b)
    ensures Agrees(Apply(b, Close))
  {
    hide Wrap32;
    WrapMore(b.ourIsn + 1 + b.sent, 1);
  }

  lemma {:induction false} FinAgrees(b: Book, now: u32)
    requires Agrees(b)
    ensures Agrees(Apply(b, Fin(now)))
  {
    hide Wrap32;
    WrapMore(b.base + b.taken, 1);
  }

  lemma {:induction false} SynAckAgrees(b: Book, peerIsn: u32, ack: u32)
    requires Agrees(b)
    ensures Agrees(Apply(b, SynAck(peerIsn, ack)))
  {
    hide Wrap32;
    WrapMore(peerIsn + 1, 0);
    WrapMore(b.ourIsn + 1, 0);
  }

  lemma {:induction false} AckAgrees(b: Book, ack: u32, now: u32)
    requires Agrees(b)
    ensures Agrees(Apply(b, Ack(ack, now)))
  {
    hide Wrap32, NumbersAgree;
    assert NumbersAgree(Apply(b, Ack(ack, now))) == NumbersAgree(b) by { SameNumbers(b, Apply(b, Ack(ack, now))); }
  }

  lemma {:induction false} SameNumbers(a: Book, b: Book)
    requires a.conn.expected == b.conn.expected && a.conn.sendSeq == b.conn.sendSeq && a.base == b.base
    requires a.taken == b.taken && a.peerFin == b.peerFin && a.ourIsn == b.ourIsn
    requires a.sent == b.sent && a.ourFin == b.ourFin
    ensures NumbersAgree(a) == NumbersAgree(b)
  {
  }

  lemma {:induction false} StepAgrees(b: Book, e: Event)
    requires Agrees(b) && Allowed(b, e)
    ensures Agrees(Apply(b, e))
  {
    if e.Accept? || e.Connect? {
      OpenAgrees(b, e);
    } else if e.Data? {
      DataAgrees(b, e.length);
    } else if e.Sent? {
      SentAgrees(b, e.length);
    } else if e.Close? {
      CloseAgrees(b);
    } else if e.Fin? {
      FinAgrees(b, e.now);
    } else if e.SynAck? {
      SynAckAgrees(b, e.peerIsn, e.ack);
    } else if e.Ack? {
      AckAgrees(b, e.ack, e.now);
    } else {
      hide Wrap32;
    }
  }

  lemma {:induction false} RunAgrees(b: Book, es: seq<Event>)
    requires Agrees(b) && AllowedRun(b, es)
    ensures Agrees(Run(b, es))
    decreases |es|
  {
    hide Agrees, Apply, Allowed;
    if es != [] {
      StepAgrees(b, es[0]);
      RunAgrees(Apply(b, es[0]), es[1..]);
    }
  }

  /** The state diagram over every run on a closed slot: the state and both numbers are what
      the history of the connection says. */
  lemma {:induction false} StatusIsHistory(c: Conn, es: seq<Event>)
    requires c.status == Closed && AllowedRun(Begin(c), es)
    ensures var b := Run(Begin(c), es);
      b.conn.status == StatusOf(b) && (b.open && (b.proved || !b.active) ==> NumbersAgree(b))
  {
    hide Run, AllowedRun;
    RunAgrees(Begin(c), es);
  }

  /** The slot is let go of exactly when an open connection ends: by a reset, by the ack of
      our FIN when the peer closed first, or 400 ticks after both sides were done. */
  lemma {:induction false} EndsExactly(c: Conn, es: seq<Event>, e: Event)
    requires c.status == Closed && AllowedRun(Begin(c), es) && Allowed(Run(Begin(c), es), e)
    ensures var b := Run(Begin(c), es);
      React(b.conn, e).release <==> b.open && !Apply(b, e).open
  {
    hide Run, AllowedRun;
    RunAgrees(Begin(c), es);
    hide Wrap32;
  }
}
