/** Networking/IPv4/Conversation/rapport.c: the TCP state of one slot and its event handlers. */
module Rapport {
  import opened Words

  const TIME_WAIT_TICKS := 400

  datatype Status =
    | Closed | Listen | SynSent | SynReceived | Established | FinWait
    | Closing | TimeWait | FinWait1 | FinWait2 | CloseWait | LastAck

  datatype Conn = Conn(
    status: Status, expected: u32, ourIsn: u32, finSeq: u32, timeWaitStarted: u32,
    peerWindow: u16, sendSeq: u32)

  /** What a handler does to the connection, and whether it lets go of the LockBox entry.
      Letting go on an ack or a reset also cancels the retransmission window; the end of
      TIME_WAIT does not. */
  datatype Reaction = Reaction(conn: Conn, release: bool)

  function OnSyn(c: Conn, peerIsn: u32, ourIsn: u32): Conn {
    c.(status := SynReceived, expected := Wrap32(peerIsn + 1), ourIsn := ourIsn, sendSeq := Wrap32(ourIsn + 1))
  }

  function InitiateConnect(c: Conn, ourIsn: u32): Conn {
    c.(status := SynSent, ourIsn := ourIsn)
  }

  function OnSynAck(c: Conn, peerIsn: u32, ack: u32): Conn {
    if c.status != SynSent || ack != Wrap32(c.ourIsn + 1) then c
    else c.(expected := Wrap32(peerIsn + 1), status := Established, sendSeq := Wrap32(c.ourIsn + 1))
  }

  function InitiateClose(c: Conn, finSeq: u32): Conn {
    var c' := c.(finSeq := finSeq);
    if c.status == Established then c'.(status := FinWait1)
    else if c.status == CloseWait then c'.(status := LastAck)
    else c'
  }

  function OnAck(c: Conn, ack: u32, now: u32): Reaction {
    // the close-state tests compare in plain unsigned order, as the source does
    var finAcked := ack >= Wrap32(c.finSeq + 1);
    match c.status
    case SynReceived => Reaction(if ack == Wrap32(c.ourIsn + 1) then c.(status := Established) else c, false)
    case FinWait1 => Reaction(if finAcked then c.(status := FinWait2) else c, false)
    case Closing => Reaction(if finAcked then c.(status := TimeWait, timeWaitStarted := now) else c, false)
    case LastAck => if finAcked then Reaction(c.(status := Closed), true) else Reaction(c, false)
    case _ => Reaction(c, false)
  }

  function OnFin(c: Conn, now: u32): Conn {
    var next := c.(expected := Wrap32(c.expected + 1));
    match c.status
    case Established => next.(status := CloseWait)
    case FinWait1 => next.(status := Closing)
    case FinWait2 => next.(status := TimeWait, timeWaitStarted := now)
    case _ => c
  }

  function OnRst(c: Conn): Reaction {
    if c.status == Closed then Reaction(c, false) else Reaction(c.(status := Closed), true)
  }

  function OnTick(c: Conn, now: u32): Reaction {
    if c.status != TimeWait || Wrap32(now - c.timeWaitStarted) < TIME_WAIT_TICKS then Reaction(c, false)
    else Reaction(c.(status := Closed), true)
  }

  predicate IsStaleRetransmit(c: Conn, seqNo: u32, length: u16) {
    seqNo < c.expected && Wrap32(seqNo + length) <= c.expected
  }
}
