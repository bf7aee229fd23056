/** The send window over whole runs: the segments in flight tile the sequence space from the
    first unacknowledged number to the next one to be sent. */
module SendWindow {
  import opened Words
  import opened Rapport
  import opened SchedulerModel

  // ----- tilings

  /** The slots of `ord`, in that order, hold consecutive segments from `una` to `end`. */
  predicate Tiles(segs: Segs, ord: seq<nat>, una: u32, end: u32) {
    if ord == [] then una == end
    else
      && ord[0] < WINDOW && segs[ord[0]].inUse && segs[ord[0]].seqNo == una && segs[ord[0]].seqLen > 0
      && Tiles(segs, ord[1..], EndOf(segs[ord[0]]), end)
  }

  /** `ord` lists exactly the slots in use, each once. */
  predicate Lists(segs: Segs, ord: seq<nat>) {
    NoDuplicates(ord) && (forall j :: 0 <= j < |ord| ==> ord[j] < WINDOW)
    && (forall i :: 0 <= i < WINDOW ==> (segs[i].inUse <==> i in ord))
  }

  function Length(segs: Segs, ord: seq<nat>): nat {
    if ord == [] then 0
    else (if ord[0] < WINDOW then segs[ord[0]].seqLen else 0) + Length(segs, ord[1..])
  }

  lemma {:induction false} LengthBound(segs: Segs, ord: seq<nat>)
    ensures Length(segs, ord) <= 0xFFFF * |ord|
  {
    if ord != [] { LengthBound(segs, ord[1..]); }
  }

  lemma {:induction false} WrapZero(a: u32)
    ensures Wrap32(a + 0) == a
  {
  }

  lemma {:induction false} WrapStep(a: u32, n: nat, m: nat)
    ensures Wrap32(Wrap32(a + n) + m) == Wrap32(a + (n + m))
  {
  }

  lemma {:induction false} WrapDistance(a: u32, n: nat)
    requires n < 0x1_0000_0000
    ensures Wrap32(Wrap32(a + n) - a) == n
  {
  }

  lemma {:induction false} TilesLength(segs: Segs, ord: seq<nat>, una: u32, end: u32)
    requires Tiles(segs, ord, una, end)
    ensures end == Wrap32(una + Length(segs, ord))
  {
    hide Wrap32;
    if ord == [] {
      WrapZero(una);
    } else {
      TilesLength(segs, ord[1..], EndOf(segs[ord[0]]), end);
      WrapStep(una, segs[ord[0]].seqLen, Length(segs, ord[1..]));
    }
  }

  /** The fields a tiling depends on are the same in the listed slots. */
  predicate SameTiles(a: Segs, b: Segs, ord: seq<nat>) {
    forall j :: 0 <= j < |ord| && ord[j] < WINDOW ==>
      a[ord[j]].inUse == b[ord[j]].inUse && a[ord[j]].seqNo == b[ord[j]].seqNo && a[ord[j]].seqLen == b[ord[j]].seqLen
  }

  lemma {:induction false} TilesFrame(a: Segs, b: Segs, ord: seq<nat>, una: u32, end: u32)
    requires Tiles(a, ord, una, end) && SameTiles(a, b, ord)
    ensures Tiles(b, ord, una, end)
  {
    if ord != [] {
      assert ord[0] == ord[0];
      TilesFrame(a, b, ord[1..], EndOf(a[ord[0]]), end);
    }
  }

  lemma {:induction false} TilesSnoc(segs: Segs, ord: seq<nat>, una: u32, end: u32, i: nat)
    requires Tiles(segs, ord, una, end) && i < WINDOW
    requires segs[i].inUse && segs[i].seqNo == end && segs[i].seqLen > 0
    ensures Tiles(segs, ord + [i], una, EndOf(segs[i]))
  {
    if ord == [] {
      assert Tiles(segs, [], EndOf(segs[i]), EndOf(segs[i]));
      assert [i][1..] == [];
    } else {
      TilesSnoc(segs, ord[1..], EndOf(segs[ord[0]]), end, i);
      assert (ord + [i])[1..] == ord[1..] + [i];
    }
  }

  // ----- the oldest segment is the one at una

  /** Every segment after the first starts a positive distance, below 2^31, after `una`. */
  lemma {:induction false} StartOffset(segs: Segs, ord: seq<nat>, una: u32, end: u32, j: nat) returns (off: nat)
    requires Tiles(segs, ord, una, end) && j < |ord|
    ensures ord[j] < WINDOW && segs[ord[j]].seqNo == Wrap32(una + off)
    ensures off <= 0xFFFF * j && (j > 0 ==> off > 0)
    decreases j
  {
    hide Wrap32;
    if j == 0 {
      off := 0;
      WrapZero(una);
    } else {
      var n := segs[ord[0]].seqLen;
      var rest := StartOffset(segs, ord[1..], EndOf(segs[ord[0]]), end, j - 1);
      off := n + rest;
      WrapStep(una, n, rest);
    }
  }

  lemma {:induction false} AheadIsNotBefore(una: u32, off: nat)
    requires 0 < off < 0x8000_0000
    ensures SeqBefore(una, Wrap32(una + off)) && !SeqBefore(Wrap32(una + off), una)
  {
  }

  predicate Leads(segs: Segs, o: nat) {
    && o < WINDOW && segs[o].inUse
    && forall i :: 0 <= i < WINDOW && i != o && segs[i].inUse ==>
         SeqBefore(segs[o].seqNo, segs[i].seqNo) && !SeqBefore(segs[i].seqNo, segs[o].seqNo)
  }

  lemma {:induction false} LeaderIsOldest(segs: Segs, o: nat, i: nat, best: nat)
    requires Leads(segs, o) && i <= WINDOW && best <= WINDOW && (best < WINDOW ==> segs[best].inUse)
    requires if o < i then best == o else best != o
    ensures OldestFrom(segs, i, best) == o
    decreases WINDOW - i
  {
    hide SeqBefore;
    if i < WINDOW {
      if segs[i].inUse && (best == WINDOW || SeqBefore(segs[i].seqNo, segs[best].seqNo)) {
        LeaderIsOldest(segs, o, i + 1, i);
      } else {
        LeaderIsOldest(segs, o, i + 1, best);
      }
    }
  }

  lemma {:induction false} FirstLeads(segs: Segs, ord: seq<nat>, una: u32, end: u32)
    requires Tiles(segs, ord, una, end) && Lists(segs, ord) && ord != []
    ensures Leads(segs, ord[0])
  {
    hide SeqBefore;
    DistinctBelow(ord, WINDOW);
    forall i | 0 <= i < WINDOW && i != ord[0] && segs[i].inUse
      ensures SeqBefore(una, segs[i].seqNo) && !SeqBefore(segs[i].seqNo, una)
    {
      var j :| 0 <= j < |ord| && ord[j] == i;
      var off := StartOffset(segs, ord, una, end, j);
      AheadIsNotBefore(una, off);
    }
  }

  lemma {:induction false} OldestIsFirst(segs: Segs, ord: seq<nat>, una: u32, end: u32)
    requires Tiles(segs, ord, una, end) && Lists(segs, ord)
    ensures ord == [] ==> Oldest(segs) == WINDOW
    ensures ord != [] ==> Oldest(segs) == ord[0] && segs[ord[0]].seqNo == una
  {
    hide SeqBefore, Leads;
    if ord != [] {
      FirstLeads(segs, ord, una, end);
      LeaderIsOldest(segs, ord[0], 0, WINDOW);
    }
  }

  // ----- bytes in flight

  lemma {:induction false} TotalUpdate(segs: Segs, i: nat, e: Seg, k: nat)
    requires i < WINDOW && k <= WINDOW
    ensures TotalFrom(segs[i := e], k) == TotalFrom(segs, k)
      + (if i >= k then (if e.inUse then e.seqLen else 0) - (if segs[i].inUse then segs[i].seqLen else 0) else 0)
    decreases WINDOW - k
  {
    if k < WINDOW { TotalUpdate(segs, i, e, k + 1); }
  }

  lemma {:induction false} TotalIsLength(segs: Segs, ord: seq<nat>)
    requires Lists(segs, ord)
    ensures Total(segs) == Length(segs, ord)
    decreases |ord|
  {
    if ord == [] {
      assert forall i :: 0 <= i < WINDOW ==> !segs[i].inUse;
      TotalEmpty(segs, 0);
    } else {
      var o := ord[0];
      var rest := segs[o := segs[o].(inUse := false)];
      assert Lists(rest, ord[1..]) by {
        assert forall i :: i in ord <==> i == o || i in ord[1..];
      }
      TotalIsLength(rest, ord[1..]);
      TotalUpdate(segs, o, segs[o].(inUse := false), 0);
      LengthFrame(rest, segs, ord[1..]);
      assert o in ord;
    }
  }

  lemma {:induction false} LengthFrame(a: Segs, b: Segs, ord: seq<nat>)
    requires forall i :: 0 <= i < WINDOW ==> a[i].seqLen == b[i].seqLen
    ensures Length(a, ord) == Length(b, ord)
  {
    if ord != [] { LengthFrame(a, b, ord[1..]); }
  }

  lemma {:induction false} TotalEmpty(segs: Segs, k: nat)
    requires k <= WINDOW && forall i :: 0 <= i < WINDOW ==> !segs[i].inUse
    ensures TotalFrom(segs, k) == 0
    decreases WINDOW - k
  {
    if k < WINDOW { TotalEmpty(segs, k + 1); }
  }

  lemma {:induction false} ListsShort(segs: Segs, ord: seq<nat>)
    requires Lists(segs, ord)
    ensures |ord| <= WINDOW
  {
    DistinctBelow(ord, WINDOW);
  }

  /** What is in flight is the distance from `una` to the next number to be sent. */
  lemma {:induction false} InFlightIsDistance(segs: Segs, ord: seq<nat>, una: u32, end: u32)
    requires Tiles(segs, ord, una, end) && Lists(segs, ord)
    ensures Total(segs) == Wrap32(end - una) <= 4 * 0xFFFF
  {
    hide Wrap32, Tiles, Lists;
    assert |ord| <= 4 by { ListsShort(segs, ord); }
    LengthBound(segs, ord);
    TilesLength(segs, ord, una, end);
    TotalIsLength(segs, ord);
    WrapDistance(una, Length(segs, ord));
  }

  // ----- cumulative acks

  /** `ack` is within half the sequence space of every segment end in flight. */
  predicate InHalf(una: u32, end: u32, ack: u32) {
    Wrap32(ack - una) < 0x8000_0000 || Wrap32(ack - una) >= 0x8000_0000 + Wrap32(end - una)
  }

  /** The signed distance of `ack` from `una`. */
  function Distance(una: u32, ack: u32): (d: int)
    ensures -0x8000_0000 <= d < 0x8000_0000 && ack == Wrap32(una + d)
  {
    var w := Wrap32(ack - una);
    if w < 0x8000_0000 then w else w - 0x1_0000_0000
  }

  lemma {:induction false} CoveredIff(una: u32, e: Seg, ack: u32, d: int)
    requires e.inUse && e.seqNo == una && ack == Wrap32(una + d)
    requires e.seqLen - 0x8000_0000 <= d < 0x8000_0000
    ensures Covered(e, ack) <==> e.seqLen <= d
  {
  }

  /** An ack at distance `d` covers exactly the segments that end within `d`: the first `k`. */
  lemma {:induction false} AckCoversPrefix(segs: Segs, ord: seq<nat>, una: u32, end: u32, ack: u32, d: int)
    returns (k: nat)
    requires Tiles(segs, ord, una, end) && ack == Wrap32(una + d)
    requires Length(segs, ord) - 0x8000_0000 <= d < 0x8000_0000
    ensures k <= |ord|
    ensures forall j :: 0 <= j < |ord| ==> ord[j] < WINDOW && (Covered(segs[ord[j]], ack) <==> j < k)
    ensures Tiles(segs, ord[k..], if k < |ord| then segs[ord[k]].seqNo else end, end)
    ensures d <= 0 ==> k == 0
    decreases |ord|
  {
    hide SeqBefore, Covered, Wrap32;
    k := 0;
    if ord != [] {
      var e := segs[ord[0]];
      CoveredIff(una, e, ack, d);
      EndDistance(una, e, d);
      var rest := ord[1..];
      assert forall j :: 1 <= j < |ord| ==> ord[j] == rest[j - 1];
      var k' := AckCoversPrefix(segs, rest, EndOf(e), end, ack, d - e.seqLen);
      if e.seqLen <= d {
        k := k' + 1;
        assert rest[k'..] == ord[k..];
      } else {
        assert k' == 0 && ord[0..] == ord;
      }
    } else {
      assert ord[0..] == ord;
    }
  }

  lemma {:induction false} EndDistance(una: u32, e: Seg, d: int)
    requires e.seqNo == una
    ensures Wrap32(una + d) == Wrap32(EndOf(e) + (d - e.seqLen))
  {
  }

  /** A cumulative ack keeps the tiling: it frees a prefix, and `una` moves to its end. */
  lemma {:induction false} AckKeepsTiling(segs: Segs, ord: seq<nat>, una: u32, end: u32, ack: u32)
    returns (ord': seq<nat>, una': u32)
    requires Tiles(segs, ord, una, end) && Lists(segs, ord) && InHalf(una, end, ack)
    ensures Tiles(AckSegs(segs, ack), ord', una', end) && Lists(AckSegs(segs, ack), ord')
    ensures exists k :: 0 <= k <= |ord| && ord' == ord[k..]
  {
    hide SeqBefore, Covered, Tiles, Lists, Wrap32;
    HalfDistance(segs, ord, una, end, ack);
    var k := AckCoversPrefix(segs, ord, una, end, ack, Distance(una, ack));
    ord', una' := ord[k..], if k < |ord| then segs[ord[k]].seqNo else end;
    RestTiles(segs, ord, k, una', end, ack);
    RestLists(segs, ord, k, ack);
  }

  lemma {:induction false} HalfDistance(segs: Segs, ord: seq<nat>, una: u32, end: u32, ack: u32)
    requires Tiles(segs, ord, una, end) && Lists(segs, ord) && InHalf(una, end, ack)
    ensures Length(segs, ord) - 0x8000_0000 <= Distance(una, ack) < 0x8000_0000
  {
    hide Tiles, Lists, Length, Total;
    InFlightIsDistance(segs, ord, una, end);
    TotalIsLength(segs, ord);
  }

  /** What an ack leaves behind its prefix is untouched. */
  lemma {:induction false} RestTiles(segs: Segs, ord: seq<nat>, k: nat, una: u32, end: u32, ack: u32)
    requires k <= |ord| && Tiles(segs, ord[k..], una, end)
    requires forall j :: 0 <= j < |ord| ==> ord[j] < WINDOW && (Covered(segs[ord[j]], ack) <==> j < k)
    ensures Tiles(AckSegs(segs, ack), ord[k..], una, end)
  {
    hide Covered, Tiles;
    assert forall j :: 0 <= j < |ord[k..]| ==> ord[k..][j] == ord[j + k];
    TilesFrame(segs, AckSegs(segs, ack), ord[k..], una, end);
  }

  lemma {:induction false} RestLists(segs: Segs, ord: seq<nat>, k: nat, ack: u32)
    requires k <= |ord| && Lists(segs, ord)
    requires forall j :: 0 <= j < |ord| ==> ord[j] < WINDOW && (Covered(segs[ord[j]], ack) <==> j < k)
    ensures Lists(AckSegs(segs, ack), ord[k..])
  {
    hide SeqBefore;
    var rest, after := ord[k..], AckSegs(segs, ack);
    assert forall j :: 0 <= j < |rest| ==> rest[j] == ord[j + k];
    forall i | 0 <= i < WINDOW ensures after[i].inUse <==> i in rest {
      if segs[i].inUse {
        var j :| 0 <= j < |ord| && ord[j] == i;
        if j >= k { assert rest[j - k] == i; }
      }
    }
  }

  // ----- a connection and its window

  datatype Link = Link(sched: Sched, conn: Conn)

  /** `sent` tells whether the frame was built and passed on. */
  datatype Event =
    | Send(length: nat, sent: bool, now: u32)
    | Close(sent: bool, now: u32)
    | AckInOrder(ack: u32, now: u32)
    | AckEarly(ack: u32, now: u32)
    | Timer(now: u32)
    | PeerWindow(window: u16)
    | PeerFin(now: u32)
    | PeerRst
    | TimeWaitTick(now: u32)

  predicate Sends(l: Link, length: nat, sent: bool) {
    && 0 < length <= MAX_PAYLOAD && l.conn.status == Established && FreeFrom(l.sched.segs, 0) < WINDOW
    && BytesInFlight(l.sched.segs) + length <= l.conn.peerWindow && sent
  }

  predicate Closes(l: Link, sent: bool) {
    (l.conn.status == Established || l.conn.status == CloseWait) && BytesInFlight(l.sched.segs) == 0 && sent
  }

  function CancelIf(c: Sched, release: bool): Sched { if release then Cancel(c) else c }

  function Apply(l: Link, e: Event): Link {
    match e
    case Send(n, sent, now) =>
      if !Sends(l, n, sent) then l
      else Link(Track(l.sched, l.conn.sendSeq, n, 54 + n, now), l.conn.(sendSeq := Wrap32(l.conn.sendSeq + n)))
    case Close(sent, now) =>
      if !Closes(l, sent) then l
      else Link(Track(l.sched, l.conn.sendSeq, 1, 54, now),
                InitiateClose(l.conn.(sendSeq := Wrap32(l.conn.sendSeq + 1)), l.conn.sendSeq))
    case AckInOrder(ack, now) =>
      var r := OnAck(l.conn, ack, now);
      Link(Ack(CancelIf(l.sched, r.release), ack, now), r.conn)
    case AckEarly(ack, now) => if ack <= l.conn.sendSeq then l.(sched := Ack(l.sched, ack, now)) else l
    case Timer(now) =>
      var r := if GivesUp(l.sched, now) then OnRst(l.conn) else Reaction(l.conn, false);
      Link(CancelIf(Tick(l.sched, now), r.release), r.conn)
    case PeerWindow(w) => l.(conn := l.conn.(peerWindow := w))
    case PeerFin(now) => l.(conn := OnFin(l.conn, now))
    case PeerRst => Link(CancelIf(l.sched, OnRst(l.conn).release), OnRst(l.conn).conn)
    case TimeWaitTick(now) => l.(conn := OnTick(l.conn, now).conn)
  }

  function Una(l: Link): u32 {
    var o := Oldest(l.sched.segs);
    if o == WINDOW then l.conn.sendSeq else l.sched.segs[o].seqNo
  }

  /** Acks stay within half the sequence space of what is in flight. */
  predicate Allowed(l: Link, e: Event) {
    (e.AckInOrder? || e.AckEarly?) ==> InHalf(Una(l), l.conn.sendSeq, e.ack)
  }

  predicate AllowedRun(l: Link, es: seq<Event>)
    decreases |es|
  {
    es == [] || (Allowed(l, es[0]) && AllowedRun(Apply(l, es[0]), es[1..]))
  }

  function Run(l: Link, es: seq<Event>): Link
    decreases |es|
  {
    if es == [] then l else Run(Apply(l, es[0]), es[1..])
  }

  ghost predicate Tiled(l: Link, ord: seq<nat>) {
    && Tiles(l.sched.segs, ord, Una(l), l.conn.sendSeq) && Lists(l.sched.segs, ord)
    && (ord != [] ==> l.sched.phase == Retry)
  }

  lemma {:induction false} TiledFrom(l: Link, ord: seq<nat>, una: u32)
    requires Tiles(l.sched.segs, ord, una, l.conn.sendSeq) && Lists(l.sched.segs, ord)
    requires ord != [] ==> l.sched.phase == Retry
    ensures Tiled(l, ord)
  {
    OldestIsFirst(l.sched.segs, ord, una, l.conn.sendSeq);
  }

  lemma {:induction false} EmptyTiled(l: Link)
    requires forall i :: 0 <= i < WINDOW ==> !l.sched.segs[i].inUse
    ensures Tiled(l, [])
  {
    TiledFrom(l, [], l.conn.sendSeq);
  }

  lemma {:induction false} TrackTiled(l: Link, ord: seq<nat>, n: u16, frameLen: nat, now: u32, c: Conn)
    returns (ord': seq<nat>)
    requires Tiled(l, ord) && n > 0 && 0 < frameLen <= MAX_FRAME && FreeFrom(l.sched.segs, 0) < WINDOW
    requires c.sendSeq == Wrap32(l.conn.sendSeq + n)
    ensures Tiled(Link(Track(l.sched, l.conn.sendSeq, n, frameLen, now), c), ord')
    ensures ord' == ord + [FreeFrom(l.sched.segs, 0)]
  {
    hide Wrap32, Una, Tiles;
    var i, segs := FreeFrom(l.sched.segs, 0), l.sched.segs;
    var l' := Link(Track(l.sched, l.conn.sendSeq, n, frameLen, now), c);
    ord' := ord + [i];
    TrackLists(segs, ord, i, Seg(true, l.conn.sendSeq, n, now, false));
    TilesFrame(segs, l'.sched.segs, ord, Una(l), l.conn.sendSeq);
    TilesSnoc(l'.sched.segs, ord, Una(l), l.conn.sendSeq, i);
    TiledFrom(l', ord', Una(l));
  }

  /** A segment put into a free slot comes last. */
  lemma {:induction false} TrackLists(segs: Segs, ord: seq<nat>, i: nat, e: Seg)
    requires Lists(segs, ord) && i < WINDOW && !segs[i].inUse && e.inUse
    ensures Lists(segs[i := e], ord + [i]) && SameTiles(segs, segs[i := e], ord)
  {
    assert forall j :: 0 <= j < |ord| ==> ord[j] in ord;
    assert forall k :: k in ord + [i] <==> k in ord || k == i;
  }

  lemma {:induction false} AckTiled(l: Link, ord: seq<nat>, ack: u32, now: u32) returns (ord': seq<nat>)
    requires Tiled(l, ord) && InHalf(Una(l), l.conn.sendSeq, ack)
    ensures Tiled(l.(sched := Ack(l.sched, ack, now)), ord')
  {
    hide Wrap32, SeqBefore, NewSrtt, NewRttvar, Clamp, Covered;
    var c := l.sched;
    ord' := ord;
    if c.phase == Retry && Frees(c.segs, ack) {
      var una';
      ord', una' := AckKeepsTiling(c.segs, ord, Una(l), l.conn.sendSeq, ack);
      OldestIsFirst(AckSegs(c.segs, ack), ord', una', l.conn.sendSeq);
      TiledFrom(l.(sched := Ack(c, ack, now)), ord', una');
    } else {
      TiledFrom(l.(sched := Ack(c, ack, now)), ord, Una(l));
    }
  }

  lemma {:induction false} TimerTiled(l: Link, ord: seq<nat>, now: u32) returns (ord': seq<nat>)
    requires Tiled(l, ord)
    ensures Tiled(l.(sched := Tick(l.sched, now)), ord')
  {
    hide Wrap32, SeqBefore;
    var c, c' := l.sched, Tick(l.sched, now);
    ord' := ord;
    if GivesUp(c, now) {
      ord' := [];
      EmptyTiled(l.(sched := c'));
    } else {
      OldestIsFirst(c.segs, ord, Una(l), l.conn.sendSeq);
      TilesFrame(c.segs, c'.segs, ord, Una(l), l.conn.sendSeq);
      TiledFrom(l.(sched := c'), ord, Una(l));
    }
  }

  lemma {:induction false} CancelTiled(l: Link, ord: seq<nat>, release: bool, c: Conn) returns (ord': seq<nat>)
    requires Tiled(l, ord) && c.sendSeq == l.conn.sendSeq
    ensures Tiled(Link(CancelIf(l.sched, release), c), ord')
  {
    hide Wrap32, SeqBefore;
    if release {
      ord' := [];
      EmptyTiled(Link(Cancel(l.sched), c));
    } else {
      ord' := ord;
      TiledFrom(Link(l.sched, c), ord, Una(l));
    }
  }

  lemma {:induction false} NothingInFlight(l: Link, ord: seq<nat>)
    requires Tiled(l, ord) && BytesInFlight(l.sched.segs) == 0
    ensures ord == [] && FreeFrom(l.sched.segs, 0) == 0
  {
    hide Wrap32, SeqBefore;
    TotalIsLength(l.sched.segs, ord);
    if ord == [] { assert 0 !in ord; }
  }

  lemma {:induction false} EventKeepsTiling(l: Link, ord: seq<nat>, e: Event) returns (ord': seq<nat>)
    requires Tiled(l, ord) && Allowed(l, e)
    ensures Tiled(Apply(l, e), ord')
  {
    hide Tiled, Wrap32, Track, Ack, Tick, OnAck, OnFin, InHalf, Cancel, BytesInFlight;
    ord' := ord;
    match e
    case Send(n, sent, now) =>
      if Sends(l, n, sent) { ord' := TrackTiled(l, ord, n, 54 + n, now, Apply(l, e).conn); }
    case Close(sent, now) =>
      if Closes(l, sent) {
        NothingInFlight(l, ord);
        ord' := TrackTiled(l, ord, 1, 54, now, Apply(l, e).conn);
      }
    case AckInOrder(ack, now) =>
      var r := OnAck(l.conn, ack, now);
      AckKeepsSendSeq(l.conn, ack, now);
      ord' := CancelTiled(l, ord, r.release, r.conn);
      CancelInHalf(l, r, ack);
      ord' := AckTiled(Link(CancelIf(l.sched, r.release), r.conn), ord', ack, now);
    case AckEarly(ack, now) => if ack <= l.conn.sendSeq { ord' := AckTiled(l, ord, ack, now); }
    case Timer(now) =>
      ord' := TimerTiled(l, ord, now);
      var r := if GivesUp(l.sched, now) then OnRst(l.conn) else Reaction(l.conn, false);
      ord' := CancelTiled(l.(sched := Tick(l.sched, now)), ord', r.release, r.conn);
    case PeerWindow(w) => ord' := CancelTiled(l, ord, false, Apply(l, e).conn);
    case PeerFin(now) =>
      FinKeepsSendSeq(l.conn, now);
      ord' := CancelTiled(l, ord, false, Apply(l, e).conn);
    case PeerRst => ord' := CancelTiled(l, ord, OnRst(l.conn).release, OnRst(l.conn).conn);
    case TimeWaitTick(now) => ord' := CancelTiled(l, ord, false, Apply(l, e).conn);
  }

  lemma {:induction false} AckKeepsSendSeq(c: Conn, ack: u32, now: u32)
    ensures OnAck(c, ack, now).conn.sendSeq == c.sendSeq
  {
  }

  lemma {:induction false} FinKeepsSendSeq(c: Conn, now: u32)
    ensures OnFin(c, now).sendSeq == c.sendSeq
  {
  }

  /** After a cancel nothing is in flight and every ack is within half of it. */
  lemma {:induction false} CancelInHalf(l: Link, r: Reaction, ack: u32)
    requires InHalf(Una(l), l.conn.sendSeq, ack) && r.conn.sendSeq == l.conn.sendSeq
    ensures var l' := Link(CancelIf(l.sched, r.release), r.conn); InHalf(Una(l'), l'.conn.sendSeq, ack)
  {
    if r.release {
      var segs := Cancel(l.sched).segs;
      assert Oldest(segs) == WINDOW;
    }
  }

  /** Send-window tiling over every run: the segments in use tile the numbers from `una` to
      `send_seq`, `oldest` is the one at `una`, and the bytes in flight are their distance. */
  lemma {:induction false} RunKeepsTiling(l: Link, ord: seq<nat>, es: seq<Event>) returns (ord': seq<nat>)
    requires Tiled(l, ord) && AllowedRun(l, es)
    ensures var e := Run(l, es);
      && Tiles(e.sched.segs, ord', Una(e), e.conn.sendSeq) && Lists(e.sched.segs, ord')
      && (ord' != [] ==> Oldest(e.sched.segs) == ord'[0] && e.sched.phase == Retry)
      && Total(e.sched.segs) == Wrap32(e.conn.sendSeq - Una(e))
    decreases |es|
  {
    hide Apply, Wrap32, SeqBefore;
    if es == [] {
      ord' := ord;
      OldestIsFirst(l.sched.segs, ord, Una(l), l.conn.sendSeq);
      InFlightIsDistance(l.sched.segs, ord, Una(l), l.conn.sendSeq);
    } else {
      var o := EventKeepsTiling(l, ord, es[0]);
      ord' := RunKeepsTiling(Apply(l, es[0]), o, es[1..]);
    }
  }

  /** A data send that goes out leaves no more in flight than the peer's window allows. */
  lemma {:induction false} SendFitsPeerWindow(l: Link, n: nat, sent: bool, now: u32)
    requires Sends(l, n, sent)
    ensures var l' := Apply(l, Send(n, sent, now));
      Total(l'.sched.segs) == Total(l.sched.segs) + n <= l'.conn.peerWindow
  {
    var i := FreeFrom(l.sched.segs, 0);
    TotalUpdate(l.sched.segs, i, Seg(true, l.conn.sendSeq, n, now, false), 0);
  }

  /** Room for one more segment, and for `n` more bytes beside what is unacknowledged. */
  predicate HasRoom(l: Link, n: nat) {
    && (exists i :: 0 <= i < WINDOW && !l.sched.segs[i].inUse)
    && Wrap32(l.conn.sendSeq - Una(l)) + n <= l.conn.peerWindow
  }

  /** `n` bytes went out: they are tracked at the old `send_seq` in a free slot, and nothing
      else of the window changed. */
  ghost predicate WentOut(l: Link, l': Link, n: u16, now: u32) {
    && l'.conn == l.conn.(sendSeq := Wrap32(l.conn.sendSeq + n)) && l'.sched.phase == Retry
    && exists i ::
         && 0 <= i < WINDOW && !l.sched.segs[i].inUse
         && l'.sched.segs == l.sched.segs[i := Seg(true, l.conn.sendSeq, n, now, false)]
  }

  lemma {:induction false} RoomIff(l: Link, ord: seq<nat>, n: nat)
    requires Tiled(l, ord) && n > 0
    ensures HasRoom(l, n) <==>
      FreeFrom(l.sched.segs, 0) < WINDOW && BytesInFlight(l.sched.segs) + n <= l.conn.peerWindow
  {
    hide Wrap32, Tiles, Lists, Una;
    InFlightIsDistance(l.sched.segs, ord, Una(l), l.conn.sendSeq);
    hide Total;
    var i := FreeFrom(l.sched.segs, 0);
    if i < WINDOW { assert !l.sched.segs[i].inUse; }
  }

  /** Over every run: data goes out exactly when it is one to 1460 bytes on an established
      connection with room in both windows, and the frame could be passed on. */
  lemma {:induction false} SendExact(l0: Link, es: seq<Event>, n: nat, sent: bool, now: u32)
    requires (forall i :: 0 <= i < WINDOW ==> !l0.sched.segs[i].inUse) && AllowedRun(l0, es)
    ensures var l := Run(l0, es);
      var l' := Apply(l, Send(n, sent, now));
      if 0 < n <= MAX_PAYLOAD && l.conn.status == Established && HasRoom(l, n) && sent
      then WentOut(l, l', n, now) else l' == l
  {
    EmptyTiled(l0);
    hide Run, AllowedRun, Tiles, Lists, BytesInFlight, Una, HasRoom, Wrap32;
    var ord := RunKeepsTiling(l0, [], es);
    var l := Run(l0, es);
    TiledFrom(l, ord, Una(l));
    if n > 0 { RoomIff(l, ord, n); }
  }

  /** Over every run: a close goes out exactly when nothing is unacknowledged on a connection
      that may still be closed.  The FIN then takes one number, which Rapport remembers. */
  lemma {:induction false} CloseExact(l0: Link, es: seq<Event>, sent: bool, now: u32)
    requires (forall i :: 0 <= i < WINDOW ==> !l0.sched.segs[i].inUse) && AllowedRun(l0, es)
    ensures var l := Run(l0, es);
      var l' := Apply(l, Close(sent, now));
      if (l.conn.status == Established || l.conn.status == CloseWait) && Una(l) == l.conn.sendSeq && sent
      then
        && Una(l') == l.conn.sendSeq == l'.conn.finSeq && l'.conn.sendSeq == Wrap32(l.conn.sendSeq + 1)
        && l'.conn.status == (if l.conn.status == Established then FinWait1 else LastAck)
        && l'.conn.expected == l.conn.expected
      else l' == l
  {
    EmptyTiled(l0);
    var ord := RunKeepsTiling(l0, [], es);
    hide Run, AllowedRun, Tiles, Lists, Total, Track, Wrap32, Tiled, Oldest;
    var l := Run(l0, es);
    TiledFrom(l, ord, Una(l));
    SameIsZero(l.conn.sendSeq, Una(l));
    if Closes(l, sent) {
      NothingInFlight(l, ord);
      var l' := Apply(l, Close(sent, now));
      var ord' := TrackTiled(l, ord, 1, 54, now, l'.conn);
      FirstTracked(l, l', ord', now);
    }
  }

  lemma {:induction false} SameIsZero(a: u32, b: u32)
    ensures Wrap32(a - b) == 0 <==> a == b
  {
  }

  lemma {:induction false} FirstTracked(l: Link, l': Link, ord': seq<nat>, now: u32)
    requires Tiled(l', ord') && ord' == [FreeFrom(l.sched.segs, 0)] && FreeFrom(l.sched.segs, 0) < WINDOW
    requires l'.sched == Track(l.sched, l.conn.sendSeq, 1, 54, now)
    ensures Una(l') == l.conn.sendSeq
  {
    OldestIsFirst(l'.sched.segs, ord', Una(l'), l'.conn.sendSeq);
  }
}
