/** What every run of a slot keeps, and what it means for the byte stream the reader sees. */
module StreamIntegrity {
  import opened Words
  import opened Rapport
  import opened ReceiveModel

  // ----- sequence arithmetic

  lemma {:induction false} WrapAdd(a: int, b: int)
    ensures Wrap32(Wrap32(a) + b) == Wrap32(a + b)
  {
  }

  lemma {:induction false} SameOffset(base: u32, o: nat, l: nat)
    requires o < 0x1_0000_0000 && l < 0x1_0000_0000 && Wrap32(base + o) == Wrap32(base + l)
    ensures o == l
  {
  }

  lemma {:induction false} UnwrapLength(base: u32, n: nat)
    requires n < 0x1_0000_0000
    ensures Wrap32(Wrap32(base + n) - base) == n
  {
  }

  // ----- chains

  lemma {:induction false} BytesSnoc(chain: seq<Piece>, p: Piece)
    ensures Bytes(chain + [p]) == Bytes(chain) + p.data
  {
    assert (chain + [p])[..|chain|] == chain;
  }

  lemma {:induction false} ContiguousSnoc(chain: seq<Piece>, base: u32, p: Piece)
    requires Contiguous(chain, base) && p.seqNo == Wrap32(base + |Bytes(chain)|)
    ensures Contiguous(chain + [p], base)
  {
    assert (chain + [p])[..|chain|] == chain;
  }

  // ----- single operations

  lemma {:induction false} Fresh(h: History, chain: seq<Piece>)
    requires Good(h, chain)
    ensures Good(h.(slot := FreshInbox(h.slot)), chain)
    ensures Good(h.(slot := FreshWay(h.slot)), chain)
  {
  }

  lemma {:induction false} ClaimGood(s: Slot, c: Conn)
    requires SlotOk(s) && NoLapse(Claim(s))
    ensures Good(NewConnection(Claim(s).(conn := c), c.expected), [])
  {
  }

  /** A change of the connection state alone. */
  lemma {:induction false} ConnGood(h: History, chain: seq<Piece>, c: Conn)
    requires Good(h, chain)
    requires c.expected == h.slot.conn.expected && (c.status != Closed ==> h.slot.inUse)
    requires c.status == SynSent ==> chain == []
    ensures Good(h.(slot := h.slot.(conn := c)), chain)
  {
    assert FreshInbox(h.slot.(conn := c)).ring == FreshInbox(h.slot).ring;
  }

  lemma {:induction false} ReactGood(h: History, chain: seq<Piece>, r: Reaction)
    requires Good(h, chain)
    requires r.conn.expected == h.slot.conn.expected
    requires r.conn.status != Closed ==> h.slot.inUse && !r.release
    requires r.conn.status == SynSent ==> chain == []
    ensures Good(h.(slot := React(h.slot, r)), chain)
  {
    ConnGood(h, chain, r.conn);
    assert FreshInbox(React(h.slot, r)).ring == FreshInbox(h.slot).ring;
  }

  /** Taking a prefix off a fresh ring moves it to the reader. */
  lemma {:induction false} TakeGood(h: History, chain: seq<Piece>, n: nat)
    requires Good(h, chain) && h.slot.inboxGen == h.slot.gen && n <= |h.slot.ring|
    ensures var s := h.slot;
      Good(h.(slot := s.(ring := s.ring[n..], buffered := s.buffered - n), delivered := h.delivered + s.ring[..n]),
        chain)
  {
    hide Wrap32, Bytes, Contiguous;
    var s := h.slot;
    var t := s.(ring := s.ring[n..], buffered := s.buffered - n);
    assert Pending(s) == s.ring && Pending(t) == t.ring && Waiting(t) == Waiting(s);
    assert h.delivered + s.ring[..n] + s.ring[n..] == h.delivered + s.ring;
  }

  lemma {:induction false} ReadGood(h: History, chain: seq<Piece>, max: nat)
    requires Good(h, chain)
    ensures Good(Apply(h, Read(max)), chain)
  {
    Fresh(h, chain);
    var f := FreshInbox(h.slot);
    var n := ReadCount(h.slot, max);
    assert f.buffered == |f.ring|;
    TakeGood(h.(slot := f), chain, n);
    hide Good, Pending, FreshInbox;
    assert AfterRead(h.slot, max) == f.(ring := f.ring[n..], buffered := f.buffered - n);
  }

  lemma {:induction false} HoldGood(h: History, chain: seq<Piece>, seqNo: u32, data: Payload)
    requires Good(h, chain) && Piece(seqNo, data) in h.arrived
    ensures Good(h.(slot := Hold(h.slot, seqNo, data)), chain)
  {
    Fresh(h, chain);
  }

  lemma {:induction false} DepositSlot(s: Slot, data: Payload)
    requires SlotOk(s) && Accepts(FreshInbox(s), |data|)
    ensures SlotOk(Advanced(s, data)) && Waiting(Advanced(s, data)) == Waiting(s)
    ensures Pending(Advanced(s, data)) == Pending(s) + data
  {
  }

  /** Accepting a piece that starts at `expected` extends the chain. */
  lemma {:induction false} DepositGood(h: History, chain: seq<Piece>, p: Piece)
    requires Good(h, chain) && p in h.arrived && h.slot.conn.status != SynSent
    requires p.seqNo == h.slot.conn.expected && Accepts(FreshInbox(h.slot), |p.data|)
    ensures Good(h.(slot := Advanced(h.slot, p.data)), chain + [p])
  {
    BytesSnoc(chain, p);
    DepositSlot(h.slot, p.data);
    hide SlotOk, Pending, Waiting, FreshInbox, Bytes, Contiguous, Wrap32;
    assert h.delivered + Pending(h.slot) + p.data == h.delivered + (Pending(h.slot) + p.data);
    if !h.fin {
      ContiguousSnoc(chain, h.base, p);
      WrapAdd(h.base + |Bytes(chain)|, |p.data|);
      assert Advanced(h.slot, p.data).conn.expected == Wrap32(h.slot.conn.expected + |p.data|);
    }
  }

  lemma {:induction false} FreeRowGood(h: History, chain: seq<Piece>, i: nat)
    requires Good(h, chain) && i < MAX_PENDING && h.slot.wayGen == h.slot.gen
    ensures Good(h.(slot := h.slot.(rows := h.slot.rows[i := Free])), chain)
  {
    assert FreshInbox(h.slot.(rows := h.slot.rows[i := Free])).ring == FreshInbox(h.slot).ring;
  }

  lemma {:induction false} DrainGood(h: History, chain: seq<Piece>) returns (chain': seq<Piece>)
    requires Good(h, chain) && h.slot.conn.status != SynSent && h.slot.wayGen == h.slot.gen
    ensures Good(h.(slot := DrainLoop(h.slot)), chain') && chain <= chain'
    decreases HeldCount(h.slot.rows)
  {
    hide Explains, SlotOk;
    var s := h.slot;
    var i := FindHeld(s.rows, s.conn.expected, 0);
    chain' := chain;
    if i < MAX_PENDING {
      if Accepts(FreshInbox(s), |s.rows[i].data|) {
        var p := Piece(s.rows[i].seqNo, s.rows[i].data);
        assert Waiting(s) == s.rows;
        DepositGood(h, chain, p);
        FreeRowGood(h.(slot := Advanced(s, p.data)), chain + [p], i);
        HeldCountFree(s.rows, i);
        chain' := DrainGood(h.(slot := DeliverRow(s, i)), chain + [p]);
      } else {
        Fresh(h, chain);
      }
    }
  }

  /** Once a drain stops, no row is next in line unless the Inbox has no room for it. */
  lemma {:induction false} DrainComplete(s: Slot)
    ensures var e := DrainLoop(s);
      var i := FindHeld(e.rows, e.conn.expected, 0);
      i < MAX_PENDING ==> !Accepts(FreshInbox(e), |e.rows[i].data|)
    decreases HeldCount(s.rows)
  {
    var i := FindHeld(s.rows, s.conn.expected, 0);
    if i < MAX_PENDING && Accepts(FreshInbox(s), |s.rows[i].data|) {
      HeldCountFree(s.rows, i);
      DrainComplete(DeliverRow(s, i));
    }
  }

  lemma {:induction false} AckGood(h: History, chain: seq<Piece>, g: Segment, now: u32)
    requires Good(h, chain) && h.slot.conn.status != SynSent
    ensures Good(h.(slot := AfterAck(h.slot, g, now)), chain)
    ensures AfterAck(h.slot, g, now).conn.status != SynSent
    ensures AfterAck(h.slot, g, now).conn.expected == h.slot.conn.expected
  {
    SlotOkOf(h, chain);
    hide Good;
    if g.ack.Some? { ReactGood(h, chain, OnAck(h.slot.conn, g.ack.value, now)); }
  }

  lemma {:induction false} DataGood(h: History, chain: seq<Piece>, p: Piece) returns (chain': seq<Piece>)
    requires Good(h, chain) && h.slot.conn.status != SynSent
    requires p.seqNo == h.slot.conn.expected && p in h.arrived
    ensures Good(h.(slot := AfterData(h.slot, p.data)), chain')
  {
    hide DrainLoop, Good;
    var s := h.slot;
    chain' := chain;
    if |p.data| > 0 {
      if Accepts(FreshInbox(s), |p.data|) {
        DepositGood(h, chain, p);
        var t := Advanced(s, p.data);
        Fresh(h.(slot := t), chain + [p]);
        chain' := DrainGood(h.(slot := FreshWay(t)), chain + [p]);
      } else {
        Fresh(h, chain);
      }
    }
  }

  lemma {:induction false} FinGood(h: History, chain: seq<Piece>, fin: bool, now: u32)
    requires Good(h, chain)
    ensures Good(h.(slot := AfterFin(h.slot, fin, now), fin := h.fin || fin), chain)
  {
    if fin {
      assert FreshInbox(h.slot.(conn := OnFin(h.slot.conn, now))).ring == FreshInbox(h.slot).ring;
    }
  }

  lemma {:induction false} InOrderGood(h: History, chain: seq<Piece>, g: Segment, now: u32) returns (chain': seq<Piece>)
    requires Good(h, chain) && h.slot.conn.status != SynSent && g.seqNo == h.slot.conn.expected
    requires Piece(g.seqNo, g.data) in h.arrived
    ensures Good(h.(slot := HandleInOrder(h.slot, g, now), fin := h.fin || g.fin), chain')
  {
    SlotOkOf(h, chain);
    hide Good, AfterAck, AfterData, AfterFin;
    chain' := chain;
    if g.rst {
      ReactGood(h, chain, OnRst(h.slot.conn));
      FinFlag(h.(slot := React(h.slot, OnRst(h.slot.conn))), chain);
    } else {
      AckGood(h, chain, g, now);
      var ha := h.(slot := AfterAck(h.slot, g, now));
      chain' := DataGood(ha, chain, Piece(g.seqNo, g.data));
      FinGood(ha.(slot := AfterData(ha.slot, g.data)), chain', g.fin, now);
    }
  }

  lemma {:induction false} ArriveGood(h: History, chain: seq<Piece>, g: Segment, now: u32) returns (chain': seq<Piece>)
    requires Good(h, chain)
    ensures Good(Apply(h, Arrive(g, now)), chain')
  {
    hide HandleInOrder, Hold;
    var s := h.slot;
    var h1 := h.(arrived := h.arrived + {Piece(g.seqNo, g.data)});
    assert Good(h1, chain);
    chain' := chain;
    if s.conn.status == SynSent {
      if g.rst { ReactGood(h1, chain, OnRst(s.conn)); }
      FinFlag(h1.(slot := Handle(s, g, now)), chain);
    } else {
      var w := s.(conn := s.conn.(peerWindow := g.window));
      ConnGood(h1, chain, w.conn);
      var hw := h1.(slot := w);
      if g.seqNo != w.conn.expected {
        HoldGood(hw, chain, g.seqNo, g.data);
      } else {
        chain' := InOrderGood(hw, chain, g, now);
      }
    }
  }

  lemma {:induction false} FinFlag(h: History, chain: seq<Piece>)
    requires Good(h, chain)
    ensures Good(h.(fin := true), chain)
  {
  }

  lemma {:induction false} SynAckGood(h: History, chain: seq<Piece>, peerIsn: u32, ack: u32)
    requires Good(h, chain)
    ensures Good(Apply(h, SynAck(peerIsn, ack)), chain)
  {
    var c := OnSynAck(h.slot.conn, peerIsn, ack);
    assert FreshInbox(h.slot.(conn := c)).ring == FreshInbox(h.slot).ring;
    if h.slot.conn.status == SynSent {
      assert Bytes(chain) == [];
    }
  }

  lemma {:induction false} StepGood(h: History, chain: seq<Piece>, e: Event) returns (chain': seq<Piece>)
    requires Good(h, chain) && NoLapse(Apply(h, e).slot)
    ensures Good(Apply(h, e), chain')
  {
    hide Handle, Good;
    var s := h.slot;
    SlotOkOf(h, chain);
    chain' := chain;
    match e
    case Listening => if !s.inUse { ClaimGood(s, s.conn); chain' := []; }
    case Accept(p, o) => if !s.inUse { ClaimGood(s, OnSyn(s.conn, p, o)); chain' := []; }
    case Connect(o) => if !s.inUse { ClaimGood(s, InitiateConnect(s.conn, o)); chain' := []; }
    case SynAck(p, ack) => SynAckGood(h, chain, p, ack);
    case Arrive(g, now) => chain' := ArriveGood(h, chain, g, now);
    case Read(max) => ReadGood(h, chain, max);
    case Measure =>
      Fresh(h, chain);
      Fresh(h.(slot := FreshWay(s)), chain);
    case Close =>
      if s.conn.status == Established || s.conn.status == CloseWait {
        ConnGood(h, chain, Apply(h, Close).slot.conn);
      }
    case Tick(now) => ReactGood(h, chain, OnTick(s.conn, now));
    case GiveUp => ReactGood(h, chain, OnRst(s.conn));
  }

  lemma {:induction false} SlotOkOf(h: History, chain: seq<Piece>)
    requires Good(h, chain)
    ensures SlotOk(h.slot) && (h.slot.conn.status == SynSent ==> chain == [])
  {
  }

  /** Every run from boot, claims and reclaims included, can be explained by a chain. */
  lemma {:induction false} RunGood(es: seq<Event>) returns (chain: seq<Piece>)
    requires NeverLapses(BOOT, es)
    ensures Good(Run(BOOT, es), chain)
    decreases |es|
  {
    if es == [] {
      chain := [];
    } else {
      var before := es[..|es| - 1];
      forall n | 0 <= n <= |before| ensures NoLapse(Run(BOOT, before[..n]).slot) {
        assert before[..n] == es[..n];
      }
      var c := RunGood(before);
      assert es[..|es|] == es;
      chain := StepGood(Run(BOOT, before), c, es[|es| - 1]);
    }
  }

  // ----- what it means

  /** `p` is a cut of `stream`, whose first byte has sequence number `base`. */
  ghost predicate CutFrom(p: Piece, stream: seq<u8>, base: u32) { exists o: nat :: CutAt(p, stream, base, o) }

  predicate CutAt(p: Piece, stream: seq<u8>, base: u32, o: nat) {
    o + |p.data| <= |stream| && p.seqNo == Wrap32(base + o) && p.data == stream[o..o + |p.data|]
  }

  lemma {:induction false} PrefixExtend(a: seq<u8>, d: seq<u8>, stream: seq<u8>)
    requires a <= stream && |a| + |d| <= |stream| && d == stream[|a|..|a| + |d|]
    ensures a + d <= stream
  {
  }

  lemma {:induction false} ChainIsPrefix(chain: seq<Piece>, stream: seq<u8>, base: u32)
    requires |stream| < 0x1_0000_0000 && Contiguous(chain, base)
    requires forall p :: p in chain && p.data != [] ==> CutFrom(p, stream, base)
    ensures Bytes(chain) <= stream
  {
    hide Wrap32;
    if chain != [] {
      var n := |chain| - 1;
      var front, p := chain[..n], chain[n];
      ChainIsPrefix(front, stream, base);
      assert p in chain;
      if p.data != [] {
        var o: nat :| CutAt(p, stream, base, o);
        SameOffset(base, o, |Bytes(front)|);
        PrefixExtend(Bytes(front), p.data, stream);
      } else {
        assert Bytes(chain) == Bytes(front);
      }
    }
  }

  /** Stream integrity: in every run, whatever was lost, repeated or reordered, what the
      reader got plus what is buffered is exactly the part of the peer's stream before
      `expected`, as long as no FIN has been taken. Segments without data may have any number. */
  lemma {:induction false} StreamPrefix(es: seq<Event>, stream: seq<u8>)
    requires NeverLapses(BOOT, es) && |stream| < 0x1_0000_0000
    requires var h := Run(BOOT, es);
      !h.fin && forall p :: p in h.arrived && p.data != [] ==> CutFrom(p, stream, h.base)
    ensures var h := Run(BOOT, es);
      var n := Wrap32(h.slot.conn.expected - h.base);
      n <= |stream| && h.delivered + Pending(h.slot) == stream[..n]
  {
    hide Run, NeverLapses, Contiguous, Bytes, Pending, CutFrom;
    var h := Run(BOOT, es);
    var chain := RunGood(es);
    ChainIsPrefix(chain, stream, h.base);
    UnwrapLength(h.base, |Bytes(chain)|);
  }

  /** Slot reuse isolation: everything delivered or buffered since the slot was last claimed
      is a concatenation of payloads that arrived since then. */
  lemma {:induction false} ReuseIsolation(es: seq<Event>) returns (chain: seq<Piece>)
    requires NeverLapses(BOOT, es)
    ensures var h := Run(BOOT, es);
      && Bytes(chain) == h.delivered + Pending(h.slot)
      && (forall p :: p in chain ==> p in h.arrived)
      && RowsArrived(Waiting(h.slot), h.arrived)
  {
    chain := RunGood(es);
  }

  /** In every reachable state a slot that is not closed is claimed, and the Inbox count is
      the LockBox account and at most 4096. */
  lemma {:induction false} TablesAgree(es: seq<Event>)
    requires NeverLapses(BOOT, es)
    ensures var s := Run(BOOT, es).slot;
      && (s.conn.status != Closed ==> s.inUse)
      && (Wrap32(s.inboxGen) == Wrap32(s.gen) ==> |s.ring| == s.buffered <= MAX_BUFFERED)
  {
    var chain := RunGood(es);
  }

  // ----- exactly when the hypothesis on generations holds

  predicate Claims(s: Slot, e: Event) { !s.inUse && (e.Listening? || e.Accept? || e.Connect?) }

  /** A connection starts with an empty ring and no held segment. */
  predicate StartsClean(s: Slot) { Pending(s) == [] && AllFree(Waiting(s)) }

  /** Every claim in the run starts a clean connection. */
  predicate AllStartClean(h: History, es: seq<Event>) {
    forall n :: 0 <= n < |es| && Claims(Run(h, es[..n]).slot, es[n]) ==> StartsClean(Run(h, es[..n + 1]).slot)
  }

  /** Whoever fills a ring or a row has looked at the generation first. */
  ghost predicate Looked(s: Slot, t: Slot) {
    && t.gen == s.gen
    && (t.inboxGen == t.gen || (t.inboxGen == s.inboxGen && t.ring == s.ring))
    && (t.wayGen == t.gen || (t.wayGen == s.wayGen && t.rows == s.rows))
  }

  lemma {:induction false} DrainLooks(s: Slot)
    requires s.wayGen == s.gen
    ensures Looked(s, DrainLoop(s))
    decreases HeldCount(s.rows)
  {
    var i := FindHeld(s.rows, s.conn.expected, 0);
    if i < MAX_PENDING && Accepts(FreshInbox(s), |s.rows[i].data|) {
      HeldCountFree(s.rows, i);
      DrainLooks(DeliverRow(s, i));
    }
  }

  lemma {:induction false} DataLooks(s: Slot, data: Payload)
    ensures Looked(s, AfterData(s, data))
  {
    hide DrainLoop;
    if |data| > 0 && Accepts(FreshInbox(s), |data|) { DrainLooks(FreshWay(Advanced(s, data))); }
  }

  lemma {:induction false} HandleLooks(s: Slot, g: Segment, now: u32)
    ensures Looked(s, Handle(s, g, now))
  {
    hide AfterData;
    var w := s.(conn := s.conn.(peerWindow := g.window));
    DataLooks(AfterAck(w, g, now), g.data);
  }

  lemma {:induction false} OthersLook(h: History, e: Event)
    requires !Claims(h.slot, e)
    ensures Looked(h.slot, Apply(h, e).slot)
  {
    hide Handle;
    if e.Arrive? { HandleLooks(h.slot, e.segment, e.now); }
  }

  lemma {:induction false} StepNoLapse(h: History, e: Event)
    requires NoLapse(h.slot) && (Claims(h.slot, e) ==> StartsClean(Apply(h, e).slot))
    ensures NoLapse(Apply(h, e).slot)
  {
    hide Handle, AfterRead;
    if !Claims(h.slot, e) { OthersLook(h, e); }
  }

  lemma {:induction false} RunNoLapse(es: seq<Event>, n: nat)
    requires n <= |es| && AllStartClean(BOOT, es)
    ensures NoLapse(Run(BOOT, es[..n]).slot)
  {
    hide Apply, NoLapse, StartsClean, Claims;
    if n == 0 {
      BootNoLapse();
    } else {
      RunNoLapse(es, n - 1);
      assert es[..n][..n - 1] == es[..n - 1] && es[..n][n - 1] == es[n - 1];
      assert es[..n - 1 + 1] == es[..n];
      StepNoLapse(Run(BOOT, es[..n - 1]), es[n - 1]);
    }
  }

  lemma {:induction false} BootNoLapse()
    ensures NoLapse(Run(BOOT, []).slot)
  {
  }

  lemma {:induction false} NoneArrived(chain: seq<Piece>, arrived: set<Piece>)
    requires arrived == {} && forall p :: p in chain ==> p in arrived
    ensures Bytes(chain) == []
  {
    var p := SomePiece(chain);
  }

  lemma {:induction false} SomePiece(chain: seq<Piece>) returns (p: Piece)
    ensures chain != [] ==> p in chain
  {
    p := if chain == [] then Piece(0, []) else chain[0];
  }

  lemma {:induction false} CleanStart(h: History, e: Event, chain: seq<Piece>)
    requires Claims(h.slot, e) && Good(Apply(h, e), chain)
    ensures StartsClean(Apply(h, e).slot)
  {
    var t := Apply(h, e);
    assert t.arrived == {} && t.delivered == [];
    NoneArrived(chain, t.arrived);
  }

  /** Every connection of a run starts clean, its ring and its rows, exactly when no bytes and no
      row are left behind for a claim count that comes round to the same 32-bit generation. */
  lemma {:induction false} LapseExact(es: seq<Event>)
    ensures AllStartClean(BOOT, es) <==> NeverLapses(BOOT, es)
  {
    if AllStartClean(BOOT, es) {
      forall n | 0 <= n <= |es| ensures NoLapse(Run(BOOT, es[..n]).slot) { RunNoLapse(es, n); }
    }
    if NeverLapses(BOOT, es) {
      forall n | 0 <= n < |es| && Claims(Run(BOOT, es[..n]).slot, es[n])
        ensures StartsClean(Run(BOOT, es[..n + 1]).slot)
      {
        PrefixNeverLapses(es, n + 1);
        var chain := RunGood(es[..n + 1]);
        assert es[..n + 1][..n] == es[..n];
        CleanStart(Run(BOOT, es[..n]), es[n], chain);
      }
    }
  }

  lemma {:induction false} PrefixNeverLapses(es: seq<Event>, n: nat)
    requires n <= |es| && NeverLapses(BOOT, es)
    ensures NeverLapses(BOOT, es[..n])
  {
    forall k | 0 <= k <= n ensures NoLapse(Run(BOOT, es[..n][..k]).slot) { assert es[..n][..k] == es[..k]; }
  }

  /** `n` connections that are accepted and reset without a byte being exchanged. */
  function Cycles(n: nat): seq<Event> {
    if n == 0 then [] else Cycles(n - 1) + [Accept(0, 0)] + [GiveUp]
  }

  lemma {:induction false} RunSnoc(h: History, es: seq<Event>, e: Event)
    ensures Run(h, es + [e]) == Apply(Run(h, es), e)
  {
    assert (es + [e])[..|es|] == es;
  }

  lemma {:induction false} RunJoin(h: History, a: seq<Event>, b: seq<Event>)
    ensures Run(h, a + b) == Run(Run(h, a), b)
  {
    if b == [] {
      assert a + b == a;
    } else {
      var n := |b| - 1;
      RunJoin(h, a, b[..n]);
      assert a + b == (a + b[..n]) + [b[n]];
      RunSnoc(h, a + b[..n], b[n]);
    }
  }

  lemma {:induction false} CyclesKeepRing(h: History, n: nat)
    requires !h.slot.inUse && h.slot.conn.status == Closed
    ensures var s := Run(h, Cycles(n)).slot;
      && !s.inUse && s.conn.status == Closed
      && s.ring == h.slot.ring && s.inboxGen == h.slot.inboxGen && s.gen == h.slot.gen + n
  {
    if n > 0 {
      CyclesKeepRing(h, n - 1);
      RunSnoc(h, Cycles(n - 1), Accept(0, 0));
      RunSnoc(h, Cycles(n - 1) + [Accept(0, 0)], GiveUp);
    }
  }

  /** 2^32 claims without a look at the Inbox hand the old ring to a connection for which
      nothing has arrived. */
  lemma {:induction false} RingComesBack(h: History, n: nat)
    requires n + 1 == 0x1_0000_0000
    requires !h.slot.inUse && h.slot.conn.status == Closed && h.slot.inboxGen == h.slot.gen
    ensures var e := Run(h, Cycles(n) + [Accept(0, 0)] + [Read(|h.slot.ring|)]);
      e.arrived == {} && e.delivered == h.slot.ring
  {
    hide Cycles, Run;
    var es := Cycles(n);
    CyclesKeepRing(h, n);
    RunSnoc(h, es, Accept(0, 0));
    RunSnoc(h, es + [Accept(0, 0)], Read(|h.slot.ring|));
  }

  /** A connection that takes one byte, which nobody reads, and is reset. */
  const ONE_BYTE_LEFT: seq<Event> :=
    [Accept(0, 0)] + [Arrive(Segment(1, [7], None, false, false, 0), 0)] + [GiveUp]

  lemma {:induction false} LeavesOneByte()
    ensures var s := Run(BOOT, ONE_BYTE_LEFT).slot;
      s.ring == [7] && !s.inUse && s.conn.status == Closed && s.inboxGen == s.gen
  {
    hide Apply;
    var g := Segment(1, [7], None, false, false, 0);
    assert [] + [Accept(0, 0)] == [Accept(0, 0)];
    RunSnoc(BOOT, [], Accept(0, 0));
    RunSnoc(BOOT, [Accept(0, 0)], Arrive(g, 0));
    RunSnoc(BOOT, [Accept(0, 0)] + [Arrive(g, 0)], GiveUp);
    AcceptAtBoot();
    OneByteArrives(Apply(BOOT, Accept(0, 0)), g);
  }

  lemma {:induction false} AcceptAtBoot()
    ensures var s := Apply(BOOT, Accept(0, 0)).slot;
      s.inUse && s.gen == 1 && s.buffered == 0 && s.ring == [] && AllFree(s.rows) && s.conn.status == SynReceived
        && s.conn.expected == 1
  {
  }

  lemma {:induction false} OneByteArrives(h: History, g: Segment)
    requires var s := h.slot;
      s.inUse && s.buffered == 0 && s.ring == [] && AllFree(s.rows) && s.conn.status == SynReceived
        && s.conn.expected == 1
    requires g == Segment(1, [7], None, false, false, 0)
    ensures var s := Apply(Apply(h, Arrive(g, 0)), GiveUp).slot;
      s.ring == [7] && !s.inUse && s.conn.status == Closed && s.inboxGen == s.gen
  {
    hide Wrap32;
    var w := h.slot.(conn := h.slot.conn.(peerWindow := 0));
    var a := Advanced(w, [7]);
    assert a.ring == [7];
    assert AllFree(FreshWay(a).rows);
    assert Drain(a) == FreshWay(a);
    assert Handle(h.slot, g, 0) == FreshWay(a);
  }

  /** A run from boot in which a reader gets a byte of an earlier connection. */
  lemma {:induction false} LapseLeaks(n: nat)
    requires n + 1 == 0x1_0000_0000
    ensures var e := Run(BOOT, ONE_BYTE_LEFT + (Cycles(n) + [Accept(0, 0)] + [Read(1)]));
      e.arrived == {} && e.delivered == [7]
  {
    hide Cycles, Run;
    LeavesOneByte();
    RunJoin(BOOT, ONE_BYTE_LEFT, Cycles(n) + [Accept(0, 0)] + [Read(1)]);
    RingComesBack(Run(BOOT, ONE_BYTE_LEFT), n);
  }
}
