/** Request/reply pairing of Networking/NetTrace/net_trace.c, and why the greedy pairing is a
    maximum matching. */
module PairingModel {
  import opened Words

  datatype Direction = Rx | Tx

  datatype Packet = Packet(
    id: u32, protocol: nat, direction: Direction, srcIp: u32, dstIp: u32, srcPort: u16, dstPort: u16)

  /** One side of a flow: what two events must share to be interchangeable. */
  datatype Side = Side(protocol: nat, direction: Direction, srcIp: u32, dstIp: u32, srcPort: u16, dstPort: u16)

  function SideOf(e: Packet): Side { Side(e.protocol, e.direction, e.srcIp, e.dstIp, e.srcPort, e.dstPort) }

  function Opposite(s: Side): Side {
    Side(s.protocol, if s.direction == Rx then Tx else Rx, s.dstIp, s.srcIp, s.dstPort, s.srcPort)
  }

  predicate IsReverseMatch(a: Packet, b: Packet) {
    && a.protocol == b.protocol && a.direction != b.direction
    && a.srcIp == b.dstIp && a.dstIp == b.srcIp && a.srcPort == b.dstPort && a.dstPort == b.srcPort
  }

  lemma {:induction false} MatchIsOpposite(a: Packet, b: Packet)
    ensures IsReverseMatch(a, b) <==> SideOf(b) == Opposite(SideOf(a))
    ensures IsReverseMatch(a, b) <==> SideOf(a) == Opposite(SideOf(b))
  {
  }

  /** `answers[i]` is the request event `i` replies to; `claimed` are the requests taken. */
  datatype Pairs = Pairs(answers: seq<Option<nat>>, claimed: set<nat>)

  predicate IsOpen(p: Pairs, k: nat) { k < |p.answers| && k !in p.claimed && p.answers[k].None? }

  /** The earliest open event from `from` on that event `i` replies to, or `i`. */
  function FirstOpen(ev: seq<Packet>, p: Pairs, i: nat, from: nat): (k: nat)
    requires i < |ev| && from <= i && |p.answers| == i
    ensures from <= k <= i
    ensures k < i ==> IsOpen(p, k) && IsReverseMatch(ev[i], ev[k])
    ensures forall j :: from <= j < k ==> !(IsOpen(p, j) && IsReverseMatch(ev[i], ev[j]))
    decreases i - from
  {
    if from == i || (IsOpen(p, from) && IsReverseMatch(ev[i], ev[from])) then from else FirstOpen(ev, p, i, from + 1)
  }

  function PairNext(ev: seq<Packet>, p: Pairs): Pairs
    requires |p.answers| < |ev|
  {
    var i := |p.answers|;
    var k := FirstOpen(ev, p, i, 0);
    if k < i then Pairs(p.answers + [Some(k)], p.claimed + {k}) else Pairs(p.answers + [None], p.claimed)
  }

  /** The pairing after the first `i` events. */
  function Pairing(ev: seq<Packet>, i: nat): (p: Pairs)
    requires i <= |ev|
    ensures |p.answers| == i
  {
    if i == 0 then Pairs([], {}) else PairNext(ev, Pairing(ev, i - 1))
  }

  // ----- every event in at most one pair

  /** A reply answers an earlier event that is taken and is itself no reply. */
  predicate Replies(ev: seq<Packet>, p: Pairs, i: nat, k: nat) {
    && k < i < |p.answers| <= |ev| && p.answers[i] == Some(k)
    && k in p.claimed && p.answers[k].None? && IsReverseMatch(ev[i], ev[k])
  }

  predicate AnswersMatch(ev: seq<Packet>, p: Pairs) {
    |p.answers| <= |ev| &&
    forall i :: 0 <= i < |p.answers| && p.answers[i].Some? ==> Replies(ev, p, i, p.answers[i].value)
  }

  predicate AnswersDiffer(p: Pairs) {
    forall i, j :: 0 <= i < j < |p.answers| && p.answers[i].Some? && p.answers[j].Some? ==>
      p.answers[i].value != p.answers[j].value
  }

  predicate ClaimsAnswered(p: Pairs) {
    forall k :: k in p.claimed ==> k < |p.answers| && exists i :: 0 <= i < |p.answers| && p.answers[i] == Some(k)
  }

  /** Every event is in at most one pair. */
  predicate Sound(ev: seq<Packet>, p: Pairs) { AnswersMatch(ev, p) && AnswersDiffer(p) && ClaimsAnswered(p) }

  lemma {:induction false} PairNextClaims(ev: seq<Packet>, p: Pairs)
    requires ClaimsAnswered(p) && |p.answers| < |ev|
    ensures ClaimsAnswered(PairNext(ev, p))
  {
    var q := PairNext(ev, p);
    forall k | k in q.claimed ensures k < |q.answers| && exists i :: 0 <= i < |q.answers| && q.answers[i] == Some(k) {
      if k in p.claimed {
        var i :| 0 <= i < |p.answers| && p.answers[i] == Some(k);
        assert q.answers[i] == Some(k);
      } else {
        assert q.answers[|p.answers|] == Some(k);
      }
    }
  }

  lemma {:induction false} PairNextMatch(ev: seq<Packet>, p: Pairs)
    requires AnswersMatch(ev, p) && |p.answers| < |ev|
    ensures AnswersMatch(ev, PairNext(ev, p))
  {
    hide FirstOpen, IsReverseMatch;
    var n, q := |p.answers|, PairNext(ev, p);
    forall i | 0 <= i < |q.answers| && q.answers[i].Some? ensures Replies(ev, q, i, q.answers[i].value) {
      if i < n { assert Replies(ev, p, i, p.answers[i].value); }
    }
  }

  lemma {:induction false} PairNextDiffer(ev: seq<Packet>, p: Pairs)
    requires AnswersMatch(ev, p) && AnswersDiffer(p) && |p.answers| < |ev|
    ensures AnswersDiffer(PairNext(ev, p))
  {
    hide FirstOpen, IsReverseMatch;
    var n, q := |p.answers|, PairNext(ev, p);
    forall i, j | 0 <= i < j < |q.answers| && q.answers[i].Some? && q.answers[j].Some?
      ensures q.answers[i].value != q.answers[j].value
    {
      assert Replies(ev, p, i, p.answers[i].value);
    }
  }

  lemma {:induction false} PairNextSound(ev: seq<Packet>, p: Pairs)
    requires Sound(ev, p) && |p.answers| < |ev|
    ensures Sound(ev, PairNext(ev, p))
  {
    hide AnswersMatch, AnswersDiffer, ClaimsAnswered;
    PairNextMatch(ev, p);
    PairNextDiffer(ev, p);
    PairNextClaims(ev, p);
  }

  lemma {:induction false} PairingSound(ev: seq<Packet>, i: nat)
    requires i <= |ev|
    ensures Sound(ev, Pairing(ev, i))
  {
    if i > 0 {
      PairingSound(ev, i - 1);
      PairNextSound(ev, Pairing(ev, i - 1));
    }
  }

  // ----- no two open events match

  predicate Greedy(ev: seq<Packet>, p: Pairs) {
    |p.answers| <= |ev| &&
    forall j, k :: 0 <= j < k < |p.answers| && IsOpen(p, j) && IsOpen(p, k) ==> !IsReverseMatch(ev[k], ev[j])
  }

  lemma {:induction false} PairingGreedy(ev: seq<Packet>, i: nat)
    requires i <= |ev|
    ensures Greedy(ev, Pairing(ev, i))
  {
    if i > 0 {
      PairingGreedy(ev, i - 1);
      var p := Pairing(ev, i - 1);
      var q := PairNext(ev, p);
      assert forall j :: 0 <= j < i - 1 && IsOpen(q, j) ==> IsOpen(p, j);
    }
  }

  /** Open events of one side. */
  function OpenOn(ev: seq<Packet>, p: Pairs, s: Side): set<nat>
    requires |p.answers| <= |ev|
  {
    set k | 0 <= k < |p.answers| && IsOpen(p, k) && SideOf(ev[k]) == s
  }

  lemma {:induction false} OneSideOpen(ev: seq<Packet>, p: Pairs, s: Side)
    requires Greedy(ev, p)
    ensures OpenOn(ev, p, s) == {} || OpenOn(ev, p, Opposite(s)) == {}
  {
    if OpenOn(ev, p, s) != {} && OpenOn(ev, p, Opposite(s)) != {} {
      var a :| a in OpenOn(ev, p, s);
      var b :| b in OpenOn(ev, p, Opposite(s));
      MatchIsOpposite(ev[a], ev[b]);
      MatchIsOpposite(ev[b], ev[a]);
    }
  }

  // ----- counting per flow

  function CountSide(ev: seq<Packet>, s: Side, i: nat): nat
    requires i <= |ev|
  {
    if i == 0 then 0 else CountSide(ev, s, i - 1) + (if SideOf(ev[i - 1]) == s then 1 else 0)
  }

  /** Pairs whose reply is on side `s` or on the opposite side. */
  function CountPairs(ev: seq<Packet>, p: Pairs, s: Side, i: nat): nat
    requires i <= |p.answers| <= |ev|
  {
    if i == 0 then 0
    else
      var mine := SideOf(ev[i - 1]) == s || SideOf(ev[i - 1]) == Opposite(s);
      CountPairs(ev, p, s, i - 1) + (if p.answers[i - 1].Some? && mine then 1 else 0)
  }

  lemma {:induction false} CountPairsFrame(ev: seq<Packet>, p: Pairs, q: Pairs, s: Side, i: nat)
    requires i <= |p.answers| <= |ev| && i <= |q.answers| <= |ev| && p.answers[..i] == q.answers[..i]
    ensures CountPairs(ev, p, s, i) == CountPairs(ev, q, s, i)
  {
    if i > 0 {
      assert p.answers[..i][i - 1] == q.answers[..i][i - 1];
      assert p.answers[..i - 1] == p.answers[..i][..i - 1] && q.answers[..i - 1] == q.answers[..i][..i - 1];
      CountPairsFrame(ev, p, q, s, i - 1);
    }
  }

  lemma {:induction false} OpenOnNext(ev: seq<Packet>, p: Pairs, s: Side)
    requires |p.answers| < |ev| && ClaimsAnswered(p)
    ensures var i := |p.answers|;
      var q := PairNext(ev, p);
      var k := FirstOpen(ev, p, i, 0);
      OpenOn(ev, q, s) ==
        if k < i then OpenOn(ev, p, s) - {k}
        else if SideOf(ev[i]) == s then OpenOn(ev, p, s) + {i}
        else OpenOn(ev, p, s)
  {
    var i, q := |p.answers|, PairNext(ev, p);
    var k := FirstOpen(ev, p, i, 0);
    assert forall j: nat :: IsOpen(q, j) <==> if k < i then IsOpen(p, j) && j != k else IsOpen(p, j) || j == i;
  }

  lemma {:induction false} CountPairsNext(ev: seq<Packet>, p: Pairs, s: Side)
    requires |p.answers| < |ev|
    ensures var i, q := |p.answers|, PairNext(ev, p);
      var mine := SideOf(ev[i]) == s || SideOf(ev[i]) == Opposite(s);
      CountPairs(ev, q, s, i + 1) == CountPairs(ev, p, s, i) + (if q.answers[i].Some? && mine then 1 else 0)
  {
    var q := PairNext(ev, p);
    assert q.answers[..|p.answers|] == p.answers[..|p.answers|];
    CountPairsFrame(ev, p, q, s, |p.answers|);
  }

  /** How one event changes the open events of a side. */
  lemma {:induction false} OpenCountNext(ev: seq<Packet>, p: Pairs, s: Side)
    requires |p.answers| < |ev| && ClaimsAnswered(p)
    ensures var i, q := |p.answers|, PairNext(ev, p);
      |OpenOn(ev, q, s)| == |OpenOn(ev, p, s)|
        + (if q.answers[i].None? && SideOf(ev[i]) == s then 1 else 0)
        - (if q.answers[i].Some? && SideOf(ev[i]) == Opposite(s) then 1 else 0)
  {
    OpenOnNext(ev, p, s);
    var i := |p.answers|;
    var k := FirstOpen(ev, p, i, 0);
    if k < i {
      MatchIsOpposite(ev[i], ev[k]);
      OppositeTwice(s);
      assert k in OpenOn(ev, p, s) <==> SideOf(ev[k]) == s;
    }
  }

  /** Each event of a side is open or in one pair of its flow. */
  lemma {:induction false} SideAccount(ev: seq<Packet>, s: Side, i: nat)
    requires i <= |ev|
    ensures var p := Pairing(ev, i);
      CountSide(ev, s, i) == CountPairs(ev, p, s, i) + |OpenOn(ev, p, s)|
  {
    hide OpenOn, CountPairs, PairNext, FirstOpen;
    if i == 0 {
      NothingOpen(ev, s);
    } else {
      SideAccount(ev, s, i - 1);
      var p := Pairing(ev, i - 1);
      PairingSound(ev, i - 1);
      CountPairsNext(ev, p, s);
      OpenCountNext(ev, p, s);
      SidesDiffer(s);
    }
  }

  lemma {:induction false} NothingOpen(ev: seq<Packet>, s: Side)
    ensures CountPairs(ev, Pairs([], {}), s, 0) == 0 && OpenOn(ev, Pairs([], {}), s) == {}
  {
  }

  lemma {:induction false} SidesDiffer(s: Side)
    ensures Opposite(s) != s
  {
  }

  lemma {:induction false} OppositeTwice(s: Side)
    ensures Opposite(Opposite(s)) == s
  {
  }

  lemma {:induction false} CountPairsOpposite(ev: seq<Packet>, p: Pairs, s: Side, i: nat)
    requires i <= |p.answers| <= |ev|
    ensures CountPairs(ev, p, s, i) == CountPairs(ev, p, Opposite(s), i)
  {
    OppositeTwice(s);
    if i > 0 { CountPairsOpposite(ev, p, s, i - 1); }
  }

  /** A flow yields as many pairs as its smaller side has events. */
  lemma {:induction false} FlowYieldsMinimum(ev: seq<Packet>, s: Side)
    ensures var p := Pairing(ev, |ev|);
      var a, b := CountSide(ev, s, |ev|), CountSide(ev, Opposite(s), |ev|);
      CountPairs(ev, p, s, |ev|) == if a < b then a else b
  {
    var p := Pairing(ev, |ev|);
    SideAccount(ev, s, |ev|);
    SideAccount(ev, Opposite(s), |ev|);
    CountPairsOpposite(ev, p, s, |ev|);
    PairingGreedy(ev, |ev|);
    OneSideOpen(ev, p, s);
  }

  // ----- maximum matching

  /** A set of disjoint pairs of events that match. */
  ghost predicate IsMatching(ev: seq<Packet>, m: set<(nat, nat)>) {
    && (forall e :: e in m ==> e.0 < |ev| && e.1 < |ev| && IsReverseMatch(ev[e.0], ev[e.1]))
    && (forall e, f :: e in m && f in m && e != f ==> e.0 != f.0 && e.0 != f.1 && e.1 != f.0 && e.1 != f.1)
  }

  function Answered(p: Pairs): set<nat> { set i | 0 <= i < |p.answers| && p.answers[i].Some? }

  /** A cover: on each flow the events of a side that has none open. */
  predicate InCover(ev: seq<Packet>, p: Pairs, j: nat)
    requires |p.answers| == |ev|
  {
    && j < |ev| && OpenOn(ev, p, SideOf(ev[j])) == {}
    && (OpenOn(ev, p, Opposite(SideOf(ev[j]))) != {} || ev[j].direction == Tx)
  }

  lemma {:induction false} CoverMeetsEveryMatch(ev: seq<Packet>, p: Pairs, a: nat, b: nat)
    requires |p.answers| == |ev| && Greedy(ev, p) && a < |ev| && b < |ev| && IsReverseMatch(ev[a], ev[b])
    ensures InCover(ev, p, a) || InCover(ev, p, b)
  {
    MatchIsOpposite(ev[a], ev[b]);
    OneSideOpen(ev, p, SideOf(ev[a]));
  }

  /** The pair an event of the cover belongs to, named by its reply. */
  ghost function PairOf(p: Pairs, j: nat): (i: nat)
    requires j < |p.answers| && !IsOpen(p, j)
    requires ClaimsAnswered(p)
    ensures i < |p.answers| && p.answers[i].Some? && (i == j || p.answers[i] == Some(j))
  {
    if p.answers[j].Some? then j else
      var i: nat :| i < |p.answers| && p.answers[i] == Some(j); i
  }

  lemma {:induction false} CoverIsPaired(ev: seq<Packet>, p: Pairs, j: nat)
    requires |p.answers| == |ev| && InCover(ev, p, j)
    ensures !IsOpen(p, j)
  {
    var open := OpenOn(ev, p, SideOf(ev[j]));
    assert IsOpen(p, j) ==> j in open;
  }

  lemma {:induction false} CoverOncePerPair(ev: seq<Packet>, p: Pairs, j: nat, k: nat)
    requires |p.answers| == |ev| && Sound(ev, p) && InCover(ev, p, j) && InCover(ev, p, k)
    requires !IsOpen(p, j) && !IsOpen(p, k) && PairOf(p, j) == PairOf(p, k)
    ensures j == k
  {
    var i := PairOf(p, j);
    var r := p.answers[i].value;
    MatchIsOpposite(ev[i], ev[r]);
  }

  lemma {:induction false} InjectiveSize<A(!new), B(!new)>(s: set<A>, t: set<B>, f: A --> B)
    requires forall x :: x in s ==> f.requires(x) && f(x) in t
    requires forall x, y :: x in s && y in s && x != y ==> f(x) != f(y)
    ensures |s| <= |t|
    decreases s
  {
    if s != {} {
      var x :| x in s;
      InjectiveSize(s - {x}, t - {f(x)}, f);
    }
  }

  lemma {:induction false} CoverSize(ev: seq<Packet>, p: Pairs, cover: set<nat>)
    requires |p.answers| == |ev| && Sound(ev, p) && forall j :: j in cover ==> InCover(ev, p, j)
    ensures |cover| <= |Answered(p)|
  {
    forall j | j in cover ensures !IsOpen(p, j) { CoverIsPaired(ev, p, j); }
    forall j, k | j in cover && k in cover && PairOf(p, j) == PairOf(p, k) ensures j == k {
      CoverOncePerPair(ev, p, j, k);
    }
    InjectiveSize(cover, Answered(p), j requires j in cover => PairOf(p, j));
  }

  /** No set of disjoint matching pairs is larger than the pairing. */
  lemma {:induction false} PairingIsMaximum(ev: seq<Packet>, m: set<(nat, nat)>)
    requires IsMatching(ev, m)
    ensures |m| <= |Answered(Pairing(ev, |ev|))|
  {
    var p := Pairing(ev, |ev|);
    PairingSound(ev, |ev|);
    PairingGreedy(ev, |ev|);
    forall e | e in m ensures InCover(ev, p, e.0) || InCover(ev, p, e.1) { CoverMeetsEveryMatch(ev, p, e.0, e.1); }
    var end := (e: (nat, nat)) requires e in m => if InCover(ev, p, e.0) then e.0 else e.1;
    var cover := set e | e in m :: end(e);
    InjectiveSize(m, cover, end);
    CoverSize(ev, p, cover);
  }

  /** Later events do not change the pairs of earlier ones. */
  lemma {:induction false} PairingStable(ev: seq<Packet>, i: nat, n: nat)
    requires i <= n <= |ev|
    ensures Pairing(ev, n).answers[..i] == Pairing(ev, i).answers
    decreases n - i
  {
    if i < n {
      PairingStable(ev, i, n - 1);
      assert Pairing(ev, n).answers[..i] == Pairing(ev, n - 1).answers[..i];
    }
  }

  /** A reply takes the earliest request of its flow that was still open when it arrived. */
  lemma {:induction false} TakesEarliest(ev: seq<Packet>, i: nat)
    requires i < |ev|
    ensures var a := Pairing(ev, |ev|).answers[i];
      var before := Pairing(ev, i);
      match a
      case None => forall j :: 0 <= j < i ==> !(IsOpen(before, j) && IsReverseMatch(ev[i], ev[j]))
      case Some(k) =>
        && k < i && IsOpen(before, k) && IsReverseMatch(ev[i], ev[k])
        && forall j :: 0 <= j < k ==> !(IsOpen(before, j) && IsReverseMatch(ev[i], ev[j]))
  {
    PairingStable(ev, i + 1, |ev|);
    assert Pairing(ev, |ev|).answers[..i + 1][i] == Pairing(ev, i + 1).answers[i];
  }

  // ----- looking events up

  /** The id of an event and of the request it answers, 0 for none. */
  datatype Entry = Entry(eventId: u32, relatedId: u32)

  function FindFrom(t: seq<Entry>, id: u32, from: nat): (i: nat)
    requires from <= |t|
    ensures from <= i <= |t| && (i < |t| ==> t[i].eventId == id)
    ensures forall j :: from <= j < i ==> t[j].eventId != id
    decreases |t| - from
  {
    if from == |t| || t[from].eventId == id then from else FindFrom(t, id, from + 1)
  }

  function FindReplyFrom(t: seq<Entry>, id: u32, from: nat): (i: nat)
    requires from <= |t|
    ensures from <= i <= |t| && (i < |t| ==> t[i].relatedId == id)
    ensures forall j :: from <= j < i ==> t[j].relatedId != id
    decreases |t| - from
  {
    if from == |t| || t[from].relatedId == id then from else FindReplyFrom(t, id, from + 1)
  }

  /** Index of the event with this id; the length of the table stands for -1. */
  function FindEvent(t: seq<Entry>, id: u32): nat { FindFrom(t, id, 0) }

  function FindRelated(t: seq<Entry>, id: u32): nat {
    var i := FindEvent(t, id);
    if i == |t| then i
    else if t[i].relatedId != 0 then FindEvent(t, t[i].relatedId)
    else FindReplyFrom(t, id, 0)
  }

  function EntryOf(ev: seq<Packet>, i: nat): Entry
    requires i < |ev|
  {
    PairingSound(ev, |ev|);
    var p := Pairing(ev, |ev|);
    match p.answers[i]
    case None => Entry(ev[i].id, 0)
    case Some(k) =>
      assert Replies(ev, p, i, k);
      Entry(ev[i].id, ev[k].id)
  }

  /** The table that a pairing of `ev` fills in. */
  function TableOf(ev: seq<Packet>): (t: seq<Entry>)
    ensures |t| == |ev| && forall i :: 0 <= i < |ev| ==> t[i] == EntryOf(ev, i)
  {
    seq(|ev|, i requires 0 <= i < |ev| => EntryOf(ev, i))
  }

  predicate DistinctIds(ev: seq<Packet>) {
    && (forall i :: 0 <= i < |ev| ==> ev[i].id != 0)
    && (forall i, j :: 0 <= i < j < |ev| ==> ev[i].id != ev[j].id)
  }

  predicate Paired(p: Pairs, a: nat, b: nat) {
    a < |p.answers| && b < |p.answers| && (p.answers[a] == Some(b) || p.answers[b] == Some(a))
  }

  lemma {:induction false} FindById(ev: seq<Packet>, i: nat)
    requires DistinctIds(ev) && i < |ev|
    ensures FindEvent(TableOf(ev), ev[i].id) == i
  {
    var t := TableOf(ev);
    assert t[i].eventId == ev[i].id;
  }

  /** With distinct non-zero ids the related event of a paired event is its partner, in both
      directions, and an event without a partner has none. */
  lemma {:induction false} RelatedIsInvolution(ev: seq<Packet>, a: nat)
    requires DistinctIds(ev) && a < |ev|
    ensures var p, t := Pairing(ev, |ev|), TableOf(ev);
      var b := FindRelated(t, ev[a].id);
      if b < |ev| then Paired(p, a, b) && FindRelated(t, ev[b].id) == a
      else forall c :: 0 <= c < |ev| ==> !Paired(p, a, c)
  {
    var p, t := Pairing(ev, |ev|), TableOf(ev);
    PairingSound(ev, |ev|);
    FindById(ev, a);
    if p.answers[a].Some? {
      var b := p.answers[a].value;
      assert Replies(ev, p, a, b);
      FindById(ev, b);
      ReplyIsFound(ev, a, b);
    } else {
      if c: nat :| c < |ev| && p.answers[c] == Some(a) {
        assert Replies(ev, p, c, a);
        ReplyIsFound(ev, c, a);
        FindById(ev, c);
      } else {
        NoReplyIsFound(ev, a);
      }
    }
  }

  lemma {:induction false} ReplyIsFound(ev: seq<Packet>, i: nat, k: nat)
    requires DistinctIds(ev) && Sound(ev, Pairing(ev, |ev|)) && Replies(ev, Pairing(ev, |ev|), i, k)
    ensures FindReplyFrom(TableOf(ev), ev[k].id, 0) == i
  {
    var p, t := Pairing(ev, |ev|), TableOf(ev);
    assert t[i].relatedId == ev[k].id;
    forall j | 0 <= j < |ev| && j != i ensures t[j].relatedId != ev[k].id {
      if p.answers[j].Some? { assert Replies(ev, p, j, p.answers[j].value); }
    }
  }

  lemma {:induction false} NoReplyIsFound(ev: seq<Packet>, k: nat)
    requires DistinctIds(ev) && Sound(ev, Pairing(ev, |ev|)) && k < |ev|
    requires forall c: nat :: c < |ev| ==> Pairing(ev, |ev|).answers[c] != Some(k)
    ensures FindReplyFrom(TableOf(ev), ev[k].id, 0) == |ev|
  {
    var p, t := Pairing(ev, |ev|), TableOf(ev);
    forall j | 0 <= j < |ev| ensures t[j].relatedId != ev[k].id {
      if p.answers[j].Some? { assert Replies(ev, p, j, p.answers[j].value); }
    }
  }
}
