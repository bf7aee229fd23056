/** What the receive checks accept, in the header's own terms, and what a checksum is for: the
    corruption of one 16-bit word is noticed unless the checksum cannot see it. */
module FrameCheck {
  import opened Words
  import opened Bits
  import opened Checksum
  import opened FrameModel
  import opened Dispatch

  function HeaderLength(b: seq<u8>): nat
    requires |b| > 0
  {
    4 * (b[0] % 16)
  }

  /** An IPv4 header of at least five words, within the packet and its total length, that is
      neither a fragment nor followed by one (section 3.1 of RFC 791). */
  predicate IpWellFormed(b: seq<u8>) {
    && |b| >= 20 && 0x40 <= b[0] < 0x50 && 20 <= HeaderLength(b) <= U16(b, 2) <= |b| && U16(b, 6) % 0x4000 == 0
  }

  /** The 16-bit words sum to minus zero in ones' complement (RFC 1071). */
  predicate Sums(total: nat) { total > 0 && total % 0xFFFF == 0 }

  lemma {:induction false} IpAcceptIff(b: seq<u8>)
    ensures CompassCheck(b) == IpAccept <==> IpWellFormed(b) && Sums(Sum(b[..HeaderLength(b)]))
    ensures CompassCheck(b) == IpBadChecksum <==> IpWellFormed(b) && !Sums(Sum(b[..HeaderLength(b)]))
  {
    if |b| >= 20 {
      FragmentField(U16(b, 6));
      if HeaderLength(b) <= |b| { FoldsToOnes(Sum(b[..HeaderLength(b)])); }
    }
    hide Fold, Sum;
  }

  lemma {:induction false} FragmentField(x: nat)
    ensures x % 0x4000 == 0 <==> x % 0x2000 == 0 && (x / 0x2000) % 2 != 1
  {
  }

  /** A data offset of at least five words within the segment, and flags that are not empty
      and not SYN and FIN together. */
  predicate TcpWellFormed(tcp: seq<u8>) {
    && |tcp| >= 20 && 20 <= 4 * (tcp[12] / 16) <= |tcp| && tcp[13] != 0
    && !(tcp[13] % 2 == 1 && (tcp[13] / 2) % 2 == 1)
  }

  lemma {:induction false} LowBits(x: u8)
    ensures (Bit(x, 0) <==> x % 2 == 1) && (Bit(x, 1) <==> (x / 2) % 2 == 1)
  {
  }

  lemma {:induction false} TcpAcceptIff(tcp: seq<u8>, src: Ip, dst: Ip)
    ensures ConversationCheck(tcp, src, dst) == TcpAccept <==>
      TcpWellFormed(tcp) && Sums(PseudoSum(src, dst, |tcp|) + Sum(tcp))
    ensures ConversationCheck(tcp, src, dst) == TcpBadChecksum <==>
      TcpWellFormed(tcp) && !Sums(PseudoSum(src, dst, |tcp|) + Sum(tcp))
  {
    if |tcp| >= 20 { LowBits(tcp[13]); }
    FoldsToOnes(PseudoSum(src, dst, |tcp|) + Sum(tcp));
    hide Fold, Sum, PseudoSum, Bit;
  }

  // ----- corruption of one word

  /** The word at the even offset `k`; an odd last byte is the high half of one. */
  function WordAt(b: seq<u8>, k: nat): nat
    requires k < |b|
  {
    (b[k] as int) * 256 + if k + 1 < |b| then b[k + 1] else 0
  }

  /** `a` and `b` differ in the word at `k` alone. */
  predicate WordReplaced(a: seq<u8>, b: seq<u8>, k: nat) {
    && |a| == |b| && k < |a| && k % 2 == 0
    && forall i :: 0 <= i < |a| && i != k && i != k + 1 ==> a[i] == b[i]
  }

  lemma {:induction false} SumAround(b: seq<u8>, k: nat)
    requires k < |b| && k % 2 == 0
    ensures Sum(b) == Sum(b[..k]) + WordAt(b, k) + if k + 2 <= |b| then Sum(b[k + 2..]) else 0
  {
    assert b == b[..k] + b[k..];
    SumConcat(b[..k], b[k..]);
    if k + 2 <= |b| { assert b[k..][2..] == b[k + 2..]; }
  }

  lemma {:induction false} SumReplaced(a: seq<u8>, b: seq<u8>, k: nat)
    requires WordReplaced(a, b, k)
    ensures Sum(b) - Sum(a) == WordAt(b, k) - WordAt(a, k)
  {
    hide Sum;
    SumAround(a, k);
    SumAround(b, k);
    assert a[..k] == b[..k];
    if k + 2 <= |a| { assert a[k + 2..] == b[k + 2..]; }
  }

  lemma {:induction false} StillMultiple(s: int, x: nat, y: nat)
    requires s % 0xFFFF == 0
    ensures (s + y - x) % 0xFFFF == 0 <==> x % 0xFFFF == y % 0xFFFF
  {
  }

  /** In an accepted IPv4 packet with one word of its header replaced and the header length
      kept, the checksum still holds exactly when the words agree modulo 65535. */
  lemma {:induction false} IpCorruption(a: seq<u8>, b: seq<u8>, k: nat)
    requires CompassCheck(a) == IpAccept && k < HeaderLength(a) && WordReplaced(a, b, k)
    requires HeaderLength(b) == HeaderLength(a)
    ensures WordAt(a, k) % 0xFFFF != WordAt(b, k) % 0xFFFF ==> CompassCheck(b) != IpAccept
    ensures WordAt(a, k) % 0xFFFF == WordAt(b, k) % 0xFFFF ==> CompassCheck(b) != IpBadChecksum
  {
    hide CompassCheck, Sum;
    IpAcceptIff(a);
    IpAcceptIff(b);
    var n := HeaderLength(a);
    if n <= |a| {
      SumReplaced(a[..n], b[..n], k);
      StillMultiple(Sum(a[..n]), WordAt(a, k), WordAt(b, k));
      if IpWellFormed(b) { FirstWordCounts(b, n); }
    }
  }

  lemma {:induction false} FirstWordCounts(b: seq<u8>, n: nat)
    requires 2 <= n <= |b| && b[0] > 0
    ensures Sum(b[..n]) > 0
  {
    assert b[..n][0] == b[0];
  }

  /** In an accepted TCP segment with one word replaced, wherever it is. */
  lemma {:induction false} TcpCorruption(a: seq<u8>, b: seq<u8>, src: Ip, dst: Ip, k: nat)
    requires ConversationCheck(a, src, dst) == TcpAccept && WordReplaced(a, b, k)
    ensures WordAt(a, k) % 0xFFFF != WordAt(b, k) % 0xFFFF ==> ConversationCheck(b, src, dst) != TcpAccept
    ensures WordAt(a, k) % 0xFFFF == WordAt(b, k) % 0xFFFF ==> ConversationCheck(b, src, dst) != TcpBadChecksum
  {
    hide ConversationCheck, Sum;
    TcpAcceptIff(a, src, dst);
    TcpAcceptIff(b, src, dst);
    SumReplaced(a, b, k);
    StillMultiple(PseudoSum(src, dst, |a|) + Sum(a), WordAt(a, k), WordAt(b, k));
  }

  /** Two words that differ agree modulo 65535 only as zero and minus zero. */
  lemma {:induction false} BlindSpot(x: u16, y: u16)
    requires x != y
    ensures x % 0xFFFF == y % 0xFFFF <==> {x, y} == {0, 0xFFFF}
  {
    assert x % 0xFFFF == if x == 0xFFFF then 0 else x;
    assert y % 0xFFFF == if y == 0xFFFF then 0 else y;
  }

  const LONG_HEADER: seq<u8> :=
    [0x46, 0, 0, 24, 0, 0, 0, 0, 0, 0, 0xBA, 0xE7, 0, 0, 0, 0, 0, 0, 0, 0, 0xFE, 0xFF, 0, 0]

  lemma {:induction false} SumOfTwelve(b: seq<u8>)
    requires |b| == 24
    ensures Sum(b) == U16(b, 0) + U16(b, 2) + U16(b, 4) + U16(b, 6) + U16(b, 8) + U16(b, 10) + U16(b, 12)
      + U16(b, 14) + U16(b, 16) + U16(b, 18) + U16(b, 20) + U16(b, 22)
    ensures Sum(b[..20]) == Sum(b) - U16(b, 20) - U16(b, 22)
  {
    SumFour(b[..8]);
    SumFour(b[8..16]);
    SumFour(b[16..]);
    hide Sum;
    assert b == b[..8] + (b[8..16] + b[16..]) && b == b[..20] + b[20..];
    SumConcat(b[..8], b[8..16] + b[16..]);
    SumConcat(b[8..16], b[16..]);
    SumConcat(b[..20], b[20..]);
    SumTwo(b[20..]);
  }

  lemma {:induction false} SumTwo(b: seq<u8>)
    requires |b| == 4
    ensures Sum(b) == U16(b, 0) + U16(b, 2)
  {
    assert Sum(b[2..]) == U16(b, 2) + Sum(b[2..][2..]);
  }

  lemma {:induction false} SumFour(b: seq<u8>)
    requires |b| == 8
    ensures Sum(b) == U16(b, 0) + U16(b, 2) + U16(b, 4) + U16(b, 6)
  {
    assert b == b[..4] + b[4..];
    SumConcat(b[..4], b[4..]);
    SumTwo(b[..4]);
    SumTwo(b[4..]);
  }

  /** The header length decides what is summed, so changing it can go unnoticed: this packet is
      accepted with six words of header, and with the length nibble turned to five. */
  lemma {:induction false} LengthEscapes()
    ensures var b := LONG_HEADER[0 := 0x45];
      && WordReplaced(LONG_HEADER, b, 0) && WordAt(LONG_HEADER, 0) % 0xFFFF != WordAt(b, 0) % 0xFFFF
      && CompassCheck(LONG_HEADER) == IpAccept && CompassCheck(b) == IpAccept
  {
    hide CompassCheck, Sum;
    var a, b := LONG_HEADER, LONG_HEADER[0 := 0x45];
    SumOfTwelve(a);
    SumOfTwelve(b);
    assert a[..24] == a;
    IpAcceptIff(a);
    IpAcceptIff(b);
  }

  // ----- the checks as compass.c and conversation.c compute them

  method CheckIp(b: seq<u8>) returns (v: IpVerdict)
    requires |b| < 0x1_0000
    ensures v == CompassCheck(b)
    ensures v == IpAccept <==> IpWellFormed(b) && Sums(Sum(b[..HeaderLength(b)]))
  {
    IpAcceptIff(b);
    if |b| < 20 { return IpTooShort; }
    var version, ihl := b[0] / 16, b[0] % 16;
    if version != 4 { return BadVersion; }
    if ihl < 5 { return BadHeaderLen; }
    var headerLen: nat := ihl as int * 4;
    if |b| < headerLen { return BadHeaderLen; }
    var total := U16(b, 2);
    if total > |b| { return LengthMismatch; }
    if total < headerLen { return LengthMismatch; }
    var flags := U16(b, 6);
    if flags % 0x2000 != 0 || (flags / 0x2000) % 2 == 1 { return Fragmented; }
    var ok := IpChecksumOk(b[..headerLen]);
    if !ok { return IpBadChecksum; }
    return IpAccept;
  }

  method CheckTcp(tcp: seq<u8>, src: Ip, dst: Ip) returns (v: TcpVerdict)
    requires |tcp| < 0x1_0000
    ensures v == ConversationCheck(tcp, src, dst)
    ensures v == TcpAccept <==> TcpWellFormed(tcp) && Sums(PseudoSum(src, dst, |tcp|) + Sum(tcp))
  {
    TcpAcceptIff(tcp, src, dst);
    if |tcp| < 20 { return TcpTooShort; }
    var dataOffset := tcp[12] / 16;
    if dataOffset < 5 || dataOffset as int * 4 > |tcp| { return BadDataOffset; }
    if !FlagsMakeSense(tcp[13]) { return NonsenseFlags; }
    var ok := TcpChecksumOk(tcp, src, dst);
    if !ok { return TcpBadChecksum; }
    return TcpAccept;
  }
}
