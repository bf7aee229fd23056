/** TCP/IPv4 frames: what conversation_dispatch writes and what compass_check and
    conversation_check make of it (section 3.1 of RFC 9293, RFC 791). */
module FrameModel {
  import opened Words
  import opened Bits
  import opened Checksum

  const MAX_PAYLOAD := 1460

  type Ip = a: seq<u8> | |a| == 4 witness [0, 0, 0, 0]
  type Mac = a: seq<u8> | |a| == 6 witness [0, 0, 0, 0, 0, 0]

  datatype Header = Header(localPort: u16, remotePort: u16, seqNo: u32, ack: u32, flags: u8, window: u16)

  datatype Addresses = Addresses(destMac: Mac, ourMac: Mac, ourIp: Ip, remoteIp: Ip)

  function Two(x: u16): seq<u8> { [x / 256, x % 256] }

  function Four(x: u32): seq<u8> { Two(x / 65536) + Two(x % 65536) }

  function U16(b: seq<u8>, at: nat): nat
    requires at + 2 <= |b|
  {
    (b[at] as int) * 256 + b[at + 1]
  }

  function U32(b: seq<u8>, at: nat): nat
    requires at + 4 <= |b|
  {
    U16(b, at) * 65536 + U16(b, at + 2)
  }

  /** Not SYN and FIN at once, and not nothing. */
  predicate FlagsMakeSense(flags: u8) { !(Bit(flags, 1) && Bit(flags, 0)) && flags != 0 }

  // ----- building

  function IpBefore(total: u16): seq<u8> { [0x45, 0] + Two(total) + [0, 0, 0, 0, 64, 6] }

  function IpHeader(total: u16, a: Addresses, checksum: u16): seq<u8> {
    IpBefore(total) + Two(checksum) + (a.ourIp + a.remoteIp)
  }

  function TcpBefore(h: Header): seq<u8> {
    Two(h.localPort) + Two(h.remotePort) + Four(h.seqNo) + Four(h.ack) + [0x50, h.flags] + Two(h.window)
  }

  function TcpSegment(h: Header, payload: seq<u8>, checksum: u16): seq<u8> {
    TcpBefore(h) + Two(checksum) + ([0, 0] + payload)
  }

  function PseudoSum(src: Ip, dst: Ip, length: nat): nat { Sum(src) + Sum(dst) + 6 + length }

  function IpChecksum(total: u16, a: Addresses): u16 { 0xFFFF - Fold(Sum(IpHeader(total, a, 0))) }

  function TcpChecksum(h: Header, a: Addresses, payload: seq<u8>): u16 {
    0xFFFF - Fold(PseudoSum(a.ourIp, a.remoteIp, 20 + |payload|) + Sum(TcpSegment(h, payload, 0)))
  }

  function Encode(h: Header, a: Addresses, payload: seq<u8>): seq<u8>
    requires |payload| <= MAX_PAYLOAD
  {
    a.destMac + a.ourMac + [0x08, 0x00]
    + IpHeader(40 + |payload|, a, IpChecksum(40 + |payload|, a))
    + TcpSegment(h, payload, TcpChecksum(h, a, payload))
  }

  // ----- checking

  datatype IpVerdict = IpAccept | IpTooShort | BadVersion | BadHeaderLen | LengthMismatch | Fragmented | IpBadChecksum

  function CompassCheck(b: seq<u8>): IpVerdict {
    if |b| < 20 then IpTooShort
    else
      var version, ihl := b[0] / 16, b[0] % 16;
      var headerLen, total, frag := ihl * 4, U16(b, 2), U16(b, 6);
      if version != 4 then BadVersion
      else if ihl < 5 || |b| < headerLen then BadHeaderLen
      else if total > |b| || total < headerLen then LengthMismatch
      else if frag % 0x2000 != 0 || (frag / 0x2000) % 2 == 1 then Fragmented
      else if Fold(Sum(b[..headerLen])) != 0xFFFF then IpBadChecksum
      else IpAccept
  }

  datatype TcpVerdict = TcpAccept | TcpTooShort | BadDataOffset | NonsenseFlags | TcpBadChecksum

  function DataOffset(tcp: seq<u8>): nat
    requires |tcp| >= 20
  {
    (tcp[12] / 16) * 4
  }

  function ConversationCheck(tcp: seq<u8>, src: Ip, dst: Ip): TcpVerdict {
    if |tcp| < 20 then TcpTooShort
    else if DataOffset(tcp) < 20 || DataOffset(tcp) > |tcp| then BadDataOffset
    else if !FlagsMakeSense(tcp[13]) then NonsenseFlags
    else if Fold(PseudoSum(src, dst, |tcp|) + Sum(tcp)) != 0xFFFF then TcpBadChecksum
    else TcpAccept
  }

  /** The TCP part that compass_handle hands on. */
  function TcpPart(b: seq<u8>): seq<u8>
    requires CompassCheck(b) == IpAccept
  {
    b[(b[0] % 16) * 4..U16(b, 2)]
  }

  function ParseHeader(tcp: seq<u8>): Header
    requires |tcp| >= 20
  {
    Header(U16(tcp, 0), U16(tcp, 2), U32(tcp, 4), U32(tcp, 8), tcp[13], U16(tcp, 14))
  }

  // ----- the round trip

  lemma {:induction false} TwoBack(x: u16)
    ensures |Two(x)| == 2 && U16(Two(x), 0) == x && Sum(Two(x)) == x
  {
    assert Two(x)[2..] == [];
  }

  lemma {:induction false} FourBack(x: u32)
    ensures |Four(x)| == 4 && U32(Four(x), 0) == x
  {
  }

  /** A header whose checksum field is filled in sums to a multiple of 65535. */
  lemma {:induction false} FilledIn(before: seq<u8>, checksum: u16, after: seq<u8>, extra: nat)
    requires |before| % 2 == 0 && checksum == 0xFFFF - Fold(extra + Sum(before + Two(0) + after))
    ensures Fold(extra + Sum(before + Two(checksum) + after)) == 0xFFFF
  {
    forall x: u16 ensures Sum(before + Two(x) + after) == Sum(before) + x + Sum(after) {
      TwoBack(x);
      SumConcat(before, Two(x) + after);
      SumConcat(Two(x), after);
      assert before + Two(x) + after == before + (Two(x) + after);
    }
    ComplementChecks(extra + Sum(before + Two(0) + after));
  }

  lemma {:induction false} IpAccepted(total: u16, a: Addresses, rest: seq<u8>)
    requires 20 <= total <= 20 + |rest|
    ensures CompassCheck(IpHeader(total, a, IpChecksum(total, a)) + rest) == IpAccept
  {
    var c := IpChecksum(total, a);
    var h := IpHeader(total, a, c);
    FilledIn(IpBefore(total), c, a.ourIp + a.remoteIp, 0);
    assert (h + rest)[..20] == h;
    assert U16(h + rest, 2) == total && U16(h + rest, 6) == 0 && (h + rest)[0] == 0x45;
  }

  lemma {:induction false} TcpAccepted(h: Header, a: Addresses, payload: seq<u8>)
    requires FlagsMakeSense(h.flags) && |payload| <= MAX_PAYLOAD
    ensures ConversationCheck(TcpSegment(h, payload, TcpChecksum(h, a, payload)), a.ourIp, a.remoteIp) == TcpAccept
  {
    var c := TcpChecksum(h, a, payload);
    var t := TcpSegment(h, payload, c);
    FilledIn(TcpBefore(h), c, [0, 0] + payload, PseudoSum(a.ourIp, a.remoteIp, 20 + |payload|));
    assert |t| == 20 + |payload| && t[12] == 0x50 && t[13] == h.flags;
  }

  /** The six parts of a TCP header before its checksum. */
  lemma {:induction false} Parts(a: seq<u8>, b: seq<u8>, c: seq<u8>, d: seq<u8>, e: seq<u8>, f: seq<u8>)
    requires |a| == |b| == |e| == |f| == 2 && |c| == |d| == 4
    ensures var s := a + b + c + d + e + f;
      |s| == 16 && s[0..2] == a && s[2..4] == b && s[4..8] == c && s[8..12] == d && s[12..14] == e && s[14..16] == f
  {
    var ab := a + b;
    var abc := ab + c;
    var abcd := abc + d;
    var abcde := abcd + e;
    assert abcd[..8] == abc && abc[..4] == ab;
    assert (abcde + f)[..14] == abcde && abcde[..12] == abcd;
  }

  lemma {:induction false} U16In(s: seq<u8>, at: nat, part: seq<u8>)
    requires at + 2 <= |s| && part == s[at..at + 2]
    ensures U16(s, at) == U16(part, 0)
  {
  }

  lemma {:induction false} U32In(s: seq<u8>, at: nat, part: seq<u8>)
    requires at + 4 <= |s| && part == s[at..at + 4]
    ensures U32(s, at) == U32(part, 0)
  {
  }

  /** Reading a header only looks at its first sixteen bytes. */
  lemma {:induction false} HeaderPrefix(s: seq<u8>, t: seq<u8>)
    requires |s| == 16 && |t| >= 20 && s == t[..16]
    ensures ParseHeader(t) == Header(U16(s, 0), U16(s, 2), U32(s, 4), U32(s, 8), s[13], U16(s, 14)) && t[12] == s[12]
  {
    assert forall k :: 0 <= k < 16 ==> t[k] == s[k];
  }

  lemma {:induction false} HeaderFields(h: Header)
    ensures var s := TcpBefore(h);
      |s| == 16 && Header(U16(s, 0), U16(s, 2), U32(s, 4), U32(s, 8), s[13], U16(s, 14)) == h && s[12] == 0x50
  {
    FourBack(h.seqNo);
    FourBack(h.ack);
    TwoBack(h.localPort);
    TwoBack(h.remotePort);
    TwoBack(h.window);
    hide Two, Four, U16, U32, Sum;
    var s, flags := TcpBefore(h), [0x50, h.flags];
    Parts(Two(h.localPort), Two(h.remotePort), Four(h.seqNo), Four(h.ack), flags, Two(h.window));
    U16In(s, 0, Two(h.localPort));
    U16In(s, 2, Two(h.remotePort));
    U32In(s, 4, Four(h.seqNo));
    U32In(s, 8, Four(h.ack));
    U16In(s, 14, Two(h.window));
    assert s[12] == s[12..14][0] && s[13] == s[12..14][1];
  }

  lemma {:induction false} TcpParses(h: Header, payload: seq<u8>, c: u16)
    ensures var t := TcpSegment(h, payload, c);
      |t| == 20 + |payload| && ParseHeader(t) == h && DataOffset(t) == 20 && t[20..] == payload
  {
    HeaderFields(h);
    hide TcpBefore, U16, U32;
    var t := TcpSegment(h, payload, c);
    assert t[..16] == TcpBefore(h);
    HeaderPrefix(TcpBefore(h), t);
  }

  /** Frame round trip: every frame built for a sensible segment, odd payload lengths
      included and whatever padding follows it on the wire, is accepted by both checks and
      parses back to the same ports, numbers, flags, window and payload.  The Ethernet header
      names both stations and IPv4. */
  lemma {:induction false} FrameRoundTrip(h: Header, a: Addresses, payload: seq<u8>, padding: seq<u8>)
    requires FlagsMakeSense(h.flags) && |payload| <= MAX_PAYLOAD
    ensures var frame := Encode(h, a, payload);
      |frame| == 54 + |payload| && frame[..6] == a.destMac && frame[6..12] == a.ourMac && frame[12..14] == [0x08, 0x00]
    ensures var ip := Encode(h, a, payload)[14..] + padding;
      && CompassCheck(ip) == IpAccept && ip[9] == 6 && ip[12..16] == a.ourIp && ip[16..20] == a.remoteIp
      && var tcp := TcpPart(ip);
         && ConversationCheck(tcp, ip[12..16], ip[16..20]) == TcpAccept
         && ParseHeader(tcp) == h && tcp[DataOffset(tcp)..] == payload
  {
    hide IpHeader, TcpSegment, CompassCheck, ConversationCheck, ParseHeader, TcpChecksum, IpChecksum;
    var total := 40 + |payload|;
    var i := IpHeader(total, a, IpChecksum(total, a));
    var t := TcpSegment(h, payload, TcpChecksum(h, a, payload));
    var ip := Encode(h, a, payload)[14..] + padding;
    TcpParses(h, payload, TcpChecksum(h, a, payload));
    IpShape(total, a, IpChecksum(total, a));
    assert ip == i + (t + padding);
    IpAccepted(total, a, t + padding);
    TcpAccepted(h, a, payload);
    assert ip[12..16] == i[12..16] && ip[16..20] == i[16..20];
    assert U16(ip, 2) == U16(i, 2) && ip[0] == i[0] && ip[9] == i[9];
    assert ip[20..total] == t;
  }

  lemma {:induction false} IpShape(total: u16, a: Addresses, c: u16)
    ensures var i := IpHeader(total, a, c);
      |i| == 20 && i[0] == 0x45 && i[9] == 6 && U16(i, 2) == total && i[12..16] == a.ourIp && i[16..20] == a.remoteIp
  {
    var i := IpHeader(total, a, c);
    assert i[12..16] == a.ourIp && i[16..20] == a.remoteIp;
  }
}
