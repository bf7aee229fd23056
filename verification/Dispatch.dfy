/** conversation_dispatch in place: the frame buffer is filled field by field, with both
    checksums computed over the buffer while their fields are still zero. */
module Dispatch {
  import opened Words
  import opened Checksum
  import opened FrameModel

  const FRAME_BYTES := 1514

  /** The arguments of `conversation_dispatch`, with the window the slot advertises. */
  datatype Sending = Sending(flags: u8, seqNo: u32, ack: u32, window: u16, ourMac: Mac, ourIp: Ip)

  /** What `lockbox_get_tuple` says about a slot in use. */
  datatype Endpoints = Endpoints(localPort: u16, remoteIp: Ip, remotePort: u16)

  const NO_MAC: Mac := [0, 0, 0, 0, 0, 0]

  predicate Refuses(s: Sending, slot: Option<Endpoints>, payload: seq<u8>, routed: bool) {
    |payload| > MAX_PAYLOAD || !FlagsMakeSense(s.flags) || slot.None? || !routed
  }

  function HeaderOf(s: Sending, e: Endpoints): Header {
    Header(e.localPort, e.remotePort, s.seqNo, s.ack, s.flags, s.window)
  }

  function AddressesOf(s: Sending, e: Endpoints, mac: Option<Mac>): Addresses {
    Addresses(if mac.Some? then mac.value else NO_MAC, s.ourMac, s.ourIp, e.remoteIp)
  }

  class Dispatcher {
    const frame: array<u8>
    var length: nat

    ghost predicate Valid()
      reads this
    {
      frame.Length == FRAME_BYTES && length <= FRAME_BYTES
    }

    constructor ()
      ensures Valid() && fresh(frame)
    {
      frame := new u8[FRAME_BYTES](_ => 0);
      length := 0;
    }

    /** `memcpy(frame + at, bytes, |bytes|)`. */
    method Put(at: nat, bytes: seq<u8>)
      requires Valid() && at + |bytes| <= FRAME_BYTES
      modifies frame
      ensures forall k :: 0 <= k < FRAME_BYTES ==>
        frame[k] == if at <= k < at + |bytes| then bytes[k - at] else old(frame[k])
    {
      var i := 0;
      while i < |bytes|
        invariant 0 <= i <= |bytes|
        invariant forall k :: 0 <= k < FRAME_BYTES ==>
          frame[k] == if at <= k < at + i then bytes[k - at] else old(frame[k])
      {
        frame[at + i] := bytes[i];
        i := i + 1;
      }
    }

    /** The bytes of the frame from `at` on are those of `bytes` if they are so one by one. */
    lemma {:induction false} Slice(at: nat, bytes: seq<u8>)
      requires Valid() && at + |bytes| <= FRAME_BYTES
      requires forall j :: 0 <= j < |bytes| ==> frame[at + j] == bytes[j]
      ensures frame[at..at + |bytes|] == bytes
    {
    }

    /** Builds the frame of one segment, or refuses.  `slot` is what the slot's tuple says, if it
        is in use; `routed` tells whether there is a next hop, `mac` is its address if it is
        known (otherwise the frame is parked), `passed` whether the pass was granted. */
    method Dispatch(s: Sending, slot: Option<Endpoints>, payload: seq<u8>, routed: bool, mac: Option<Mac>, passed: bool)
      returns (ok: bool)
      requires Valid()
      modifies this, frame
      ensures Valid()
      ensures Refuses(s, slot, payload, routed) ==> !ok && length == old(length) && frame[..] == old(frame[..])
      ensures !Refuses(s, slot, payload, routed) ==>
        && ok == (mac.Some? && passed) && length == 54 + |payload|
        && frame[..length] == Encode(HeaderOf(s, slot.value), AddressesOf(s, slot.value, mac), payload)
    {
      if |payload| > MAX_PAYLOAD || !FlagsMakeSense(s.flags) {
        return false;
      }
      if slot.None? || !routed {
        return false;
      }
      hide Encode;
      Build(HeaderOf(s, slot.value), AddressesOf(s, slot.value, mac), payload);
      ok := mac.Some? && passed;
    }

    method Build(h: Header, a: Addresses, payload: seq<u8>)
      requires Valid() && |payload| <= MAX_PAYLOAD
      modifies this, frame
      ensures Valid() && length == 54 + |payload| && frame[..length] == Encode(h, a, payload)
    {
      hide IpHeader, TcpSegment, TcpChecksum, IpChecksum, Sum, Fold;
      var total := 40 + |payload|;
      var ether := a.destMac + a.ourMac + [0x08, 0x00];
      Lay(0, ether);
      assert frame[..14] == frame[0..14];
      var ipSum := FillIp(total, a);
      ghost var front := frame[..34];
      assert front == ether + frame[14..34];
      var tcpSum := FillTcp(h, a, payload);
      length := 14 + total;
      assert frame[..length] == front + frame[34..length];
    }

    /** Lays `blank` down from `at` on. */
    method Lay(at: nat, blank: seq<u8>)
      requires Valid() && at + |blank| <= FRAME_BYTES
      modifies frame
      ensures frame[at..at + |blank|] == blank
      ensures Outside(at, at + |blank|)
    {
      Put(at, blank);
      Slice(at, blank);
    }

    /** Fills a checksum field of what lies from `at` on. */
    method Patch(at: nat, field: nat, checksum: u16, ghost blank: seq<u8>, ghost filled: seq<u8>)
      requires Valid() && at + |blank| <= FRAME_BYTES && frame[at..at + |blank|] == blank
      requires |filled| == |blank| && field + 2 <= |blank|
      requires forall j :: 0 <= j < |blank| ==>
        filled[j] == if field <= j < field + 2 then Two(checksum)[j - field] else blank[j]
      modifies frame
      ensures frame[at..at + |blank|] == filled
      ensures Outside(at, at + |blank|)
    {
      assert forall j :: 0 <= j < |blank| ==> frame[at + j] == blank[j];
      Put(at + field, Two(checksum));
      Slice(at, filled);
    }

    /** Nothing but the bytes from `lo` to `hi` has changed. */
    twostate predicate Outside(lo: nat, hi: nat)
      requires old(Valid()) && Valid() && lo <= hi <= FRAME_BYTES
      reads this, frame
    {
      frame[..lo] == old(frame[..lo]) && frame[hi..] == old(frame[hi..])
    }

    method FillIp(total: u16, a: Addresses) returns (checksum: u16)
      requires Valid()
      modifies frame
      ensures checksum == IpChecksum(total, a) && frame[14..34] == IpHeader(total, a, checksum)
      ensures Outside(14, 34)
    {
      hide Sum, Fold, IpHeader;
      var blank := IpHeader(total, a, 0);
      IpPatch(total, a, 0);
      Lay(14, blank);
      var sum := SumWords(frame[14..34], 0);
      var folded := FoldSum(sum);
      checksum := 0xFFFF - folded;
      IpPatch(total, a, checksum);
      Patch(14, 10, checksum, blank, IpHeader(total, a, checksum));
    }

    method FillTcp(h: Header, a: Addresses, payload: seq<u8>) returns (checksum: u16)
      requires Valid() && |payload| <= MAX_PAYLOAD
      modifies frame
      ensures checksum == TcpChecksum(h, a, payload) && frame[34..54 + |payload|] == TcpSegment(h, payload, checksum)
      ensures Outside(34, 54 + |payload|)
    {
      hide Sum, Fold, TcpSegment;
      var blank := TcpSegment(h, payload, 0);
      TcpPatch(h, payload, 0);
      Lay(34, blank);
      var sum := SumWords(a.ourIp, 0);
      sum := SumWords(a.remoteIp, sum);
      sum := SumWords(frame[34..54 + |payload|], sum + 6 + (20 + |payload|));
      var folded := FoldSum(sum);
      checksum := 0xFFFF - folded;
      TcpPatch(h, payload, checksum);
      Patch(34, 16, checksum, blank, TcpSegment(h, payload, checksum));
    }
  }

  /** Filling in a checksum changes two bytes. */
  lemma {:induction false} IpPatch(total: u16, a: Addresses, c: u16)
    ensures |IpHeader(total, a, c)| == 20 == |IpHeader(total, a, 0)|
    ensures forall j :: 0 <= j < 20 ==>
      IpHeader(total, a, c)[j] == if 10 <= j < 12 then Two(c)[j - 10] else IpHeader(total, a, 0)[j]
  {
  }

  lemma {:induction false} TcpPatch(h: Header, payload: seq<u8>, c: u16)
    ensures |TcpSegment(h, payload, c)| == 20 + |payload| == |TcpSegment(h, payload, 0)|
    ensures forall j :: 0 <= j < 20 + |payload| ==>
      TcpSegment(h, payload, c)[j] == if 16 <= j < 18 then Two(c)[j - 16] else TcpSegment(h, payload, 0)[j]
  {
    var before := TcpBefore(h);
    assert |before| == 16;
    hide TcpBefore;
  }

  /** `checksum_ok` of compass.c, over the header as it lies in the packet. */
  method IpChecksumOk(header: seq<u8>) returns (ok: bool)
    ensures ok <==> Fold(Sum(header)) == 0xFFFF
    ensures ok <==> Sum(header) > 0 && Sum(header) % 0xFFFF == 0
  {
    var sum := SumWords(header, 0);
    var folded := FoldSum(sum);
    FoldsToOnes(sum);
    ok := folded == 0xFFFF;
  }

  /** `checksum_ok` of conversation.c; no sum of a 16-bit length leaves 32 bits. */
  method TcpChecksumOk(tcp: seq<u8>, src: Ip, dst: Ip) returns (ok: bool)
    requires |tcp| < 0x1_0000
    ensures ok <==> Fold(PseudoSum(src, dst, |tcp|) + Sum(tcp)) == 0xFFFF
    ensures PseudoSum(src, dst, |tcp|) + Sum(tcp) < 0x1_0000_0000
  {
    SumBound(src);
    SumBound(dst);
    SumBound(tcp);
    var sum := SumWords(src, 0);
    sum := SumWords(dst, sum);
    sum := SumWords(tcp, sum + 6 + |tcp|);
    var folded := FoldSum(sum);
    ok := folded == 0xFFFF;
  }
}
