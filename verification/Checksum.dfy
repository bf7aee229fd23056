/** The Internet checksum (RFC 1071) as the kernel computes and checks it. */
module Checksum {
  import opened Words

  /** Sum of the big-endian 16-bit words; an odd last byte counts as the high half of one. */
  function Sum(b: seq<u8>): nat {
    if |b| == 0 then 0
    else if |b| == 1 then b[0] * 256
    else b[0] * 256 + b[1] + Sum(b[2..])
  }

  /** `while (sum >> 16) sum = (sum & 0xFFFF) + (sum >> 16)`. */
  function Fold(s: nat): (r: nat)
    ensures r <= 0xFFFF && (s > 0 <==> r > 0)
    decreases s
  {
    if s < 0x1_0000 then s else Fold(s % 0x1_0000 + s / 0x1_0000)
  }

  lemma {:induction false} FoldCongruent(s: nat)
    ensures Fold(s) % 0xFFFF == s % 0xFFFF
    decreases s
  {
    if s >= 0x1_0000 {
      var t := s % 0x1_0000 + s / 0x1_0000;
      FoldCongruent(t);
      assert s == t + 0xFFFF * (s / 0x1_0000);
      SameRest(t, s / 0x1_0000);
    }
  }

  lemma {:induction false} SameRest(t: nat, q: nat)
    ensures (t + 0xFFFF * q) % 0xFFFF == t % 0xFFFF
  {
  }

  /** The check `sum == 0xFFFF` accepts exactly the positive multiples of 65535. */
  lemma {:induction false} FoldsToOnes(s: nat)
    ensures Fold(s) == 0xFFFF <==> s > 0 && s % 0xFFFF == 0
  {
    FoldCongruent(s);
  }

  lemma {:induction false} Multiple(q: nat)
    ensures (0xFFFF * q) % 0xFFFF == 0
  {
  }

  lemma {:induction false} ComplementIsMultiple(s: nat, f: nat)
    requires f <= 0xFFFF && f % 0xFFFF == s % 0xFFFF && (s > 0 <==> f > 0)
    ensures s + (0xFFFF - f) > 0 && (s + (0xFFFF - f)) % 0xFFFF == 0
  {
    var q := s / 0xFFFF;
    if f == 0xFFFF { Multiple(q); } else { Multiple(q + 1); }
  }

  /** Adding the complement of the folded sum makes the check succeed. */
  lemma {:induction false} ComplementChecks(s: nat)
    ensures Fold(s + (0xFFFF - Fold(s))) == 0xFFFF
  {
    hide Fold;
    FoldCongruent(s);
    ComplementIsMultiple(s, Fold(s));
    FoldsToOnes(s + (0xFFFF - Fold(s)));
  }

  lemma {:induction false} SumConcat(a: seq<u8>, b: seq<u8>)
    requires |a| % 2 == 0
    ensures Sum(a + b) == Sum(a) + Sum(b)
    decreases |a|
  {
    if a == [] {
      assert a + b == b;
    } else {
      SumConcat(a[2..], b);
      assert (a + b)[2..] == a[2..] + b;
    }
  }

  lemma {:induction false} SumBound(b: seq<u8>)
    ensures Sum(b) <= 0xFFFF * ((|b| + 1) / 2)
    decreases |b|
  {
    if |b| >= 2 { SumBound(b[2..]); }
  }

  /** The accumulating loop, `i += 2` with the missing last byte read as zero. */
  method SumWords(b: seq<u8>, start: nat) returns (sum: nat)
    ensures sum == start + Sum(b)
  {
    sum := start;
    var i := 0;
    while i < |b|
      invariant 0 <= i <= |b| + 1 && (i > |b| ==> sum == start + Sum(b))
      invariant i <= |b| ==> i % 2 == 0 && sum + Sum(b[i..]) == start + Sum(b)
    {
      var lo: u8 := if i + 1 < |b| then b[i + 1] else 0;
      assert i + 2 <= |b| ==> b[i..][2..] == b[i + 2..];
      sum := sum + (b[i] as int) * 256 + lo;
      i := i + 2;
    }
  }

  method FoldSum(s: nat) returns (r: nat)
    ensures r == Fold(s)
  {
    r := s;
    while r / 0x1_0000 != 0
      invariant Fold(r) == Fold(s)
      decreases r
    {
      r := r % 0x1_0000 + r / 0x1_0000;
    }
  }
}
