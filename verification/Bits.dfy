/** Bitwise operators on natural numbers, defined digit by digit, and the arithmetic
    each idiom of the kernel amounts to. */
module Bits {
  import opened Words

  predicate Bit(a: nat, i: nat)
    decreases i
  {
    if i == 0 then a % 2 == 1 else Bit(a / 2, i - 1)
  }

  function BitAnd(a: nat, b: nat): nat
    decreases a + b
  {
    if a == 0 && b == 0 then 0
    else 2 * BitAnd(a / 2, b / 2) + (if a % 2 == 1 && b % 2 == 1 then 1 else 0)
  }

  function BitOr(a: nat, b: nat): nat
    decreases a + b
  {
    if a == 0 && b == 0 then 0
    else 2 * BitOr(a / 2, b / 2) + (if a % 2 == 1 || b % 2 == 1 then 1 else 0)
  }

  function BitXor(a: nat, b: nat): nat
    decreases a + b
  {
    if a == 0 && b == 0 then 0 else 2 * BitXor(a / 2, b / 2) + (a + b) % 2
  }

  lemma {:induction false} ZeroOperand(a: nat)
    ensures BitAnd(a, 0) == 0 && BitOr(a, 0) == a && BitXor(a, 0) == a
  {
    if a != 0 {
      ZeroOperand(a / 2);
    }
  }

  lemma {:induction false} OrBits(a: nat, b: nat, i: nat)
    ensures Bit(BitOr(a, b), i) <==> Bit(a, i) || Bit(b, i)
    decreases i
  {
    var half := BitOr(a / 2, b / 2);
    assert BitOr(a, b) / 2 == half;
    if i != 0 {
      OrBits(a / 2, b / 2, i - 1);
    }
  }

  lemma {:induction false} AndBits(a: nat, b: nat, i: nat)
    ensures Bit(BitAnd(a, b), i) <==> Bit(a, i) && Bit(b, i)
    decreases i
  {
    var half := BitAnd(a / 2, b / 2);
    assert BitAnd(a, b) / 2 == half;
    if i != 0 {
      AndBits(a / 2, b / 2, i - 1);
    }
  }

  lemma {:induction false} Pow2Bits(k: nat, i: nat)
    ensures Bit(Pow2(k), i) <==> i == k
    decreases i
  {
    if k == 0 {
      if i != 0 { ZeroBits(i - 1); }
    } else if i != 0 {
      Pow2Bits(k - 1, i - 1);
    }
  }

  lemma {:induction false} ZeroBits(i: nat)
    ensures !Bit(0, i)
    decreases i
  {
    if i != 0 { ZeroBits(i - 1); }
  }

  /** Setting one bit, `a | (1 << k)`. */
  lemma {:induction false} SetBit(a: nat, k: nat, i: nat)
    ensures Bit(BitOr(a, Pow2(k)), i) <==> i == k || Bit(a, i)
  {
    OrBits(a, Pow2(k), i);
    Pow2Bits(k, i);
  }

  /** A bit is the half of the next power of two in which the remainder falls. */
  lemma {:induction false} BitIsUpperHalf(a: nat, k: nat)
    ensures Bit(a, k) <==> a % Pow2(k + 1) >= Pow2(k)
    ensures a % Pow2(k + 1) == a % Pow2(k) + (if Bit(a, k) then Pow2(k) else 0)
    decreases k
  {
    if k != 0 {
      BitIsUpperHalf(a / 2, k - 1);
      HalfMod(a, Pow2(k));
      HalfMod(a, Pow2(k - 1));
    }
  }

  lemma {:induction false} HalfMod(a: nat, m: nat)
    requires m > 0
    ensures a % (2 * m) == 2 * ((a / 2) % m) + a % 2
  {
    var h := a / 2;
    var q, r := h / m, h % m;
    assert h == m * q + r;
    assert a == (2 * m) * q + (2 * r + a % 2);
    ModUnique(a, 2 * m, q, 2 * r + a % 2);
  }

  lemma {:induction false} ModUnique(a: int, m: int, q: int, r: int)
    requires m > 0 && 0 <= r < m && a == m * q + r
    ensures a % m == r && a / m == q
  {
    var d := a / m - q;
    assert a == m * (a / m) + a % m;
    assert m * d == r - a % m;
    assert d >= 1 ==> m * d >= m;
    assert d <= -1 ==> m * d <= -m;
  }

  lemma {:induction false} Pow2Double(k: nat)
    requires k > 0
    ensures Pow2(k) == 2 * Pow2(k - 1)
  {
  }

  lemma {:induction false} AndEven(a: nat, h: nat)
    ensures BitAnd(a, 2 * h) == 2 * BitAnd(a / 2, h)
  {
    if a == 0 && h == 0 { ZeroOperand(0); }
  }

  lemma {:induction false} AndOdd(a: nat, h: nat)
    ensures BitAnd(a, 2 * h + 1) == 2 * BitAnd(a / 2, h) + a % 2
  {
    assert (2 * h + 1) / 2 == h;
  }

  lemma {:induction false} OrEven(a: nat, q: nat)
    ensures BitOr(a, 2 * q) == 2 * BitOr(a / 2, q) + a % 2
  {
    assert (2 * q) / 2 == q;
  }

  lemma {:induction false} XorEven(a: nat, q: nat)
    ensures BitXor(a, 2 * q) == 2 * BitXor(a / 2, q) + a % 2
  {
    assert (2 * q) / 2 == q;
  }

  /** `a ^ 2^k` moves by one block, up or down. */
  lemma {:induction false} XorPow2(a: nat, k: nat)
    ensures BitXor(a, Pow2(k)) == if Bit(a, k) then a - Pow2(k) else a + Pow2(k)
    decreases k
  {
    hide BitXor, Pow2;
    if k == 0 {
      Pow2Zero();
      XorOne(a, Pow2(0));
    } else {
      Pow2Double(k);
      XorPow2(a / 2, k - 1);
      XorEven(a, Pow2(k - 1));
    }
  }

  lemma {:induction false} XorStep(a: nat, b: nat)
    requires b > 0
    ensures BitXor(a, b) == 2 * BitXor(a / 2, b / 2) + if a % 2 != b % 2 then 1 else 0
  {
  }

  lemma {:induction false} XorOne(a: nat, one: nat)
    requires one == 1
    ensures BitXor(a, one) == if a % 2 == 1 then a - 1 else a + 1
  {
    hide BitXor;
    XorStep(a, one);
    ZeroOperand(a / 2);
  }

  /** `a & (2^k - 1)` is the remainder. */
  lemma {:induction false} AndLowMask(a: nat, k: nat)
    ensures BitAnd(a, Pow2(k) - 1) == a % Pow2(k)
  {
    hide BitAnd, Pow2;
    LowRem(a, k);
  }

  /** The remainder under a name, so that proofs can set its arithmetic aside. */
  function Rem(a: nat, m: nat): nat
    requires m > 0
  {
    a % m
  }

  lemma {:induction false} HalfRem(a: nat, m: nat)
    requires m > 0
    ensures Rem(a, 2 * m) == 2 * Rem(a / 2, m) + a % 2
  {
    HalfMod(a, m);
  }

  lemma {:induction false} LowRem(a: nat, k: nat)
    ensures BitAnd(a, Pow2(k) - 1) == Rem(a, Pow2(k))
    decreases k
  {
    hide BitAnd, Pow2, Rem;
    if k == 0 {
      LowRemZero(a);
    } else {
      Pow2Double(k);
      LowRem(a / 2, k - 1);
      HalfRem(a, Pow2(k - 1));
      AndOdd(a, Pow2(k - 1) - 1);
    }
  }

  lemma {:induction false} LowRemZero(a: nat)
    ensures BitAnd(a, Pow2(0) - 1) == Rem(a, Pow2(0))
  {
    ZeroOperand(a);
  }

  lemma {:induction false} AndNotOne(a: nat, p: nat, n: nat)
    requires p == Pow2(n) && a < 2 * p
    ensures BitAnd(a, 2 * p - 2) == a - a % 2
  {
    hide BitAnd, Pow2;
    AndLowMask(a / 2, n);
    ModUnique(a / 2, p, 0, a / 2);
    AndEven(a, p - 1);
  }

  /** `a & ~2^k` in an `n`-bit word clears one bit. */
  lemma {:induction false} AndNotPow2(a: nat, k: nat, n: nat)
    requires k < n && a < Pow2(n)
    ensures Pow2(k) < Pow2(n)
    ensures BitAnd(a, Pow2(n) - 1 - Pow2(k)) == if Bit(a, k) then a - Pow2(k) else a
    decreases k
  {
    hide BitAnd, Pow2;
    Pow2Monotone(k, n);
    Pow2Double(n);
    var p := Pow2(n - 1);
    if k == 0 {
      assert Pow2(0) == 1 by { Pow2Zero(); }
      AndNotOne(a, p, n - 1);
    } else {
      Pow2Double(k);
      AndNotPow2(a / 2, k - 1, n - 1);
      AndOdd(a, p - 1 - Pow2(k - 1));
    }
  }

  lemma {:induction false} Pow2Zero()
    ensures Pow2(0) == 1
  {
  }

  /** `a & ~(2^k - 1)` in an `n`-bit word rounds down. */
  lemma {:induction false} AndHighMask(a: nat, k: nat, n: nat)
    requires k <= n && a < Pow2(n)
    ensures Pow2(k) <= Pow2(n)
    ensures BitAnd(a, Pow2(n) - Pow2(k)) == a - a % Pow2(k)
  {
    hide BitAnd, Pow2;
    HighRem(a, k, n);
  }

  lemma {:induction false} HighRem(a: nat, k: nat, n: nat)
    requires k <= n && a < Pow2(n)
    ensures Pow2(k) <= Pow2(n)
    ensures BitAnd(a, Pow2(n) - Pow2(k)) == a - Rem(a, Pow2(k))
    decreases k
  {
    hide BitAnd, Pow2, Rem;
    if k < n { Pow2Monotone(k, n); }
    if k == 0 {
      HighRemZero(a, n);
    } else {
      Pow2Double(k);
      Pow2Double(n);
      HighRem(a / 2, k - 1, n - 1);
      AndEven(a, Pow2(n - 1) - Pow2(k - 1));
      HalfRem(a, Pow2(k - 1));
    }
  }

  lemma {:induction false} HighRemZero(a: nat, n: nat)
    requires a < Pow2(n)
    ensures BitAnd(a, Pow2(n) - Pow2(0)) == a - Rem(a, Pow2(0))
  {
    LowRem(a, n);
    hide BitAnd;
    ModUnique(a, Pow2(n), 0, a);
  }

  /** `~b` in an `n`-bit word. */
  lemma {:induction false} NotBits(b: nat, n: nat, i: nat)
    requires b < Pow2(n) && i < n
    ensures Bit(Pow2(n) - 1 - b, i) <==> !Bit(b, i)
    decreases i
  {
    var m := Pow2(n) - 1 - b;
    var p := Pow2(n - 1);
    assert Pow2(n) == 2 * p;
    assert m == 2 * (p - 1 - b / 2) + (1 - b % 2);
    if i != 0 { NotBits(b / 2, n - 1, i - 1); }
  }

  /** Clearing one bit, `a & ~(1 << k)`, in an `n`-bit word. */
  lemma {:induction false} ClearBit(a: nat, k: nat, n: nat, i: nat)
    requires k < n && i < n
    ensures Pow2(k) < Pow2(n)
    ensures Bit(BitAnd(a, Pow2(n) - 1 - Pow2(k)), i) <==> Bit(a, i) && i != k
  {
    Pow2Monotone(k, n);
    AndBits(a, Pow2(n) - 1 - Pow2(k), i);
    NotBits(Pow2(k), n, i);
    Pow2Bits(k, i);
  }

  lemma {:induction false} OrStep(a: nat, b: nat)
    requires b > 0
    ensures BitOr(a, b) == 2 * BitOr(a / 2, b / 2) + if a % 2 == 1 || b % 2 == 1 then 1 else 0
  {
  }

  lemma {:induction false} OrOne(a: nat, one: nat)
    requires one == 1
    ensures BitOr(a, one) == 2 * (a / 2) + 1
  {
    hide BitOr;
    OrStep(a, one);
    ZeroOperand(a / 2);
  }

  lemma {:induction false} OrFits(a: nat, k: nat, n: nat)
    requires k < n && a < Pow2(n)
    ensures BitOr(a, Pow2(k)) < Pow2(n)
    decreases k
  {
    hide BitOr, Pow2;
    Pow2Double(n);
    if k == 0 {
      Pow2Zero();
      OrOne(a, Pow2(0));
    } else {
      Pow2Double(k);
      OrFits(a / 2, k - 1, n - 1);
      OrEven(a, Pow2(k - 1));
    }
  }

  /** Setting or clearing a bit stays inside the word. */
  lemma {:induction false} WordUpdates(a: nat, k: nat, n: nat)
    requires k < n && a < Pow2(n)
    ensures BitOr(a, Pow2(k)) < Pow2(n)
    ensures Pow2(k) < Pow2(n) && BitAnd(a, Pow2(n) - 1 - Pow2(k)) < Pow2(n)
  {
    hide Pow2, BitOr, BitAnd;
    OrFits(a, k, n);
    AndNotPow2(a, k, n);
  }
}
