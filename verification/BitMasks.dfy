/** 32-bit masks held as unsigned numbers. Bit tests and bit settings work from the least
    significant bit up, so each law is a short induction over the bit position. */
module BitMasks {

  type Mask = m: int | 0 <= m < 0x1_0000_0000

  /** `m & (1 << i)` is non-zero. */
  predicate Set(m: nat, i: nat) {
    if i == 0 then m % 2 == 1 else Set(m / 2, i - 1)
  }

  /** `m | (1 << i)`. */
  function With(m: nat, i: nat): nat {
    if i == 0 then (if m % 2 == 1 then m else m + 1) else 2 * With(m / 2, i - 1) + m % 2
  }

  function Pow2(n: nat): (p: nat)
    ensures p > 0
  {
    if n == 0 then 1 else 2 * Pow2(n - 1)
  }

  /** Setting one bit sets that bit and no other. */
  lemma {:induction false} SetWith(m: nat, i: nat, j: nat)
    ensures Set(With(m, i), j) <==> i == j || Set(m, j)
  {
    if i > 0 && j > 0 {
      SetWith(m / 2, i - 1, j - 1);
    }
  }

  lemma {:induction false} WithBelow(m: nat, i: nat, n: nat)
    requires i < n && m < Pow2(n)
    ensures With(m, i) < Pow2(n)
  {
    if i > 0 {
      WithBelow(m / 2, i - 1, n - 1);
    } else {
      assert Pow2(n) == 2 * Pow2(n - 1);
    }
  }

  lemma {:induction false} ZeroHasNoBits(i: nat)
    ensures !Set(0, i)
  {
    if i > 0 { ZeroHasNoBits(i - 1); }
  }

  /** Numbers below 2^n are determined by their first n bits. */
  lemma {:induction false} SameBits(a: nat, b: nat, n: nat)
    requires a < Pow2(n) && b < Pow2(n)
    requires forall i :: 0 <= i < n ==> (Set(a, i) <==> Set(b, i))
    ensures a == b
  {
    if n > 0 {
      forall i | 0 <= i < n - 1
        ensures Set(a / 2, i) <==> Set(b / 2, i)
      {
        assert Set(a, i + 1) <==> Set(b, i + 1);
      }
      SameBits(a / 2, b / 2, n - 1);
      assert Set(a, 0) <==> Set(b, 0);
    }
  }

  /** `m & (2^n - 1)` is the remainder modulo 2^n: it keeps the bits below n and no others. */
  lemma {:induction false} SetLow(m: nat, n: nat, i: nat)
    ensures Set(m % Pow2(n), i) <==> i < n && Set(m, i)
  {
    if n == 0 {
      ZeroHasNoBits(i);
    } else {
      HalveRemainder(m, Pow2(n - 1));
      if i > 0 {
        SetLow(m / 2, n - 1, i - 1);
      }
    }
  }

  lemma HalveRemainder(m: nat, p: nat)
    requires p > 0
    ensures (m % (2 * p)) / 2 == (m / 2) % p && (m % (2 * p)) % 2 == m % 2
  {
    var q, r := m / (2 * p), m % (2 * p);
    Split(m, p);
    HalveSum(m, p * q, r);
    Remainder(m / 2, p, q, r / 2);
  }

  lemma HalveSum(m: nat, x: int, r: nat)
    requires m == 2 * x + r
    ensures m / 2 == x + r / 2 && m % 2 == r % 2
  {
  }

  lemma Split(m: nat, p: nat)
    requires p > 0
    ensures m == 2 * (p * (m / (2 * p))) + m % (2 * p)
  {
    var q := m / (2 * p);
    assert (2 * p) * q == 2 * (p * q);
  }

  lemma Remainder(a: nat, p: nat, q: nat, r: nat)
    requires p > 0 && a == p * q + r && r < p
    ensures a % p == r
  {
    MultipleRemainder(q, p, r);
  }

  lemma {:induction false} MultipleRemainder(q: nat, p: nat, r: nat)
    requires r < p
    ensures (p * q + r) % p == r
  {
    if q > 0 {
      MultipleRemainder(q - 1, p, r);
      assert p * q + r == (p * (q - 1) + r) + p;
      AddModulus(p * (q - 1) + r, p);
    }
  }

  lemma AddModulus(a: nat, p: nat)
    requires p > 0
    ensures (a + p) % p == a % p
  {
    var k := (a + p) / p - a / p - 1;
    assert (a + p) % p - a % p == -(p * k);
    if k >= 1 {
      AtLeastOne(p, k);
    } else if k <= -1 {
      AtLeastOne(p, -k);
    }
  }

  lemma AtLeastOne(p: nat, k: nat)
    requires k >= 1
    ensures p * k >= p
  {
  }

  /** A higher bit than any in a number below 2^n is clear. */
  lemma {:induction false} HighBitsClear(m: nat, n: nat, i: nat)
    requires m < Pow2(n) && i >= n
    ensures !Set(m, i)
  {
    if n == 0 {
      ZeroHasNoBits(i);
    } else {
      HighBitsClear(m / 2, n - 1, i - 1);
    }
  }

  lemma PowersUsed()
    ensures Pow2(8) == 0x100 && Pow2(16) == 0x1_0000 && Pow2(18) == 0x40000
    ensures Pow2(20) == 0x100000 && Pow2(32) == 0x1_0000_0000
  {
    assert Pow2(4) == 16 && Pow2(8) == 0x100;
    assert Pow2(12) == 0x1000 && Pow2(16) == 0x1_0000;
    assert Pow2(20) == 0x100000 && Pow2(24) == 0x100_0000;
    assert Pow2(28) == 0x1000_0000;
  }
}
