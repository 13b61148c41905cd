/** Powers of two and the bits of natural numbers. */
module Bits {

  function Pow2(n: nat): (p: nat)
    ensures p > 0
  {
    if n == 0 then 1 else 2 * Pow2(n - 1)
  }

  /** Bit `i` of `m`. */
  predicate Bit(m: nat, i: nat)
  {
    (m / Pow2(i)) % 2 == 1
  }

  /** How many of the bits below `n` are set in `m`. */
  function CountBelow(m: nat, n: nat): (c: nat)
    ensures c <= n
  {
    if n == 0 then 0 else CountBelow(m, n - 1) + if Bit(m, n - 1) then 1 else 0
  }

  lemma {:induction false} Pow2Add(a: nat, b: nat)
    ensures Pow2(a + b) == Pow2(a) * Pow2(b)
  {
    if b > 0 {
      Pow2Add(a, b - 1);
      assert Pow2(a + b) == 2 * Pow2(a + (b - 1));
      assert 2 * (Pow2(a) * Pow2(b - 1)) == Pow2(a) * (2 * Pow2(b - 1));
    }
  }

  lemma {:induction false} Pow2Monotone(a: nat, b: nat)
    requires a <= b
    ensures Pow2(a) <= Pow2(b)
  {
    if a < b {
      Pow2Monotone(a, b - 1);
    }
  }

  lemma DivAddMultiple(m: nat, q: nat, d: nat)
    requires d > 0
    ensures (m + q * d) / d == m / d + q
  {
    var r := m % d;
    assert m == (m / d) * d + r;
    assert m + q * d == (m / d + q) * d + r by {
      assert (m / d + q) * d == (m / d) * d + q * d;
    }
    QuotientUnique(m + q * d, d, m / d + q, r);
  }

  lemma QuotientUnique(m: int, d: int, q: int, r: int)
    requires 0 <= r < d && m == q * d + r
    ensures m / d == q && m % d == r
  {
    var q', r' := m / d, m % d;
    assert m == q' * d + r' && 0 <= r' < d;
    assert (q - q') * d == r' - r by {
      assert (q - q') * d == q * d - q' * d;
    }
    MultipleBound(q - q', d);
  }

  lemma MultipleBound(k: int, d: int)
    requires d > 0
    ensures k >= 1 ==> k * d >= d
    ensures k <= -1 ==> k * d <= -d
  {
  }

  /** Setting bit `p` of a mask that has no bit at or above `p` leaves the lower bits alone. */
  lemma SetTopBit(m: nat, p: nat)
    requires m < Pow2(p)
    ensures m + Pow2(p) < Pow2(p + 1)
    ensures Bit(m + Pow2(p), p) && !Bit(m, p)
    ensures forall q: nat :: q < p ==> Bit(m + Pow2(p), q) == Bit(m, q)
  {
    QuotientUnique(m, Pow2(p), 0, m);
    QuotientUnique(m + Pow2(p), Pow2(p), 1, m);
    forall q: nat | q < p ensures Bit(m + Pow2(p), q) == Bit(m, q) {
      Pow2Add(p - q - 1, q);
      Pow2Add(p - q - 1, q + 1);
      assert Pow2(p) == (2 * Pow2(p - q - 1)) * Pow2(q) by {
        assert Pow2(p) == 2 * Pow2((p - q - 1) + q);
        assert 2 * (Pow2(p - q - 1) * Pow2(q)) == (2 * Pow2(p - q - 1)) * Pow2(q);
      }
      DivAddMultiple(m, 2 * Pow2(p - q - 1), Pow2(q));
      assert (m + Pow2(p)) / Pow2(q) == m / Pow2(q) + 2 * Pow2(p - q - 1);
    }
  }

  lemma NoHighBits(m: nat, p: nat, q: nat)
    requires m < Pow2(p) && p <= q
    ensures !Bit(m, q)
  {
    Pow2Monotone(p, q);
    QuotientUnique(m, Pow2(q), 0, m);
  }

  /** With no bit above `p`, bit `p` is set exactly when the mask reaches 2^p. */
  lemma TopBit(m: nat, p: nat)
    requires m < Pow2(p + 1)
    ensures Bit(m, p) <==> m >= Pow2(p)
  {
    if m >= Pow2(p) {
      QuotientUnique(m, Pow2(p), 1, m - Pow2(p));
    } else {
      QuotientUnique(m, Pow2(p), 0, m);
    }
  }

  lemma {:induction false} CountSame(m: nat, m': nat, n: nat)
    requires forall q: nat :: q < n ==> Bit(m, q) == Bit(m', q)
    ensures CountBelow(m, n) == CountBelow(m', n)
  {
    if n > 0 {
      CountSame(m, m', n - 1);
    }
  }

  lemma {:induction false} CountMonotone(m: nat, a: nat, b: nat)
    requires a <= b
    ensures CountBelow(m, a) <= CountBelow(m, b)
  {
    if a < b {
      CountMonotone(m, a, b - 1);
    }
  }

  lemma {:induction false} CountNone(m: nat, p: nat, n: nat)
    requires m < Pow2(p) && p <= n
    ensures CountBelow(m, n) == CountBelow(m, p)
  {
    if n > p {
      NoHighBits(m, p, n - 1);
      CountNone(m, p, n - 1);
    }
  }
}
