/**
 Simulated time (server/simtime.h:23-110, server/protocol.cc:93-96, server/PciProtocol.cc:41-53 and
 283-290): a 64-bit mantissa and a decimal exponent. Mantissas wrap around.
 */
module SimTime {
  const WORD := 0x1_0000_0000_0000_0000

  datatype Time = Time(mant: nat, exp: int)

  ghost predicate Valid(t: Time)
  {
    t.mant < WORD
  }

  function Pow10(n: nat): (p: nat)
    ensures p > 0
  {
    if n == 0 then 1 else 10 * Pow10(n - 1)
  }

  /** The exact value of `t` in units of 10^u. */
  ghost function Exact(t: Time, u: int): nat
    requires u <= t.exp
  {
    t.mant * Pow10(t.exp - u)
  }

  function Min(a: int, b: int): int
  {
    if a < b then a else b
  }

  // ----- arithmetic helpers

  lemma {:induction false} Pow10Add(a: nat, b: nat)
    ensures Pow10(a + b) == Pow10(a) * Pow10(b)
  {
    if a > 0 {
      Pow10Add(a - 1, b);
      assert Pow10(a + b) == 10 * Pow10(a - 1 + b);
      assert 10 * (Pow10(a - 1) * Pow10(b)) == (10 * Pow10(a - 1)) * Pow10(b);
    }
  }

  /** A coarser unit scales both sides of a comparison alike. */
  lemma ExactFiner(t: Time, u: int, v: int)
    requires v <= u <= t.exp
    ensures Exact(t, v) == Exact(t, u) * Pow10(u - v)
  {
    Pow10Add(t.exp - u, u - v);
    var a, b := Pow10(t.exp - u), Pow10(u - v);
    assert t.mant * (a * b) == (t.mant * a) * b;
  }

  lemma ExactSelf(t: Time)
    ensures Exact(t, t.exp) == t.mant && (Valid(t) ==> Exact(t, t.exp) % WORD == t.mant)
  {
    assert Pow10(0) == 1;
  }

  lemma ModTen(a: nat)
    ensures (a % WORD * 10) % WORD == (a * 10) % WORD
  {
    var q := a / WORD;
    assert a * 10 == a % WORD * 10 + (10 * q) * WORD;
    ModMultiple(a % WORD * 10, 10 * q);
  }

  lemma {:induction false} ModMultiple(a: nat, q: nat)
    ensures (a + q * WORD) % WORD == a % WORD
  {
    if q > 0 {
      ModMultiple(a, q - 1);
      assert a + q * WORD == a + (q - 1) * WORD + WORD;
    }
  }

  lemma ModSum(a: nat, b: nat)
    ensures (a % WORD + b % WORD) % WORD == (a + b) % WORD
  {
    var p, q := a / WORD, b / WORD;
    assert a + b == a % WORD + b % WORD + (p + q) * WORD;
    ModMultiple(a % WORD + b % WORD, p + q);
  }

  // ----- scaling loops

  /** The mantissa of a time in finer units, as the loops compute it. */
  method ScaleDown(mant: nat, exp: int, target: int) returns (m: nat)
    requires target <= exp && mant < WORD
    ensures m == Exact(Time(mant, exp), target) % WORD
  {
    m := mant;
    var e := exp;
    while target < e
      invariant target <= e <= exp && m == (mant * Pow10(exp - e)) % WORD
    {
      ModTen(mant * Pow10(exp - e));
      assert Pow10(exp - (e - 1)) == 10 * Pow10(exp - e);
      assert mant * (10 * Pow10(exp - e)) == mant * Pow10(exp - e) * 10;
      m := (m * 10) % WORD;
      e := e - 1;
    }
  }

  class Clock {
    var mant: nat
    var exp: int

    ghost function Now(): Time
      reads this
    {
      Time(mant, exp)
    }

    constructor ()
      ensures Now() == Time(0, 0)
    {
      mant, exp := 0, 0;
    }

    /** operator +=: exact modulo 2^64 in the finer of the two units, so exact if and only if the sum fits. */
    method Add(that: Time)
      requires mant < WORD && Valid(that)
      modifies this
      ensures exp == Min(old(exp), that.exp)
      ensures mant == (Exact(old(Now()), exp) + Exact(that, exp)) % WORD
      ensures Exact(Now(), exp) == Exact(old(Now()), exp) + Exact(that, exp) <==>
              Exact(old(Now()), exp) + Exact(that, exp) < WORD
    {
      hide Exact, Pow10;
      var useExp, useMant := that.exp, that.mant;
      ghost var was := Now();
      ExactSelf(was);
      ExactSelf(that);
      if useExp < exp {
        mant := ScaleDown(mant, exp, useExp);
        exp := useExp;
      } else {
        useMant := ScaleDown(useMant, useExp, exp);
      }
      ModSum(Exact(was, exp), Exact(that, exp));
      mant := (mant + useMant) % WORD;
      ExactSelf(Now());
    }
  }

  // ----- order

  /** The exact order. */
  ghost predicate Earlier(a: Time, b: Time)
  {
    var u := Min(a.exp, b.exp);
    Exact(a, u) < Exact(b, u)
  }

  lemma ScaledOrder(x: nat, y: nat, p: nat)
    requires p > 0
    ensures x < y <==> x * p < y * p
  {
    if x < y {
      assert y * p == x * p + (y - x) * p;
    } else {
      assert x * p == y * p + (x - y) * p;
    }
  }

  lemma EarlierAt(a: Time, b: Time, u: int)
    requires u <= a.exp && u <= b.exp
    ensures Earlier(a, b) <==> Exact(a, u) < Exact(b, u)
  {
    hide Exact, Pow10;
    var m := Min(a.exp, b.exp);
    ExactFiner(a, m, u);
    ExactFiner(b, m, u);
    ScaledOrder(Exact(a, m), Exact(b, m), Pow10(m - u));
  }

  /** operator <, as computed. */
  method Less(l: Time, r: Time) returns (less: bool)
    requires Valid(l) && Valid(r)
    ensures less <==> Exact(l, Min(l.exp, r.exp)) % WORD < Exact(r, Min(l.exp, r.exp)) % WORD
    ensures (Exact(l, Min(l.exp, r.exp)) < WORD && Exact(r, Min(l.exp, r.exp)) < WORD) ==> (less <==> Earlier(l, r))
  {
    var lm := ScaleDown(l.mant, l.exp, Min(l.exp, r.exp));
    var rm := ScaleDown(r.mant, r.exp, Min(l.exp, r.exp));
    less := lm < rm;
  }

  /**
   The computed order is the exact one if and only if the coarser mantissa does not wrap,
   or wraps to a value that falls on the right side by chance.
   */
  lemma LessExactIff(l: Time, r: Time)
    requires Valid(l) && Valid(r)
    ensures var u := Min(l.exp, r.exp);
      (Exact(l, u) % WORD < Exact(r, u) % WORD <==> Earlier(l, r)) <==>
      (&& (Exact(l, u) >= WORD ==> Exact(l, u) % WORD >= r.mant)
       && (Exact(r, u) >= WORD ==> l.mant < Exact(r, u) % WORD))
  {
    hide Exact;
    ExactSelf(l);
    ExactSelf(r);
    WrappedOrder(Exact(l, Min(l.exp, r.exp)), Exact(r, Min(l.exp, r.exp)));
  }

  /** When at most one of two numbers is too big for a word, wrapping keeps their order just in these cases. */
  lemma WrappedOrder(x: nat, y: nat)
    requires x < WORD || y < WORD
    ensures (x % WORD < y % WORD <==> x < y) <==>
      (x >= WORD ==> x % WORD >= y) && (y >= WORD ==> x < y % WORD)
  {
  }

  /** Without that guard the order can be wrong: 2^48 units of 10^16 come out as zero, less than one unit. */
  lemma LessWraps()
    ensures var a, one := Time(0x1_0000_0000_0000, 16), Time(1, 0);
      && Valid(a) && Valid(one) && !Earlier(a, one)
      && Exact(a, 0) % WORD < Exact(one, 0) % WORD
  {
    assert Pow10(0) == 1;
    Pow10Add(4, 12);
    Pow10Add(4, 8);
    Pow10Add(4, 4);
    assert Pow10(4) == 10 * Pow10(3) == 100 * Pow10(2) == 1000 * Pow10(1) == 10000 * Pow10(0);
    assert Pow10(16) == 1_0000_0000_0000_0000;
  }

  /** The exact order is a strict weak order whose ties are equal times. */
  lemma EarlierStrictWeak(a: Time, b: Time, c: Time)
    ensures !Earlier(a, a)
    ensures Earlier(a, b) && Earlier(b, c) ==> Earlier(a, c)
    ensures !Earlier(a, b) && !Earlier(b, c) ==> !Earlier(a, c)
    ensures !Earlier(a, b) && !Earlier(b, a) <==> Exact(a, Min(a.exp, b.exp)) == Exact(b, Min(a.exp, b.exp))
  {
    var u := Min(a.exp, Min(b.exp, c.exp));
    EarlierAt(a, b, u);
    EarlierAt(b, c, u);
    EarlierAt(a, c, u);
  }

  // ----- units_value

  /** `n` steps of rounding half up to tens, one after the other. */
  function Rounded(x: nat, n: nat): nat
    decreases n
  {
    if n == 0 then x else Rounded((x + 5) / 10, n - 1)
  }

  /** The value of `t` in units of 10^units: rounded step by step to coarser units, exact in finer ones. */
  ghost function UnitsOf(t: Time, units: int): nat
  {
    if t.exp <= units then Rounded(t.mant, units - t.exp) else Exact(t, units)
  }

  lemma FirstRounding(v: nat)
    requires v < WORD
    ensures ((v + 5) % WORD) / 10 == if v + 5 < WORD then (v + 5) / 10 else 0
  {
  }

  /** units_value: that value, unless scaling up wraps or the first rounding does, which leaves nothing. */
  method UnitsValue(t: Time, units: int) returns (v: nat)
    requires Valid(t)
    ensures units <= t.exp ==> v == Exact(t, units) % WORD
    ensures units > t.exp ==> v == if t.mant + 5 < WORD then Rounded(t.mant, units - t.exp) else 0
    ensures (if units > t.exp then t.mant + 5 < WORD else Exact(t, units) < WORD) ==> v == UnitsOf(t, units)
  {
    v := t.mant;
    var e := t.exp;
    ghost var fits := t.mant + 5 < WORD;
    while e < units
      invariant t.exp <= e && (e <= units || e == t.exp)
      invariant v < WORD && (fits ==> v + 5 < WORD)
      invariant fits && t.exp <= units ==> Rounded(v, units - e) == Rounded(t.mant, units - t.exp)
      invariant units <= t.exp ==> v == t.mant
      invariant !fits ==> v == if e > t.exp then 0 else t.mant
    {
      FirstRounding(v);
      v := ((v + 5) % WORD) / 10;
      e := e + 1;
    }
    if e > units {
      v := ScaleDown(v, e, units);
    }
    assert Pow10(0) == 1;
  }

  lemma Associate(p: nat, r: nat)
    ensures 10 * p * r == 10 * (p * r)
  {
  }

  /** The error of `n` steps: each adds at most 4 below or 5 above, in tenths of the next unit. */
  lemma {:induction false} RoundedError(x: nat, n: nat)
    ensures -4 * (Pow10(n) - 1) <= 9 * (Pow10(n) * Rounded(x, n) - x) <= 5 * (Pow10(n) - 1)
  {
    if n > 0 {
      var y := (x + 5) / 10;
      RoundedError(y, n - 1);
      var p, r := Pow10(n - 1), Rounded(x, n);
      Associate(p, r);
    }
  }

  lemma {:induction false} RoundedMonotone(x: nat, y: nat, n: nat)
    requires x <= y
    ensures Rounded(x, n) <= Rounded(y, n)
  {
    if n > 0 {
      RoundedMonotone((x + 5) / 10, (y + 5) / 10, n - 1);
    }
  }

  /** Rounding a scaled-up value first undoes the scaling. */
  lemma {:induction false} RoundedScaled(x: nat, k: nat, n: nat)
    ensures Rounded(x * Pow10(k), k + n) == Rounded(x, n)
  {
    if k > 0 {
      var y := x * Pow10(k - 1);
      assert x * Pow10(k) == 10 * y by { assert x * (10 * Pow10(k - 1)) == 10 * (x * Pow10(k - 1)); }
      assert (10 * y + 5) / 10 == y;
      RoundedScaled(x, k - 1, n);
    } else {
      assert x * Pow10(0) == x;
    }
  }

  /** Rounding to coarser units comes to the same from any finer representation. */
  lemma UnitsOfFiner(t: Time, units: int, u: int)
    requires u <= t.exp && u <= units
    ensures UnitsOf(t, units) == Rounded(Exact(t, u), units - u)
  {
    hide Exact, Pow10, Rounded;
    if t.exp <= units {
      RoundedFromFiner(t, units, u);
    } else {
      RoundedExact(t, units, u);
    }
  }

  lemma RoundedFromFiner(t: Time, units: int, u: int)
    requires u <= t.exp <= units
    ensures Rounded(Exact(t, u), units - u) == Rounded(t.mant, units - t.exp)
  {
    RoundedScaled(t.mant, t.exp - u, units - t.exp);
  }

  lemma RoundedExact(t: Time, units: int, u: int)
    requires u <= units <= t.exp
    ensures Rounded(Exact(t, u), units - u) == Exact(t, units)
  {
    hide Exact, Pow10;
    ExactFiner(t, units, u);
    RoundedScaled(Exact(t, units), units - u, 0);
  }

  /** A time that is not earlier never has a smaller value in the same units, whatever the three units are. */
  lemma UnitsMonotone(a: Time, b: Time, units: int)
    requires !Earlier(b, a)
    ensures UnitsOf(a, units) <= UnitsOf(b, units)
  {
    hide Exact, Pow10, Rounded, UnitsOf, Earlier;
    var u := Min(units, Min(a.exp, b.exp));
    UnitsOfFiner(a, units, u);
    UnitsOfFiner(b, units, u);
    EarlierAt(b, a, u);
    RoundedMonotone(Exact(a, u), Exact(b, u), units - u);
  }

  // ----- the PCI clock

  /** The lengths in picoseconds of the four phases of a clock. */
  const PCI33 := [2000, 13000, 13000, 2000]
  const PCI66 := [2000, 5500, 5500, 2000]

  /** The picoseconds of `n` phases, the first of them being phase 1. */
  ghost function Elapsed(map4: seq<nat>, n: nat): nat
    requires |map4| == 4
  {
    if n == 0 then 0 else Elapsed(map4, n - 1) + map4[n % 4]
  }

  /** The bus time after `n` phases is the exact sum of their lengths, until 2^64 picoseconds. */
  method RunClock(map4: seq<nat>, n: nat) returns (clock: Clock)
    requires |map4| == 4 && Elapsed(map4, n) < WORD
    ensures fresh(clock) && clock.mant == Elapsed(map4, n) && clock.exp == if n == 0 then 0 else -12
  {
    clock := new Clock();
    var phase, i := 0, 0;
    while i < n
      invariant 0 <= i <= n && phase == i % 4 && fresh(clock)
      invariant clock.mant == Elapsed(map4, i) && clock.exp == if i == 0 then 0 else -12
    {
      ElapsedGrows(map4, i + 1, n);
      phase := (phase + 1) % 4;
      assert Pow10(0) == 1;
      clock.Add(Time(map4[phase], -12));
      i := i + 1;
    }
  }

  lemma {:induction false} ElapsedGrows(map4: seq<nat>, i: nat, n: nat)
    requires |map4| == 4 && i <= n
    ensures Elapsed(map4, i) <= Elapsed(map4, n) && (i > 0 ==> map4[i % 4] <= Elapsed(map4, i))
  {
    if i < n {
      ElapsedGrows(map4, i, n - 1);
    }
  }

  /** One whole cycle adds all four lengths. */
  lemma ElapsedCycle(map4: seq<nat>, n: nat)
    requires |map4| == 4 && n % 4 == 0
    ensures Elapsed(map4, n + 4) == Elapsed(map4, n) + map4[0] + map4[1] + map4[2] + map4[3]
  {
    assert Elapsed(map4, n + 1) == Elapsed(map4, n) + map4[1];
    assert Elapsed(map4, n + 2) == Elapsed(map4, n + 1) + map4[2];
    assert Elapsed(map4, n + 3) == Elapsed(map4, n + 2) + map4[3];
    assert Elapsed(map4, n + 4) == Elapsed(map4, n + 3) + map4[0];
  }

  /** The end of every phase, in picoseconds, counted from the first: 13, 26, 28 and 30 ns into each cycle at 33 MHz. */
  lemma PhaseTimes(k: nat)
    ensures Elapsed(PCI33, 4 * k + 1) == 30000 * k + 13000 && Elapsed(PCI66, 4 * k + 1) == 15000 * k + 5500
    ensures Elapsed(PCI33, 4 * k + 2) == 30000 * k + 26000 && Elapsed(PCI66, 4 * k + 2) == 15000 * k + 11000
    ensures Elapsed(PCI33, 4 * k + 3) == 30000 * k + 28000 && Elapsed(PCI66, 4 * k + 3) == 15000 * k + 13000
  {
    ElapsedCycles(k);
    OnePhase(PCI33, 4 * k);
    OnePhase(PCI66, 4 * k);
  }

  lemma OnePhase(map4: seq<nat>, n: nat)
    requires |map4| == 4 && n % 4 == 0
    ensures Elapsed(map4, n + 1) == Elapsed(map4, n) + map4[1]
    ensures Elapsed(map4, n + 2) == Elapsed(map4, n) + map4[1] + map4[2]
    ensures Elapsed(map4, n + 3) == Elapsed(map4, n) + map4[1] + map4[2] + map4[3]
  {
    assert Elapsed(map4, n + 2) == Elapsed(map4, n + 1) + map4[2];
    assert Elapsed(map4, n + 3) == Elapsed(map4, n + 2) + map4[3];
  }

  /** Whole cycles: 30 ns at 33 MHz and 15 ns at 66 MHz. */
  lemma {:induction false} ElapsedCycles(k: nat)
    ensures Elapsed(PCI33, 4 * k) == 30000 * k && Elapsed(PCI66, 4 * k) == 15000 * k
  {
    if k == 0 {
      assert Elapsed(PCI33, 0) == 0 && Elapsed(PCI66, 0) == 0;
    } else {
      hide Elapsed;
      ElapsedCycles(k - 1);
      ElapsedCycle(PCI33, 4 * (k - 1));
      ElapsedCycle(PCI66, 4 * (k - 1));
      assert 4 * (k - 1) + 4 == 4 * k;
    }
  }
}
