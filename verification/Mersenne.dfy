/**
 The random numbers of the arbiter (server/mt19937int.c:48-121): 624 words of state, regenerated
 in place all at once, and a tempering of each word on its way out. Words are 64 bits wide, as
 `unsigned long` is, but only 32 of them are ever set.
 */
module Mersenne {
  type Word = bv64

  const N := 624
  const M := 397
  const MATRIX_A: Word := 0x9908b0df
  const UPPER_MASK: Word := 0x80000000
  const LOWER_MASK: Word := 0x7fffffff
  const MASK32: Word := 0xffffffff
  const TEMPERING_MASK_B: Word := 0x9d2c5680
  const TEMPERING_MASK_C: Word := 0xefc60000
  const DEFAULT_SEED: Word := 4357

  predicate Narrow(x: Word)
  {
    x & MASK32 == x
  }

  function Xor(a: Word, b: Word): Word { a ^ b }

  // ----- the simple recurrence

  function Mix(upper: Word, lower: Word): Word
  {
    (upper & UPPER_MASK) | (lower & LOWER_MASK)
  }

  function Twist(upper: Word, lower: Word): Word
  {
    var y := Mix(upper, lower);
    (y >> 1) ^ (if y & 1 == 0 then 0 else MATRIX_A)
  }

  function NextSeed(x: Word): Word
  {
    (69069 * x) & MASK32
  }

  /** The sequence x[k+624] = x[k+397] xor twist(x[k], x[k+1]) that starts with the seeded words. */
  ghost function Sequence(seed: Word, k: nat): Word
    decreases k
  {
    if k == 0 then seed & MASK32
    else if k < N then NextSeed(Sequence(seed, k - 1))
    else Xor(Sequence(seed, k - N + M), Twist(Sequence(seed, k - N), Sequence(seed, k - N + 1)))
  }

  lemma TwistNarrow(x: Word, upper: Word, lower: Word)
    requires Narrow(x)
    ensures Narrow(Xor(x, Twist(upper, lower)))
  {
  }

  lemma {:induction false} SequenceNarrow(seed: Word, k: nat)
    ensures Narrow(Sequence(seed, k))
  {
    if k >= N {
      hide Narrow, Twist, Xor;
      SequenceNarrow(seed, k - N + M);
      TwistNarrow(Sequence(seed, k - N + M), Sequence(seed, k - N), Sequence(seed, k - N + 1));
    }
  }

  // ----- tempering

  function ShiftU(y: Word): Word { y >> 11 }

  function ShiftS(y: Word): Word { (y << 7) & TEMPERING_MASK_B }

  function ShiftT(y: Word): Word { (y << 15) & TEMPERING_MASK_C }

  function ShiftL(y: Word): Word { y >> 18 }

  /** Lines 112-116. */
  function Temper(y: Word): Word
  {
    var u := Xor(y, ShiftU(y));
    var s := Xor(u, ShiftS(u));
    var t := Xor(s, ShiftT(s));
    Xor(t, ShiftL(t))
  }

  lemma XorCancels(a: Word, b: Word)
    ensures Xor(Xor(a, b), b) == a
  {
  }

  lemma XorAssociates(a: Word, b: Word, c: Word)
    ensures Xor(Xor(a, b), c) == Xor(a, Xor(b, c))
  {
  }

  lemma XorZero(a: Word)
    ensures Xor(a, 0) == a
  {
  }

  // the shifts distribute over xor

  lemma LinearU(a: Word, b: Word)
    ensures ShiftU(Xor(a, b)) == Xor(ShiftU(a), ShiftU(b))
  {
  }

  lemma LinearS(a: Word, b: Word)
    ensures ShiftS(Xor(a, b)) == Xor(ShiftS(a), ShiftS(b))
  {
  }

  lemma LinearT(a: Word, b: Word)
    ensures ShiftT(Xor(a, b)) == Xor(ShiftT(a), ShiftT(b))
  {
  }

  lemma LinearL(a: Word, b: Word)
    ensures ShiftL(Xor(a, b)) == Xor(ShiftL(a), ShiftL(b))
  {
  }

  /** Repeated often enough, each shift leaves nothing of a 32-bit word. */
  lemma NilpotentUL(y: Word)
    requires y & 0xffffffff == y
    ensures ((y >> 11) >> 11) >> 11 == 0 && (y >> 18) >> 18 == 0
  {
  }

  lemma NilpotentT(y: Word)
    ensures (((y << 15) & 0xefc60000) << 15) & 0xefc60000 == 0
  {
  }

  lemma NilpotentS(y: Word)
    ensures ((((((((((y << 7) & 0x9d2c5680) << 7) & 0x9d2c5680) << 7) & 0x9d2c5680) << 7) & 0x9d2c5680) << 7) & 0x9d2c5680) == 0
  {
  }

  lemma Nilpotent(y: Word)
    requires Narrow(y)
    ensures ShiftU(ShiftU(ShiftU(y))) == 0 && ShiftL(ShiftL(y)) == 0 && ShiftT(ShiftT(y)) == 0
    ensures ShiftS(ShiftS(ShiftS(ShiftS(ShiftS(y))))) == 0
  {
    NilpotentUL(y);
    NilpotentT(y);
    NilpotentS(y);
  }

  lemma NarrowU(y: Word)
    requires Narrow(y)
    ensures Narrow(ShiftU(y))
  {
  }

  lemma NarrowS(y: Word)
    requires Narrow(y)
    ensures Narrow(ShiftS(y))
  {
  }

  lemma NarrowT(y: Word)
    requires Narrow(y)
    ensures Narrow(ShiftT(y))
  {
  }

  lemma NarrowL(y: Word)
    requires Narrow(y)
    ensures Narrow(ShiftL(y))
  {
  }

  lemma NarrowXor(a: Word, b: Word)
    requires Narrow(a) && Narrow(b)
    ensures Narrow(Xor(a, b))
  {
  }

  lemma NarrowStages(y: Word)
    requires Narrow(y)
    ensures Narrow(Xor(y, ShiftU(y))) && Narrow(Xor(y, ShiftS(y))) && Narrow(Xor(y, ShiftT(y))) && Narrow(Xor(y, ShiftL(y)))
  {
    hide ShiftU, ShiftS, ShiftT, ShiftL, Xor, Narrow;
    NarrowU(y);
    NarrowS(y);
    NarrowT(y);
    NarrowL(y);
    NarrowXor(y, ShiftU(y));
    NarrowXor(y, ShiftS(y));
    NarrowXor(y, ShiftT(y));
    NarrowXor(y, ShiftL(y));
  }

  lemma NarrowBelow(y: Word)
    requires y & 0xffffffff == y
    ensures y < 0x1_0000_0000
  {
  }

  /** Every number fits in 32 bits. */
  lemma TemperNarrow(y: Word)
    requires Narrow(y)
    ensures Narrow(Temper(y)) && Temper(y) < 0x1_0000_0000
  {
    hide ShiftU, ShiftS, ShiftT, ShiftL, Xor;
    var u := Xor(y, ShiftU(y));
    NarrowStages(y);
    var s := Xor(u, ShiftS(u));
    NarrowStages(u);
    var t := Xor(s, ShiftT(s));
    NarrowStages(s);
    NarrowStages(t);
    NarrowBelow(Temper(y));
  }

  function Untemper(z: Word): Word
  {
    var t := Xor(z, ShiftL(z));
    var s := Xor(t, ShiftT(t));
    var s1 := ShiftS(s);
    var s2 := ShiftS(s1);
    var s3 := ShiftS(s2);
    var u := Xor(Xor(Xor(Xor(s, s1), s2), s3), ShiftS(s3));
    Xor(Xor(u, ShiftU(u)), ShiftU(ShiftU(u)))
  }

  lemma UndoL(y: Word)
    requires Narrow(y)
    ensures var z := Xor(y, ShiftL(y)); Xor(z, ShiftL(z)) == y
  {
    hide ShiftL, Xor;
    var p := ShiftL(y);
    LinearL(y, p);
    Nilpotent(y);
    XorZero(p);
    XorCancels(y, p);
  }

  lemma UndoT(y: Word)
    requires Narrow(y)
    ensures var z := Xor(y, ShiftT(y)); Xor(z, ShiftT(z)) == y
  {
    hide ShiftT, Xor;
    var p := ShiftT(y);
    LinearT(y, p);
    Nilpotent(y);
    XorZero(p);
    XorCancels(y, p);
  }

  /** A telescoping sum: (a + b) + (b + c) == a + c. */
  lemma Telescopes(a: Word, b: Word, c: Word)
    ensures Xor(Xor(a, b), Xor(b, c)) == Xor(a, c)
  {
    hide Xor;
    XorAssociates(Xor(a, b), b, c);
    XorCancels(a, b);
  }

  lemma UndoU(y: Word)
    requires Narrow(y)
    ensures var z := Xor(y, ShiftU(y)); Xor(Xor(z, ShiftU(z)), ShiftU(ShiftU(z))) == y
  {
    hide ShiftU, Xor;
    var p := ShiftU(y);
    var q := ShiftU(p);
    LinearU(y, p);
    LinearU(p, q);
    Nilpotent(y);
    Telescopes(y, p, q);
    XorZero(q);
    XorCancels(y, q);
  }

  lemma UndoS(y: Word)
    requires Narrow(y)
    ensures var z := Xor(y, ShiftS(y));
      var z1 := ShiftS(z);
      var z2 := ShiftS(z1);
      var z3 := ShiftS(z2);
      Xor(Xor(Xor(Xor(z, z1), z2), z3), ShiftS(z3)) == y
  {
    hide ShiftS, Xor;
    var p := ShiftS(y);
    var q := ShiftS(p);
    var r := ShiftS(q);
    var v := ShiftS(r);
    LinearS(y, p);
    LinearS(p, q);
    LinearS(q, r);
    LinearS(r, v);
    Nilpotent(y);
    Telescopes(y, p, q);
    Telescopes(y, q, r);
    Telescopes(y, r, v);
    XorZero(v);
    XorCancels(y, v);
  }

  /** Tempering can be undone, so it is one-to-one. */
  lemma TemperRoundTrip(y: Word)
    requires Narrow(y)
    ensures Untemper(Temper(y)) == y
  {
    hide ShiftU, ShiftS, ShiftT, ShiftL, Xor, Narrow;
    var u := Xor(y, ShiftU(y));
    NarrowStages(y);
    var s := Xor(u, ShiftS(u));
    NarrowStages(u);
    var t := Xor(s, ShiftT(s));
    NarrowStages(s);
    UndoL(t);
    UndoT(s);
    UndoS(u);
    UndoU(y);
  }

  lemma TemperInjective(x: Word, y: Word)
    requires Narrow(x) && Narrow(y) && Temper(x) == Temper(y)
    ensures x == y
  {
    hide Temper, Untemper;
    TemperRoundTrip(x);
    TemperRoundTrip(y);
  }

  // ----- the generator

  /** `mti == N + 1` marks a generator that was never seeded. */
  class Generator {
    const mt: array<Word>
    var mti: nat
    ghost var seed: Word
    ghost var base: nat    // mt[i] is element base + i of the sequence

    ghost predicate Holds(lo: nat, hi: nat, from: nat)
      requires lo <= hi <= mt.Length
      reads mt, this`seed
    {
      forall i :: lo <= i < hi ==> mt[i] == Sequence(seed, from + i)
    }

    ghost predicate Valid()
      reads this, mt
    {
      mt.Length == N && mti <= N + 1 && (mti <= N ==> Holds(0, N, base) && base + mti >= N) && (mti == N + 1 ==> base == 0 && seed == DEFAULT_SEED)
    }

    /** How many numbers have been drawn since seeding. */
    ghost function Drawn(): int
      reads this, mt
      requires Valid()
    {
      if mti == N + 1 then 0 else base + mti - N
    }

    constructor ()
      ensures Valid() && fresh(mt) && seed == DEFAULT_SEED && Drawn() == 0
    {
      mt := new Word[N](_ => 0);
      mti := N + 1;
      seed, base := DEFAULT_SEED, 0;
    }

    /** sgenrand. */
    method Seed(s: Word)
      requires mt.Length == N
      modifies this, mt
      ensures Valid() && mti == N && seed == s && base == 0 && Drawn() == 0
    {
      hide Sequence;
      seed, base := s, 0;
      assert Sequence(seed, 0) == seed & MASK32 by { SequenceStart(seed); }
      mt[0] := s & MASK32;
      mti := 1;
      while mti < N
        invariant 1 <= mti <= N && seed == s && base == 0 && Holds(0, mti, 0)
      {
        SequenceSeeded(seed, mti);
        mt[mti] := NextSeed(mt[mti - 1]);
        mti := mti + 1;
      }
    }

    /** One word of the next block: everything it needs is either still old or already new. */
    method Renew(kk: nat, next: nat, other: nat)
      requires mt.Length == N && kk < N && Holds(0, kk, base + N) && Holds(kk, N, base)
      requires next == (if kk + 1 < N then kk + 1 else 0) && other == (if kk + M < N then kk + M else kk + M - N)
      modifies mt
      ensures Holds(0, kk + 1, base + N) && Holds(kk + 1, N, base)
    {
      hide Sequence, Twist, Xor;
      SequenceNext(seed, base + kk);
      assert mt[kk] == Sequence(seed, base + kk);
      assert mt[next] == Sequence(seed, base + kk + 1) by {
        if kk == N - 1 {
          assert mt[next] == Sequence(seed, base + N + 0);
        } else {
          assert mt[next] == Sequence(seed, base + (kk + 1));
        }
      }
      assert mt[other] == Sequence(seed, base + kk + M) by {
        if kk + M >= N {
          assert mt[other] == Sequence(seed, base + N + other);
        } else {
          assert mt[other] == Sequence(seed, base + other);
        }
      }
      mt[kk] := Xor(mt[other], Twist(mt[kk], mt[next]));
    }

    /** The block of lines 90-110. */
    method Regenerate()
      requires mt.Length == N && Holds(0, N, base)
      modifies this`base, mt
      ensures base == old(base) + N && Holds(0, N, base)
    {
      hide Sequence;
      ghost var was := base;
      var kk := 0;
      while kk < N - M
        invariant 0 <= kk <= N - M && base == was && Holds(0, kk, base + N) && Holds(kk, N, base)
      {
        Renew(kk, kk + 1, kk + M);
        kk := kk + 1;
      }
      while kk < N - 1
        invariant N - M <= kk <= N - 1 && base == was && Holds(0, kk, base + N) && Holds(kk, N, base)
      {
        Renew(kk, kk + 1, kk + M - N);
        kk := kk + 1;
      }
      Renew(N - 1, 0, M - 1);
      base := base + N;
    }

    /** genrand: the i-th number drawn is the tempered element 624 + i of the recurrence. */
    method Draw() returns (y: Word)
      requires Valid()
      modifies this, mt
      ensures Valid() && seed == old(seed) && Drawn() == old(Drawn()) + 1 && old(Drawn()) >= 0
      ensures y == Temper(Sequence(seed, N + old(Drawn())))
      ensures y < 0x1_0000_0000
    {
      hide Sequence, Temper, Narrow;
      if mti >= N {
        if mti == N + 1 {
          Seed(DEFAULT_SEED);
        }
        Regenerate();
        mti := 0;
      }
      y := mt[mti];
      SequenceNarrow(seed, base + mti);
      TemperNarrow(y);
      mti := mti + 1;
      y := Temper(y);
    }
  }

  lemma SequenceStart(seed: Word)
    ensures Sequence(seed, 0) == seed & MASK32
  {
  }

  lemma SequenceSeeded(seed: Word, k: nat)
    requires 0 < k < N
    ensures Sequence(seed, k) == NextSeed(Sequence(seed, k - 1))
  {
  }

  lemma SequenceNext(seed: Word, k: nat)
    ensures Sequence(seed, k + N) == Xor(Sequence(seed, k + M), Twist(Sequence(seed, k), Sequence(seed, k + 1)))
  {
  }

  // ----- what the numbers are, bit by bit and for one seed

  predicate BitAt(x: Word, i: bv6)
  {
    (x >> i) & 1 == 1
  }

  /** The top bit of one word and the lower bits of the next move down by one; if the last one is set, these bits flip. */
  lemma TwistBits(upper: Word, lower: Word, i: bv6)
    requires i < 32
    ensures BitAt(Twist(upper, lower), i) <==>
      ((if i < 30 then BitAt(lower, i + 1) else i == 30 && BitAt(upper, 31)) !=
       (BitAt(lower, 0) && i in {0, 1, 2, 3, 4, 6, 7, 12, 13, 15, 19, 24, 27, 28, 31}))
  {
  }

  /** What each of the four stages of tempering adds to bit `i`. */
  lemma ShiftUBits(y: Word, i: bv6)
    requires i < 32 && Narrow(y)
    ensures BitAt(ShiftU(y), i) <==> i < 21 && BitAt(y, i + 11)
  {
  }

  lemma ShiftSBits(y: Word, i: bv6)
    requires i < 32
    ensures BitAt(ShiftS(y), i) <==> i in {7, 9, 10, 12, 14, 18, 19, 21, 24, 26, 27, 28, 31} && BitAt(y, i - 7)
  {
  }

  lemma ShiftTBits(y: Word, i: bv6)
    requires i < 32
    ensures BitAt(ShiftT(y), i) <==> i in {17, 18, 22, 23, 24, 25, 26, 27, 29, 30, 31} && BitAt(y, i - 15)
  {
  }

  lemma ShiftLBits(y: Word, i: bv6)
    requires i < 32 && Narrow(y)
    ensures BitAt(ShiftL(y), i) <==> i < 14 && BitAt(y, i + 18)
  {
  }

  function Ten(x: Word): Word
  {
    var five := NextSeed(NextSeed(NextSeed(NextSeed(NextSeed(x)))));
    NextSeed(NextSeed(NextSeed(NextSeed(NextSeed(five)))))
  }

  function Forty(x: Word): Word
  {
    Ten(Ten(Ten(Ten(x))))
  }

  lemma TenSteps(seed: Word, k: nat)
    requires k + 10 < N
    ensures Sequence(seed, k + 10) == Ten(Sequence(seed, k))
  {
    hide NextSeed;
    assert Sequence(seed, k + 5) == NextSeed(NextSeed(NextSeed(NextSeed(NextSeed(Sequence(seed, k)))))) by {
      assert Sequence(seed, k + 2) == NextSeed(NextSeed(Sequence(seed, k)));
      assert Sequence(seed, k + 4) == NextSeed(NextSeed(Sequence(seed, k + 2)));
    }
    assert Sequence(seed, k + 7) == NextSeed(NextSeed(Sequence(seed, k + 5)));
    assert Sequence(seed, k + 9) == NextSeed(NextSeed(Sequence(seed, k + 7)));
  }

  lemma FortySteps(seed: Word, k: nat)
    requires k + 40 < N
    ensures Sequence(seed, k + 40) == Forty(Sequence(seed, k))
  {
    hide Ten, Sequence;
    TenSteps(seed, k);
    TenSteps(seed, k + 10);
    TenSteps(seed, k + 20);
    TenSteps(seed, k + 30);
  }

  lemma Known40()
    ensures Forty(4357) == 1563345445
  {
  }

  lemma Known80()
    ensures Forty(1563345445) == 2265507653
  {
  }

  lemma Known120()
    ensures Forty(2265507653) == 657391717
  {
  }

  lemma Known160()
    ensures Forty(657391717) == 1183944069
  {
  }

  lemma Known200()
    ensures Forty(1183944069) == 3211857573
  {
  }

  lemma Known240()
    ensures Forty(3211857573) == 4015915973
  {
  }

  lemma Known280()
    ensures Forty(4015915973) == 2839080165
  {
  }

  lemma Known320()
    ensures Forty(2839080165) == 1731348997
  {
  }

  lemma Known360()
    ensures Forty(1731348997) == 3167394597
  {
  }

  lemma Known397()
    ensures NextSeed(NextSeed(NextSeed(NextSeed(NextSeed(NextSeed(NextSeed(Ten(Ten(Ten(3167394597)))))))))) == 61989553
  {
  }

  /** Element 397 of the sequence for the default seed. */
  lemma KnownElement()
    ensures Sequence(DEFAULT_SEED, 397) == 61989553
  {
    hide Sequence, Ten, Forty, NextSeed;
    var s := DEFAULT_SEED;
    assert Sequence(s, 0) == 4357 by { SequenceStart(s); }
    FortySteps(s, 0);
    Known40();
    FortySteps(s, 40);
    Known80();
    FortySteps(s, 80);
    Known120();
    FortySteps(s, 120);
    Known160();
    FortySteps(s, 160);
    Known200();
    FortySteps(s, 200);
    Known240();
    FortySteps(s, 240);
    Known280();
    FortySteps(s, 280);
    Known320();
    FortySteps(s, 320);
    Known360();
    TenSteps(s, 360);
    TenSteps(s, 370);
    TenSteps(s, 380);
    SequenceSeeded(s, 391);
    SequenceSeeded(s, 392);
    SequenceSeeded(s, 393);
    SequenceSeeded(s, 394);
    SequenceSeeded(s, 395);
    SequenceSeeded(s, 396);
    SequenceSeeded(s, 397);
    Known397();
  }

  /** The first number drawn with the default seed. */
  lemma FirstNumber()
    ensures Temper(Sequence(DEFAULT_SEED, N)) == 3510405877
  {
    hide Sequence;
    KnownElement();
    SequenceStart(DEFAULT_SEED);
    SequenceSeeded(DEFAULT_SEED, 1);
    SequenceNext(DEFAULT_SEED, 0);
  }
}
