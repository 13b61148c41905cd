/**
 How one value change of a bit vector becomes a change code, and how a reader
 turns the code back (server/lxt2_write.c:31-55 and 1773-1975; the numbering is
 server/lxt2_write.h:86-112). `Apply` is the decoder that the theorems are stated
 against; the left-fill rule for dictionary entries is server/lxt2_write.h:301.
 */
module ChangeCodec {
  import opened Bits

  const ENC_0 := 0
  const ENC_1 := 1
  const ENC_INV := 2
  const ENC_LSH0 := 3
  const ENC_RSH0 := 5
  const ENC_ADD1 := 7
  const ENC_SUB1 := 11
  const ENC_X := 15
  const ENC_Z := 16
  const DICT_START := 18

  // ----- values

  predicate Binary(v: string)
  {
    forall i :: 0 <= i < |v| ==> v[i] == '0' || v[i] == '1'
  }

  function Fill(c: char, n: nat): (s: string)
    ensures |s| == n && forall i :: 0 <= i < n ==> s[i] == c
  {
    seq(n, _ => c)
  }

  /** The character that the VCD rule puts to the left of a short value. */
  function FillChar(c: char): char
  {
    if c == '1' then '0' else c
  }

  function LeftFill(v: string, n: nat): (s: string)
    requires 0 < |v| <= n
    ensures |s| == n
  {
    Fill(FillChar(v[0]), n - |v|) + v
  }

  function Lower(c: char): char
  {
    if 'A' <= c <= 'Z' then ((c as int) + 32) as char else c
  }

  /** The caller's string brought to the symbol's length and to lower case (lines 1799-1829). */
  function Normalise(raw: string, len: nat): (v: string)
    requires raw != "" && len > 0
    ensures |v| == len
  {
    var fixed := if |raw| <= len then LeftFill(raw, len) else raw[..len];
    seq(len, i requires 0 <= i < len => Lower(fixed[i]))
  }

  /** `r` is `c` in lower case: letters change, all else stays. */
  predicate LowerCased(c: char, r: char)
  {
    if 'A' <= c <= 'Z' then 'a' <= r <= 'z' && r as int - 'a' as int == c as int - 'A' as int else r == c
  }

  /**
   `v` is what becomes of the caller's string: its first `len` characters if it has so many,
   otherwise all of it at the right-hand end, behind zeros if it starts with 1 and behind
   copies of its first character if not; in lower case.
   */
  ghost predicate FixedUp(raw: string, len: nat, v: string)
    requires raw != ""
  {
    var fixedUp :=
      |v| == len &&
      if |raw| >= len then forall i :: 0 <= i < len ==> LowerCased(raw[i], v[i])
      else
        && (forall i :: 0 <= i < |raw| ==> LowerCased(raw[i], v[len - |raw| + i]))
        && (forall i :: 0 <= i < len - |raw| ==> LowerCased(if raw[0] == '1' then '0' else raw[0], v[i]));
    fixedUp
  }

  lemma NormaliseMeans(raw: string, len: nat)
    requires raw != "" && len > 0
    ensures FixedUp(raw, len, Normalise(raw, len))
  {
    forall c: char ensures LowerCased(c, Lower(c)) {
    }
  }

  /** No other string will do. */
  lemma FixedUpUnique(raw: string, len: nat, v: string, w: string)
    requires raw != "" && FixedUp(raw, len, v) && FixedUp(raw, len, w)
    ensures v == w
  {
    forall i | 0 <= i < len ensures v[i] == w[i] {
      if |raw| < len && i >= len - |raw| {
        var k := i - (len - |raw|);
        assert i == len - |raw| + k;
        assert LowerCased(raw[k], v[len - |raw| + k]) && LowerCased(raw[k], w[len - |raw| + k]);
      }
    }
  }

  /** Bringing a binary number to a length that holds it does not change it. */
  lemma NormaliseKeepsNumber(raw: string, len: nat)
    requires raw != "" && Binary(raw) && |raw| <= len
    ensures Binary(Normalise(raw, len)) && Val(Normalise(raw, len)) == Val(raw)
  {
    hide Val, Binary;
    DigitAt(raw, 0);
    ZerosBinary(len - |raw|, raw);
    NormaliseDigits(raw, len);
    ValOfZeros(len - |raw|, raw);
  }

  lemma DigitAt(v: string, i: nat)
    requires Binary(v) && i < |v|
    ensures v[i] == '0' || v[i] == '1'
  {
  }

  lemma ZerosBinary(n: nat, v: string)
    requires Binary(v)
    ensures Binary(Fill('0', n) + v)
  {
  }

  lemma NormaliseDigits(raw: string, len: nat)
    requires 0 < |raw| <= len && (raw[0] == '0' || raw[0] == '1') && Binary(Fill('0', len - |raw|) + raw)
    ensures Normalise(raw, len) == Fill('0', len - |raw|) + raw
  {
    var fixed := Fill('0', len - |raw|) + raw;
    hide Binary;
    assert LeftFill(raw, len) == fixed;
    forall i | 0 <= i < len ensures Normalise(raw, len)[i] == fixed[i] {
      DigitAt(fixed, i);
      assert Lower(fixed[i]) == fixed[i];
    }
  }

  lemma {:induction false} ValOfZeros(n: nat, v: string)
    ensures Val(Fill('0', n) + v) == Val(v)
  {
    var s := Fill('0', n) + v;
    if v != "" {
      assert s[..|s| - 1] == Fill('0', n) + v[..|v| - 1];
      ValOfZeros(n, v[..|v| - 1]);
    } else if n > 0 {
      assert s[..|s| - 1] == Fill('0', n - 1) + v;
      ValOfZeros(n - 1, v);
    }
  }

  function DigitValue(c: char): nat
  {
    if c == '1' then 1 else 0
  }

  function Val(v: string): nat
  {
    if v == "" then 0 else 2 * Val(v[..|v| - 1]) + DigitValue(v[|v| - 1])
  }

  function Digits(x: nat, n: nat): (v: string)
    ensures |v| == n
  {
    if n == 0 then "" else Digits(x / 2, n - 1) + [if x % 2 == 1 then '1' else '0']
  }

  lemma {:induction false} ValBound(v: string)
    ensures Val(v) < Pow2(|v|)
  {
    if v != "" {
      ValBound(v[..|v| - 1]);
    }
  }

  lemma {:induction false} DigitsOfVal(v: string)
    requires Binary(v)
    ensures Digits(Val(v), |v|) == v
  {
    if v != "" {
      DigitsOfVal(v[..|v| - 1]);
      assert v == v[..|v| - 1] + [v[|v| - 1]];
    }
  }

  lemma {:induction false} ValOfDigits(x: nat, n: nat)
    requires x < Pow2(n)
    ensures Val(Digits(x, n)) == x
  {
    if n > 0 {
      ValOfDigits(x / 2, n - 1);
      assert Digits(x, n)[..n - 1] == Digits(x / 2, n - 1);
    }
  }

  function Flip(c: char): char
  {
    if c == '0' then '1' else if c == '1' then '0' else c
  }

  function Inverted(v: string): (s: string)
    ensures |s| == |v|
  {
    seq(|v|, i requires 0 <= i < |v| => Flip(v[i]))
  }

  // ----- the decoder

  /** The value that change code `code` stands for when the value before it was `was`. */
  function Apply(code: nat, was: string, dict: seq<string>): (v: string)
    requires was != ""
    ensures |v| == |was|
  {
    var n := |was|;
    if code == ENC_0 then Fill('0', n)
    else if code == ENC_1 then Fill('1', n)
    else if code == ENC_INV then Inverted(was)
    else if code == ENC_LSH0 then was[1..] + "0"
    else if code == ENC_LSH0 + 1 then was[1..] + "1"
    else if code == ENC_RSH0 then "0" + was[..n - 1]
    else if code == ENC_RSH0 + 1 then "1" + was[..n - 1]
    else if ENC_ADD1 <= code < ENC_ADD1 + 4 then Digits((Val(was) + (code - ENC_ADD1 + 1)) % Pow2(n), n)
    else if ENC_SUB1 <= code < ENC_SUB1 + 4 then Digits((Val(was) - (code - ENC_SUB1 + 1)) % Pow2(n), n)
    else if code == ENC_X then Fill('x', n)
    else if code == ENC_Z then Fill('z', n)
    else if DICT_START <= code < DICT_START + |dict| && 0 < |dict[code - DICT_START]| <= n
    then LeftFill(dict[code - DICT_START], n)
    else was
  }

  /** Codes whose meaning does not depend on the value before. */
  predicate Absolute(code: nat)
  {
    code == ENC_0 || code == ENC_1 || code == ENC_X || code == ENC_Z || code >= DICT_START
  }

  lemma ApplyMoreDict(code: nat, was: string, dict: seq<string>, more: seq<string>)
    requires was != "" && code < DICT_START + |dict|
    ensures Apply(code, was, dict + more) == Apply(code, was, dict)
  {
  }

  /** The table of change codes, by number: the codes that fill or shift. */
  lemma CodeTable(was: string, dict: seq<string>)
    requires was != ""
    ensures forall i :: 0 <= i < |was| ==>
      && Apply(0, was, dict)[i] == '0' && Apply(1, was, dict)[i] == '1'
      && Apply(2, was, dict)[i] == (if was[i] == '0' then '1' else if was[i] == '1' then '0' else was[i])
      && Apply(15, was, dict)[i] == 'x' && Apply(16, was, dict)[i] == 'z'
    ensures Apply(3, was, dict) == was[1..] + "0" && Apply(4, was, dict) == was[1..] + "1"
    ensures Apply(5, was, dict) == "0" + was[..|was| - 1] && Apply(6, was, dict) == "1" + was[..|was| - 1]
  {
  }

  /** Codes 7 to 10 add 1 to 4, codes 11 to 14 take them away, modulo two to the width. */
  lemma CodeTableSums(was: string, dict: seq<string>, d: nat)
    requires was != "" && 1 <= d <= 4
    ensures Binary(Apply(6 + d, was, dict)) && Val(Apply(6 + d, was, dict)) == (Val(was) + d) % Pow2(|was|)
    ensures Binary(Apply(10 + d, was, dict)) && Val(Apply(10 + d, was, dict)) == (Val(was) - d) % Pow2(|was|)
  {
    hide Pow2, Val, Digits;
    var p := Pow2(|was|);
    SumCode(was, dict, 6 + d, (Val(was) + d) % p);
    SumCode(was, dict, 10 + d, (Val(was) - d) % p);
  }

  lemma SumCode(was: string, dict: seq<string>, code: nat, x: nat)
    requires was != "" && Apply(code, was, dict) == Digits(x, |was|) && x < Pow2(|was|)
    ensures Binary(Apply(code, was, dict)) && Val(Apply(code, was, dict)) == x
  {
    hide Apply;
    ValOfDigits(x, |was|);
    DigitsBinary(x, |was|);
  }

  /** Code 18 and those above are entries of the dictionary, filled on the left. */
  lemma CodeTableEntries(was: string, dict: seq<string>, k: nat)
    requires was != "" && k < |dict| && 0 < |dict[k]| <= |was|
    ensures var n, v := |was| - |dict[k]|, Apply(18 + k, was, dict);
      v[n..] == dict[k] && forall i :: 0 <= i < n ==> v[i] == if dict[k][0] == '1' then '0' else dict[k][0]
  {
  }

  lemma {:induction false} DigitsBinary(x: nat, n: nat)
    ensures Binary(Digits(x, n))
  {
    if n > 0 {
      DigitsBinary(x / 2, n - 1);
    }
  }

  /** Values are read with the most significant digit first. */
  lemma {:induction false} ValAt(v: string)
    requires v != ""
    ensures Val(v) == DigitValue(v[0]) * Pow2(|v| - 1) + Val(v[1..])
  {
    if |v| == 1 {
      assert v[..0] == "" && v[1..] == "";
    } else {
      ValAt(v[..|v| - 1]);
      assert v[..|v| - 1][1..] == v[1..][..|v| - 2];
      assert 2 * (DigitValue(v[0]) * Pow2(|v| - 2)) == DigitValue(v[0]) * Pow2(|v| - 1);
    }
  }

  // ----- the encoder's choice

  /** The code of a value that repeats one of 0, 1, x, z; -1 for any other value (lines 1844-1868). */
  function Constant(v: string): int
    requires v != ""
  {
    if forall i :: 0 <= i < |v| ==> v[i] == v[0] then
      match v[0]
      case '0' => ENC_0
      case '1' => ENC_1
      case 'x' => ENC_X
      case 'z' => ENC_Z
      case _ => -1
    else -1
  }

  predicate Inverse(was: string, v: string)
    requires |was| == |v|
  {
    forall i :: 0 <= i < |v| ==> (v[i] == '0' && was[i] == '1') || (v[i] == '1' && was[i] == '0')
  }

  /**
   The modulus of the additions at lines 1924-1938. `(~0)>>(32-len)` shifts a negative
   int: read as an arithmetic shift the mask keeps all 32 bits, read as a logical one it
   keeps `len` bits. The results below hold for both readings.
   */
  function Modulus(len: nat, logical: bool): (m: nat)
    ensures m > 0
  {
    if logical then Pow2(len) else Pow2(32)
  }

  function Arithmetic(was: string, v: string, logical: bool): int
    requires |was| == |v| > 0
  {
    var a, b, m := Val(was), Val(v), Modulus(|v|, logical);
    if !(|v| <= 32 && Binary(v) && Binary(was)) then Constant(v)
    else if (a + 1) % m == b then ENC_ADD1
    else if (a - 1) % m == b then ENC_SUB1
    else if (a + 2) % m == b then ENC_ADD1 + 1
    else if (a - 2) % m == b then ENC_SUB1 + 1
    else if (a + 3) % m == b then ENC_ADD1 + 2
    else if (a - 3) % m == b then ENC_SUB1 + 2
    else if |v| > 2 && (a + 4) % m == b then ENC_ADD1 + 3
    else if |v| > 2 && (a - 4) % m == b then ENC_SUB1 + 3
    else Constant(v)
  }

  /** The code chosen for the change from `was` to `v`; -1 stands for a dictionary entry. */
  function Choice(was: string, v: string, sectionStart: bool, logical: bool): int
    requires |was| == |v| > 0
  {
    var n := |v|;
    if sectionStart then Constant(v)
    else if Inverse(was, v) then ENC_INV
    else if n == 1 then Constant(v)
    else if was[1..] == v[..n - 1] then
      if Binary(v[n - 1..]) then ENC_LSH0 + DigitValue(v[n - 1]) else Arithmetic(was, v, logical)
    else if was[..n - 1] == v[1..] then
      if Binary(v[..1]) then ENC_RSH0 + DigitValue(v[0]) else Arithmetic(was, v, logical)
    else Arithmetic(was, v, logical)
  }

  /** The order of preference: at the start of a section constants or the dictionary, elsewhere inversion first, */
  lemma ChoiceFirst(was: string, v: string, logical: bool)
    requires |was| == |v| > 0
    ensures Inverse(was, v) ==> Choice(was, v, false, logical) == 2
    ensures (forall i :: 0 <= i < |v| ==> v[i] == '0') ==> Choice(was, v, true, logical) == 0
    ensures (forall i :: 0 <= i < |v| ==> v[i] == '1') ==> Choice(was, v, true, logical) == 1
    ensures (exists i, j :: 0 <= i < j < |v| && v[i] != v[j]) ==> Choice(was, v, true, logical) == -1
  {
    hide Val, Pow2;
  }

  /** then shifts to the left and to the right, */
  lemma ChoiceShifts(was: string, v: string, logical: bool, c: char)
    requires |was| == |v| > 1 && !Inverse(was, v) && (c == '0' || c == '1')
    ensures v == was[1..] + [c] ==> Choice(was, v, false, logical) == if c == '0' then 3 else 4
    ensures v == [c] + was[..|v| - 1] && was[1..] != v[..|v| - 1] ==> Choice(was, v, false, logical) == if c == '0' then 5 else 6
  {
    hide Val, Pow2, Inverse;
    if v == was[1..] + [c] {
      assert v[|v| - 1..] == [c] && v[..|v| - 1] == was[1..];
    }
    if v == [c] + was[..|v| - 1] {
      assert v[..1] == [c] && v[1..] == was[..|v| - 1];
    }
  }

  /** then sums, */
  lemma ChoiceSums(was: string, v: string)
    requires |was| == |v| == 4 && Binary(was) && Binary(v) && !Inverse(was, v)
    requires was[1..] != v[..3] && was[..3] != v[1..]
    ensures var a, b, c := Val(was), Val(v), Choice(was, v, false, true);
      && (b == a + 1 ==> c == 7) && (b == a - 1 ==> c == 11) && (b == a + 2 ==> c == 8) && (b == a - 2 ==> c == 12)
      && (b == a + 3 ==> c == 9) && (b == a - 3 ==> c == 13) && (b == a + 4 ==> c == 10) && (b == a - 4 ==> c == 14)
  {
    hide Val, Inverse, Constant;
    ValBound(was);
    ValBound(v);
    var four := 4;
    assert Pow2(four) == 16;
  }

  /** and constants and the dictionary last. */
  lemma ChoiceLast(was: string, v: string, logical: bool)
    requires |was| == |v| > 1 && !Inverse(was, v) && !Binary(v)
    requires was[1..] == v[..|v| - 1] ==> !Binary(v[|v| - 1..])
    requires was[1..] != v[..|v| - 1] && was[..|v| - 1] == v[1..] ==> !Binary(v[..1])
    ensures var c := Choice(was, v, false, logical);
      if forall i :: 0 <= i < |v| ==> v[i] == 'x' then c == 15
      else if forall i :: 0 <= i < |v| ==> v[i] == 'z' then c == 16
      else c == -1
  {
    assert (forall i :: 0 <= i < |v| ==> v[i] == 'x') <==> (forall i :: 0 <= i < |v| ==> v[i] == v[0]) && v[0] == 'x';
    assert (forall i :: 0 <= i < |v| ==> v[i] == 'z') <==> (forall i :: 0 <= i < |v| ==> v[i] == v[0]) && v[0] == 'z';
  }

  // ----- soundness of one change

  /** `code` is what the encoder writes for the change: its choice, or the index of a left-filled entry. */
  ghost predicate Encodes(code: nat, was: string, v: string, sectionStart: bool, logical: bool, dict: seq<string>)
    requires |was| == |v| > 0
  {
    var c := Choice(was, v, sectionStart, logical);
    if c >= 0 then code == c
    else DICT_START <= code < DICT_START + |dict|
         && 0 < |dict[code - DICT_START]| <= |v| && LeftFill(dict[code - DICT_START], |v|) == v
  }

  lemma ConstantDecodes(base: string, v: string, dict: seq<string>)
    requires |base| == |v| > 0 && Constant(v) >= 0
    ensures Absolute(Constant(v)) && Apply(Constant(v), base, dict) == v
  {
    assert v == Fill(v[0], |v|);
  }

  lemma ModulusDivides(len: nat, logical: bool) returns (k: nat)
    requires len <= 32
    ensures Modulus(len, logical) == k * Pow2(len)
  {
    k := 1;
    if !logical {
      Pow2Add(32 - len, len);
      k := Pow2(32 - len);
    }
  }

  lemma ModOfMod(x: int, b: nat, k: nat, p: nat)
    requires p > 0 && k * p > 0 && x % (k * p) == b < p
    ensures x % p == b
  {
    var q := x / (k * p);
    assert x == (q * k) * p + b by {
      assert q * (k * p) == (q * k) * p;
    }
    QuotientUnique(x, p, q * k, b);
  }

  /** The sum written as ADD or SUB decodes modulo 2^len, with either modulus in the encoder. */
  lemma SumDecodes(a: nat, d: int, v: string, logical: bool)
    requires 0 < |v| <= 32 && Binary(v) && (a + d) % Modulus(|v|, logical) == Val(v)
    ensures Digits((a + d) % Pow2(|v|), |v|) == v
  {
    var k := ModulusDivides(|v|, logical);
    ValBound(v);
    ModOfMod(a + d, Val(v), k, Pow2(|v|));
    DigitsOfVal(v);
  }

  /** Whether applying a delta code to `base` gives what it gives on `prior`. */
  ghost predicate SameUnder(code: nat, base: string, prior: string)
    requires |base| == |prior| > 0
  {
    if code == ENC_INV then base == prior
    else if code == ENC_LSH0 || code == ENC_LSH0 + 1 then base[1..] == prior[1..]
    else if code == ENC_RSH0 || code == ENC_RSH0 + 1 then base[..|base| - 1] == prior[..|base| - 1]
    else if ENC_ADD1 <= code < ENC_X then Val(base) == Val(prior)
    else true
  }

  /**
   The code chosen for `prior -> v` still decodes to `v` when it is applied to `base`:
   the guard a caller can check before changing a symbol twice in one time step.
   */
  ghost predicate Overwrites(base: string, prior: string, v: string, sectionStart: bool, logical: bool)
    requires |base| == |prior| == |v| > 0
  {
    var c := Choice(prior, v, sectionStart, logical);
    c >= 0 ==> SameUnder(c, base, prior)
  }

  lemma ArithmeticRange(was: string, v: string, logical: bool)
    requires |was| == |v| > 0
    ensures var c := Arithmetic(was, v, logical);
      c == Constant(v) ||
      (ENC_ADD1 <= c < ENC_ADD1 + 4 && |v| <= 32 && Binary(v)
       && (Val(was) + (c - ENC_ADD1 + 1)) % Modulus(|v|, logical) == Val(v)) ||
      (ENC_SUB1 <= c < ENC_SUB1 + 4 && |v| <= 32 && Binary(v)
       && (Val(was) - (c - ENC_SUB1 + 1)) % Modulus(|v|, logical) == Val(v))
  {
    hide Val, Modulus, Constant, Binary;
  }

  lemma ArithmeticDecodes(prior: string, v: string, logical: bool, dict: seq<string>)
    requires |prior| == |v| > 0 && Arithmetic(prior, v, logical) >= 0
    ensures Apply(Arithmetic(prior, v, logical), prior, dict) == v
  {
    var c := Arithmetic(prior, v, logical);
    ArithmeticRange(prior, v, logical);
    if c == Constant(v) {
      ConstantDecodes(prior, v, dict);
    } else if c < ENC_SUB1 {
      SumDecodes(Val(prior), c - ENC_ADD1 + 1, v, logical);
    } else {
      SumDecodes(Val(prior), -(c - ENC_SUB1 + 1), v, logical);
    }
  }

  /** Every chosen code decodes against the old value to the new value. */
  lemma ChoiceDecodes(prior: string, v: string, sectionStart: bool, logical: bool, dict: seq<string>)
    requires |prior| == |v| > 0 && Choice(prior, v, sectionStart, logical) >= 0
    ensures Apply(Choice(prior, v, sectionStart, logical), prior, dict) == v
  {
    var n, c := |v|, Choice(prior, v, sectionStart, logical);
    if c == Constant(v) {
      ConstantDecodes(prior, v, dict);
    } else if Inverse(prior, v) {
      assert Inverted(prior) == v;
    } else if prior[1..] == v[..n - 1] && Binary(v[n - 1..]) {
      assert v == v[..n - 1] + [v[n - 1]];
      assert v[n - 1..][0] == v[n - 1];
    } else if prior[1..] != v[..n - 1] && prior[..n - 1] == v[1..] && Binary(v[..1]) {
      assert v == [v[0]] + v[1..];
      assert v[..1][0] == v[0];
    } else {
      ArithmeticDecodes(prior, v, logical, dict);
    }
  }

  lemma ModCancel(a: nat, b: nat, d: int, p: nat)
    requires p > 0 && a < p && b < p && (a + d) % p == (b + d) % p
    ensures a == b
  {
    var qa, qb, r := (a + d) / p, (b + d) / p, (a + d) % p;
    assert a + d == qa * p + r && b + d == qb * p + r;
    assert a - b == (qa - qb) * p by {
      assert (qa - qb) * p == qa * p - qb * p;
    }
    MultipleBound(qa - qb, p);
  }

  lemma SumInjective(base: string, prior: string, d: int)
    requires |base| == |prior| > 0
    requires Digits((Val(base) + d) % Pow2(|base|), |base|) == Digits((Val(prior) + d) % Pow2(|base|), |base|)
    ensures Val(base) == Val(prior)
  {
    var p := Pow2(|base|);
    ValBound(base);
    ValBound(prior);
    ValOfDigits((Val(base) + d) % p, |base|);
    ValOfDigits((Val(prior) + d) % p, |base|);
    ModCancel(Val(base), Val(prior), d, p);
  }

  lemma InversionInjective(base: string, prior: string)
    requires |base| == |prior| && Inverted(base) == Inverted(prior)
    ensures base == prior
  {
    forall i | 0 <= i < |base| ensures base[i] == prior[i] {
      assert Flip(base[i]) == Inverted(base)[i] == Inverted(prior)[i] == Flip(prior[i]);
    }
  }

  /** A code gives the same value on two bases exactly when the part it looks at agrees. */
  lemma SameUnderIff(code: nat, base: string, prior: string, dict: seq<string>)
    requires |base| == |prior| > 0 && code < ENC_X
    ensures Apply(code, base, dict) == Apply(code, prior, dict) <==> SameUnder(code, base, prior)
  {
    var n := |base|;
    if Apply(code, base, dict) == Apply(code, prior, dict) {
      if code == ENC_INV {
        InversionInjective(base, prior);
      } else if code == ENC_LSH0 || code == ENC_LSH0 + 1 {
        assert base[1..] == Apply(code, base, dict)[..n - 1];
        assert prior[1..] == Apply(code, prior, dict)[..n - 1];
      } else if code == ENC_RSH0 || code == ENC_RSH0 + 1 {
        assert base[..n - 1] == Apply(code, base, dict)[1..];
        assert prior[..n - 1] == Apply(code, prior, dict)[1..];
      } else if ENC_ADD1 <= code < ENC_SUB1 {
        SumInjective(base, prior, code - ENC_ADD1 + 1);
      } else if ENC_SUB1 <= code < ENC_X {
        SumInjective(base, prior, -(code - ENC_SUB1 + 1));
      }
    }
  }

  /**
   The code for the change `prior -> v` gives `v` when applied to `base` if and only if
   Overwrites says so. With `base == prior` this is the soundness of a single change.
   */
  lemma ChangeDecodesIff(code: nat, base: string, prior: string, v: string,
                         sectionStart: bool, logical: bool, dict: seq<string>)
    requires |base| == |prior| == |v| > 0 && Encodes(code, prior, v, sectionStart, logical, dict)
    ensures Apply(code, base, dict) == v <==> Overwrites(base, prior, v, sectionStart, logical)
  {
    var c := Choice(prior, v, sectionStart, logical);
    if c >= 0 {
      ChoiceDecodes(prior, v, sectionStart, logical, dict);
      if c < ENC_X {
        SameUnderIff(c, base, prior, dict);
      }
    }
  }

  lemma ChangeDecodes(code: nat, prior: string, v: string, sectionStart: bool, logical: bool, dict: seq<string>)
    requires |prior| == |v| > 0 && Encodes(code, prior, v, sectionStart, logical, dict)
    ensures Apply(code, prior, dict) == v
  {
    ChangeDecodesIff(code, prior, prior, v, sectionStart, logical, dict);
  }

  /** At the first position of a section every code is absolute: it decodes from any base. */
  lemma SectionStartDecodes(code: nat, base: string, prior: string, v: string, logical: bool, dict: seq<string>)
    requires |base| == |prior| == |v| > 0 && Encodes(code, prior, v, true, logical, dict)
    ensures Absolute(code) && Apply(code, base, dict) == v
  {
    if Constant(v) >= 0 {
      ConstantDecodes(base, v, dict);
    }
  }
}
