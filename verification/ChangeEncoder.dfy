/**
 The loops of the encoder: truncation of a bit vector and the choice of a code
 (server/lxt2_write.c:31-55 and 1845-1942), proved against ChangeCodec.
 */
module ChangeEncoder {
  import opened ChangeCodec

  /**
   The shortest suffix of `v` that the VCD left-fill rule expands back to `v`
   (lxt2_wr_vcd_truncate_bitvec). The result is where that suffix starts.
   */
  method TruncateBitvec(v: string) returns (start: nat)
    requires v != ""
    ensures start < |v| && LeftFill(v[start..], |v|) == v
    ensures forall k :: start < k < |v| ==> LeftFill(v[k..], |v|) != v
  {
    var r := v[0];
    if r == '1' {
      forall k | 0 < k < |v| ensures LeftFill(v[k..], |v|) != v {
        FilledAt(v, k, 0);
      }
      return 0;
    }
    var s := 1;
    while true
      invariant 1 <= s <= |v| && r == v[s - 1] == v[0] != '1'
      invariant forall i :: 0 <= i < s ==> v[i] == v[0]
      decreases |v| - s
    {
      var l := r;
      if s == |v| {
        return s - 1;
      }
      r := v[s];
      if l != r {
        start := if l == '0' && r == '1' then s else s - 1;
        forall k | start < k < |v| ensures LeftFill(v[k..], |v|) != v {
          FilledAt(v, k, s - 1);
          if k > s {
            FilledAt(v, k, s);
          }
        }
        return;
      }
      s := s + 1;
    }
  }

  lemma FilledAt(v: string, k: nat, i: nat)
    requires i < k < |v|
    ensures LeftFill(v[k..], |v|)[i] == FillChar(v[k])
  {
  }

  method ConstantCode(v: string) returns (idx: int)
    requires v != ""
    ensures idx == Constant(v)
  {
    var i := 0;
    while i < |v|
      invariant 0 <= i <= |v| && forall k :: 0 <= k < i ==> v[k] == v[0]
    {
      if v[i] != v[0] {
        return -1;
      }
      i := i + 1;
    }
    return match v[0]
      case '0' => ENC_0
      case '1' => ENC_1
      case 'x' => ENC_X
      case 'z' => ENC_Z
      case _ => -1;
  }

  method IsInverse(was: string, v: string) returns (inverse: bool)
    requires |was| == |v|
    ensures inverse == Inverse(was, v)
  {
    for i := 0 to |v|
      invariant forall k :: 0 <= k < i ==> (v[k] == '0' && was[k] == '1') || (v[k] == '1' && was[k] == '0')
    {
      if !((v[i] == '0' && was[i] == '1') || (v[i] == '1' && was[i] == '0')) {
        return false;
      }
    }
    return true;
  }

  /** Both values as integers, or not ok at the first character that is neither 0 nor 1 (lines 1908-1922). */
  method ToIntegers(was: string, v: string) returns (ok: bool, a: nat, b: nat)
    requires |was| == |v|
    ensures ok == (Binary(v) && Binary(was))
    ensures ok ==> a == Val(was) && b == Val(v)
  {
    a, b := 0, 0;
    for i := 0 to |v|
      invariant Binary(v[..i]) && Binary(was[..i])
      invariant a == Val(was[..i]) && b == Val(v[..i])
    {
      assert v[..i + 1][..i] == v[..i] && was[..i + 1][..i] == was[..i];
      if v[i] != '0' && v[i] != '1' {
        return false, a, b;
      }
      b := 2 * b + DigitValue(v[i]);
      if was[i] != '0' && was[i] != '1' {
        return false, a, b;
      }
      a := 2 * a + DigitValue(was[i]);
    }
    assert v[..|v|] == v && was[..|v|] == was;
    return true, a, b;
  }

  method ArithmeticCode(was: string, v: string, fallback: int, logical: bool) returns (idx: int)
    requires |was| == |v| > 0 && fallback == Constant(v)
    ensures idx == Arithmetic(was, v, logical)
  {
    if |v| > 32 {
      return fallback;
    }
    var ok, x, y := ToIntegers(was, v);
    if !ok {
      return fallback;
    }
    var a: int, b: int, m: int := x, y, Modulus(|v|, logical);
    if (a + 1) % m == b { return ENC_ADD1; }
    if (a - 1) % m == b { return ENC_SUB1; }
    if (a + 2) % m == b { return ENC_ADD1 + 1; }
    if (a - 2) % m == b { return ENC_SUB1 + 1; }
    if (a + 3) % m == b { return ENC_ADD1 + 2; }
    if (a - 3) % m == b { return ENC_SUB1 + 2; }
    if |v| > 2 {
      if (a + 4) % m == b { return ENC_ADD1 + 3; }
      if (a - 4) % m == b { return ENC_SUB1 + 3; }
    }
    return fallback;
  }

  /** The code for the change from `was` to `v`, or -1 for a dictionary entry (lines 1844-1942). */
  method ChooseCode(was: string, v: string, sectionStart: bool, logical: bool) returns (idx: int)
    requires |was| == |v| > 0
    ensures idx == Choice(was, v, sectionStart, logical)
  {
    var n := |v|;
    idx := ConstantCode(v);
    if sectionStart {
      return;
    }
    var inverse := IsInverse(was, v);
    if inverse {
      return ENC_INV;
    }
    if n == 1 {
      return;
    }
    if was[1..] == v[..n - 1] {
      if v[n - 1] == '0' || v[n - 1] == '1' {
        return ENC_LSH0 + DigitValue(v[n - 1]);
      }
      assert v[n - 1..][0] == v[n - 1];
    } else if was[..n - 1] == v[1..] {
      if v[0] == '0' || v[0] == '1' {
        return ENC_RSH0 + DigitValue(v[0]);
      }
      assert v[..1][0] == v[0];
    }
    idx := ArithmeticCode(was, v, idx, logical);
  }
}
