/** The order of C strings, as strcmp decides it. */
module CStrings {
  import opened SplayTree

  predicate StrLess(a: string, b: string)
  {
    if b == "" then false
    else if a == "" then true
    else a[0] < b[0] || (a[0] == b[0] && StrLess(a[1..], b[1..]))
  }

  /** The strings agree up to place `k`, where `a` has the smaller character. */
  ghost predicate SmallerAt(a: string, b: string, k: nat)
  {
    k < |a| && k < |b| && a[..k] == b[..k] && a[k] < b[k]
  }

  /** The first place where two strings differ decides, by the smaller character; a string comes before its extensions. */
  lemma {:induction false} StrLessMeans(a: string, b: string)
    ensures StrLess(a, b) <==> (a < b || exists k: nat :: SmallerAt(a, b, k))
    decreases |a|
  {
    if a != "" && b != "" {
      if a[0] == b[0] {
        var ta, tb := a[1..], b[1..];
        StrLessMeans(ta, tb);
        PrefixTail(a, b);
        hide SmallerAt;
        if k: nat :| SmallerAt(ta, tb, k) {
          SmallerTail(a, b, k);
        }
        if k: nat :| SmallerAt(a, b, k) {
          SmallerUnequal(a, b, k);
          SmallerTail(a, b, k - 1);
        }
      } else if a[0] < b[0] {
        assert SmallerAt(a, b, 0);
      } else {
        forall k: nat ensures !SmallerAt(a, b, k) {
          if SmallerAt(a, b, k) {
            SmallerUnequal(a, b, k);
          }
        }
      }
    }
  }

  lemma PrefixTail(a: string, b: string)
    requires a != "" && b != "" && a[0] == b[0]
    ensures a < b <==> a[1..] < b[1..]
  {
    assert a == [a[0]] + a[1..] && b == [b[0]] + b[1..];
  }

  lemma SmallerUnequal(a: string, b: string, k: nat)
    requires SmallerAt(a, b, k)
    ensures k == 0 ==> a[0] < b[0]
    ensures k > 0 ==> a[0] == b[0]
  {
    if k > 0 {
      assert a[..k][0] == a[0] && b[..k][0] == b[0];
    }
  }

  lemma SmallerTail(a: string, b: string, k: nat)
    requires a != "" && b != "" && a[0] == b[0]
    ensures SmallerAt(a, b, k + 1) <==> SmallerAt(a[1..], b[1..], k)
  {
    if k < |a| - 1 && k < |b| - 1 {
      assert a[..k + 1] == [a[0]] + a[1..][..k] && b[..k + 1] == [b[0]] + b[1..][..k];
      assert a[1..][..k] == a[..k + 1][1..] && b[1..][..k] == b[..k + 1][1..];
    }
  }

  lemma {:induction false} StrLessTransitive(a: string, b: string, c: string)
    requires StrLess(a, b) && StrLess(b, c)
    ensures StrLess(a, c)
    decreases |a|
  {
    if a != "" && a[0] == b[0] == c[0] {
      StrLessTransitive(a[1..], b[1..], c[1..]);
    }
  }

  lemma {:induction false} StrLessIrreflexive(a: string)
    ensures !StrLess(a, a)
  {
    if a != "" {
      StrLessIrreflexive(a[1..]);
    }
  }

  lemma {:induction false} StrLessTotal(a: string, b: string)
    ensures a == b || StrLess(a, b) || StrLess(b, a)
  {
    if a != "" && b != "" && a[0] == b[0] {
      StrLessTotal(a[1..], b[1..]);
      assert a == [a[0]] + a[1..] && b == [b[0]] + b[1..];
    }
  }

  lemma StrLessStrict()
    ensures StrictOrder(StrLess)
  {
    forall a: string ensures !StrLess(a, a) { StrLessIrreflexive(a); }
    forall a: string, b: string, c: string | StrLess(a, b) && StrLess(b, c) ensures StrLess(a, c) {
      StrLessTransitive(a, b, c);
    }
    forall a: string, b: string ensures a == b || StrLess(a, b) || StrLess(b, a) { StrLessTotal(a, b); }
  }

  predicate NatLess(a: nat, b: nat)
  {
    a < b
  }

  lemma NatLessStrict()
    ensures StrictOrder(NatLess)
  {
  }
}
