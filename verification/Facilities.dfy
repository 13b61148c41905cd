/**
 Facilities and aliases of a trace (server/lxt2_write.c:57-105, 484-515, 585-664, 697-716
 and 873-985): symbols are chained newest first; before the first value is written they
 are put in name order by an in-place merge sort with a half-size buffer, aliases are
 moved behind the real facilities, and everything is numbered.
 */
module Facilities {
  import opened CStrings

  /** `id` counts symbols in the order they were added; an alias stands for the symbol `root`. */
  datatype Facility = Facility(name: string, id: nat, alias: bool, root: nat, len: nat)

  /** strcmp(x, y) <= 0 */
  predicate Before(x: Facility, y: Facility)
  {
    !StrLess(y.name, x.name)
  }

  ghost predicate Sorted(s: seq<Facility>)
  {
    forall i, j :: 0 <= i < j < |s| ==> Before(s[i], s[j])
  }

  /** The facilities called `n`, in order. */
  ghost function Named(s: seq<Facility>, n: string): seq<Facility>
  {
    if s == [] then []
    else (if s[0].name == n then [s[0]] else []) + Named(s[1..], n)
  }

  /** Facilities of the same name keep their order, and none is lost, added or changed. */
  ghost predicate Stable(s: seq<Facility>, s': seq<Facility>)
  {
    forall n :: Named(s', n) == Named(s, n)
  }

  // ----- the order of strcmp

  lemma BeforeTransitive(x: Facility, y: Facility, z: Facility)
    requires Before(x, y) && Before(y, z)
    ensures Before(x, z)
  {
    if StrLess(z.name, x.name) {
      StrLessTotal(x.name, y.name);
      if x.name != y.name {
        StrLessTransitive(z.name, x.name, y.name);
      }
    }
  }

  lemma BeforeTotal(x: Facility, y: Facility)
    ensures Before(x, y) || Before(y, x)
  {
    if StrLess(y.name, x.name) && StrLess(x.name, y.name) {
      StrLessTransitive(y.name, x.name, y.name);
      StrLessIrreflexive(y.name);
    }
  }

  lemma BeforeSame(x: Facility, y: Facility)
    requires x.name == y.name
    ensures Before(x, y)
  {
    StrLessIrreflexive(x.name);
  }

  // ----- what a stable reordering keeps

  lemma {:induction false} NamedAppend(s: seq<Facility>, t: seq<Facility>, n: string)
    ensures Named(s + t, n) == Named(s, n) + Named(t, n)
  {
    if s == [] {
      assert s + t == t;
    } else {
      NamedAppend(s[1..], t, n);
      assert (s + t)[1..] == s[1..] + t;
      var first := if s[0].name == n then [s[0]] else [];
      assert Named(s + t, n) == first + (Named(s[1..], n) + Named(t, n));
    }
  }

  lemma {:induction false} NamedCount(s: seq<Facility>, x: Facility)
    ensures multiset(Named(s, x.name))[x] == multiset(s)[x]
  {
    if s != [] {
      NamedCount(s[1..], x);
      assert s == [s[0]] + s[1..];
    }
  }

  /** A stable reordering is a permutation. */
  lemma StablePermutes(s: seq<Facility>, s': seq<Facility>)
    requires Stable(s, s')
    ensures multiset(s) == multiset(s') && |s| == |s'|
  {
    forall x: Facility ensures multiset(s)[x] == multiset(s')[x] {
      NamedCount(s, x);
      NamedCount(s', x);
    }
    assert multiset(s) == multiset(s');
    assert |multiset(s)| == |s| && |multiset(s')| == |s'|;
  }

  // ----- merging

  /** The merge of two sorted runs; of equal names the left one comes first. */
  ghost function Merged(l: seq<Facility>, r: seq<Facility>): seq<Facility>
    decreases |l| + |r|
  {
    if l == [] then r
    else if r == [] then l
    else if Before(l[0], r[0]) then [l[0]] + Merged(l[1..], r)
    else [r[0]] + Merged(l, r[1..])
  }

  lemma {:induction false} MergedMembers(l: seq<Facility>, r: seq<Facility>, x: Facility)
    ensures x in Merged(l, r) ==> x in l || x in r
    decreases |l| + |r|
  {
    if l != [] && r != [] {
      if Before(l[0], r[0]) {
        MergedMembers(l[1..], r, x);
      } else {
        MergedMembers(l, r[1..], x);
      }
    }
  }

  lemma SortedCons(x: Facility, s: seq<Facility>)
    requires Sorted(s) && forall y :: y in s ==> Before(x, y)
    ensures Sorted([x] + s)
  {
  }

  lemma SortedHead(s: seq<Facility>, x: Facility)
    requires Sorted(s) && s != [] && x in s
    ensures Before(s[0], x)
  {
    BeforeSame(s[0], s[0]);
  }

  lemma {:induction false} MergedSorted(l: seq<Facility>, r: seq<Facility>)
    requires Sorted(l) && Sorted(r)
    ensures Sorted(Merged(l, r))
    decreases |l| + |r|
  {
    if l != [] && r != [] {
      BeforeTotal(l[0], r[0]);
      var fromLeft := Before(l[0], r[0]);
      var x, l', r' := if fromLeft then l[0] else r[0], if fromLeft then l[1..] else l, if fromLeft then r else r[1..];
      MergedSorted(l', r');
      forall y | y in Merged(l', r') ensures Before(x, y) {
        MergedMembers(l', r', y);
        if y in l {
          SortedHead(l, y);
          if !fromLeft {
            BeforeTransitive(x, l[0], y);
          }
        } else {
          SortedHead(r, y);
          if fromLeft {
            BeforeTransitive(x, r[0], y);
          }
        }
      }
      SortedCons(x, Merged(l', r'));
    }
  }

  lemma {:induction false} NoneNamed(s: seq<Facility>, n: string)
    requires forall x :: x in s ==> x.name != n
    ensures Named(s, n) == []
  {
    if s != [] {
      NoneNamed(s[1..], n);
    }
  }

  lemma {:induction false} MergedStable(l: seq<Facility>, r: seq<Facility>, n: string)
    requires Sorted(l) && Sorted(r)
    ensures Named(Merged(l, r), n) == Named(l, n) + Named(r, n)
    decreases |l| + |r|
  {
    if l != [] && r != [] {
      if Before(l[0], r[0]) {
        MergedStable(l[1..], r, n);
        assert Merged(l, r)[1..] == Merged(l[1..], r);
      } else {
        MergedStable(l, r[1..], n);
        assert Merged(l, r)[1..] == Merged(l, r[1..]);
        if r[0].name == n {
          forall x | x in l ensures x.name != n {
            SortedHead(l, x);
          }
          NoneNamed(l, n);
        }
      }
    }
  }

  /** The left run is copied out of the way (lines 72-76). */
  method CopyLeft(a: array<Facility>, b: array<Facility>, lo: nat, mid: nat)
    requires a != b && lo <= mid + 1 <= a.Length && mid + 1 - lo <= b.Length
    modifies b
    ensures b[..mid + 1 - lo] == a[lo..mid + 1]
  {
    var i, j := 0, lo;
    while j <= mid
      invariant 0 <= i == j - lo && j <= mid + 1
      invariant forall k :: 0 <= k < i ==> b[k] == a[lo + k]
    {
      b[i] := a[j];
      i, j := i + 1, j + 1;
    }
  }

  /** What is left to do of a merge, after `i` elements of the left and `m` of the right. */
  ghost predicate Merging(done: seq<Facility>, l: seq<Facility>, r: seq<Facility>, i: nat, m: nat)
  {
    i <= |l| && m <= |r| && done + Merged(l[i..], r[m..]) == Merged(l, r)
  }

  lemma TakeLeft(done: seq<Facility>, l: seq<Facility>, r: seq<Facility>, i: nat, m: nat)
    requires Merging(done, l, r, i, m) && i < |l| && (m < |r| ==> Before(l[i], r[m]))
    ensures Merging(done + [l[i]], l, r, i + 1, m)
  {
    assert l[i..][1..] == l[i + 1..];
    if m == |r| {
      assert Merged(l[i + 1..], r[m..]) == l[i + 1..];
    }
    assert Merged(l[i..], r[m..]) == [l[i]] + Merged(l[i + 1..], r[m..]);
    assert done + ([l[i]] + Merged(l[i + 1..], r[m..])) == done + [l[i]] + Merged(l[i + 1..], r[m..]);
  }

  lemma TakeRight(done: seq<Facility>, l: seq<Facility>, r: seq<Facility>, i: nat, m: nat)
    requires Merging(done, l, r, i, m) && i < |l| && m < |r| && !Before(l[i], r[m])
    ensures Merging(done + [r[m]], l, r, i, m + 1)
  {
    assert r[m..][1..] == r[m + 1..];
    assert Merged(l[i..], r[m..]) == [r[m]] + Merged(l[i..], r[m + 1..]);
    assert done + ([r[m]] + Merged(l[i..], r[m + 1..])) == done + [r[m]] + Merged(l[i..], r[m + 1..]);
  }

  /**
   The state of a merge: `i` elements of the left run and those of the right run before
   `j` have been placed. `k` never catches up with `j`, so nothing unread is overwritten.
   */
  ghost predicate Halfway(a: seq<Facility>, b: seq<Facility>, lo: nat, mid: nat, hi: nat, i: nat, j: nat, k: nat,
                          l: seq<Facility>, r: seq<Facility>, a0: seq<Facility>)
  {
    var halfway :=
      && lo <= k <= j <= hi + 1 <= |a| == |a0| && lo <= mid < j && i <= |l| <= |b| && |l| == mid + 1 - lo && |r| == hi - mid
      && k - lo == i + (j - mid - 1)
      && b[..|l|] == l && a[j..hi + 1] == r[j - mid - 1..]
      && a[..lo] == a0[..lo] && a[hi + 1..] == a0[hi + 1..]
      && Merging(a[lo..k], l, r, i, j - mid - 1);
    halfway
  }

  lemma HalfwayLeft(a: seq<Facility>, b: seq<Facility>, lo: nat, mid: nat, hi: nat, i: nat, j: nat, k: nat,
                    l: seq<Facility>, r: seq<Facility>, a0: seq<Facility>)
    requires Halfway(a, b, lo, mid, hi, i, j, k, l, r, a0) && k < j
    ensures i < |b| && k < |a|
    ensures (j <= hi ==> Before(b[i], a[j])) ==> Halfway(a[k := b[i]], b, lo, mid, hi, i + 1, j, k + 1, l, r, a0)
  {
    hide Merging, Merged;
    assert b[i] == b[..|l|][i] == l[i];
    if j <= hi ==> Before(b[i], a[j]) {
      if j <= hi {
        assert a[j] == a[j..hi + 1][0] == r[j - mid - 1];
      }
      TakeLeft(a[lo..k], l, r, i, j - mid - 1);
      var a' := a[k := b[i]];
      assert a'[lo..k + 1] == a[lo..k] + [l[i]] && a'[j..hi + 1] == a[j..hi + 1];
      assert a'[..lo] == a[..lo] && a'[hi + 1..] == a[hi + 1..];
    }
  }

  lemma HalfwayRight(a: seq<Facility>, b: seq<Facility>, lo: nat, mid: nat, hi: nat, i: nat, j: nat, k: nat,
                     l: seq<Facility>, r: seq<Facility>, a0: seq<Facility>)
    requires Halfway(a, b, lo, mid, hi, i, j, k, l, r, a0) && k < j <= hi
    ensures i < |b| && j < |a|
    ensures !Before(b[i], a[j]) ==> Halfway(a[k := a[j]], b, lo, mid, hi, i, j + 1, k + 1, l, r, a0)
  {
    hide Merging, Merged;
    assert b[i] == b[..|l|][i] == l[i] && a[j] == a[j..hi + 1][0] == r[j - mid - 1];
    if !Before(b[i], a[j]) {
      TakeRight(a[lo..k], l, r, i, j - mid - 1);
      var a' := a[k := a[j]];
      assert a'[lo..k + 1] == a[lo..k] + [r[j - mid - 1]];
      assert a'[j + 1..hi + 1] == a[j..hi + 1][1..] == r[j - mid - 1..][1..] == r[j - mid..];
      assert a'[..lo] == a[..lo] && a'[hi + 1..] == a[hi + 1..];
    }
  }

  lemma HalfwayStarts(a: seq<Facility>, b: seq<Facility>, lo: nat, mid: nat, hi: nat)
    requires lo <= mid < hi < |a| && mid + 1 - lo <= |b| && b[..mid + 1 - lo] == a[lo..mid + 1]
    ensures Halfway(a, b, lo, mid, hi, 0, mid + 1, lo, a[lo..mid + 1], a[mid + 1..hi + 1], a)
  {
    MergingStarts(a[lo..lo], a[lo..mid + 1], a[mid + 1..hi + 1]);
  }

  lemma HalfwayEnds(a: seq<Facility>, b: seq<Facility>, lo: nat, mid: nat, hi: nat, i: nat, j: nat,
                    l: seq<Facility>, r: seq<Facility>, a0: seq<Facility>)
    requires Halfway(a, b, lo, mid, hi, i, j, j, l, r, a0)
    ensures hi + 1 <= |a| && a[lo..hi + 1] == Merged(l, r) && a[..lo] == a0[..lo] && a[hi + 1..] == a0[hi + 1..]
  {
    MergingEnds(a[lo..j], l, r, j - mid - 1);
    assert a[lo..hi + 1] == a[lo..j] + a[j..hi + 1];
  }

  lemma HalfwayBounds(a: seq<Facility>, b: seq<Facility>, lo: nat, mid: nat, hi: nat, i: nat, j: nat, k: nat,
                      l: seq<Facility>, r: seq<Facility>, a0: seq<Facility>)
    requires Halfway(a, b, lo, mid, hi, i, j, k, l, r, a0)
    ensures k <= j <= hi + 1 <= |a| && (k < j ==> i < |b|)
  {
  }

  /** Lines 72-95. */
  method Merge(a: array<Facility>, b: array<Facility>, lo: nat, mid: nat, hi: nat)
    requires a != b && lo <= mid < hi < a.Length && mid + 1 - lo <= b.Length
    modifies a, b
    ensures a[lo..hi + 1] == Merged(old(a[lo..mid + 1]), old(a[mid + 1..hi + 1]))
    ensures a[..lo] == old(a[..lo]) && a[hi + 1..] == old(a[hi + 1..])
  {
    hide Halfway, Merged, Before;
    ghost var l, r, a0 := a[lo..mid + 1], a[mid + 1..hi + 1], a[..];
    CopyLeft(a, b, lo, mid);
    HalfwayStarts(a[..], b[..], lo, mid, hi);
    var i, j, k := 0, mid + 1, lo;
    while k < j && j <= hi
      invariant i >= 0 && j > mid && k >= lo
      invariant Halfway(a[..], b[..], lo, mid, hi, i, j, k, l, r, a0)
      decreases hi + 1 - k
    {
      HalfwayBounds(a[..], b[..], lo, mid, hi, i, j, k, l, r, a0);
      HalfwayLeft(a[..], b[..], lo, mid, hi, i, j, k, l, r, a0);
      HalfwayRight(a[..], b[..], lo, mid, hi, i, j, k, l, r, a0);
      if Before(b[i], a[j]) {
        a[k] := b[i];
        i, k := i + 1, k + 1;
      } else {
        a[k] := a[j];
        j, k := j + 1, k + 1;
      }
    }
    HalfwayBounds(a[..], b[..], lo, mid, hi, i, j, k, l, r, a0);
    while k < j
      invariant i >= 0 && lo <= k <= j && (j > hi || k == j)
      invariant Halfway(a[..], b[..], lo, mid, hi, i, j, k, l, r, a0)
    {
      HalfwayBounds(a[..], b[..], lo, mid, hi, i, j, k, l, r, a0);
      HalfwayLeft(a[..], b[..], lo, mid, hi, i, j, k, l, r, a0);
      a[k] := b[i];
      i, k := i + 1, k + 1;
    }
    HalfwayEnds(a[..], b[..], lo, mid, hi, i, j, l, r, a0);
  }

  lemma MergingStarts(done: seq<Facility>, l: seq<Facility>, r: seq<Facility>)
    requires done == []
    ensures Merging(done, l, r, 0, 0)
  {
    assert l[0..] == l && r[0..] == r;
  }

  lemma MergingEnds(done: seq<Facility>, l: seq<Facility>, r: seq<Facility>, m: nat)
    requires Merging(done, l, r, |l|, m)
    ensures done + r[m..] == Merged(l, r)
  {
    assert l[|l|..] == [];
  }

  lemma MergeSorts(s: seq<Facility>, l0: seq<Facility>, r0: seq<Facility>, l: seq<Facility>, r: seq<Facility>)
    requires s == l0 + r0 && Sorted(l) && Sorted(r) && Stable(l0, l) && Stable(r0, r)
    ensures Sorted(Merged(l, r)) && Stable(s, Merged(l, r))
  {
    MergedSorted(l, r);
    forall n: string ensures Named(Merged(l, r), n) == Named(s, n) {
      MergedStable(l, r, n);
      NamedAppend(l0, r0, n);
    }
  }

  /** wave_mergesort: needs only half the room of the run it sorts. */
  method MergeSort(a: array<Facility>, b: array<Facility>, lo: nat, hi: int)
    requires a != b && lo <= hi + 1 <= a.Length && (hi - lo) / 2 + 1 <= b.Length
    modifies a, b
    ensures Sorted(a[lo..hi + 1]) && Stable(old(a[lo..hi + 1]), a[lo..hi + 1])
    ensures a[..lo] == old(a[..lo]) && a[hi + 1..] == old(a[hi + 1..])
    decreases hi - lo
  {
    hide Sorted, Stable, Merged, Before;
    if lo < hi {
      var mid := (lo + hi) / 2;
      ghost var s, l0, r0 := a[lo..hi + 1], a[lo..mid + 1], a[mid + 1..hi + 1];
      assert s == l0 + r0;
      MergeSort(a, b, lo, mid);
      ghost var l, tail := a[lo..mid + 1], a[mid + 1..];
      assert a[mid + 1..hi + 1] == tail[..hi - mid] == r0 by { assert tail == old(a[mid + 1..]); }
      ghost var head := a[..mid + 1];
      MergeSort(a, b, mid + 1, hi);
      ghost var r := a[mid + 1..hi + 1];
      assert a[lo..mid + 1] == head[lo..] == l;
      assert a[..lo] == head[..lo];
      assert a[hi + 1..] == tail[hi - mid..];
      Merge(a, b, lo, mid, hi);
      MergeSorts(s, l0, r0, l, r);
    } else {
      ShortSorted(a[lo..hi + 1]);
    }
  }

  lemma ShortSorted(s: seq<Facility>)
    requires |s| <= 1
    ensures Sorted(s) && Stable(s, s)
  {
  }

  // ----- aliases go last

  ghost function Kept(s: seq<Facility>, alias: bool): (r: seq<Facility>)
    ensures forall x :: x in r <==> x in s && x.alias == alias
  {
    if s == [] then []
    else if s[|s| - 1].alias == alias then Kept(s[..|s| - 1], alias) + [s[|s| - 1]]
    else Kept(s[..|s| - 1], alias)
  }

  lemma {:induction false} KeptPrefix(s: seq<Facility>, i: nat, alias: bool)
    requires i <= |s|
    ensures |Kept(s[..i], alias)| <= |Kept(s, alias)|
  {
    if i < |s| {
      assert s[..|s| - 1][..i] == s[..i];
      KeptPrefix(s[..|s| - 1], i, alias);
    } else {
      assert s[..i] == s;
    }
  }

  lemma KeptNext(s: seq<Facility>, i: nat)
    requires i < |s|
    ensures Kept(s[..i + 1], s[i].alias) == Kept(s[..i], s[i].alias) + [s[i]]
    ensures Kept(s[..i + 1], !s[i].alias) == Kept(s[..i], !s[i].alias)
  {
    assert s[..i + 1][..i] == s[..i];
  }

  /** The first `i` facilities of `s` have been sorted out into `a[..facs]` and `cache[..aliases]`. */
  ghost predicate Parting(a: seq<Facility>, cache: seq<Facility>, s: seq<Facility>, i: nat, facs: nat, aliases: nat)
  {
    var parting :=
      && i <= |s| == |a| && aliases + facs == i && aliases <= |cache| && |Kept(s, true)| <= |cache|
      && a[..facs] == Kept(s[..i], false) && cache[..aliases] == Kept(s[..i], true) && a[i..] == s[i..];
    parting
  }

  lemma PartNext(a: seq<Facility>, cache: seq<Facility>, s: seq<Facility>, i: nat, facs: nat, aliases: nat)
    requires Parting(a, cache, s, i, facs, aliases) && i < |s|
    ensures facs <= i < |a| && (a[i].alias ==> aliases < |cache|)
    ensures !a[i].alias ==> Parting(a[facs := a[i]], cache, s, i + 1, facs + 1, aliases)
    ensures a[i].alias ==> Parting(a, cache[aliases := a[i]], s, i + 1, facs, aliases + 1)
  {
    hide Kept;
    assert a[i] == a[i..][0] == s[i..][0] == s[i];
    KeptNext(s, i);
    KeptPrefix(s, i + 1, true);
    assert a[i + 1..] == a[i..][1..] == s[i..][1..] == s[i + 1..];
    if !a[i].alias {
      assert a[facs := a[i]][..facs + 1] == a[..facs] + [s[i]];
      assert a[facs := a[i]][i + 1..] == a[i + 1..];
    } else {
      assert cache[aliases := a[i]][..aliases + 1] == cache[..aliases] + [s[i]];
    }
  }

  /** Real facilities move up in place; aliases wait in the cache and are appended (lines 639-657). */
  method Partition(a: array<Facility>, cache: array<Facility>) returns (facs: nat)
    requires a != cache && |Kept(a[..], true)| <= cache.Length
    modifies a, cache
    ensures a[..] == Kept(old(a[..]), false) + Kept(old(a[..]), true) && facs == |Kept(old(a[..]), false)|
  {
    ghost var s := a[..];
    var aliases, i := 0, 0;
    facs := 0;
    while i < a.Length
      invariant 0 <= i <= a.Length && 0 <= facs && 0 <= aliases && Parting(a[..], cache[..], s, i, facs, aliases)
    {
      hide Parting, Kept;
      PartNext(a[..], cache[..], s, i, facs, aliases);
      if !a[i].alias {
        a[facs] := a[i];
        facs := facs + 1;
      } else {
        cache[aliases] := a[i];
        aliases := aliases + 1;
      }
      i := i + 1;
    }
    assert s[..i] == s;
    AppendAliases(a, cache, facs, aliases);
  }

  method AppendAliases(a: array<Facility>, cache: array<Facility>, facs: nat, aliases: nat)
    requires a != cache && facs + aliases == a.Length && aliases <= cache.Length
    modifies a
    ensures a[..] == old(a[..facs]) + cache[..aliases]
  {
    var i := 0;
    while i < aliases
      invariant 0 <= i <= aliases && a[..facs] == old(a[..facs])
      invariant forall k :: 0 <= k < i ==> a[facs + k] == cache[k]
    {
      a[facs + i] := cache[i];
      i := i + 1;
    }
  }

  lemma {:induction false} KeptAppend(s: seq<Facility>, t: seq<Facility>, alias: bool)
    ensures Kept(s + t, alias) == Kept(s, alias) + Kept(t, alias)
  {
    if t == [] {
      assert s + t == s;
    } else {
      assert (s + t)[..|s + t| - 1] == s + t[..|t| - 1];
      KeptAppend(s, t[..|t| - 1], alias);
    }
  }

  lemma KeptCons(x: Facility, s: seq<Facility>, alias: bool)
    ensures Kept([x] + s, alias) == (if x.alias == alias then [x] else []) + Kept(s, alias)
  {
    KeptAppend([x], s, alias);
    assert Kept([], alias) == [];
    assert [x][..0] == [];
  }

  // ----- the table of symbols

  /** Symbols newest first, numbered by age, with distinct names; an alias stands for a real symbol of its own width. */
  ghost predicate WellFormed(chain: seq<Facility>)
  {
    var wellFormed :=
      && (forall i :: 0 <= i < |chain| ==> chain[i].id == |chain| - 1 - i)
      && (forall i {:trigger RootOk(chain, chain[i])} :: 0 <= i < |chain| ==> RootOk(chain, chain[i]))
      && (forall i, j :: 0 <= i < j < |chain| ==> chain[i].name != chain[j].name);
    wellFormed
  }

  ghost predicate RootOk(chain: seq<Facility>, x: Facility)
  {
    && x.root <= x.id && (x.alias <==> x.root != x.id)
    && x.root < |chain| && !chain[|chain| - 1 - x.root].alias && chain[|chain| - 1 - x.root].len == x.len
  }

  lemma RootKept(chain: seq<Facility>, x: Facility, y: Facility)
    requires RootOk(chain, y)
    ensures RootOk([x] + chain, y)
  {
    var chain' := [x] + chain;
    assert chain'[|chain'| - 1 - y.root] == chain[|chain| - 1 - y.root];
  }

  lemma AddedWellFormed(chain: seq<Facility>, x: Facility)
    requires WellFormed(chain) && x.id == |chain| && RootOk([x] + chain, x)
    requires forall i :: 0 <= i < |chain| ==> chain[i].name != x.name
    ensures WellFormed([x] + chain)
  {
    hide RootOk;
    var chain' := [x] + chain;
    forall i | 0 <= i < |chain'| ensures RootOk(chain', chain'[i]) {
      if i > 0 {
        assert RootOk(chain, chain[i - 1]);
        RootKept(chain, x, chain[i - 1]);
      }
    }
  }

  lemma {:induction false} KeptPermutes(s: seq<Facility>)
    ensures multiset(Kept(s, false) + Kept(s, true)) == multiset(s)
  {
    if s != [] {
      KeptPermutes(s[..|s| - 1]);
      assert s == s[..|s| - 1] + [s[|s| - 1]];
    }
  }

  lemma {:induction false} KeptSorted(s: seq<Facility>, alias: bool)
    requires Sorted(s)
    ensures Sorted(Kept(s, alias))
  {
    if s != [] {
      var before, x := s[..|s| - 1], s[|s| - 1];
      KeptSorted(before, alias);
      forall y | y in Kept(before, alias) ensures Before(y, x) {
        assert y in before;
      }
    }
  }

  lemma {:induction false} ChainCounts(chain: seq<Facility>, x: Facility)
    requires forall i, j :: 0 <= i < j < |chain| ==> chain[i].id != chain[j].id
    ensures multiset(chain)[x] <= 1
  {
    if chain != [] {
      ChainCounts(chain[1..], x);
      assert chain == [chain[0]] + chain[1..];
      if x == chain[0] {
        assert x !in chain[1..];
      }
    }
  }

  lemma {:induction false} TwiceCounts(s: seq<Facility>, i: nat, j: nat)
    requires i < j < |s| && s[i] == s[j]
    ensures multiset(s)[s[i]] >= 2
  {
    assert s == s[..j] + [s[j]] + s[j + 1..];
    assert s[..j][i] == s[i] && s[i] in s[..j];
  }

  /** A reordering of the chain has every id once. */
  lemma OrderIds(chain: seq<Facility>, order: seq<Facility>)
    requires WellFormed(chain) && multiset(order) == multiset(chain)
    ensures |order| == |chain|
    ensures forall x :: x in order <==> x in chain
    ensures forall i :: 0 <= i < |order| ==> order[i].id < |order|
    ensures forall i, j :: 0 <= i < j < |order| ==> order[i].id != order[j].id
  {
    assert |multiset(order)| == |order| && |multiset(chain)| == |chain|;
    forall x ensures x in order <==> x in chain {
      assert x in order <==> x in multiset(order);
      assert x in chain <==> x in multiset(chain);
    }
    forall i | 0 <= i < |order| ensures order[i].id < |order| {
      assert order[i] in chain;
    }
    forall i, j | 0 <= i < j < |order| ensures order[i].id != order[j].id {
      assert order[i] in chain && order[j] in chain;
      ChainCounts(chain, order[i]);
      if order[i].id == order[j].id {
        TwiceCounts(order, i, j);
      }
    }
  }

  /** `facnum[x.id]` is the place of `x` in `order`. */
  ghost predicate NumberedBy(order: seq<Facility>, facnum: seq<nat>)
  {
    |facnum| == |order| && forall i :: 0 <= i < |order| ==> order[i].id < |order| && facnum[order[i].id] == i
  }

  /** The number written for an alias is that of the facility it stands for, a real one. */
  ghost predicate AliasResolves(order: seq<Facility>, facnum: seq<nat>, facs: nat, x: Facility)
  {
    && x.root < |facnum| && facnum[x.root] < facs <= |order|
    && order[facnum[x.root]].id == x.root && !order[facnum[x.root]].alias && order[facnum[x.root]].len == x.len
  }

  lemma AliasesResolve(chain: seq<Facility>, sorted: seq<Facility>, order: seq<Facility>, facnum: seq<nat>, x: Facility)
    requires WellFormed(chain) && multiset(sorted) == multiset(chain) && x in order
    requires order == Kept(sorted, false) + Kept(sorted, true) && NumberedBy(order, facnum)
    ensures AliasResolves(order, facnum, |Kept(sorted, false)|, x)
  {
    hide Kept, WellFormed;
    KeptPermutes(sorted);
    OrderIds(chain, order);
    OrderIds(chain, sorted);
    var y := RootOf(chain, x);
    var reals := Kept(sorted, false);
    assert y in reals;
    var i :| 0 <= i < |reals| && reals[i] == y;
    assert order[i] == y;
  }

  /** The symbol that `x` stands for. */
  lemma RootOf(chain: seq<Facility>, x: Facility) returns (y: Facility)
    requires WellFormed(chain) && x in chain
    ensures y in chain && y.id == x.root && !y.alias && y.len == x.len && y.root == y.id
    ensures x.alias <==> x.root != x.id
    ensures x.root <= x.id < |chain| && chain[|chain| - 1 - x.root] == y
  {
    var k :| 0 <= k < |chain| && chain[k] == x;
    assert RootOk(chain, chain[k]);
    y := chain[|chain| - 1 - x.root];
    assert RootOk(chain, chain[|chain| - 1 - x.root]);
  }

  /** A new symbol may be added for a root. */
  lemma NewAlias(chain: seq<Facility>, x: Facility, y: Facility)
    requires WellFormed(chain) && y in chain && !y.alias
    requires x.id == |chain| && x.alias && x.root == y.id && x.len == y.len
    ensures RootOk([x] + chain, x)
  {
    var k :| 0 <= k < |chain| && chain[k] == y;
    var chain' := [x] + chain;
    assert chain'[|chain'| - 1 - x.root] == chain[k];
  }

  class SymbolTable {
    var chain: seq<Facility>
    var numalias: nat
    var written: bool

    ghost predicate Valid()
      reads this
    {
      WellFormed(chain) && numalias == |Kept(chain, true)|
    }

    constructor ()
      ensures Valid() && chain == [] && !written
    {
      chain, numalias, written := [], 0, false;
    }

    /** The symbol with that name, if there is one. */
    method Find(name: string) returns (at: int)
      ensures (0 <= at < |chain| && chain[at].name == name) || (at == -1 && forall i :: 0 <= i < |chain| ==> chain[i].name != name)
    {
      at := 0;
      while at < |chain|
        invariant 0 <= at <= |chain| && forall i :: 0 <= i < at ==> chain[i].name != name
      {
        if chain[at].name == name {
          return;
        }
        at := at + 1;
      }
      at := -1;
    }

    /** lxt2_wr_symbol_add, for bit symbols. */
    method Add(name: string, len: nat) returns (ok: bool)
      requires Valid()
      modifies this
      ensures Valid() && written == old(written)
      ensures ok <==> !old(written) && forall i :: 0 <= i < |old(chain)| ==> old(chain)[i].name != name
      ensures chain == if ok then [Facility(name, |old(chain)|, false, |old(chain)|, len)] + old(chain) else old(chain)
    {
      var at := Find(name);
      ok := !written && at < 0;
      if ok {
        var x := Facility(name, |chain|, false, |chain|, len);
        AddedWellFormed(chain, x);
        KeptCons(x, chain, true);
        chain := [x] + chain;
      }
    }

    /** lxt2_wr_symbol_alias: an alias of an alias stands for what that one stands for. */
    method Alias(existing: string, name: string, len: nat) returns (ok: bool)
      requires Valid()
      modifies this
      ensures Valid() && written == old(written)
      ensures !ok ==> chain == old(chain)
      ensures ok ==> exists at :: (
                0 <= at < |old(chain)| && old(chain)[at].name == existing && old(chain)[at].len == len
                && chain == [Facility(name, |old(chain)|, true, old(chain)[at].root, len)] + old(chain))
      ensures ok <==>
        && !old(written) && (forall i :: 0 <= i < |old(chain)| ==> old(chain)[i].name != name)
        && exists at :: 0 <= at < |old(chain)| && old(chain)[at].name == existing && old(chain)[at].len == len
    {
      var at := Find(existing);
      var clash := Find(name);
      if written || at < 0 || clash >= 0 {
        return false;
      }
      hide WellFormed, Kept;
      ghost var root := RootOf(chain, chain[at]);
      var s := at;
      while chain[s].alias
        invariant chain == old(chain) && written == old(written) && numalias == old(numalias)
        invariant 0 <= s < |chain| && chain[s].root == chain[at].root && chain[s].len == chain[at].len
        decreases chain[s].id
      {
        ghost var y := RootOf(chain, chain[s]);
        s := |chain| - 1 - chain[s].root;
      }
      root := RootOf(chain, chain[s]);
      if len != chain[s].len {
        return false;
      }
      var x := Facility(name, |chain|, true, chain[s].id, len);
      NewAlias(chain, x, chain[s]);
      AddedWellFormed(chain, x);
      KeptCons(x, chain, true);
      chain := [x] + chain;
      numalias := numalias + 1;
      ok := true;
    }

    /** The chain, oldest first (lines 601-605). */
    method Unchained() returns (a: array<Facility>)
      requires Valid()
      ensures fresh(a) && a.Length == |chain| && forall i :: 0 <= i < |chain| ==> a[i] == chain[|chain| - 1 - i]
    {
      a := new Facility[|chain|](_ => Facility("", 0, false, 0, 0));
      var i := 0;
      while i < |chain|
        invariant 0 <= i <= |chain| && forall k :: 0 <= k < i ==> a[|chain| - k - 1] == chain[k]
      {
        a[|chain| - i - 1] := chain[i];
        i := i + 1;
      }
      assert forall k :: 0 <= k < |chain| ==> a[k] == a[|chain| - (|chain| - 1 - k) - 1];
    }

    /**
     The order and the numbers in which the facilities are written (lines 587-664): real
     facilities in name order, then aliases in name order.
     */
    method Arrange() returns (order: array<Facility>, facnum: array<nat>, facs: nat)
      requires Valid()
      modifies this`written
      ensures written && multiset(order[..]) == multiset(chain) && facs <= order.Length
      ensures forall i :: 0 <= i < order.Length ==> (order[i].alias <==> i >= facs)
      ensures Sorted(order[..facs]) && Sorted(order[facs..])
      ensures NumberedBy(order[..], facnum[..])
      ensures forall i :: facs <= i < order.Length ==> AliasResolves(order[..], facnum[..], facs, order[i])
    {
      hide Kept, Sorted, WellFormed, NumberedBy, AliasResolves;
      written := true;
      var cache;
      order, cache := SortedFacilities();
      ghost var sorted := order[..];
      KeptPermutes(sorted);
      KeptSorted(sorted, false);
      KeptSorted(sorted, true);
      facs := Partition(order, cache);
      OrderIds(chain, order[..]);
      ArrangedSplit(sorted, order[..]);
      facnum := Number(order);
      forall i | facs <= i < order.Length ensures AliasResolves(order[..], facnum[..], facs, order[i]) {
        AliasesResolve(chain, sorted, order[..], facnum[..], order[i]);
      }
    }

    method SortedFacilities() returns (a: array<Facility>, cache: array<Facility>)
      requires Valid()
      ensures fresh(a) && fresh(cache) && a != cache && Sorted(a[..]) && multiset(a[..]) == multiset(chain)
      ensures |Kept(a[..], true)| <= cache.Length
    {
      a := Unchained();
      ghost var s := a[..];
      assert a[0..a.Length - 1 + 1] == s;
      UnchainedPermutes(chain, s);
      var b := new Facility[a.Length / 2 + 1](_ => Facility("", 0, false, 0, 0));
      MergeSort(a, b, 0, a.Length - 1);
      assert a[0..a.Length - 1 + 1] == a[..];
      StablePermutes(s, a[..]);
      cache := new Facility[if numalias > 0 then numalias else 1](_ => Facility("", 0, false, 0, 0));
      KeptCount(a[..], chain, true);
    }
  }

  lemma ArrangedSplit(sorted: seq<Facility>, order: seq<Facility>)
    requires order == Kept(sorted, false) + Kept(sorted, true)
    ensures var facs := |Kept(sorted, false)|;
      && (forall i :: 0 <= i < |order| ==> (order[i].alias <==> i >= facs))
      && order[..facs] == Kept(sorted, false) && order[facs..] == Kept(sorted, true)
  {
    var facs := |Kept(sorted, false)|;
    forall i | 0 <= i < |order| ensures order[i].alias <==> i >= facs {
      if i < facs {
        assert order[i] in Kept(sorted, false);
      } else {
        assert order[i] in Kept(sorted, true);
      }
    }
  }

  /** Lines 660-664. */
  method Number(order: array<Facility>) returns (facnum: array<nat>)
    requires forall i :: 0 <= i < order.Length ==> order[i].id < order.Length
    requires forall i, j :: 0 <= i < j < order.Length ==> order[i].id != order[j].id
    ensures fresh(facnum) && NumberedBy(order[..], facnum[..])
  {
    facnum := new nat[order.Length](_ => 0);
    var i := 0;
    while i < order.Length
      invariant 0 <= i <= order.Length
      invariant forall k :: 0 <= k < i ==> facnum[order[k].id] == k
    {
      facnum[order[i].id] := i;
      i := i + 1;
    }
  }

  lemma {:induction false} UnchainedPermutes(chain: seq<Facility>, s: seq<Facility>)
    requires |s| == |chain| && forall i :: 0 <= i < |chain| ==> s[i] == chain[|chain| - 1 - i]
    ensures multiset(s) == multiset(chain)
  {
    if chain != [] {
      var n := |s| - 1;
      UnchainedPermutes(chain[1..], s[..n]);
      assert s == s[..n] + [s[n]] && chain == [chain[0]] + chain[1..];
    }
  }

  lemma Removed(t: seq<Facility>, k: nat, alias: bool)
    requires k < |t|
    ensures multiset(t[..k] + t[k + 1..]) == multiset(t) - multiset{t[k]}
    ensures |Kept(t, alias)| == |Kept(t[..k] + t[k + 1..], alias)| + if t[k].alias == alias then 1 else 0
  {
    var l, r := t[..k], t[k + 1..];
    assert t == l + ([t[k]] + r);
    KeptAppend(l, [t[k]] + r, alias);
    KeptCons(t[k], r, alias);
    KeptAppend(l, r, alias);
  }

  /** As many aliases in any order. */
  lemma {:induction false} KeptCount(s: seq<Facility>, t: seq<Facility>, alias: bool)
    requires multiset(s) == multiset(t)
    ensures |Kept(s, alias)| == |Kept(t, alias)|
  {
    hide Kept;
    assert |multiset(s)| == |s| && |multiset(t)| == |t|;
    if s != [] {
      assert s[0] in multiset(s);
      assert s[0] in t;
      var k :| 0 <= k < |t| && t[k] == s[0];
      Removed(s, 0, alias);
      Removed(t, k, alias);
      assert s[..0] + s[1..] == s[1..];
      KeptCount(s[1..], t[..k] + t[k + 1..], alias);
    }
  }
}
