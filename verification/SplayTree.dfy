/**
 Top-down splay trees, re-linked in place (server/lxt2_write.c:109-277).

 The trace writer keeps two copies of the same code, one keyed by 64-bit time
 masks and one keyed by strings. Here the key type and its order are parameters.
 A `Shape` is the ghost description of a linked tree: which node is where.
 */
module SplayTree {

  class Node<K> {
    const item: K
    const val: nat
    var left: Node?<K>
    var right: Node?<K>
    var next: Node?<K>

    constructor (item: K, val: nat)
      ensures this.item == item && this.val == val
      ensures left == null && right == null && next == null
    {
      this.item, this.val := item, val;
      left, right, next := null, null, null;
    }
  }

  datatype Shape<K> = Leaf | Bin(left: Shape<K>, root: Node<K>, right: Shape<K>)

  ghost function Nodes<K>(t: Shape<K>): set<Node<K>>
  {
    match t
    case Leaf => {}
    case Bin(l, n, r) => Nodes(l) + {n} + Nodes(r)
  }

  ghost function Size<K>(t: Shape<K>): nat
  {
    match t
    case Leaf => 0
    case Bin(l, _, r) => Size(l) + 1 + Size(r)
  }

  ghost function Root<K>(t: Shape<K>): Node?<K>
  {
    if t.Leaf? then null else t.root
  }

  /** The children that `t` gives to its node `n`. */
  ghost function Kids<K>(t: Shape<K>, n: Node<K>): (Node?<K>, Node?<K>)
  {
    if t.Leaf? then (null, null)
    else if n == t.root then (Root(t.left), Root(t.right))
    else if n in Nodes(t.left) then Kids(t.left, n)
    else Kids(t.right, n)
  }

  /** The heap nodes below `p` are linked exactly as `t` says. */
  ghost predicate Holds<K>(p: Node?<K>, t: Shape<K>)
    reads Nodes(t)`left, Nodes(t)`right
  {
    p == Root(t) && forall n :: n in Nodes(t) ==> (n.left, n.right) == Kids(t, n)
  }

  /** No node occurs twice in `t`. */
  ghost predicate Distinct<K>(t: Shape<K>)
  {
    match t
    case Leaf => true
    case Bin(l, n, r) =>
      && Distinct(l) && Distinct(r)
      && n !in Nodes(l) && n !in Nodes(r) && Nodes(l) !! Nodes(r)
  }

  // ----- the order of the keys

  ghost predicate StrictOrder<K(!new)>(less: (K, K) -> bool)
  {
    && (forall a :: !less(a, a))
    && (forall a, b, c :: less(a, b) && less(b, c) ==> less(a, c))
    && (forall a, b :: a == b || less(a, b) || less(b, a))
  }

  ghost predicate AllBelow<K>(s: set<Node<K>>, key: K, less: (K, K) -> bool)
  {
    forall n :: n in s ==> less(n.item, key)
  }

  ghost predicate AllAbove<K>(s: set<Node<K>>, key: K, less: (K, K) -> bool)
  {
    forall n :: n in s ==> less(key, n.item)
  }

  ghost predicate Before<K>(s: set<Node<K>>, t: set<Node<K>>, less: (K, K) -> bool)
  {
    forall a, b :: a in s && b in t ==> less(a.item, b.item)
  }

  ghost predicate Ordered<K>(t: Shape<K>, less: (K, K) -> bool)
  {
    match t
    case Leaf => true
    case Bin(l, n, r) =>
      && Ordered(l, less) && Ordered(r, less)
      && AllBelow(Nodes(l), n.item, less) && AllAbove(Nodes(r), n.item, less)
  }

  /** `key` is the item of some node in `s`. */
  ghost predicate HasKey<K>(s: set<Node<K>>, key: K)
  {
    exists n :: n in s && n.item == key
  }

  /** The root of `t` separates the keys below `key` from the keys above it. */
  ghost predicate SplitAt<K>(t: Shape<K>, key: K, less: (K, K) -> bool)
  {
    t.Bin? && AllBelow(Nodes(t.left), key, less) && AllAbove(Nodes(t.right), key, less)
  }

  ghost predicate WellFormed<K>(t: Shape<K>, less: (K, K) -> bool)
  {
    Distinct(t) && Ordered(t, less)
  }

  // ----- trees with a free link at the end of one spine

  // The splay loop grows the left result tree along its right spine and the
  // right result tree along its left spine. Until the final assembly the last
  // link of each spine dangles.

  ghost function Rightmost<K>(t: Shape<K>): Node<K>
    requires t.Bin?
  {
    if t.right.Leaf? then t.root else Rightmost(t.right)
  }

  ghost function Leftmost<K>(t: Shape<K>): Node<K>
    requires t.Bin?
  {
    if t.left.Leaf? then t.root else Leftmost(t.left)
  }

  ghost function GraftRight<K>(t: Shape<K>, s: Shape<K>): Shape<K>
  {
    if t.Leaf? then s else Bin(t.left, t.root, GraftRight(t.right, s))
  }

  ghost function GraftLeft<K>(t: Shape<K>, s: Shape<K>): Shape<K>
  {
    if t.Leaf? then s else Bin(GraftLeft(t.left, s), t.root, t.right)
  }

  /** `t` hangs from the right link of `h`, and `last` ends its right spine with a free right link. */
  ghost predicate OpenRight<K>(h: Node<K>, t: Shape<K>, last: Node<K>)
    reads h`right, Nodes(t)`left, Nodes(t)`right
  {
    if t.Leaf? then last == h
    else
      && last == Rightmost(t) && h.right == t.root
      && forall n :: n in Nodes(t) ==>
           n.left == Kids(t, n).0 && (n != last ==> n.right == Kids(t, n).1)
  }

  ghost predicate OpenLeft<K>(h: Node<K>, t: Shape<K>, last: Node<K>)
    reads h`left, Nodes(t)`left, Nodes(t)`right
  {
    if t.Leaf? then last == h
    else
      && last == Leftmost(t) && h.left == t.root
      && forall n :: n in Nodes(t) ==>
           n.right == Kids(t, n).1 && (n != last ==> n.left == Kids(t, n).0)
  }

  lemma {:induction false} GraftRightKids<K>(t: Shape<K>, s: Shape<K>)
    requires Distinct(t) && Nodes(t) !! Nodes(s) && t.Bin?
    ensures Nodes(GraftRight(t, s)) == Nodes(t) + Nodes(s)
    ensures Rightmost(t) in Nodes(t)
    ensures s.Bin? ==> Rightmost(GraftRight(t, s)) == Rightmost(s)
    ensures forall n :: n in Nodes(t) ==>
      Kids(GraftRight(t, s), n) == if n == Rightmost(t) then (Kids(t, n).0, Root(s)) else Kids(t, n)
    ensures forall n :: n in Nodes(s) ==> Kids(GraftRight(t, s), n) == Kids(s, n)
  {
    if t.right.Bin? {
      GraftRightKids(t.right, s);
    }
  }

  lemma {:induction false} GraftLeftKids<K>(t: Shape<K>, s: Shape<K>)
    requires Distinct(t) && Nodes(t) !! Nodes(s) && t.Bin?
    ensures Nodes(GraftLeft(t, s)) == Nodes(t) + Nodes(s)
    ensures Leftmost(t) in Nodes(t)
    ensures s.Bin? ==> Leftmost(GraftLeft(t, s)) == Leftmost(s)
    ensures forall n :: n in Nodes(t) ==>
      Kids(GraftLeft(t, s), n) == if n == Leftmost(t) then (Root(s), Kids(t, n).1) else Kids(t, n)
    ensures forall n :: n in Nodes(s) ==> Kids(GraftLeft(t, s), n) == Kids(s, n)
  {
    if t.left.Bin? {
      GraftLeftKids(t.left, s);
    }
  }

  lemma {:induction false} GraftRightWellFormed<K>(t: Shape<K>, s: Shape<K>, less: (K, K) -> bool)
    requires WellFormed(t, less) && WellFormed(s, less) && Nodes(t) !! Nodes(s)
    requires Before(Nodes(t), Nodes(s), less)
    ensures Nodes(GraftRight(t, s)) == Nodes(t) + Nodes(s)
    ensures WellFormed(GraftRight(t, s), less)
  {
    if t.Bin? {
      GraftRightWellFormed(t.right, s, less);
    }
  }

  lemma {:induction false} GraftLeftWellFormed<K>(t: Shape<K>, s: Shape<K>, less: (K, K) -> bool)
    requires WellFormed(t, less) && WellFormed(s, less) && Nodes(t) !! Nodes(s)
    requires Before(Nodes(s), Nodes(t), less)
    ensures Nodes(GraftLeft(t, s)) == Nodes(t) + Nodes(s)
    ensures WellFormed(GraftLeft(t, s), less)
  {
    if t.Bin? {
      GraftLeftWellFormed(t.left, s, less);
    }
  }

  // ----- the moves of the splay loop

  lemma RotatedNodes<K>(a: Shape<K>, x: Node<K>, b: Shape<K>, y: Node<K>, c: Shape<K>)
    ensures Nodes(Bin(Bin(a, x, b), y, c)) == Nodes(a) + {x} + Nodes(b) + {y} + Nodes(c)
    ensures Nodes(Bin(a, x, Bin(b, y, c))) == Nodes(a) + {x} + Nodes(b) + {y} + Nodes(c)
    ensures Size(Bin(Bin(a, x, b), y, c)) == Size(Bin(a, x, Bin(b, y, c)))
  {
  }

  lemma RotatedDistinct<K>(a: Shape<K>, x: Node<K>, b: Shape<K>, y: Node<K>, c: Shape<K>)
    ensures Distinct(Bin(Bin(a, x, b), y, c)) <==> Distinct(Bin(a, x, Bin(b, y, c)))
  {
    RotatedNodes(a, x, b, y, c);
    assert Distinct(Bin(Bin(a, x, b), y, c)) <==>
      && Distinct(Bin(a, x, b)) && Distinct(c)
      && y !in Nodes(Bin(a, x, b)) && y !in Nodes(c) && Nodes(Bin(a, x, b)) !! Nodes(c);
    assert Distinct(Bin(a, x, Bin(b, y, c))) <==>
      && Distinct(a) && Distinct(Bin(b, y, c))
      && x !in Nodes(a) && x !in Nodes(Bin(b, y, c)) && Nodes(a) !! Nodes(Bin(b, y, c));
  }

  lemma RotatedOrdered<K(!new)>(a: Shape<K>, x: Node<K>, b: Shape<K>, y: Node<K>, c: Shape<K>, less: (K, K) -> bool)
    requires StrictOrder(less)
    ensures Ordered(Bin(Bin(a, x, b), y, c), less) <==> Ordered(Bin(a, x, Bin(b, y, c)), less)
  {
    var l, r := Bin(a, x, b), Bin(b, y, c);
    assert Ordered(Bin(l, y, c), less) <==>
      && Ordered(l, less) && Ordered(c, less) && AllBelow(Nodes(l), y.item, less) && AllAbove(Nodes(c), y.item, less);
    assert Ordered(Bin(a, x, r), less) <==>
      && Ordered(a, less) && Ordered(r, less) && AllBelow(Nodes(a), x.item, less) && AllAbove(Nodes(r), x.item, less);
    assert x in Nodes(l) && y in Nodes(r);
  }

  lemma RotatedKids<K>(a: Shape<K>, x: Node<K>, b: Shape<K>, y: Node<K>, c: Shape<K>, n: Node<K>)
    requires Distinct(Bin(a, x, Bin(b, y, c))) && n != x && n != y
    requires n in Nodes(Bin(a, x, Bin(b, y, c)))
    ensures Kids(Bin(Bin(a, x, b), y, c), n) == Kids(Bin(a, x, Bin(b, y, c)), n)
  {
    var l, r := Bin(a, x, b), Bin(b, y, c);
    RotatedNodes(a, x, b, y, c);
    assert Kids(Bin(l, y, c), n) == if n in Nodes(l) then Kids(l, n) else Kids(c, n);
    assert Kids(Bin(a, x, r), n) == if n in Nodes(a) then Kids(a, n) else Kids(r, n);
  }

  method RotateRight<K(!new)>(t: Node<K>, ghost s: Shape<K>, ghost less: (K, K) -> bool)
    returns (y: Node<K>, ghost s': Shape<K>)
    requires StrictOrder(less) && WellFormed(s, less) && Holds(t, s) && s.left.Bin?
    modifies t`left, s.left.root`right
    ensures y == old(t.left) == s.left.root
    ensures s' == Bin(s.left.left, y, Bin(s.left.right, t, s.right))
    ensures Nodes(s') == Nodes(s) && Size(s') == Size(s) && WellFormed(s', less) && Holds(y, s')
  {
    ghost var a, b, c := s.left.left, s.left.right, s.right;
    assert Kids(s, t) == (Root(s.left), Root(c));
    y := t.left;
    assert y in Nodes(s) && t != y && s == Bin(Bin(a, y, b), t, c);
    assert Kids(s, y) == (Root(a), Root(b)) by { assert y in Nodes(s.left); }
    t.left := y.right;
    y.right := t;
    s' := Bin(a, y, Bin(b, t, c));
    RotatedNodes(a, y, b, t, c);
    RotatedDistinct(a, y, b, t, c);
    RotatedOrdered(a, y, b, t, c, less);
    forall n | n in Nodes(s') ensures (n.left, n.right) == Kids(s', n) {
      if n != t && n != y {
        RotatedKids(a, y, b, t, c, n);
      } else if n == t {
        assert t in Nodes(s'.right) && t !in Nodes(a);
      }
    }
  }

  method RotateLeft<K(!new)>(t: Node<K>, ghost s: Shape<K>, ghost less: (K, K) -> bool)
    returns (y: Node<K>, ghost s': Shape<K>)
    requires StrictOrder(less) && WellFormed(s, less) && Holds(t, s) && s.right.Bin?
    modifies t`right, s.right.root`left
    ensures y == old(t.right) == s.right.root
    ensures s' == Bin(Bin(s.left, t, s.right.left), y, s.right.right)
    ensures Nodes(s') == Nodes(s) && Size(s') == Size(s) && WellFormed(s', less) && Holds(y, s')
  {
    ghost var a, b, c := s.left, s.right.left, s.right.right;
    assert Kids(s, t) == (Root(a), Root(s.right));
    y := t.right;
    assert y in Nodes(s) && t != y && s == Bin(a, t, Bin(b, y, c));
    assert Kids(s, y) == (Root(b), Root(c)) by { assert y in Nodes(s.right) && y !in Nodes(a); }
    t.right := y.left;
    y.left := t;
    s' := Bin(Bin(a, t, b), y, c);
    RotatedNodes(a, t, b, y, c);
    RotatedDistinct(a, t, b, y, c);
    RotatedOrdered(a, t, b, y, c, less);
    forall n | n in Nodes(s') ensures (n.left, n.right) == Kids(s', n) {
      if n != t && n != y {
        RotatedKids(a, t, b, y, c, n);
      } else if n == t {
        assert t in Nodes(s'.left);
      }
    }
  }

  lemma SubtreeKids<K>(s: Shape<K>, n: Node<K>)
    requires Distinct(s) && s.Bin? && n in Nodes(s)
    ensures n == s.root ==> Kids(s, n) == (Root(s.left), Root(s.right))
    ensures n in Nodes(s.left) ==> Kids(s, n) == Kids(s.left, n)
    ensures n in Nodes(s.right) ==> Kids(s, n) == Kids(s.right, n)
  {
  }

  lemma SubtreesHold<K>(t: Node<K>, s: Shape<K>)
    requires Distinct(s) && Holds(t, s)
    ensures Holds(t.left, s.left) && Holds(t.right, s.right)
  {
    SubtreeKids(s, t);
    forall n | n in Nodes(s.left) ensures (n.left, n.right) == Kids(s.left, n) { SubtreeKids(s, n); }
    forall n | n in Nodes(s.right) ensures (n.left, n.right) == Kids(s.right, n) { SubtreeKids(s, n); }
  }

  lemma JoinedHolds<K>(t: Node<K>, s: Shape<K>)
    requires s.Bin? && s.root == t && Distinct(s)
    requires Holds(t.left, s.left) && Holds(t.right, s.right)
    ensures Holds(t, s)
  {
    forall n | n in Nodes(s) ensures (n.left, n.right) == Kids(s, n) { SubtreeKids(s, n); }
  }

  /** Append `t` with its right subtree `c` to the end of the right result tree. */
  method LinkRight<K>(ghost h: Node<K>, r: Node<K>, ghost big: Shape<K>, t: Node<K>, ghost c: Shape<K>)
    requires Distinct(Bin(Leaf, t, c)) && Distinct(big) && Nodes(Bin(Leaf, t, c)) !! Nodes(big)
    requires h !in Nodes(big) && h !in Nodes(c) && h != t
    requires Holds(t.right, c) && OpenLeft(h, big, r)
    modifies r`left
    ensures OpenLeft(h, GraftLeft(big, Bin(Leaf, t, c)), t)
  {
    ghost var piece := Bin(Leaf, t, c);
    if big.Bin? {
      GraftLeftKids(big, piece);
    }
    r.left := t;
    ghost var all := GraftLeft(big, piece);
    forall n | n in Nodes(all) ensures n.right == Kids(all, n).1 && (n != t ==> n.left == Kids(all, n).0) {
      if n in Nodes(piece) {
        SubtreeKids(piece, n);
      }
    }
  }

  method LinkLeft<K>(ghost h: Node<K>, l: Node<K>, ghost small: Shape<K>, t: Node<K>, ghost a: Shape<K>)
    requires Distinct(Bin(a, t, Leaf)) && Distinct(small) && Nodes(Bin(a, t, Leaf)) !! Nodes(small)
    requires h !in Nodes(small) && h !in Nodes(a) && h != t
    requires Holds(t.left, a) && OpenRight(h, small, l)
    modifies l`right
    ensures OpenRight(h, GraftRight(small, Bin(a, t, Leaf)), t)
  {
    ghost var piece := Bin(a, t, Leaf);
    if small.Bin? {
      GraftRightKids(small, piece);
    }
    l.right := t;
    ghost var all := GraftRight(small, piece);
    forall n | n in Nodes(all) ensures n.left == Kids(all, n).0 && (n != t ==> n.right == Kids(all, n).1) {
      if n in Nodes(piece) {
        SubtreeKids(piece, n);
      }
    }
  }

  /** Close the right spine of `small` with the tree below `p`. */
  method CloseRight<K>(h: Node<K>, l: Node<K>, ghost small: Shape<K>, p: Node?<K>, ghost a: Shape<K>)
    requires Distinct(small) && Nodes(a) !! Nodes(small) && h !in Nodes(small) + Nodes(a)
    requires Holds(p, a) && OpenRight(h, small, l)
    modifies l`right
    ensures Nodes(GraftRight(small, a)) == Nodes(small) + Nodes(a)
    ensures Holds(h.right, GraftRight(small, a))
  {
    if small.Bin? {
      GraftRightKids(small, a);
    }
    l.right := p;
  }

  method CloseLeft<K>(h: Node<K>, r: Node<K>, ghost big: Shape<K>, p: Node?<K>, ghost c: Shape<K>)
    requires Distinct(big) && Nodes(c) !! Nodes(big) && h !in Nodes(big) + Nodes(c)
    requires Holds(p, c) && OpenLeft(h, big, r)
    modifies r`left
    ensures Nodes(GraftLeft(big, c)) == Nodes(big) + Nodes(c)
    ensures Holds(h.left, GraftLeft(big, c))
  {
    if big.Bin? {
      GraftLeftKids(big, c);
    }
    r.left := p;
  }

  // ----- splay and insert

  /** `small`, `s` and `big` cut the nodes `all` into three ordered trees around `key`. */
  ghost predicate Cut<K>(small: Shape<K>, s: Shape<K>, big: Shape<K>, all: set<Node<K>>, key: K, less: (K, K) -> bool)
  {
    && WellFormed(small, less) && WellFormed(s, less) && WellFormed(big, less)
    && Nodes(small) !! Nodes(s) && Nodes(small) !! Nodes(big) && Nodes(s) !! Nodes(big)
    && Nodes(small) + Nodes(s) + Nodes(big) == all
    && Before(Nodes(small), Nodes(s), less) && Before(Nodes(s), Nodes(big), less)
    && AllBelow(Nodes(small), key, less) && AllAbove(Nodes(big), key, less)
  }

  lemma CutLinkRight<K(!new)>(small: Shape<K>, s: Shape<K>, big: Shape<K>, all: set<Node<K>>, key: K, less: (K, K) -> bool)
    requires StrictOrder(less) && Cut(small, s, big, all, key, less) && s.Bin? && less(key, s.root.item)
    ensures Cut(small, s.left, GraftLeft(big, Bin(Leaf, s.root, s.right)), all, key, less)
  {
    var piece := Bin(Leaf, s.root, s.right);
    assert Nodes(piece) == {s.root} + Nodes(s.right);
    assert Nodes(s) == Nodes(s.left) + Nodes(piece);
    assert Before(Nodes(s.left), Nodes(piece), less);
    GraftLeftWellFormed(big, piece, less);
  }

  lemma CutLinkLeft<K(!new)>(small: Shape<K>, s: Shape<K>, big: Shape<K>, all: set<Node<K>>, key: K, less: (K, K) -> bool)
    requires StrictOrder(less) && Cut(small, s, big, all, key, less) && s.Bin? && less(s.root.item, key)
    ensures Cut(GraftRight(small, Bin(s.left, s.root, Leaf)), s.right, big, all, key, less)
  {
    var piece := Bin(s.left, s.root, Leaf);
    assert Nodes(piece) == {s.root} + Nodes(s.left);
    assert Nodes(s) == Nodes(s.right) + Nodes(piece);
    assert Before(Nodes(piece), Nodes(s.right), less);
    GraftRightWellFormed(small, piece, less);
  }

  lemma CutJoin<K(!new)>(small: Shape<K>, s: Shape<K>, big: Shape<K>, all: set<Node<K>>, key: K, less: (K, K) -> bool)
    returns (t: Shape<K>)
    requires StrictOrder(less) && Cut(small, s, big, all, key, less) && SplitAt(s, key, less)
    ensures t == Bin(GraftRight(small, s.left), s.root, GraftLeft(big, s.right))
    ensures Nodes(t) == all && WellFormed(t, less) && SplitAt(t, key, less)
    ensures Nodes(t.left) == Nodes(small) + Nodes(s.left) && Nodes(t.right) == Nodes(big) + Nodes(s.right)
  {
    assert s.root in Nodes(s) && Nodes(s.left) <= Nodes(s) && Nodes(s.right) <= Nodes(s);
    GraftRightWellFormed(small, s.left, less);
    GraftLeftWellFormed(big, s.right, less);
    t := Bin(GraftRight(small, s.left), s.root, GraftLeft(big, s.right));
  }

  /** The three trees in the heap, between header `h` and the current node `t`. */
  ghost predicate Linked<K>(h: Node<K>, l: Node<K>, small: Shape<K>, t: Node<K>, s: Shape<K>, r: Node<K>, big: Shape<K>)
    reads h, Nodes(small)`left, Nodes(small)`right, Nodes(s)`left, Nodes(s)`right, Nodes(big)`left, Nodes(big)`right
  {
    && h !in Nodes(small) + Nodes(s) + Nodes(big)
    && l in {h} + Nodes(small) && r in {h} + Nodes(big)
    && OpenRight(h, small, l) && Holds(t, s) && OpenLeft(h, big, r)
  }

  lemma SpineEnds<K>(small: Shape<K>, big: Shape<K>)
    ensures small.Bin? ==> Rightmost(small) in Nodes(small)
    ensures big.Bin? ==> Leftmost(big) in Nodes(big)
  {
  }

  method StepRight<K(!new)>(ghost h: Node<K>, ghost l: Node<K>, ghost small: Shape<K>, t: Node<K>, ghost s: Shape<K>,
                            r: Node<K>, ghost big: Shape<K>, ghost all: set<Node<K>>, ghost key: K, ghost less: (K, K) -> bool)
    returns (t': Node<K>, ghost big': Shape<K>)
    requires StrictOrder(less) && Cut(small, s, big, all, key, less) && Linked(h, l, small, t, s, r, big)
    requires s.left.Bin? && less(key, t.item)
    modifies r`left
    ensures Cut(small, s.left, big', all, key, less) && Linked(h, l, small, t', s.left, t, big')
  {
    SubtreesHold(t, s);
    CutLinkRight(small, s, big, all, key, less);
    big' := GraftLeft(big, Bin(Leaf, t, s.right));
    LinkRight(h, r, big, t, s.right);
    t' := t.left;
    SpineEnds(small, big');
  }

  method StepLeft<K(!new)>(ghost h: Node<K>, l: Node<K>, ghost small: Shape<K>, t: Node<K>, ghost s: Shape<K>,
                           ghost r: Node<K>, ghost big: Shape<K>, ghost all: set<Node<K>>, ghost key: K, ghost less: (K, K) -> bool)
    returns (t': Node<K>, ghost small': Shape<K>)
    requires StrictOrder(less) && Cut(small, s, big, all, key, less) && Linked(h, l, small, t, s, r, big)
    requires s.right.Bin? && less(t.item, key)
    modifies l`right
    ensures Cut(small', s.right, big, all, key, less) && Linked(h, t, small', t', s.right, r, big)
  {
    SubtreesHold(t, s);
    CutLinkLeft(small, s, big, all, key, less);
    small' := GraftRight(small, Bin(s.left, t, Leaf));
    LinkLeft(h, l, small, t, s.left);
    t' := t.right;
    SpineEnds(small', big);
  }

  method Assemble<K(!new)>(h: Node<K>, l: Node<K>, ghost small: Shape<K>, t: Node<K>, ghost s: Shape<K>,
                           r: Node<K>, ghost big: Shape<K>, ghost all: set<Node<K>>, ghost key: K, ghost less: (K, K) -> bool)
    returns (ghost s': Shape<K>)
    requires StrictOrder(less) && Cut(small, s, big, all, key, less) && Linked(h, l, small, t, s, r, big)
    requires SplitAt(s, key, less)
    modifies l`right, r`left, t`left, t`right
    ensures Nodes(s') == all && WellFormed(s', less) && Holds(t, s') && SplitAt(s', key, less)
  {
    SubtreesHold(t, s);
    s' := CutJoin(small, s, big, all, key, less);
    CloseRight(h, l, small, t.left, s.left);
    CloseLeft(h, r, big, t.right, s.right);
    t.left := h.right;
    t.right := h.left;
    JoinedHolds(t, s');
  }

  /** At the end of the search path the current node separates the remaining keys. */
  lemma StopSplits<K(!new)>(s: Shape<K>, key: K, less: (K, K) -> bool)
    requires StrictOrder(less) && Ordered(s, less) && s.Bin?
    requires less(key, s.root.item) ==> s.left.Leaf?
    requires less(s.root.item, key) ==> s.right.Leaf?
    ensures SplitAt(s, key, less)
  {
  }

  method TurnRight<K(!new)>(ghost h: Node<K>, ghost l: Node<K>, ghost small: Shape<K>, t: Node<K>, ghost s: Shape<K>,
                            ghost r: Node<K>, ghost big: Shape<K>, ghost all: set<Node<K>>, ghost key: K, ghost less: (K, K) -> bool)
    returns (y: Node<K>, ghost s': Shape<K>)
    requires StrictOrder(less) && Cut(small, s, big, all, key, less) && Linked(h, l, small, t, s, r, big)
    requires s.left.Bin?
    modifies t`left, s.left.root`right
    ensures y == s.left.root && Size(s') == Size(s) && s'.Bin?
    ensures Cut(small, s', big, all, key, less) && Linked(h, l, small, y, s', r, big)
  {
    assert t in Nodes(s) && s.left.root in Nodes(s);
    y, s' := RotateRight(t, s, less);
  }

  method TurnLeft<K(!new)>(ghost h: Node<K>, ghost l: Node<K>, ghost small: Shape<K>, t: Node<K>, ghost s: Shape<K>,
                           ghost r: Node<K>, ghost big: Shape<K>, ghost all: set<Node<K>>, ghost key: K, ghost less: (K, K) -> bool)
    returns (y: Node<K>, ghost s': Shape<K>)
    requires StrictOrder(less) && Cut(small, s, big, all, key, less) && Linked(h, l, small, t, s, r, big)
    requires s.right.Bin?
    modifies t`right, s.right.root`left
    ensures y == s.right.root && Size(s') == Size(s) && s'.Bin?
    ensures Cut(small, s', big, all, key, less) && Linked(h, l, small, y, s', r, big)
  {
    assert t in Nodes(s) && s.right.root in Nodes(s);
    y, s' := RotateLeft(t, s, less);
  }

  /** One turn of the splay loop when `key` is below the current node (lines 118-129). */
  method DescendLeft<K(!new)>(ghost h: Node<K>, ghost l: Node<K>, ghost small: Shape<K>, t: Node<K>, ghost s: Shape<K>,
                              r: Node<K>, ghost big: Shape<K>, ghost all: set<Node<K>>, key: K, less: (K, K) -> bool)
    returns (stop: bool, t': Node<K>, ghost s': Shape<K>, r': Node<K>, ghost big': Shape<K>)
    requires StrictOrder(less) && Cut(small, s, big, all, key, less) && Linked(h, l, small, t, s, r, big)
    requires less(key, t.item)
    modifies all`left, all`right, r`left
    ensures Cut(small, s', big', all, key, less) && Linked(h, l, small, t', s', r', big')
    ensures if stop then SplitAt(s', key, less) else Size(s') < Size(s)
  {
    t', s', r', big' := t, s, r, big;
    SubtreeKids(s, t);
    if t.left == null {
      StopSplits(s', key, less);
      return true, t', s', r', big';
    }
    if less(key, t.left.item) {
      t', s' := TurnRight(h, l, small, t, s, r, big, all, key, less);
      SubtreeKids(s', t');
      if t'.left == null {
        StopSplits(s', key, less);
        return true, t', s', r', big';
      }
    }
    stop := false;
    var next, grown := StepRight(h, l, small, t', s', r, big, all, key, less);
    r', t', s', big' := t', next, s'.left, grown;
  }

  /** One turn of the splay loop when `key` is above the current node (lines 130-141). */
  method DescendRight<K(!new)>(ghost h: Node<K>, l: Node<K>, ghost small: Shape<K>, t: Node<K>, ghost s: Shape<K>,
                               ghost r: Node<K>, ghost big: Shape<K>, ghost all: set<Node<K>>, key: K, less: (K, K) -> bool)
    returns (stop: bool, t': Node<K>, ghost s': Shape<K>, l': Node<K>, ghost small': Shape<K>)
    requires StrictOrder(less) && Cut(small, s, big, all, key, less) && Linked(h, l, small, t, s, r, big)
    requires less(t.item, key)
    modifies all`left, all`right, l`right
    ensures Cut(small', s', big, all, key, less) && Linked(h, l', small', t', s', r, big)
    ensures if stop then SplitAt(s', key, less) else Size(s') < Size(s)
  {
    t', s', l', small' := t, s, l, small;
    SubtreeKids(s, t);
    if t.right == null {
      StopSplits(s', key, less);
      return true, t', s', l', small';
    }
    if less(t.right.item, key) {
      t', s' := TurnLeft(h, l, small, t, s, r, big, all, key, less);
      SubtreeKids(s', t');
      if t'.right == null {
        StopSplits(s', key, less);
        return true, t', s', l', small';
      }
    }
    stop := false;
    var next, grown := StepLeft(h, l, small, t', s', r, big, all, key, less);
    l', t', s', small' := t', next, s'.right, grown;
  }

  lemma KeyAtRoot<K(!new)>(s: Shape<K>, key: K, less: (K, K) -> bool)
    requires StrictOrder(less) && SplitAt(s, key, less)
    ensures HasKey(Nodes(s), key) <==> s.root.item == key
  {
    if s.root.item == key {
      assert s.root in Nodes(s);
    }
  }

  /** Splitting a tree at a new key and putting the new node in between keeps the search order. */
  lemma InsertedBelow<K(!new)>(s: Shape<K>, n: Node<K>, less: (K, K) -> bool)
    requires StrictOrder(less) && WellFormed(s, less) && SplitAt(s, n.item, less) && n !in Nodes(s)
    requires less(n.item, s.root.item)
    ensures WellFormed(Bin(s.left, n, Bin(Leaf, s.root, s.right)), less)
    ensures Nodes(Bin(s.left, n, Bin(Leaf, s.root, s.right))) == Nodes(s) + {n}
  {
    var rest := Bin(Leaf, s.root, s.right);
    assert Nodes(rest) == {s.root} + Nodes(s.right) && WellFormed(rest, less);
  }

  lemma InsertedAbove<K(!new)>(s: Shape<K>, n: Node<K>, less: (K, K) -> bool)
    requires StrictOrder(less) && WellFormed(s, less) && SplitAt(s, n.item, less) && n !in Nodes(s)
    requires less(s.root.item, n.item)
    ensures WellFormed(Bin(Bin(s.left, s.root, Leaf), n, s.right), less)
    ensures Nodes(Bin(Bin(s.left, s.root, Leaf), n, s.right)) == Nodes(s) + {n}
  {
    var rest := Bin(s.left, s.root, Leaf);
    assert Nodes(rest) == {s.root} + Nodes(s.left) && WellFormed(rest, less);
  }

  /**
   Bring the node with `key` to the root if there is one; otherwise leave at the
   root a node that separates the smaller keys from the larger ones. The nodes
   are re-linked in place: none is added, dropped or changed.
   */
  method Splay<K(!new)>(key: K, root: Node?<K>, less: (K, K) -> bool, ghost s0: Shape<K>, ghost all: set<Node<K>>)
    returns (t: Node?<K>, ghost s: Shape<K>)
    requires StrictOrder(less) && WellFormed(s0, less) && Holds(root, s0) && all == Nodes(s0)
    modifies all`left, all`right
    ensures Nodes(s) == all && WellFormed(s, less) && Holds(t, s)
    ensures root == null <==> t == null
    ensures t != null ==> SplitAt(s, key, less) && (HasKey(all, key) <==> t.item == key)
  {
    t, s := root, s0;
    if t == null {
      return;
    }
    var n: Node<K> := t;
    var h := new Node(key, 0);
    var l: Node<K>, r: Node<K> := h, h;
    ghost var small: Shape<K>, big: Shape<K> := Leaf, Leaf;
    var stop := false;
    while !stop
      invariant fresh(h)
      invariant Cut(small, s, big, all, key, less) && Linked(h, l, small, n, s, r, big)
      invariant stop ==> SplitAt(s, key, less)
      decreases !stop, Size(s)
    {
      if less(key, n.item) {
        stop, n, s, r, big := DescendLeft(h, l, small, n, s, r, big, all, key, less);
      } else if less(n.item, key) {
        stop, n, s, l, small := DescendRight(h, l, small, n, s, r, big, all, key, less);
      } else {
        stop := true;
        StopSplits(s, key, less);
      }
    }
    s := Assemble(h, l, small, n, s, r, big, all, key, less);
    KeyAtRoot(s, key, less);
    t := n;
  }

  /** Insert `key` unless it is already there; the new node, or the old one, becomes the root. */
  method Insert<K(!new)>(key: K, root: Node?<K>, val: nat, less: (K, K) -> bool, ghost s0: Shape<K>, ghost all: set<Node<K>>)
    returns (t: Node<K>, ghost s: Shape<K>)
    requires StrictOrder(less) && WellFormed(s0, less) && Holds(root, s0) && all == Nodes(s0)
    modifies all`left, all`right
    ensures WellFormed(s, less) && Holds(t, s) && t.item == key
    ensures HasKey(all, key) ==> Nodes(s) == all
    ensures !HasKey(all, key) ==>
      fresh(t) && t.val == val && t.next == null && Nodes(s) == all + {t}
  {
    var n := new Node(key, val);
    if root == null {
      return n, Bin(Leaf, n, Leaf);
    }
    var r, s1 := Splay(key, root, less, s0, all);
    SubtreesHold(r, s1);
    if less(key, r.item) {
      n.left := r.left;
      n.right := r;
      r.left := null;
      ghost var rest := Bin(Leaf, r, s1.right);
      InsertedBelow(s1, n, less);
      s := Bin(s1.left, n, rest);
      JoinedHolds(r, rest);
      JoinedHolds(n, s);
      t := n;
    } else if less(r.item, key) {
      n.right := r.right;
      n.left := r;
      r.right := null;
      ghost var rest := Bin(s1.left, r, Leaf);
      InsertedAbove(s1, n, less);
      s := Bin(rest, n, s1.right);
      JoinedHolds(r, rest);
      JoinedHolds(n, s);
      t := n;
    } else {
      t, s := r, s1;
    }
  }
}
