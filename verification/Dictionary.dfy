/**
 The writer's dictionaries (server/lxt2_write.c:1152-1174, 1233-1250, 1332-1375,
 1945-1975): a splay tree for lookup whose nodes are also threaded, in insertion
 order, through their `next` fields. A node's `val` is its position in that chain.
 */
module Dictionaries {
  import opened SplayTree

  ghost function Items<K>(chain: seq<Node<K>>): (items: seq<K>)
    ensures |items| == |chain|
    ensures forall i :: 0 <= i < |chain| ==> items[i] == chain[i].item
  {
    if chain == [] then [] else Items(chain[..|chain| - 1]) + [chain[|chain| - 1].item]
  }

  class Dictionary<K(==, !new)> {
    const less: (K, K) -> bool
    var root: Node?<K>
    var count: nat
    var head: Node?<K>
    var curr: Node?<K>
    ghost var shape: Shape<K>
    ghost var chain: seq<Node<K>>
    ghost var repr: set<Node<K>>

    /** The chain lists exactly the tree's nodes, in insertion order, and `val` is the position. */
    ghost predicate Chained()
      reads this`count, this`chain, this`repr, this`head, this`curr, repr`next
    {
      && count == |chain|
      && (forall i :: 0 <= i < |chain| ==> chain[i] in repr && chain[i].val == i)
      && (forall n :: n in repr ==> n.val < |chain| && chain[n.val] == n)
      && (forall i :: 0 <= i < |chain| - 1 ==> chain[i].next == chain[i + 1])
      && (if chain == [] then head == null && curr == null
          else head == chain[0] && curr == chain[|chain| - 1] && chain[|chain| - 1].next == null)
    }

    ghost predicate Searchable()
      reads this`root, this`shape, this`repr, repr`left, repr`right
    {
      StrictOrder(less) && repr == Nodes(shape) && WellFormed(shape, less) && Holds(root, shape)
    }

    ghost predicate Valid()
      reads this, repr
    {
      var valid := Searchable() && Chained();
      valid
    }

    /** The keys in insertion order. */
    ghost function Contents(): seq<K>
      reads this`chain
    {
      Items(chain)
    }

    constructor (less: (K, K) -> bool)
      requires StrictOrder(less)
      ensures Valid() && this.less == less && Contents() == [] && repr == {}
    {
      this.less := less;
      root, count, head, curr := null, 0, null, null;
      shape, chain, repr := Leaf, [], {};
    }

    lemma KeyInContents(key: K)
      requires Chained()
      ensures HasKey(repr, key) <==> key in Contents()
    {
      if HasKey(repr, key) {
        var n :| n in repr && n.item == key;
        assert Contents()[n.val] == key;
      }
      if key in Contents() {
        var i :| 0 <= i < |Contents()| && Contents()[i] == key;
        assert chain[i] in repr;
      }
    }

    /** Bring `key` to the root (line 1238) and report where it is, if it is there. */
    method Find(key: K) returns (found: bool, idx: nat)
      requires Valid()
      modifies this`root, this`shape, repr`left, repr`right
      ensures Valid()
      ensures found <==> key in Contents()
      ensures found ==> idx < |Contents()| && Contents()[idx] == key
    {
      hide HasKey;
      KeyInContents(key);
      root, shape := Splay(key, root, less, shape, repr);
      assert Chained();
      found, idx := false, 0;
      if root != null && root.item == key {
        assert root in repr;
        found, idx := true, root.val;
      }
    }

    /** Put the root, a new node, at the end of the chain (lines 1159-1170 and 1956-1969). */
    method Append()
      requires root != null && root !in repr && root.val == count && root.next == null && Chained()
      requires StrictOrder(less) && Nodes(shape) == repr + {root} && WellFormed(shape, less) && Holds(root, shape)
      modifies this`count, this`chain, this`repr, this`head, this`curr, repr`next
      ensures Valid() && repr == old(repr) + {root}
      ensures Contents() == old(Contents()) + [root.item]
    {
      var t: Node<K> := root;
      if curr != null {
        curr.next := t;
        curr := t;
      } else {
        head, curr := t, t;
      }
      chain := chain + [t];
      repr := repr + {t};
      count := count + 1;
      assert Searchable();
      assert Chained();
    }

    /** Look `key` up, adding it at the end of the chain if it is new (lines 1154-1171 and 1947-1974). */
    method Intern(key: K) returns (idx: nat)
      requires Valid()
      modifies this, repr
      ensures Valid() && fresh(repr - old(repr))
      ensures Contents() == if key in old(Contents()) then old(Contents()) else old(Contents()) + [key]
      ensures idx < |Contents()| && Contents()[idx] == key
    {
      var found, at := Find(key);
      if found {
        return at;
      }
      idx := count;
      Add(key);
    }

    method Add(key: K)
      requires Valid() && key !in Contents()
      modifies this, repr
      ensures Valid() && fresh(repr - old(repr))
      ensures Contents() == old(Contents()) + [key]
    {
      KeyInContents(key);
      root, shape := Insert(key, root, count, less, shape, repr);
      assert Chained();
      Append();
    }

    /**
     Walk the chain at the end of a section (lines 1332-1350 and 1353-1375) and empty the
     dictionary. The source stops with an internal error if a node's `val` is not its position.
     */
    method Drain() returns (items: seq<K>)
      requires Valid()
      modifies this
      ensures Valid() && Contents() == [] && repr == {}
      ensures items == old(Contents())
    {
      items := [];
      var d := head;
      var i := 0;
      while i < count
        invariant 0 <= i <= count
        invariant d == if i < count then chain[i] else null
        invariant items == Contents()[..i]
      {
        if d.val != i {
          assert false;  // the "internal error" exit
        }
        items := items + [d.item];
        d := d.next;
        i := i + 1;
      }
      root, count, head, curr := null, 0, null, null;
      shape, chain, repr := Leaf, [], {};
    }
  }
}
