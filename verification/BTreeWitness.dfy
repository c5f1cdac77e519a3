/** Equal keys straddling a split: the input on which an index loses rows. */
module BTreeWitness {
  import opened Core
  import opened SortedList
  import opened LeafLists
  import opened BTree
  import opened BTreeInsert
  import opened BTreeRuns
  import opened BTreeOrder

  ghost predicate AllKeys(es: seq<Entry>, k: Int64) {
    forall i :: 0 <= i < |es| ==> es[i].0 == k
  }

  lemma {:induction false} PlaceAllKeys(es: seq<Entry>, k: Int64, ptr: UInt64)
    requires AllKeys(es, k)
    ensures AllKeys(Place(es, (k, ptr)), k) && |Place(es, (k, ptr))| == |es| + 1
  {
    PlaceAdds(es, (k, ptr));
    var g := Place(es, (k, ptr));
    assert |g| == |multiset(g)|;
    forall i | 0 <= i < |g| ensures g[i].0 == k {
      assert g[i] in multiset(g);
    }
  }

  /** The 250th equal key splits the leaf between equal keys; the seek then skips the lower half. */
  lemma {:induction false} EqualSplitLosesKey(s: Store, root: nat, k: Int64, ptr: UInt64)
    requires Strict(s, root) && s[root].Leaf? && AllKeys(s[root].es, k) && |s[root].es| == 249 && |s| + 2 <= 0x7FFF_FFFF
    ensures var o := Insert(s, root, k, ptr);
            && o.ok && Linked(o.store, o.root) && !SplitIsClean(s, root, k)
            && Seek(o.store, o.root, k) != Under(Contents(o.store, o.root), k)
  {
    hide BTree.Insert, Seek, Contents, Under;
    PlaceAllKeys(s[root].es, k, ptr);
    PlaceAllKeys(s[root].es, k, 0);
    RootSplitLists(s, root, k, ptr);
    InsertRefinesPlace(s, root, k, ptr);
    var o, g := Insert(s, root, k, ptr), Place(s[root].es, (k, ptr));
    assert TreeLists(o.store, o.root)[0] == g[..125];
    MissedKey(o.store, o.root, 0, 124);
  }

  /** 250 inserts of one key into a leaf root end in an index whose seek for that key is not
      exact, whatever row ids were inserted. */
  lemma {:induction false} EqualKeysAreLost(s: Store, root: nat, k: Int64, ops: seq<Entry>)
    requires Strict(s, root) && s[root].Leaf? && AllKeys(s[root].es, k) && AllKeys(ops, k)
    requires ops != [] && |s[root].es| + |ops| == 250 && |s| + 2 * |ops| <= 0x7FFF_FFFF
    ensures var o := Run(s, root, ops);
            o.ok && Seek(o.store, o.root, k) != Under(Contents(o.store, o.root), k)
    decreases |ops|
  {
    hide BTree.Insert, Seek, Contents, Under;
    var ptr := ops[0].1;
    assert ops[0] == (k, ptr);
    if |ops| == 1 {
      EqualSplitLosesKey(s, root, k, ptr);
      assert ops[1..] == [];
    } else {
      LeafInsert(s, root, k, ptr);
      PlaceAllKeys(s[root].es, k, ptr);
      var o := Insert(s, root, k, ptr);
      assert AllKeys(ops[1..], k);
      EqualKeysAreLost(o.store, o.root, k, ops[1..]);
    }
  }

  // ---------------------------------------------------------------------
  // Smaller keys after such a split: the chain leaves the order of the children
  // ---------------------------------------------------------------------

  /** Two leaves around the separator k: n smaller keys and 125 times k in the first, 125 times
      k in the second. */
  ghost predicate Straddling(s: Store, root: nat, k: Int64, n: nat) {
    && Linked(s, root) && Seps(s, root) == [k]
    && var l := TreeLists(s, root);
       && |l| == 2 && |l[0]| == n + 125 && |l[1]| == 125
       && AllLt(l[0][..n], k) && AllKeys(l[0][n..], k) && AllKeys(l[1], k)
  }

  /** What the 250th equal key leaves behind. */
  lemma {:induction false} EqualSplitStraddles(s: Store, root: nat, k: Int64, ptr: UInt64)
    requires Strict(s, root) && s[root].Leaf? && AllKeys(s[root].es, k) && |s[root].es| == 249 && |s| + 2 <= 0x7FFF_FFFF
    ensures var o := Insert(s, root, k, ptr); o.ok && Straddling(o.store, o.root, k, 0)
  {
    hide BTree.Insert, Contents;
    PlaceAllKeys(s[root].es, k, ptr);
    RootSplitLists(s, root, k, ptr);
    InsertRefinesPlace(s, root, k, ptr);
  }

  /** The first leaf with one more smaller key. */
  lemma {:induction false} SmallerPlaced(es: seq<Entry>, n: nat, k: Int64, e: Entry)
    requires n <= |es| && AllLt(es[..n], k) && AllKeys(es[n..], k) && e.0 < k
    ensures var g := Place(es, e);
            |g| == |es| + 1 && AllLt(g[..n + 1], k) && AllKeys(g[n + 1..], k)
  {
    var a, b := es[..n], es[n..];
    assert es == a + b;
    PlaceBefore(a, b, e);
    PlaceBounds(a, e, k);
    GrownSize(a, e.0, e.1);
    assert (Place(a, e) + b)[..n + 1] == Place(a, e) && (Place(a, e) + b)[n + 1..] == b;
  }

  lemma {:induction false} GoesFirst(s: Store, root: nat, k: Int64, n: nat, key: Int64)
    requires Straddling(s, root, k, n) && key < k
    ensures ChildFor(s, root, key) == 0 && s[root].Inner? && s[Target(s, root, key)].es == TreeLists(s, root)[0]
    ensures !IsFull(s, root, key)
  {
  }

  lemma {:induction false} OneSmaller(s: Store, root: nat, k: Int64, n: nat, e: Entry)
    requires Straddling(s, root, k, n) && n < 124 && e.0 < k && |s| + 2 <= 0x7FFF_FFFF
    ensures var o := Insert(s, root, e.0, e.1); o.ok && Straddling(o.store, o.root, k, n + 1)
  {
    hide BTree.Insert, Place, Contents, Ordered, Chain;
    GoesFirst(s, root, k, n, e.0);
    SmallerPlaced(TreeLists(s, root)[0], n, k, e);
    GrownSize(TreeLists(s, root)[0], e.0, 0);
    NoSplitLists(s, root, e.0, e.1);
    InsertInOrderIff(s, root, e.0, e.1);
  }

  lemma {:induction false} LastSmaller(s: Store, root: nat, k: Int64, e: Entry)
    requires Straddling(s, root, k, 124) && e.0 < k && |s| + 2 <= 0x7FFF_FFFF
    ensures var o := Insert(s, root, e.0, e.1);
            o.ok && Shape(o.store, o.root) && !InOrder(s, root, e.0) && !Chain(o.store, Kids(o.store, o.root))
  {
    hide BTree.Insert, Place, Contents, Ordered, Chain;
    GoesFirst(s, root, k, 124, e.0);
    var g := Place(TreeLists(s, root)[0], (e.0, 0));
    SmallerPlaced(TreeLists(s, root)[0], 124, k, (e.0, 0));
    assert g[125] == g[125..][0];
    InsertInOrderIff(s, root, e.0, e.1);
  }

  lemma {:induction false} SmallerKeys(s: Store, root: nat, k: Int64, n: nat, ops: seq<Entry>)
    requires Straddling(s, root, k, n) && AllLt(ops, k) && ops != [] && n + |ops| == 125
    requires |s| + 2 * |ops| <= 0x7FFF_FFFF
    ensures var o := Run(s, root, ops); o.ok && !Chain(o.store, Kids(o.store, o.root))
    decreases |ops|
  {
    hide BTree.Insert, Straddling, Chain;
    StraddlingShape(s, root, k, n);
    assert ops[0].0 < k;
    InsertFrame(s, root, ops[0].0, ops[0].1);
    if |ops| == 1 {
      LastSmaller(s, root, k, ops[0]);
      assert ops[1..] == [];
    } else {
      OneSmaller(s, root, k, n, ops[0]);
      var o := Insert(s, root, ops[0].0, ops[0].1);
      assert AllLt(ops[1..], k);
      SmallerKeys(o.store, o.root, k, n + 1, ops[1..]);
    }
  }

  lemma {:induction false} StraddlingShape(s: Store, root: nat, k: Int64, n: nat)
    requires Straddling(s, root, k, n)
    ensures Shape(s, root)
  {
  }

  /** A key inserted 250 times into a leaf root and then 125 smaller ones: all inserts succeed,
      and the chain no longer goes through the children from left to right. */
  lemma {:induction false} ChainLeavesOrder(s: Store, root: nat, k: Int64, equal: seq<Entry>, smaller: seq<Entry>)
    requires Strict(s, root) && s[root].Leaf? && AllKeys(s[root].es, k)
    requires AllKeys(equal, k) && equal != [] && |s[root].es| + |equal| == 250
    requires AllLt(smaller, k) && |smaller| == 125 && |s| + 2 * |equal + smaller| <= 0x7FFF_FFFF
    ensures var o := Run(s, root, equal + smaller); o.ok && !Chain(o.store, Kids(o.store, o.root))
    decreases |equal|
  {
    hide BTree.Insert, Chain, Contents, Ordered;
    var ptr, ops := equal[0].1, equal + smaller;
    assert ops[0] == equal[0] == (k, ptr) && ops[1..] == equal[1..] + smaller;
    InsertFrame(s, root, k, ptr);
    var o := Insert(s, root, k, ptr);
    if |equal| == 1 {
      EqualSplitStraddles(s, root, k, ptr);
      assert ops[1..] == smaller;
      SmallerKeys(o.store, o.root, k, 0, smaller);
    } else {
      LeafInsert(s, root, k, ptr);
      PlaceAllKeys(s[root].es, k, ptr);
      assert AllKeys(equal[1..], k);
      ChainLeavesOrder(o.store, o.root, k, equal[1..], smaller);
    }
  }
}
