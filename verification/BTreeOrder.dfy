/** When the leaf chain runs through the children from left to right: exactly while no split
    hands its parent a separator that is already there. */
module BTreeOrder {
  import opened Core
  import opened Sequences
  import opened SortedList
  import opened LeafLists
  import opened BTree
  import opened BTreeInsert
  import opened BTreeRuns
  import opened BTreeChain

  /** The insert does not split a leaf below an internal root, or the first key of the upper
      half differs from the separator on the right of the leaf. */
  predicate InOrder(s: Store, root: nat, key: Int64)
    requires Shape(s, root)
  {
    var i, g := ChildFor(s, root, key), Place(s[Target(s, root, key)].es, (key, 0));
    |g| < MAX_KEYS || s[root].Leaf? || i == |Seps(s, root)| || g[125].0 != Seps(s, root)[i]
  }

  // ---------------------------------------------------------------------
  // One insert
  // ---------------------------------------------------------------------

  /** The grown list stays sorted and between its separators. */
  lemma {:induction false} GrowOrders(l: Lists, seps: seq<Int64>, i: nat, e: Entry)
    requires Ordered(l, seps) && i < |l|
    requires i > 0 ==> seps[i - 1] <= e.0
    requires i < |seps| ==> e.0 < seps[i]
    ensures var g := Place(l[i], e);
            && Sorted(g) && Ordered(l[i := g], seps)
            && (i > 0 ==> AllGe(g, seps[i - 1]))
            && (i < |seps| ==> AllLe(g, seps[i]))
  {
    hide Place;
    var g := Place(l[i], e);
    PlaceKeepsSorted(l[i], e);
    if i > 0 {
      assert AllGe(l[i], seps[i - 1]);
      PlaceBounds(l[i], e, seps[i - 1]);
    }
    if i < |seps| {
      assert AllLe(l[i], seps[i]);
      PlaceBounds(l[i], e, seps[i] as int + 1);
    }
    ReplaceOrders(l, seps, i, g);
  }

  lemma {:induction false} ReplaceOrders(l: Lists, seps: seq<Int64>, i: nat, g: seq<Entry>)
    requires Ordered(l, seps) && i < |l| && Sorted(g)
    requires i > 0 ==> AllGe(g, seps[i - 1])
    requires i < |seps| ==> AllLe(g, seps[i])
    ensures Ordered(l[i := g], seps)
  {
    var l' := l[i := g];
    forall j | 0 <= j < |seps| ensures AllLe(l'[j], seps[j]) {
      assert j != i ==> l'[j] == l[j];
    }
    forall j | 1 <= j < |l'| ensures AllGe(l'[j], seps[j - 1]) {
      assert j != i ==> l'[j] == l[j];
    }
  }

  /** The grown leaf cut at 125: the lists stay ordered with the new separator in place i, and
      that is where the parent puts it unless the separator on the right is the same. */
  lemma {:induction false} CutInPlace(l: Lists, seps: seq<Int64>, i: nat, e: Entry)
    requires Ordered(l, seps) && i < |l| && |l[i]| == 249
    requires i > 0 ==> seps[i - 1] <= e.0
    requires i < |seps| ==> e.0 < seps[i]
    ensures var g := Place(l[i], e);
            var l' := l[..i] + [g[..125], g[125..]] + l[i + 1..];
            && Ordered(l', seps[..i] + [g[125].0] + seps[i..])
            && Flatten(l') == Place(Flatten(l), e)
            && (Upper(seps, g[125].0) == i <==> i == |seps| || g[125].0 != seps[i])
            && Upper(seps, g[125].0) >= i
  {
    hide Place, Flatten;
    PlaceAdds(l[i], e);
    var g := Place(l[i], e);
    assert |g| == |multiset(g)| == 250;
    GrowOrders(l, seps, i, e);
    PlaceInList(l, seps, i, e);
    var grown := l[i := g];
    CutOrders(grown, seps, i, 125);
    assert grown[..i] == l[..i] && grown[i + 1..] == l[i + 1..];
    assert g == g[..125] + g[125..];
    FlattenPieces(l, i, g[..125], g[125..]);
    SlotFor(l, seps, i, g[125].0);
  }

  lemma {:induction false} SlotFor(l: Lists, seps: seq<Int64>, i: nat, u: Int64)
    requires Ordered(l, seps) && i <= |seps| && (i > 0 ==> seps[i - 1] <= u) && (i < |seps| ==> u <= seps[i])
    ensures Upper(seps, u) == i <==> i == |seps| || u != seps[i]
    ensures Upper(seps, u) >= i
  {
    if i == |seps| || u != seps[i] {
      ParentSlot(seps, i, u);
    } else {
      UpperBeyond(l, seps, i);
    }
  }

  /** On any ordered and chained tree: the chain still runs through the children from left to
      right if and only if the insert is in order; then the tree stays ordered and holds the
      flat list with the pair placed in it. */
  lemma {:induction false} InsertInOrderIff(s: Store, root: nat, key: Int64, ptr: UInt64)
    requires Linked(s, root) && |s| + 2 <= 0x7FFF_FFFF && !IsFull(s, root, key)
    ensures var o := Insert(s, root, key, ptr);
            && o.ok && Shape(o.store, o.root)
            && (Chain(o.store, Kids(o.store, o.root)) <==> InOrder(s, root, key))
            && (Linked(o.store, o.root) <==> InOrder(s, root, key))
            && (InOrder(s, root, key) ==> Contents(o.store, o.root) == Place(Contents(s, root), (key, ptr)))
  {
    hide BTree.Insert, Place, Flatten, Ordered;
    var es := s[Target(s, root, key)].es;
    InsertKeepsShape(s, root, key, ptr);
    GrownSize(es, key, ptr);
    GrownSize(es, key, 0);
    if |es| + 1 < MAX_KEYS {
      GrowLinked(s, root, key, ptr);
    } else if s[root].Leaf? {
      RootCutLinked(s, root, key, ptr);
    } else {
      PlaceKeysOnly(es, key, ptr, 0, 125);
      ParentCutIff(s, root, key, ptr);
    }
  }

  lemma {:induction false} GrownSize(es: seq<Entry>, key: Int64, ptr: UInt64)
    ensures |Place(es, (key, ptr))| == |es| + 1
  {
    hide Place;
    PlaceAdds(es, (key, ptr));
    assert |Place(es, (key, ptr))| == |multiset(Place(es, (key, ptr)))|;
  }

  lemma {:induction false} GrowLinked(s: Store, root: nat, key: Int64, ptr: UInt64)
    requires Linked(s, root) && |s[Target(s, root, key)].es| + 1 < MAX_KEYS
    ensures var o := Insert(s, root, key, ptr);
            Linked(o.store, o.root) && Contents(o.store, o.root) == Place(Contents(s, root), (key, ptr))
  {
    hide BTree.Insert, Place, Flatten, Chain, Ordered;
    var i := ChildFor(s, root, key);
    NoSplitLists(s, root, key, ptr);
    GrowOrders(TreeLists(s, root), Seps(s, root), i, (key, ptr));
    PlaceInList(TreeLists(s, root), Seps(s, root), i, (key, ptr));
  }

  lemma {:induction false} RootCutLinked(s: Store, root: nat, key: Int64, ptr: UInt64)
    requires Linked(s, root) && |s| + 2 <= 0x7FFF_FFFF && s[root].Leaf? && |s[root].es| + 1 == MAX_KEYS
    ensures var o := Insert(s, root, key, ptr);
            Linked(o.store, o.root) && Contents(o.store, o.root) == Place(Contents(s, root), (key, ptr))
  {
    hide BTree.Insert, Place, Flatten, Chain, Ordered;
    var l, g := TreeLists(s, root), Place(s[root].es, (key, ptr));
    RootSplitLists(s, root, key, ptr);
    CutInPlace(l, [], 0, (key, ptr));
    assert l[..0] + [g[..125], g[125..]] + l[1..] == [g[..125], g[125..]];
    var none: seq<Int64> := [];
    assert none[..0] + [g[125].0] + none[0..] == [g[125].0];
  }

  lemma {:induction false} ParentCutIff(s: Store, root: nat, key: Int64, ptr: UInt64)
    requires Linked(s, root) && |s| + 2 <= 0x7FFF_FFFF
    requires s[root].Inner? && !IsFull(s, root, key) && |s[Target(s, root, key)].es| + 1 == MAX_KEYS
    ensures var o := Insert(s, root, key, ptr);
            var i, g := ChildFor(s, root, key), Place(s[Target(s, root, key)].es, (key, ptr));
            var fits := i == |Seps(s, root)| || g[125].0 != Seps(s, root)[i];
            && Shape(o.store, o.root)
            && (Chain(o.store, Kids(o.store, o.root)) <==> fits)
            && (fits ==> Linked(o.store, o.root) && Contents(o.store, o.root) == Place(Contents(s, root), (key, ptr)))
  {
    hide BTree.Insert, Place, Flatten, Ordered, CutLeaf;
    var o, kids, i := Insert(s, root, key, ptr), Kids(s, root), ChildFor(s, root, key);
    var l, seps := TreeLists(s, root), Seps(s, root);
    var g := Place(l[i], (key, ptr));
    CutInPlace(l, seps, i, (key, ptr));
    ParentSplitLists(s, root, key, ptr);
    if Upper(seps, g[125].0) == i {
      CutTwice(l, i, g[..125], g[125..]);
      ParentCutChain(s, root, key, ptr);
    } else {
      ParentCutUnchained(s, root, key, ptr);
    }
  }

  lemma {:induction false} ParentCutChain(s: Store, root: nat, key: Int64, ptr: UInt64)
    requires Linked(s, root) && |s| + 2 <= 0x7FFF_FFFF
    requires s[root].Inner? && !IsFull(s, root, key) && |s[Target(s, root, key)].es| + 1 == MAX_KEYS
    requires Upper(Seps(s, root), Place(s[Target(s, root, key)].es, (key, ptr))[125].0) == ChildFor(s, root, key)
    ensures var o := Insert(s, root, key, ptr); Shape(o.store, o.root) && Chain(o.store, Kids(o.store, o.root))
  {
    var o, kids, i := Insert(s, root, key, ptr), Kids(s, root), ChildFor(s, root, key);
    var g := Place(s[kids[i]].es, (key, ptr));
    ParentSplitLists(s, root, key, ptr);
    assert root !in kids;
    CutChain(s, kids, i, g, root, o.store[root], Kids(o.store, root));
    assert o.store == CutLeaf(s, kids[i], g)[root := o.store[root]];
  }

  /** The cut leaf points to the fresh page, which is not the next child. */
  lemma {:induction false} ParentCutUnchained(s: Store, root: nat, key: Int64, ptr: UInt64)
    requires Linked(s, root) && |s| + 2 <= 0x7FFF_FFFF
    requires s[root].Inner? && !IsFull(s, root, key) && |s[Target(s, root, key)].es| + 1 == MAX_KEYS
    requires Upper(Seps(s, root), Place(s[Target(s, root, key)].es, (key, ptr))[125].0) > ChildFor(s, root, key)
    ensures var o := Insert(s, root, key, ptr); Shape(o.store, o.root) && !Chain(o.store, Kids(o.store, o.root))
  {
    hide BTree.Insert, Place, Chain, Ordered, LeavesOf, Distinct;
    var o, kids, i := Insert(s, root, key, ptr), Kids(s, root), ChildFor(s, root, key);
    ParentSplitLists(s, root, key, ptr);
    CutNext(s, root, key, ptr);
    SpliceLater(kids, Upper(Seps(s, root), Place(s[kids[i]].es, (key, ptr))[125].0) + 1, i, |s|);
    assert kids[i + 1] < |s|;
    NotChained(o.store, Kids(o.store, o.root), i);
  }

  lemma {:induction false} CutNext(s: Store, root: nat, key: Int64, ptr: UInt64)
    requires Shape(s, root) && |s| + 2 <= 0x7FFF_FFFF && s[root].Inner? && |s[Target(s, root, key)].es| + 1 == MAX_KEYS
    ensures var o, c := Insert(s, root, key, ptr), Target(s, root, key);
            c < |o.store| && o.store[c].Leaf? && o.store[c].next == |s|
  {
    hide BTree.Insert, Place, CutLeaf, LeavesOf;
    var c, i := Target(s, root, key), ChildFor(s, root, key);
    OutcomeIs(s, root, key, ptr);
    CutLeafLists(s, Kids(s, root), i, Place(s[c].es, (key, ptr)));
    assert c != root;
  }

  /** A page put in further right does not come next. */
  lemma {:induction false} SpliceLater(kids: seq<UInt64>, p: nat, i: nat, page: UInt64)
    requires i + 1 < p <= |kids|
    ensures var r := kids[..p] + [page] + kids[p..]; r[i] == kids[i] && r[i + 1] == kids[i + 1]
  {
  }

  lemma {:induction false} NotChained(s: Store, kids: seq<UInt64>, i: nat)
    requires Leaves(s, kids) && i + 1 < |kids| && s[kids[i]].next != kids[i + 1]
    ensures !Chain(s, kids)
  {
    assert Next(kids, i) == kids[i + 1];
  }

  // ---------------------------------------------------------------------
  // Whole runs
  // ---------------------------------------------------------------------

  ghost predicate InOrderRun(s: Store, root: nat, ops: seq<Entry>)
    requires Shape(s, root) && |s| + 2 * |ops| <= 0x7FFF_FFFF && Run(s, root, ops).ok
    decreases |ops|
  {
    ops == [] ||
    (InsertKeepsShape(s, root, ops[0].0, ops[0].1);
     InsertFrame(s, root, ops[0].0, ops[0].1);
     var o := Insert(s, root, ops[0].0, ops[0].1);
     InOrder(s, root, ops[0].0) && InOrderRun(o.store, o.root, ops[1..]))
  }

  /** Along the run the chain always goes through the children from left to right. */
  ghost predicate ChainFollowsKids(s: Store, root: nat, ops: seq<Entry>)
    requires Shape(s, root) && |s| + 2 * |ops| <= 0x7FFF_FFFF && Run(s, root, ops).ok
    decreases |ops|
  {
    && Chain(s, Kids(s, root))
    && (ops == [] ||
        (InsertKeepsShape(s, root, ops[0].0, ops[0].1);
         InsertFrame(s, root, ops[0].0, ops[0].1);
         var o := Insert(s, root, ops[0].0, ops[0].1);
         ChainFollowsKids(o.store, o.root, ops[1..])))
  }

  /** Over every run without errors, for any keys: the chain goes through the children from
      left to right at every point if and only if every insert is in order; and then the tree
      is ordered and holds the flat sorted list, whether its splits were clean or not. */
  lemma {:induction false} RunInOrderIff(s: Store, root: nat, ops: seq<Entry>)
    requires Linked(s, root) && |s| + 2 * |ops| <= 0x7FFF_FFFF && Run(s, root, ops).ok
    ensures ChainFollowsKids(s, root, ops) <==> InOrderRun(s, root, ops)
    ensures InOrderRun(s, root, ops) ==>
              var o := Run(s, root, ops);
              Linked(o.store, o.root) && Contents(o.store, o.root) == PlaceAll(Contents(s, root), ops)
    decreases |ops|
  {
    hide BTree.Insert, Contents, InOrder, Ordered, Chain;
    if ops != [] {
      var key, ptr := ops[0].0, ops[0].1;
      InsertKeepsShape(s, root, key, ptr);
      InsertFrame(s, root, key, ptr);
      InsertInOrderIff(s, root, key, ptr);
      var o := Insert(s, root, key, ptr);
      if InOrder(s, root, key) {
        RunInOrderIff(o.store, o.root, ops[1..]);
      } else {
        assert !ChainFollowsKids(o.store, o.root, ops[1..]);
      }
    }
  }
}
