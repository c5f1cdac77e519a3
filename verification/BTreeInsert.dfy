/** What insertion keeps: the shape and the bag of entries for any keys, and the
    order of a sorted list exactly as long as splits fall between different keys. */
module BTreeInsert {
  import opened Core
  import opened Sequences
  import opened SortedList
  import opened LeafLists
  import opened BTree

  // ---------------------------------------------------------------------
  // The three ways an insert can go, on the lists of leaves
  // ---------------------------------------------------------------------

  lemma {:induction false} NoSplitLists(s: Store, root: nat, key: Int64, ptr: UInt64)
    requires Shape(s, root) && |s[Target(s, root, key)].es| + 1 < MAX_KEYS
    ensures var o := Insert(s, root, key, ptr);
            var i := ChildFor(s, root, key);
            && o.ok && Shape(o.store, o.root)
            && Kids(o.store, o.root) == Kids(s, root) && Seps(o.store, o.root) == Seps(s, root)
            && TreeLists(o.store, o.root) == TreeLists(s, root)[i := Place(TreeLists(s, root)[i], (key, ptr))]
            && (Chain(s, Kids(s, root)) ==> Chain(o.store, Kids(o.store, o.root)))
  {
    var kids, i := Kids(s, root), ChildFor(s, root, key);
    var t := Insert(s, root, key, ptr).store;
    assert forall j :: 0 <= j < |kids| && j != i ==> t[kids[j]] == s[kids[j]];
    assert Leaves(t, kids);
  }

  lemma {:induction false} RootSplitLists(s: Store, root: nat, key: Int64, ptr: UInt64)
    requires Shape(s, root) && |s| + 2 <= 0x7FFF_FFFF
    requires s[root].Leaf? && |s[root].es| + 1 == MAX_KEYS
    ensures var o := Insert(s, root, key, ptr);
            var g := Place(s[root].es, (key, ptr));
            && o.ok && Shape(o.store, o.root)
            && Kids(o.store, o.root) == [root, |s|] && Seps(o.store, o.root) == [g[125].0]
            && TreeLists(o.store, o.root) == [g[..125], g[125..]]
            && (Chain(s, Kids(s, root)) ==> Chain(o.store, Kids(o.store, o.root)))
  {
  }

  lemma {:induction false} InsertedDistinct(kids: seq<UInt64>, p: nat, c: UInt64)
    requires Distinct(kids) && p <= |kids| && c !in kids
    ensures Distinct(kids[..p] + [c] + kids[p..])
  {
  }

  /** The store after cutting a leaf below an internal root, before the root is rewritten. */
  lemma {:induction false} CutLeafLists(s: Store, kids: seq<UInt64>, i: nat, g: seq<Entry>)
    requires Leaves(s, kids) && Distinct(kids) && i < |kids| && |s| < 0x7FFF_FFFF
    ensures var t, m := CutLeaf(s, kids[i], g), |g| / 2;
            && |t| == |s| + 1 && Leaves(t, kids)
            && LeavesOf(t, kids) == LeavesOf(s, kids)[i := g[..m]]
            && t[kids[i]] == Leaf(g[..m], |s|) && t[|s|] == Leaf(g[m..], s[kids[i]].next)
            && (forall j :: 0 <= j < |kids| && j != i ==> t[kids[j]] == s[kids[j]])
  {
    var t := CutLeaf(s, kids[i], g);
    assert forall j :: 0 <= j < |kids| && j != i ==> t[kids[j]] == s[kids[j]];
  }

  lemma {:induction false} ParentSplitLists(s: Store, root: nat, key: Int64, ptr: UInt64)
    requires Shape(s, root) && |s| + 2 <= 0x7FFF_FFFF
    requires s[root].Inner? && !IsFull(s, root, key) && |s[Target(s, root, key)].es| + 1 == MAX_KEYS
    ensures var o := Insert(s, root, key, ptr);
            var kids, i := Kids(s, root), ChildFor(s, root, key);
            var g := Place(TreeLists(s, root)[i], (key, ptr));
            var p := Upper(Seps(s, root), g[125].0) + 1;
            var cut := TreeLists(s, root)[i := g[..125]];
            && o.ok && o.root == root && Shape(o.store, o.root)
            && Kids(o.store, o.root) == kids[..p] + [|s|] + kids[p..]
            && Seps(o.store, o.root) == Seps(s, root)[..p - 1] + [g[125].0] + Seps(s, root)[p - 1..]
            && TreeLists(o.store, o.root) == cut[..p] + [g[125..]] + cut[p..]
  {
    var kids, i := Kids(s, root), ChildFor(s, root, key);
    var g := Place(s[kids[i]].es, (key, ptr));
    var t := CutLeaf(s, kids[i], g);
    CutLeafLists(s, kids, i, g);
    var parent := AddChild(s[root], g[125].0, |s|);
    var p := Upper(Seps(s, root), g[125].0) + 1;
    assert |parent.seps| == |s[root].seps| + 1;
    assert Insert(s, root, key, ptr) == Outcome(t[root := parent], root, true);
    assert |s| !in kids;
    InsertedDistinct(kids, p, |s|);
    ParentKids(s, t, root, parent, p);
    hide Insert, CutLeaf, IsFull, Upper, Place, Distinct, LeavesOf;
    ParentShape(s, t, t[root := parent], root, kids, i, p, g);
  }

  /** Rewriting the root changes none of its children. */
  lemma {:induction false} ParentKids(s: Store, t: Store, root: nat, parent: Node, p: nat)
    requires Shape(s, root) && s[root].Inner? && |t| == |s| + 1 && t[|s|].Leaf? && p <= |s[root].kids|
    requires parent.Inner? && parent.kids == s[root].kids[..p] + [|s|] + s[root].kids[p..]
    ensures forall j :: 0 <= j < |parent.kids| ==>
              parent.kids[j] < |t| && t[root := parent][parent.kids[j]] == t[parent.kids[j]]
  {
    var kids := s[root].kids;
    forall j | 0 <= j < |parent.kids| ensures parent.kids[j] < |t| && parent.kids[j] != root {
      assert j < p ==> parent.kids[j] == kids[j];
      assert j > p ==> parent.kids[j] == kids[j - 1];
    }
  }

  lemma {:induction false} ParentShape(s: Store, t: Store, t': Store, root: nat, kids: seq<UInt64>, i: nat, p: nat,
                                       g: seq<Entry>)
    requires Shape(s, root) && s[root].Inner? && kids == s[root].kids && i < |kids| && p <= |kids|
    requires |t| == |s| + 1 == |t'| < 0x7FFF_FFFF && Leaves(t, kids) && |g| == 250
    requires t[kids[i]].es == g[..125] && t[|s|].Leaf? && t[|s|].es == g[125..]
    requires forall j :: 0 <= j < |kids| && j != i ==> t[kids[j]] == s[kids[j]]
    requires var kids' := kids[..p] + [|s|] + kids[p..];
             && Distinct(kids') && t'[root].Inner? && t'[root].kids == kids'
             && (forall j :: 0 <= j < |kids'| ==> kids'[j] < |t'| && t'[kids'[j]] == t[kids'[j]])
    requires 1 <= |t'[root].seps| < MAX_KEYS && |t'[root].kids| == |t'[root].seps| + 1
    ensures Shape(t', root)
    ensures TreeLists(t', root) == LeavesOf(t, kids)[..p] + [g[125..]] + LeavesOf(t, kids)[p..]
  {
    var kids' := kids[..p] + [|s|] + kids[p..];
    forall j | 0 <= j < |kids'| ensures t'[kids'[j]].Leaf? && 125 <= |t'[kids'[j]].es| < MAX_KEYS {
      if j != p {
        assert kids'[j] == if j < p then kids[j] else kids[j - 1];
      }
    }
  }

  // ---------------------------------------------------------------------
  // Any keys: shape, conservation, frame, failure
  // ---------------------------------------------------------------------

  lemma {:induction false} ReplaceBag(l: Lists, i: nat, x: seq<Entry>)
    requires i < |l|
    ensures multiset(Flatten(l[i := x])) + multiset(l[i]) == multiset(Flatten(l)) + multiset(x)
  {
    FlattenSplit(l, i);
    FlattenSplit(l[i := x], i);
    assert l[i := x][..i] == l[..i] && l[i := x][i + 1..] == l[i + 1..];
  }

  /** For any keys: the tree keeps its shape; the insert fails exactly when the target
      leaf and the internal root are both full, and otherwise the tree gains exactly
      the new entry. */
  lemma {:induction false} InsertKeepsShape(s: Store, root: nat, key: Int64, ptr: UInt64)
    requires Shape(s, root) && |s| + 2 <= 0x7FFF_FFFF
    ensures var o := Insert(s, root, key, ptr);
            && (o.ok <==> !IsFull(s, root, key))
            && Shape(o.store, o.root)
            && (o.ok ==> multiset(Contents(o.store, o.root)) == multiset(Contents(s, root)) + multiset{(key, ptr)})
  {
    if |s[Target(s, root, key)].es| + 1 < MAX_KEYS {
      NoSplitBag(s, root, key, ptr);
    } else if s[root].Leaf? {
      RootSplitBag(s, root, key, ptr);
    } else if !IsFull(s, root, key) {
      ParentSplitBag(s, root, key, ptr);
    } else {
      FailureKeepsShape(s, root, key, ptr);
    }
  }

  /** Even a failed insert leaves a readable tree: the root still has its children. */
  lemma {:induction false} FailureKeepsShape(s: Store, root: nat, key: Int64, ptr: UInt64)
    requires Shape(s, root) && |s| + 2 <= 0x7FFF_FFFF && IsFull(s, root, key)
    ensures !Insert(s, root, key, ptr).ok && Shape(Insert(s, root, key, ptr).store, root)
  {
    hide BTree.Insert, CutLeaf, Place, AddChild;
    var kids, i := Kids(s, root), ChildFor(s, root, key);
    InsertCases(s, root, key, ptr);
    CutLeafLists(s, kids, i, Place(s[kids[i]].es, (key, ptr)));
  }

  lemma {:induction false} NoSplitBag(s: Store, root: nat, key: Int64, ptr: UInt64)
    requires Shape(s, root) && |s[Target(s, root, key)].es| + 1 < MAX_KEYS
    ensures var o := Insert(s, root, key, ptr);
            && o.ok && Shape(o.store, o.root)
            && multiset(Contents(o.store, o.root)) == multiset(Contents(s, root)) + multiset{(key, ptr)}
  {
    var l, i := TreeLists(s, root), ChildFor(s, root, key);
    var g := Place(l[i], (key, ptr));
    PlaceAdds(l[i], (key, ptr));
    NoSplitLists(s, root, key, ptr);
    ReplaceBag(l, i, g);
    GainOne(multiset(Flatten(l)), multiset(Flatten(l[i := g])), multiset(g), multiset(l[i]), (key, ptr));
  }

  lemma {:induction false} RootSplitBag(s: Store, root: nat, key: Int64, ptr: UInt64)
    requires Shape(s, root) && |s| + 2 <= 0x7FFF_FFFF
    requires s[root].Leaf? && |s[root].es| + 1 == MAX_KEYS
    ensures var o := Insert(s, root, key, ptr);
            && o.ok && Shape(o.store, o.root)
            && multiset(Contents(o.store, o.root)) == multiset(Contents(s, root)) + multiset{(key, ptr)}
  {
    var es := s[root].es;
    var g := Place(es, (key, ptr));
    PlaceAdds(es, (key, ptr));
    RootSplitLists(s, root, key, ptr);
    assert TreeLists(s, root) == [es];
    TwoPieces(es, g[..125], g[125..]);
    assert g == g[..125] + g[125..];
  }

  lemma {:induction false} ParentSplitBag(s: Store, root: nat, key: Int64, ptr: UInt64)
    requires Shape(s, root) && |s| + 2 <= 0x7FFF_FFFF
    requires s[root].Inner? && !IsFull(s, root, key) && |s[Target(s, root, key)].es| + 1 == MAX_KEYS
    ensures var o := Insert(s, root, key, ptr);
            && o.ok && Shape(o.store, o.root)
            && multiset(Contents(o.store, o.root)) == multiset(Contents(s, root)) + multiset{(key, ptr)}
  {
    hide Flatten, BTree.Insert, Place;
    var l, i := TreeLists(s, root), ChildFor(s, root, key);
    ParentSplitLists(s, root, key, ptr);
    var g := Place(l[i], (key, ptr));
    CutBagGain(l, i, (key, ptr), Upper(Seps(s, root), g[125].0) + 1);
  }

  /** Growing list i by one entry and cutting it gains exactly that entry. */
  lemma {:induction false} CutBagGain(l: Lists, i: nat, e: Entry, p: nat)
    requires i < |l| && p <= |l| && |l[i]| == 249
    ensures var g := Place(l[i], e);
            var cut := l[i := g[..125]];
            multiset(Flatten(cut[..p] + [g[125..]] + cut[p..])) == multiset(Flatten(l)) + multiset{e}
  {
    hide Flatten, Place;
    var g := Place(l[i], e);
    var cut := l[i := g[..125]];
    PlaceAdds(l[i], e);
    CutBag(l, i, g[..125], g[125..], p);
    assert g == g[..125] + g[125..];
    GainOne(multiset(Flatten(l)), multiset(Flatten(cut[..p] + [g[125..]] + cut[p..])), multiset(g), multiset(l[i]), e);
  }

  lemma {:induction false} TwoPieces(es: seq<Entry>, x: seq<Entry>, y: seq<Entry>)
    ensures Flatten([x, y]) == x + y && Flatten([es]) == es
  {
    assert [x, y][1..] == [y];
    assert [y][1..] == [];
    assert Flatten([y]) == y;
    assert [es][1..] == [];
  }

  lemma {:induction false} CutBag(l: Lists, i: nat, x: seq<Entry>, y: seq<Entry>, p: nat)
    requires i < |l| && p <= |l|
    ensures var cut := l[i := x];
            multiset(Flatten(cut[..p] + [y] + cut[p..])) + multiset(l[i])
              == multiset(Flatten(l)) + (multiset(x) + multiset(y))
  {
    ReplaceBag(l, i, x);
    FlattenAdds(l[i := x], p, y);
    MoveBag(multiset(Flatten(l)), multiset(Flatten(l[i := x])), multiset(x), multiset(y), multiset(l[i]));
  }

  lemma {:induction false} MoveBag(a: multiset<Entry>, b: multiset<Entry>, x: multiset<Entry>, y: multiset<Entry>,
                                   z: multiset<Entry>)
    requires b + z == a + x
    ensures (b + y) + z == a + (x + y)
  {
    assert (b + y) + z == (b + z) + y;
  }

  lemma {:induction false} GainOne(a: multiset<Entry>, b: multiset<Entry>, x: multiset<Entry>, z: multiset<Entry>,
                                   e: Entry)
    requires b + z == a + x && x == z + multiset{e}
    ensures b == a + multiset{e}
  {
    assert b + z == (a + multiset{e}) + z;
    assert forall k :: (b + z)[k] == b[k] + z[k];
    assert forall k :: ((a + multiset{e}) + z)[k] == (a + multiset{e})[k] + z[k];
  }

  /** Pages outside the tree are not touched, and fresh pages come from the end of the file. */
  lemma {:induction false} InsertFrame(s: Store, root: nat, key: Int64, ptr: UInt64)
    requires Shape(s, root) && |s| + 2 <= 0x7FFF_FFFF
    ensures var o := Insert(s, root, key, ptr);
            && |s| <= |o.store| <= |s| + 2
            && o.root < |o.store|
            && (o.root == root || o.root >= |s|)
            && (forall p :: 0 <= p < |s| && p != root && p !in Kids(s, root) ==> o.store[p] == s[p])
            && (o.ok ==> forall c :: c in Kids(o.store, o.root) ==> c in Kids(s, root) || c >= |s|)
  {
    var o, kids := Insert(s, root, key, ptr), Kids(s, root);
    assert kids[ChildFor(s, root, key)] in kids;
    if o.ok {
      InsertKids(s, root, key, ptr);
    }
  }

  /** The children after an insert: the old ones, perhaps with the fresh page among them. */
  lemma {:induction false} InsertKids(s: Store, root: nat, key: Int64, ptr: UInt64)
    requires Shape(s, root) && |s| + 2 <= 0x7FFF_FFFF && Insert(s, root, key, ptr).ok
    ensures var o := Insert(s, root, key, ptr);
            forall c :: c in Kids(o.store, o.root) ==> c in Kids(s, root) || c == |s|
  {
    hide TreeLists, LeavesOf, Chain;
    if |s[Target(s, root, key)].es| + 1 < MAX_KEYS {
      NoSplitLists(s, root, key, ptr);
    } else if s[root].Leaf? {
      RootSplitLists(s, root, key, ptr);
    } else {
      assert !IsFull(s, root, key);
      ParentSplitKids(s, root, key, ptr);
    }
  }

  lemma {:induction false} ParentSplitKids(s: Store, root: nat, key: Int64, ptr: UInt64)
    requires Shape(s, root) && |s| + 2 <= 0x7FFF_FFFF
    requires s[root].Inner? && !IsFull(s, root, key) && |s[Target(s, root, key)].es| + 1 == MAX_KEYS
    ensures var o := Insert(s, root, key, ptr);
            forall c :: c in Kids(o.store, o.root) ==> c in Kids(s, root) || c == |s|
  {
    ParentSplitLists(s, root, key, ptr);
    hide Insert;
    var kids, i := Kids(s, root), ChildFor(s, root, key);
    var p := Upper(Seps(s, root), Place(TreeLists(s, root)[i], (key, ptr))[125].0) + 1;
    OneMoreKid(kids, p, |s|);
  }

  lemma {:induction false} OneMoreKid(kids: seq<UInt64>, p: nat, x: UInt64)
    requires p <= |kids|
    ensures forall c :: c in kids[..p] + [x] + kids[p..] ==> c in kids || c == x
  {
  }

  // ---------------------------------------------------------------------
  // Order
  // ---------------------------------------------------------------------

  lemma {:induction false} ParentSlot(seps: seq<Int64>, i: nat, u: Int64)
    requires SortedKeys(seps) && i <= |seps|
    requires i > 0 ==> seps[i - 1] <= u
    requires i < |seps| ==> u < seps[i]
    ensures Upper(seps, u) == i
  {
  }

  /** The chain after the upper half of leaf i got the fresh page and the root got it as child i+1. */
  lemma {:induction false} ParentSplitChain(s: Store, t: Store, kids: seq<UInt64>, i: nat)
    requires Leaves(s, kids) && Chain(s, kids) && i < |kids| && |t| == |s| + 1 <= 0x7FFF_FFFF
    requires forall j :: 0 <= j < |kids| && j != i ==> t[kids[j]] == s[kids[j]]
    requires t[kids[i]].Leaf? && t[kids[i]].next == |s| && t[|s|].Leaf? && t[|s|].next == s[kids[i]].next
    ensures var kids' := kids[..i + 1] + [|s|] + kids[i + 1..];
            Leaves(t, kids') && Chain(t, kids')
  {
    var kids' := kids[..i + 1] + [|s|] + kids[i + 1..];
    forall j | 0 <= j < |kids'|
      ensures t[kids'[j]].Leaf?
      ensures t[kids'[j]].next == Next(kids', j)
    {
      if j < i {
        assert kids'[j] == kids[j] && kids'[j + 1] == kids[j + 1];
        assert s[kids[j]].next == Next(kids, j);
      } else if j == i + 1 {
        assert s[kids[i]].next == Next(kids, i);
      } else if j > i + 1 {
        assert kids'[j] == kids[j - 1];
        assert s[kids[j - 1]].next == Next(kids, j - 1);
      }
    }
  }

  lemma {:induction false} NoSplitStrict(s: Store, root: nat, key: Int64, ptr: UInt64)
    requires Strict(s, root) && |s| + 2 <= 0x7FFF_FFFF && |s[Target(s, root, key)].es| + 1 < MAX_KEYS
    ensures var o := Insert(s, root, key, ptr);
            o.ok && Strict(o.store, o.root) && Contents(o.store, o.root) == Place(Contents(s, root), (key, ptr))
  {
    var i := ChildFor(s, root, key);
    NoSplitLists(s, root, key, ptr);
    PlaceKeepsOrder(TreeLists(s, root), Seps(s, root), i, (key, ptr));
    PlaceInList(TreeLists(s, root), Seps(s, root), i, (key, ptr));
  }

  /** The grown leaf cut at 125, as lists between separators. */
  lemma {:induction false} GrowAndCut(l: Lists, seps: seq<Int64>, i: nat, e: Entry)
    requires Ordered(l, seps) && Separated(l, seps) && i < |l| && |l[i]| == 249
    requires i > 0 ==> seps[i - 1] <= e.0
    requires i < |seps| ==> e.0 < seps[i]
    ensures var g := Place(l[i], e);
            var l' := l[..i] + [g[..125], g[125..]] + l[i + 1..];
            var seps' := seps[..i] + [g[125].0] + seps[i..];
            && Ordered(l', seps')
            && (Separated(l', seps') <==> g[124].0 != g[125].0)
            && Flatten(l') == Place(Flatten(l), e)
            && Upper(seps, g[125].0) == i
  {
    var g := Place(l[i], e);
    PlaceKeepsOrder(l, seps, i, e);
    PlaceInList(l, seps, i, e);
    ParentSlot(seps, i, g[125].0);
    var grown := l[i := g];
    CutKeepsOrder(grown, seps, i, 125);
    assert grown[..i] == l[..i] && grown[i + 1..] == l[i + 1..];
    assert g == g[..125] + g[125..];
    FlattenPieces(l, i, g[..125], g[125..]);
  }

  lemma {:induction false} RootSplitLinked(s: Store, root: nat, key: Int64, ptr: UInt64)
    requires Strict(s, root) && |s| + 2 <= 0x7FFF_FFFF
    requires s[root].Leaf? && |s[root].es| + 1 == MAX_KEYS
    ensures var o := Insert(s, root, key, ptr);
            var g := Place(s[root].es, (key, ptr));
            && o.ok && Linked(o.store, o.root)
            && Contents(o.store, o.root) == Place(Contents(s, root), (key, ptr))
            && (Strict(o.store, o.root) <==> g[124].0 != g[125].0)
  {
    var l := TreeLists(s, root);
    var g := Place(s[root].es, (key, ptr));
    RootSplitLists(s, root, key, ptr);
    GrowAndCut(l, [], 0, (key, ptr));
    assert l[..0] + [g[..125], g[125..]] + l[1..] == [g[..125], g[125..]];
    var none: seq<Int64> := [];
    assert none[..0] + [g[125].0] + none[0..] == [g[125].0];
  }

  /** After a split below an internal root the chain runs through the new children. */
  lemma {:induction false} ParentSplitIsChained(s: Store, root: nat, key: Int64, ptr: UInt64)
    requires Linked(s, root) && |s| + 2 <= 0x7FFF_FFFF
    requires s[root].Inner? && !IsFull(s, root, key) && |s[Target(s, root, key)].es| + 1 == MAX_KEYS
    requires var g := Place(TreeLists(s, root)[ChildFor(s, root, key)], (key, ptr));
             |g| == 250 && Upper(Seps(s, root), g[125].0) == ChildFor(s, root, key)
    ensures var o := Insert(s, root, key, ptr); Shape(o.store, o.root) && Chain(o.store, Kids(o.store, o.root))
  {
    hide Ordered, Flatten, Place, Chain;
    var o := Insert(s, root, key, ptr);
    var kids, i := Kids(s, root), ChildFor(s, root, key);
    var g := Place(TreeLists(s, root)[i], (key, ptr));
    ParentSplitLists(s, root, key, ptr);
    assert root !in kids;
    CutChain(s, kids, i, g, root, o.store[root], Kids(o.store, root));
    assert o.store == CutLeaf(s, kids[i], g)[root := o.store[root]];
  }

  lemma {:induction false} ParentSplitLinked(s: Store, root: nat, key: Int64, ptr: UInt64)
    requires Strict(s, root) && |s| + 2 <= 0x7FFF_FFFF
    requires s[root].Inner? && !IsFull(s, root, key) && |s[Target(s, root, key)].es| + 1 == MAX_KEYS
    ensures var o := Insert(s, root, key, ptr);
            var g := Place(s[Target(s, root, key)].es, (key, ptr));
            && o.ok && Linked(o.store, o.root)
            && Contents(o.store, o.root) == Place(Contents(s, root), (key, ptr))
            && (Strict(o.store, o.root) <==> g[124].0 != g[125].0)
  {
    var i, seps, l := ChildFor(s, root, key), Seps(s, root), TreeLists(s, root);
    var g := Place(l[i], (key, ptr));
    GrowAndCut(l, seps, i, (key, ptr));
    hide Insert, Chain, Place, Flatten, Ordered, Separated, Upper, IsFull;
    ParentSplitLists(s, root, key, ptr);
    CutTwice(l, i, g[..125], g[125..]);
    ParentSplitIsChained(s, root, key, ptr);
  }

  lemma {:induction false} CutTwice(l: Lists, i: nat, x: seq<Entry>, y: seq<Entry>)
    requires i < |l|
    ensures var cut := l[i := x];
            cut[..i + 1] + [y] + cut[i + 1..] == l[..i] + [x, y] + l[i + 1..]
  {
  }

  /** The chain after leaf i was cut and the root, which is not on the chain, rewritten. */
  lemma {:induction false} CutChain(s: Store, kids: seq<UInt64>, i: nat, g: seq<Entry>, root: nat, parent: Node,
                                    kids': seq<UInt64>)
    requires Leaves(s, kids) && Distinct(kids) && Chain(s, kids) && i < |kids| && |s| < 0x7FFF_FFFF
    requires root < |s| && root !in kids && kids' == kids[..i + 1] + [|s|] + kids[i + 1..]
    ensures var t := CutLeaf(s, kids[i], g)[root := parent];
            Leaves(t, kids') && Chain(t, kids')
  {
    hide CutLeaf;
    CutLeafLists(s, kids, i, g);
    var t := CutLeaf(s, kids[i], g)[root := parent];
    forall j | 0 <= j < |kids| ensures kids[j] != root {
      assert kids[j] in kids;
    }
    ParentSplitChain(s, t, kids, i);
  }

  /** The keys of a placed entry do not depend on its pointer. */
  lemma {:induction false} PlaceKeysOnly(es: seq<Entry>, key: Int64, p: UInt64, q: UInt64, j: nat)
    requires j <= |es|
    ensures Place(es, (key, p))[j].0 == Place(es, (key, q))[j].0
  {
    if es != [] && key >= es[0].0 && j > 0 {
      PlaceKeysOnly(es[1..], key, p, q, j - 1);
    }
  }

  /** Inserting into an ordered, separated tree is placing into its flat sorted list;
      the order is kept always, the separation exactly when the split is clean. */
  lemma {:induction false} InsertRefinesPlace(s: Store, root: nat, key: Int64, ptr: UInt64)
    requires Strict(s, root) && |s| + 2 <= 0x7FFF_FFFF && !IsFull(s, root, key)
    ensures var o := Insert(s, root, key, ptr);
            && o.ok && Linked(o.store, o.root)
            && Contents(o.store, o.root) == Place(Contents(s, root), (key, ptr))
            && (Strict(o.store, o.root) <==> SplitIsClean(s, root, key))
  {
    var es := s[Target(s, root, key)].es;
    if |es| + 1 < MAX_KEYS {
      NoSplitStrict(s, root, key, ptr);
    } else {
      PlaceKeysOnly(es, key, ptr, 0, 124);
      PlaceKeysOnly(es, key, ptr, 0, 125);
      if s[root].Leaf? {
        RootSplitLinked(s, root, key, ptr);
      } else {
        ParentSplitLinked(s, root, key, ptr);
      }
    }
  }

  lemma {:induction false} LeafContents(s: Store, root: nat)
    requires Shape(s, root) && s[root].Leaf?
    ensures Contents(s, root) == s[root].es
  {
    var l := TreeLists(s, root);
    assert l == [s[root].es];
    assert l[1..] == [];
    assert Flatten(l) == s[root].es + [];
  }

  /** An insert into a root leaf with room. */
  lemma {:induction false} LeafInsert(s: Store, root: nat, key: Int64, ptr: UInt64)
    requires Strict(s, root) && s[root].Leaf? && |s[root].es| + 1 < MAX_KEYS && |s| + 2 <= 0x7FFF_FFFF
    ensures var o := BTree.Insert(s, root, key, ptr);
            && o == Outcome(s[root := Leaf(Place(s[root].es, (key, ptr)), s[root].next)], root, true)
            && Strict(o.store, root)
  {
    InsertCases(s, root, key, ptr);
    PlaceAdds(s[root].es, (key, ptr));
    var grown := Place(s[root].es, (key, ptr));
    assert |grown| == |multiset(grown)| == |s[root].es| + 1;
    InsertRefinesPlace(s, root, key, ptr);
    PlaceAdds(s[root].es, (key, 0));
    assert |Place(s[root].es, (key, 0))| == |multiset(Place(s[root].es, (key, 0)))|;
  }
}
