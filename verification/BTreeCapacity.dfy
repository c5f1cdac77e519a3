/** The capacity bound is attained: ascending keys leave every leaf but the last half empty. */
module BTreeCapacity {
  import opened Core
  import opened SortedList
  import opened LeafLists
  import opened BTree
  import opened BTreeInsert
  import opened BTreeRuns

  /** Every leaf but the last holds 125 entries. */
  ghost predicate HalfEmpty(l: Lists) {
    forall i :: 0 <= i < |l| - 1 ==> |l[i]| == 125
  }

  /** What ascending inserts build. */
  ghost predicate RightHeavy(s: Store, root: nat) {
    Strict(s, root) && HalfEmpty(TreeLists(s, root)) && DistinctKeys(Contents(s, root))
  }

  /** The largest key goes to the last leaf, and a separator not below the last one to the end. */
  lemma {:induction false} LastSlot(l: Lists, seps: seq<Int64>, k: Int64)
    requires Ordered(l, seps) && (|seps| > 0 ==> seps[|seps| - 1] <= k)
    ensures Upper(seps, k) == |seps|
  {
    ParentSlot(seps, |seps|, k);
  }

  /** All separators are below a key above all entries. */
  lemma {:induction false} SepsBelow(l: Lists, seps: seq<Int64>, k: Int64)
    requires Ordered(l, seps) && seps != [] && l[|seps|] != [] && AllLt(Flatten(l), k)
    ensures seps[|seps| - 1] <= l[|seps|][0].0 < k
  {
    var m := |seps|;
    FlattenSplit(l, m);
    assert Flatten(l)[|Flatten(l[..m])|] == l[m][0];
    assert AllGe(l[m], seps[m - 1]);
  }

  lemma {:induction false} Size(l: Lists)
    requires HalfEmpty(l) && l != []
    ensures |Flatten(l)| == 125 * (|l| - 1) + |l[|l| - 1]|
  {
    var m := |l| - 1;
    FlattenHalves(l, m);
    FlattenSize(l[..m], 125, 125);
    assert l[m + 1..] == [];
  }

  lemma {:induction false} TargetIsLast(s: Store, root: nat, k: Int64)
    requires RightHeavy(s, root) && AllLt(Contents(s, root), k)
    ensures ChildFor(s, root, k) == |Seps(s, root)| == |Kids(s, root)| - 1
    ensures |Contents(s, root)| == 125 * |Seps(s, root)| + |s[Target(s, root, k)].es|
    ensures Seps(s, root) != [] ==> Seps(s, root)[|Seps(s, root)| - 1] <= s[Target(s, root, k)].es[0].0
    ensures IsFull(s, root, k) <==> |Contents(s, root)| >= 31374
  {
    hide Flatten, DistinctKeys;
    var l, seps := TreeLists(s, root), Seps(s, root);
    if seps != [] {
      SepsBelow(l, seps, k);
    }
    LastSlot(l, seps, k);
    Size(l);
  }

  lemma {:induction false} KeysDiffer(es: seq<Entry>, k: Int64)
    requires AllLt(es, k)
    ensures forall e :: e in es ==> e.0 != k
  {
  }

  /** One more key above all others: refused exactly at 31374 entries. */
  lemma {:induction false} AscendingStep(s: Store, root: nat, k: Int64, ptr: UInt64)
    requires RightHeavy(s, root) && AllLt(Contents(s, root), k) && |s| + 2 <= 0x7FFF_FFFF
    ensures var o := Insert(s, root, k, ptr);
            && (o.ok <==> |Contents(s, root)| < 31374)
            && (o.ok ==>
                  && RightHeavy(o.store, o.root) && AllLe(Contents(o.store, o.root), k)
                  && |Contents(o.store, o.root)| == |Contents(s, root)| + 1)
  {
    hide BTree.Insert, Contents, Place, Strict, AllLt, AllLe, DistinctKeys, HalfEmpty, SplitIsClean, IsFull;
    StrictShape(s, root);
    var o, es := Insert(s, root, k, ptr), Contents(s, root);
    TargetIsLast(s, root, k);
    InsertKeepsShape(s, root, k, ptr);
    if o.ok {
      KeysDiffer(es, k);
      DistinctIsClean(s, root, k);
      InsertRefinesPlace(s, root, k, ptr);
      PlacedAbove(es, k, ptr);
      StaysHalfEmpty(s, root, k, ptr);
    }
  }

  lemma {:induction false} StrictShape(s: Store, root: nat)
    requires Strict(s, root)
    ensures Shape(s, root)
  {
  }

  lemma {:induction false} PlacedAbove(es: seq<Entry>, k: Int64, ptr: UInt64)
    requires AllLt(es, k) && DistinctKeys(es)
    ensures var g := Place(es, (k, ptr)); DistinctKeys(g) && AllLe(g, k) && |g| == |es| + 1
  {
    KeysDiffer(es, k);
    PlaceDistinct(es, (k, ptr));
    PlaceAtEnd(es, k, ptr);
  }

  lemma {:induction false} PlaceAtEnd(es: seq<Entry>, k: Int64, ptr: UInt64)
    requires AllLt(es, k)
    ensures Place(es, (k, ptr)) == es + [(k, ptr)]
  {
    if es != [] {
      PlaceAtEnd(es[1..], k, ptr);
    }
  }

  lemma {:induction false} StaysHalfEmpty(s: Store, root: nat, k: Int64, ptr: UInt64)
    requires RightHeavy(s, root) && AllLt(Contents(s, root), k) && |s| + 2 <= 0x7FFF_FFFF
    requires var o := Insert(s, root, k, ptr); o.ok && Shape(o.store, o.root)
    ensures var o := Insert(s, root, k, ptr); HalfEmpty(TreeLists(o.store, o.root))
  {
    hide BTree.Insert, Flatten, Place, DistinctKeys, Ordered, Separated;
    var l, m, c := TreeLists(s, root), |Seps(s, root)|, Target(s, root, k);
    TargetIsLast(s, root, k);
    InsertKeepsShape(s, root, k, ptr);
    if |s[c].es| + 1 < MAX_KEYS {
      NoSplitLists(s, root, k, ptr);
    } else if s[root].Leaf? {
      RootSplitLists(s, root, k, ptr);
    } else {
      SplitAtEnd(s, root, k, ptr);
    }
  }

  lemma {:induction false} SplitAtEnd(s: Store, root: nat, k: Int64, ptr: UInt64)
    requires RightHeavy(s, root) && AllLt(Contents(s, root), k) && |s| + 2 <= 0x7FFF_FFFF
    requires s[root].Inner? && !IsFull(s, root, k) && |s[Target(s, root, k)].es| + 1 == MAX_KEYS
    ensures var o := Insert(s, root, k, ptr); Shape(o.store, o.root) && HalfEmpty(TreeLists(o.store, o.root))
  {
    LastLeafGrows(s, root, k, ptr);
    var l, m := TreeLists(s, root), |Seps(s, root)|;
    assert HalfEmpty(l);
    hide *;
    ParentSplitLists(s, root, k, ptr);
    HalfEmptyGrows(l, m, Place(l[m], (k, ptr)));
  }

  /** The full last leaf with a larger key: its middle goes behind all separators. */
  lemma {:induction false} LastLeafGrows(s: Store, root: nat, k: Int64, ptr: UInt64)
    requires RightHeavy(s, root) && AllLt(Contents(s, root), k) && s[root].Inner?
    requires |s[Target(s, root, k)].es| + 1 == MAX_KEYS
    ensures var l, m := TreeLists(s, root), |Seps(s, root)|;
            && ChildFor(s, root, k) == m && |l| == m + 1 && |Place(l[m], (k, ptr))| == 250
            && Upper(Seps(s, root), Place(l[m], (k, ptr))[125].0) == m
  {
    hide BTree.Insert, Flatten, DistinctKeys, IsFull;
    var l, seps := TreeLists(s, root), Seps(s, root);
    var m := |seps|;
    TargetIsLast(s, root, k);
    LastIsBelow(l, k);
    PlaceAtEnd(l[m], k, ptr);
    assert AllGe(l[m], seps[m - 1]);
    hide Place, AllLt, HalfEmpty;
    assert Place(l[m], (k, ptr))[125] == l[m][125];
    LastSlot(l, seps, l[m][125].0);
  }

  lemma {:induction false} HalfEmptyGrows(l: Lists, m: nat, g: seq<Entry>)
    requires HalfEmpty(l) && |l| == m + 1 && |g| == 250
    ensures var cut := l[m := g[..125]]; HalfEmpty(cut[..m + 1] + [g[125..]] + cut[m + 1..])
  {
  }

  lemma {:induction false} LastIsBelow(l: Lists, k: Int64)
    requires l != [] && AllLt(Flatten(l), k)
    ensures AllLt(l[|l| - 1], k)
  {
    hide Flatten;
    var m := |l| - 1;
    FlattenSplit(l, m);
    var a, b := Flatten(l[..m]), Flatten(l[m + 1..]);
    assert forall x :: 0 <= x < |l[m]| ==> (a + l[m] + b)[|a| + x] == l[m][x];
  }

  ghost predicate AscendingKeys(ops: seq<Entry>) {
    forall i, j :: 0 <= i < j < |ops| ==> ops[i].0 < ops[j].0
  }

  /** A run of ascending keys succeeds if and only if the index then holds at most 31374 entries. */
  lemma {:induction false} AscendingRunIff(s: Store, root: nat, ops: seq<Entry>)
    requires RightHeavy(s, root) && AscendingKeys(ops) && |s| + 2 * |ops| <= 0x7FFF_FFFF
    requires ops != [] ==> AllLt(Contents(s, root), ops[0].0)
    requires |Contents(s, root)| <= 31374
    ensures Run(s, root, ops).ok <==> |Contents(s, root)| + |ops| <= 31374
    decreases |ops|
  {
    hide BTree.Insert, Contents, RightHeavy;
    if ops != [] {
      var k, ptr := ops[0].0, ops[0].1;
      HeavyHasShape(s, root);
      AscendingStep(s, root, k, ptr);
      InsertFrame(s, root, k, ptr);
      InsertKeepsShape(s, root, k, ptr);
      var o := Insert(s, root, k, ptr);
      if o.ok {
        if |ops| > 1 {
          assert ops[1..][0] == ops[1] && ops[0].0 < ops[1].0;
        }
        assert AscendingKeys(ops[1..]);
        AscendingRunIff(o.store, o.root, ops[1..]);
      }
    }
  }

  lemma {:induction false} HeavyHasShape(s: Store, root: nat)
    requires RightHeavy(s, root)
    ensures Shape(s, root)
  {
  }

  /** The bound of RunCapacity is attained: into a new index, any 31374 ascending keys go, and
      the 31375th is refused. */
  lemma {:induction false} CapacityIsAttained(s: Store, root: nat, ops: seq<Entry>)
    requires root < |s| && s[root] == Leaf([], -1) && |s| + 2 * |ops| <= 0x7FFF_FFFF && AscendingKeys(ops)
    ensures Run(s, root, ops).ok <==> |ops| <= 31374
  {
    EmptyHeavy(s, root);
    hide RightHeavy, Contents, Run;
    AscendingRunIff(s, root, ops);
  }

  lemma {:induction false} EmptyHeavy(s: Store, root: nat)
    requires root < |s| <= 0x7FFF_FFFF && s[root] == Leaf([], -1)
    ensures RightHeavy(s, root) && Contents(s, root) == []
  {
    assert s[root].next == Next([root], 0);
    var none: seq<Entry> := [];
    TwoPieces(none, none, none);
    assert TreeLists(s, root) == [none];
  }
}
