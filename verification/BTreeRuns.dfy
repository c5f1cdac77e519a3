/** Seek, and whole runs of insertions: exactness, capacity, several indexes in one file. */
module BTreeRuns {
  import opened Core
  import opened Sequences
  import opened SortedList
  import opened LeafLists
  import opened BTree
  import opened BTreeInsert

  // ---------------------------------------------------------------------
  // Seek
  // ---------------------------------------------------------------------

  /** The entries the iterator walks over: the target leaf from the first key that
      is not smaller, then the leaves after it. */
  function SeekRange(s: Store, root: nat, key: Int64): (es: seq<Entry>)
    requires Shape(s, root)
  {
    var l, j := TreeLists(s, root), ChildFor(s, root, key);
    l[j][Lower(l[j], key)..] + Flatten(l[j + 1..])
  }

  /** The rows an index seek produces, before the visibility filter. */
  function Seek(s: Store, root: nat, key: Int64): (rows: seq<UInt64>)
    requires Shape(s, root)
  {
    Matches(SeekRange(s, root, key), key)
  }

  ghost predicate SeekIsExact(s: Store, root: nat)
    requires Shape(s, root)
  {
    forall k: Int64 :: Seek(s, root, k) == Under(Contents(s, root), k)
  }

  /** Walking from inside list j is looking up the key in the lists from j on. */
  lemma {:induction false} WalkLists(l: Lists, seps: seq<Int64>, j: nat, key: Int64)
    requires Ordered(l, seps) && j < |l|
    ensures Matches(l[j][Lower(l[j], key)..] + Flatten(l[j + 1..]), key) == Under(Flatten(l[j..]), key)
    ensures Under(Flatten(l), key) == Under(Flatten(l[..j]), key) + Under(Flatten(l[j..]), key)
  {
    hide Flatten, Under, Matches;
    var a, b, m := Flatten(l[..j]), Flatten(l[j..]), Lower(l[j], key);
    FlattenHalves(l, j);
    OrderedIsSorted(l, seps);
    SortedSuffix(a, b);
    MatchesIsUnder(b, key);
    UnderConcat(a, b, key);
    var rest := l[j][m..] + Flatten(l[j + 1..]);
    assert b == l[j][..m] + rest;
    MatchesSkips(l[j][..m], rest, key);
  }

  lemma {:induction false} FlattenHalves(l: Lists, j: nat)
    requires j < |l|
    ensures Flatten(l) == Flatten(l[..j]) + Flatten(l[j..])
    ensures Flatten(l[j..]) == l[j] + Flatten(l[j + 1..])
  {
    assert l == l[..j] + l[j..];
    FlattenConcat(l[..j], l[j..]);
    assert l[j..][1..] == l[j + 1..];
  }

  /** A seek sees exactly the leaves from the chosen child on. */
  lemma {:induction false} SeekSuffix(s: Store, root: nat, key: Int64)
    requires Linked(s, root)
    ensures var l, j := TreeLists(s, root), ChildFor(s, root, key);
            && Seek(s, root, key) == Under(Flatten(l[j..]), key)
            && Under(Contents(s, root), key) == Under(Flatten(l[..j]), key) + Seek(s, root, key)
  {
    WalkLists(TreeLists(s, root), Seps(s, root), ChildFor(s, root, key), key);
  }

  lemma {:induction false} SortedSuffix(a: seq<Entry>, b: seq<Entry>)
    requires Sorted(a + b)
    ensures Sorted(b)
  {
    forall i, j | 0 <= i < j < |b| ensures b[i].0 <= b[j].0 {
      assert (a + b)[|a| + i] == b[i] && (a + b)[|a| + j] == b[j];
    }
  }

  /** In a strict tree, nothing left of the chosen child has the key. */
  lemma {:induction false} StrictSeek(s: Store, root: nat, key: Int64)
    requires Strict(s, root)
    ensures Seek(s, root, key) == Under(Contents(s, root), key)
  {
    var l, j, seps := TreeLists(s, root), ChildFor(s, root, key), Seps(s, root);
    SeekSuffix(s, root, key);
    var before := l[..j];
    forall i | 0 <= i < |before| ensures AllLe(before[i], key as int - 1) {
      assert AllLt(l[i], seps[i]);
    }
    FlattenAllLe(before, key as int - 1);
    UnderNone(Flatten(before), key);
  }

  /** A key equal to the separator on its right is missed by a seek for it. */
  lemma {:induction false} MissedKey(s: Store, root: nat, i: nat, x: nat)
    requires Linked(s, root) && i < |Seps(s, root)| && x < |TreeLists(s, root)[i]|
    requires TreeLists(s, root)[i][x].0 == Seps(s, root)[i]
    ensures Seek(s, root, Seps(s, root)[i]) != Under(Contents(s, root), Seps(s, root)[i])
  {
    hide Seek, Contents, Flatten, Under, Ordered;
    var l, u := TreeLists(s, root), Seps(s, root)[i];
    var j := ChildFor(s, root, u);
    SeekSuffix(s, root, u);
    UpperBeyond(l, Seps(s, root), i);
    assert l[..j][i] == l[i];
    UnderSomewhere(l[..j], i, x, u);
    assert |Under(Contents(s, root), u)| == |Under(Flatten(l[..j]), u)| + |Seek(s, root, u)|;
  }

  lemma {:induction false} UpperBeyond(l: Lists, seps: seq<Int64>, i: nat)
    requires Ordered(l, seps) && i < |seps|
    ensures i < Upper(seps, seps[i])
  {
  }

  lemma {:induction false} UnderSomewhere(l: Lists, i: nat, x: nat, u: Int64)
    requires i < |l| && x < |l[i]| && l[i][x].0 == u
    ensures Under(Flatten(l), u) != []
  {
    hide Flatten, Under;
    FlattenSplit(l, i);
    UnderConcat(Flatten(l[..i]) + l[i], Flatten(l[i + 1..]), u);
    UnderConcat(Flatten(l[..i]), l[i], u);
    UnderSome(l[i], u, x);
  }

  /** Seek is exact for every key if and only if no key equals the separator on its right. */
  lemma {:induction false} SeekExactIffStrict(s: Store, root: nat)
    requires Linked(s, root)
    ensures SeekIsExact(s, root) <==> Strict(s, root)
  {
    hide Seek, Contents, Ordered, Chain, Under, Separated;
    if Strict(s, root) {
      forall k: Int64 ensures Seek(s, root, k) == Under(Contents(s, root), k) {
        StrictSeek(s, root, k);
      }
    } else {
      var i, x := TouchingKey(TreeLists(s, root), Seps(s, root));
      MissedKey(s, root, i, x);
    }
  }

  /** An ordered list that is not separated has a key equal to the separator on its right. */
  lemma {:induction false} TouchingKey(l: Lists, seps: seq<Int64>) returns (i: nat, x: nat)
    requires Ordered(l, seps) && !Separated(l, seps)
    ensures i < |seps| && x < |l[i]| && l[i][x].0 == seps[i]
  {
    i :| 0 <= i < |seps| && !AllLt(l[i], seps[i]);
    x :| 0 <= x < |l[i]| && !(l[i][x].0 < seps[i]);
    assert AllLe(l[i], seps[i]);
  }

  // ---------------------------------------------------------------------
  // Runs of insertions
  // ---------------------------------------------------------------------

  /** Inserting the entries one after the other; stops at the first failure. */
  function Run(s: Store, root: nat, ops: seq<Entry>): (o: Outcome)
    requires Shape(s, root) && |s| + 2 * |ops| <= 0x7FFF_FFFF
    ensures o.ok ==> Shape(o.store, o.root)
    decreases |ops|
  {
    if ops == [] then Outcome(s, root, true)
    else
      InsertKeepsShape(s, root, ops[0].0, ops[0].1);
      InsertFrame(s, root, ops[0].0, ops[0].1);
      var o := Insert(s, root, ops[0].0, ops[0].1);
      if o.ok then Run(o.store, o.root, ops[1..]) else o
  }

  function PlaceAll(es: seq<Entry>, ops: seq<Entry>): (r: seq<Entry>)
    decreases |ops|
  {
    if ops == [] then es else PlaceAll(Place(es, ops[0]), ops[1..])
  }

  /** Every split along the run falls between two different keys. */
  ghost predicate CleanRun(s: Store, root: nat, ops: seq<Entry>)
    requires Shape(s, root) && |s| + 2 * |ops| <= 0x7FFF_FFFF && Run(s, root, ops).ok
    decreases |ops|
  {
    ops == [] ||
    (InsertKeepsShape(s, root, ops[0].0, ops[0].1);
     InsertFrame(s, root, ops[0].0, ops[0].1);
     var o := Insert(s, root, ops[0].0, ops[0].1);
     SplitIsClean(s, root, ops[0].0) && CleanRun(o.store, o.root, ops[1..]))
  }

  /** Seek is exact in every state along the run. */
  ghost predicate ExactRun(s: Store, root: nat, ops: seq<Entry>)
    requires Shape(s, root) && |s| + 2 * |ops| <= 0x7FFF_FFFF && Run(s, root, ops).ok
    decreases |ops|
  {
    && SeekIsExact(s, root)
    && (ops == [] ||
        (InsertKeepsShape(s, root, ops[0].0, ops[0].1);
         InsertFrame(s, root, ops[0].0, ops[0].1);
         var o := Insert(s, root, ops[0].0, ops[0].1);
         ExactRun(o.store, o.root, ops[1..])))
  }

  /** Over every run without errors: index seeks are exact at every point if and
      only if every leaf split fell between two different keys; and then the tree is
      ordered, chained and holds the flat sorted list. */
  lemma {:induction false} RunRefinesList(s: Store, root: nat, ops: seq<Entry>)
    requires Strict(s, root) && |s| + 2 * |ops| <= 0x7FFF_FFFF && Run(s, root, ops).ok
    ensures ExactRun(s, root, ops) <==> CleanRun(s, root, ops)
    ensures CleanRun(s, root, ops) ==>
              var o := Run(s, root, ops);
              Strict(o.store, o.root) && Contents(o.store, o.root) == PlaceAll(Contents(s, root), ops)
    decreases |ops|
  {
    SeekExactIffStrict(s, root);
    if ops != [] {
      var key, ptr := ops[0].0, ops[0].1;
      InsertKeepsShape(s, root, key, ptr);
      InsertFrame(s, root, key, ptr);
      InsertRefinesPlace(s, root, key, ptr);
      var o := Insert(s, root, key, ptr);
      SeekExactIffStrict(o.store, o.root);
      if Strict(o.store, o.root) {
        RunRefinesList(o.store, o.root, ops[1..]);
      }
    }
  }

  /** Distinct keys never make an unclean split. */
  lemma {:induction false} DistinctIsClean(s: Store, root: nat, key: Int64)
    requires Shape(s, root) && DistinctKeys(Contents(s, root))
    requires forall e :: e in Contents(s, root) ==> e.0 != key
    ensures SplitIsClean(s, root, key)
  {
    hide Flatten;
    var l, i := TreeLists(s, root), ChildFor(s, root, key);
    FlattenSplit(l, i);
    MiddleDistinct(Flatten(l[..i]), l[i], Flatten(l[i + 1..]), key);
    PlaceDistinct(l[i], (key, 0));
  }

  lemma {:induction false} MiddleDistinct(a: seq<Entry>, m: seq<Entry>, b: seq<Entry>, key: Int64)
    requires DistinctKeys(a + m + b) && forall e :: e in a + m + b ==> e.0 != key
    ensures DistinctKeys(m) && forall i :: 0 <= i < |m| ==> m[i].0 != key
  {
    var all := a + m + b;
    assert forall x :: 0 <= x < |m| ==> all[|a| + x] == m[x];
    forall i, j | 0 <= i < j < |m| ensures m[i].0 != m[j].0 {
      assert all[|a| + i].0 != all[|a| + j].0;
    }
  }

  lemma {:induction false} DistinctRunIsClean(s: Store, root: nat, ops: seq<Entry>)
    requires Strict(s, root) && |s| + 2 * |ops| <= 0x7FFF_FFFF && Run(s, root, ops).ok
    requires DistinctKeys(Contents(s, root) + ops)
    ensures CleanRun(s, root, ops)
    decreases |ops|
  {
    if ops != [] {
      var key, ptr := ops[0].0, ops[0].1;
      var es := Contents(s, root);
      InsertKeepsShape(s, root, key, ptr);
      InsertFrame(s, root, key, ptr);
      InsertRefinesPlace(s, root, key, ptr);
      SplitDistinct(es, ops);
      DistinctIsClean(s, root, key);
      var o := Insert(s, root, key, ptr);
      DistinctRunIsClean(o.store, o.root, ops[1..]);
    }
  }

  lemma {:induction false} SplitDistinct(es: seq<Entry>, ops: seq<Entry>)
    requires ops != [] && DistinctKeys(es + ops)
    ensures DistinctKeys(es) && forall e :: e in es ==> e.0 != ops[0].0
    ensures DistinctKeys(Place(es, ops[0]) + ops[1..])
  {
    var all := es + ops;
    assert forall i :: 0 <= i < |es| ==> all[i] == es[i];
    assert forall i :: 0 <= i < |ops| ==> all[|es| + i] == ops[i];
    var p, t := Place(es, ops[0]), ops[1..];
    PlaceDistinct(es, ops[0]);
    forall i, j | 0 <= i < |p| && 0 <= j < |t| ensures p[i].0 != t[j].0 {
      assert p[i] in p;
      assert t[j] == ops[j + 1] == all[|es| + j + 1];
      if p[i] in es {
        var x :| 0 <= x < |es| && es[x] == p[i];
        assert all[x] == es[x];
      }
    }
    forall i, j | 0 <= i < j < |t| ensures t[i].0 != t[j].0 {
      assert t[i] == all[|es| + i + 1] && t[j] == all[|es| + j + 1];
    }
  }

  // ---------------------------------------------------------------------
  // Capacity, for any keys
  // ---------------------------------------------------------------------

  lemma {:induction false} FlattenSize(l: Lists, lo: nat, hi: nat)
    requires forall i :: 0 <= i < |l| ==> lo <= |l[i]| <= hi
    ensures lo * |l| <= |Flatten(l)| <= hi * |l|
  {
    if l != [] {
      FlattenSize(l[1..], lo, hi);
      assert lo * |l| == lo + lo * |l[1..]|;
      assert hi * |l| == hi + hi * |l[1..]|;
    }
  }

  /** No tree holds more than 62250 entries, and one whose next insert can fail holds at least 31374. */
  lemma {:induction false} Capacity(s: Store, root: nat)
    requires Shape(s, root)
    ensures |Contents(s, root)| <= 62250
    ensures forall key: Int64 :: IsFull(s, root, key) ==> |Contents(s, root)| >= 31374
  {
    var l := TreeLists(s, root);
    if s[root].Leaf? {
      FlattenSize(l, 0, 249);
    } else {
      FlattenSize(l, 125, 249);
    }
    forall key: Int64 | IsFull(s, root, key) ensures |Contents(s, root)| >= 31374 {
      var i := ChildFor(s, root, key);
      FlattenSplit(l, i);
      FlattenSize(l[..i], 125, 249);
      FlattenSize(l[i + 1..], 125, 249);
      assert |l[..i]| + |l[i + 1..]| == 249;
    }
  }

  /** A run without errors adds exactly its entries. */
  lemma {:induction false} RunConserves(s: Store, root: nat, ops: seq<Entry>)
    requires Shape(s, root) && |s| + 2 * |ops| <= 0x7FFF_FFFF && Run(s, root, ops).ok
    ensures var o := Run(s, root, ops);
            multiset(Contents(o.store, o.root)) == multiset(Contents(s, root)) + multiset(ops)
    decreases |ops|
  {
    if ops != [] {
      var e := ops[0];
      InsertKeepsShape(s, root, e.0, e.1);
      InsertFrame(s, root, e.0, e.1);
      var o := Insert(s, root, e.0, e.1);
      RunConserves(o.store, o.root, ops[1..]);
      AddFirst(multiset(Contents(s, root)), ops);
    }
  }

  lemma {:induction false} AddFirst(a: multiset<Entry>, ops: seq<Entry>)
    requires ops != []
    ensures a + multiset{ops[0]} + multiset(ops[1..]) == a + multiset(ops)
  {
    assert ops == [ops[0]] + ops[1..];
  }

  lemma {:induction false} RunSucceeds(s: Store, root: nat, ops: seq<Entry>)
    requires Shape(s, root) && |s| + 2 * |ops| <= 0x7FFF_FFFF
    requires |Contents(s, root)| + |ops| <= 31374
    ensures Run(s, root, ops).ok
    decreases |ops|
  {
    if ops != [] {
      var e := ops[0];
      InsertKeepsShape(s, root, e.0, e.1);
      InsertFrame(s, root, e.0, e.1);
      Capacity(s, root);
      var o := Insert(s, root, e.0, e.1);
      assert |Contents(o.store, o.root)| == |multiset(Contents(o.store, o.root))|;
      RunSucceeds(o.store, o.root, ops[1..]);
    }
  }

  /** From an empty index: the unimplemented internal split cannot be reached before
      the 31375th entry, and no run without errors is longer than 62250. */
  lemma {:induction false} RunCapacity(s: Store, root: nat, ops: seq<Entry>)
    requires Shape(s, root) && Contents(s, root) == [] && |s| + 2 * |ops| <= 0x7FFF_FFFF
    ensures |ops| <= 31374 ==> Run(s, root, ops).ok
    ensures Run(s, root, ops).ok ==> |ops| <= 62250
  {
    var o := Run(s, root, ops);
    if |ops| <= 31374 {
      RunSucceeds(s, root, ops);
    }
    if o.ok {
      RunConserves(s, root, ops);
      Capacity(o.store, o.root);
      assert |multiset(Contents(o.store, o.root))| == |multiset(ops)|;
    }
  }

  // ---------------------------------------------------------------------
  // Failure and neighbours
  // ---------------------------------------------------------------------

  /** A failed insert is not undone: the new entry is already in the leaf chain,
      although the root does not know the fresh leaf. */
  lemma {:induction false} FailedInsertStaysInChain(s: Store, root: nat, key: Int64, ptr: UInt64, chain: seq<UInt64>)
    requires Strict(s, root) && |s| + 2 <= 0x7FFF_FFFF && IsFull(s, root, key)
    requires chain == Kids(s, root)[..ChildFor(s, root, key) + 1] + [|s|] + Kids(s, root)[ChildFor(s, root, key) + 1..]
    ensures var t := Insert(s, root, key, ptr).store;
            && t[root] == s[root]
            && Leaves(t, chain) && Chain(t, chain)
            && Flatten(LeavesOf(t, chain)) == Place(Contents(s, root), (key, ptr))
  {
    var kids, i, l := Kids(s, root), ChildFor(s, root, key), TreeLists(s, root);
    var g := Place(l[i], (key, ptr));
    FailedOutcome(s, root, key, ptr);
    GrowAndCut(l, Seps(s, root), i, (key, ptr));
    CutInChain(s, kids, i, g, chain);
  }

  lemma {:induction false} FailedOutcome(s: Store, root: nat, key: Int64, ptr: UInt64)
    requires Shape(s, root) && |s| + 2 <= 0x7FFF_FFFF && IsFull(s, root, key)
    ensures var c, o := Target(s, root, key), Insert(s, root, key, ptr);
            o == Outcome(CutLeaf(s, c, Place(s[c].es, (key, ptr))), root, false) && o.store[root] == s[root]
  {
    assert Target(s, root, key) != root;
  }

  lemma {:induction false} CutInChain(s: Store, kids: seq<UInt64>, i: nat, g: seq<Entry>, chain: seq<UInt64>)
    requires Leaves(s, kids) && Distinct(kids) && Chain(s, kids) && i < |kids| && |s| < 0x7FFF_FFFF && |g| == 250
    requires chain == kids[..i + 1] + [|s|] + kids[i + 1..]
    ensures var t, l := CutLeaf(s, kids[i], g), LeavesOf(s, kids);
            && Leaves(t, chain) && Chain(t, chain)
            && LeavesOf(t, chain) == l[..i] + [g[..125], g[125..]] + l[i + 1..]
  {
    var t, l := CutLeaf(s, kids[i], g), LeavesOf(s, kids);
    CutLeafLists(s, kids, i, g);
    ParentSplitChain(s, t, kids, i);
    CutTwice(l, i, g[..125], g[125..]);
    ChainLists(t, kids, i, l[i := g[..125]], g[125..], chain);
  }

  lemma {:induction false} ChainLists(t: Store, kids: seq<UInt64>, i: nat, cut: Lists, y: seq<Entry>,
                                      chain: seq<UInt64>)
    requires 0 < |t| <= 0x7FFF_FFFF && i < |kids| && Leaves(t, kids) && LeavesOf(t, kids) == cut
    requires t[|t| - 1].Leaf? && t[|t| - 1].es == y
    requires chain == kids[..i + 1] + [|t| - 1] + kids[i + 1..]
    ensures Leaves(t, chain) && LeavesOf(t, chain) == cut[..i + 1] + [y] + cut[i + 1..]
  {
    var want := cut[..i + 1] + [y] + cut[i + 1..];
    forall j | 0 <= j < |chain| ensures chain[j] < |t| && t[chain[j]].Leaf? && t[chain[j]].es == want[j] {
      if j <= i {
        assert chain[j] == kids[j] && want[j] == cut[j];
      } else if j > i + 1 {
        assert chain[j] == kids[j - 1] && want[j] == cut[j - 1];
      }
    }
  }

  /** A page of the given index. */
  predicate Owns(s: Store, root: nat, p: nat)
    requires root < |s| <= 0x7FFF_FFFF
  {
    p == root || p in Kids(s, root)
  }

  ghost predicate Apart(s: Store, root: nat, other: nat)
    requires root < |s| <= 0x7FFF_FFFF && other < |s|
  {
    forall p: nat :: !(Owns(s, root, p) && Owns(s, other, p))
  }

  /** Several indexes share one file: inserting into one leaves another as it was and keeps them apart. */
  lemma {:induction false} OtherIndexUntouched(s: Store, root: nat, other: nat, key: Int64, ptr: UInt64)
    requires Shape(s, root) && Shape(s, other) && |s| + 2 <= 0x7FFF_FFFF
    requires Apart(s, root, other)
    ensures var o := Insert(s, root, key, ptr);
            && Shape(o.store, other)
            && Contents(o.store, other) == Contents(s, other)
            && (Strict(s, other) ==> Strict(o.store, other))
            && (o.ok ==> Shape(o.store, o.root) && Apart(o.store, o.root, other))
  {
    var o, kids := Insert(s, root, key, ptr), Kids(s, other);
    InsertKeepsShape(s, root, key, ptr);
    InsertFrame(s, root, key, ptr);
    assert Owns(s, other, other);
    forall i | 0 <= i < |kids| ensures o.store[kids[i]] == s[kids[i]] {
      assert Owns(s, other, kids[i]);
    }
    SameTree(s, o.store, other);
    if o.ok {
      forall p: nat ensures !(Owns(o.store, o.root, p) && Owns(o.store, other, p)) {
        assert !(Owns(s, root, p) && Owns(s, other, p));
        assert Owns(s, other, p) ==> p < |s|;
      }
    }
  }

  lemma {:induction false} SameTree(s: Store, t: Store, root: nat)
    requires Shape(s, root) && |s| <= |t| <= 0x7FFF_FFFF && t[root] == s[root]
    requires forall i :: 0 <= i < |Kids(s, root)| ==> t[Kids(s, root)[i]] == s[Kids(s, root)[i]]
    ensures Shape(t, root) && Kids(t, root) == Kids(s, root) && TreeLists(t, root) == TreeLists(s, root)
    ensures Strict(s, root) ==> Strict(t, root)
  {
    assert Kids(t, root) == Kids(s, root);
  }
}
