/** The leaf chain for arbitrary keys: however splits fell, and whatever inserts failed, it
    visits every leaf of the tree once and ends, so every seek terminates and invents nothing. */
module BTreeChain {
  import opened Core
  import opened Sequences
  import opened SortedList
  import opened LeafLists
  import opened BTree
  import opened BTreeInsert
  import opened BTreeRuns

  /** The leaf chain visits the pages of `order`, each once, and all leaves of the tree are
      among them; after an unclean split this need not be the order of the children. */
  ghost predicate Chained(s: Store, root: nat, order: seq<UInt64>) {
    && Shape(s, root)
    && Leaves(s, order) && Distinct(order) && Chain(s, order)
    && forall c :: c in Kids(s, root) ==> c in order
  }

  lemma {:induction false} ChainedHasShape(s: Store, root: nat, order: seq<UInt64>)
    requires Chained(s, root, order)
    ensures Shape(s, root)
  {
  }

  /** All entries on the chain. */
  function OnChain(s: Store, order: seq<UInt64>): (es: seq<Entry>)
    requires Leaves(s, order)
  {
    Flatten(LeavesOf(s, order))
  }

  /** The chain holds the leaves of the tree and no others. */
  ghost predicate OnlyKids(s: Store, root: nat, order: seq<UInt64>)
    requires Chained(s, root, order)
  {
    && (forall c :: c in order ==> c in Kids(s, root))
    && multiset(OnChain(s, order)) == multiset(Contents(s, root))
  }

  // ---------------------------------------------------------------------
  // Insertion
  // ---------------------------------------------------------------------

  /** Pages off the chain do not matter to it. */
  lemma {:induction false} SameLeaves(t: Store, t': Store, chain: seq<UInt64>)
    requires Leaves(t, chain) && Chain(t, chain) && |t| <= |t'|
    requires forall i :: 0 <= i < |chain| ==> t'[chain[i]] == t[chain[i]]
    ensures Leaves(t', chain) && Chain(t', chain) && LeavesOf(t', chain) == LeavesOf(t, chain)
  {
  }

  /** A leaf that only grew. */
  lemma {:induction false} GrowInChain(s: Store, order: seq<UInt64>, q: nat, e: Entry)
    requires Leaves(s, order) && Distinct(order) && Chain(s, order) && q < |order|
    ensures var g := Place(s[order[q]].es, e);
            var t := s[order[q] := Leaf(g, s[order[q]].next)];
            && Leaves(t, order) && Chain(t, order)
            && multiset(OnChain(t, order)) == multiset(OnChain(s, order)) + multiset{e}
  {
    hide Place, Flatten, Chain, Distinct;
    GrownLeaf(s, order, q, Place(s[order[q]].es, e));
    GrownBag(LeavesOf(s, order), q, e);
  }

  lemma {:induction false} GrownLeaf(s: Store, order: seq<UInt64>, q: nat, g: seq<Entry>)
    requires Leaves(s, order) && Distinct(order) && Chain(s, order) && q < |order|
    ensures var t := s[order[q] := Leaf(g, s[order[q]].next)];
            Leaves(t, order) && Chain(t, order) && LeavesOf(t, order) == LeavesOf(s, order)[q := g]
  {
    var t := s[order[q] := Leaf(g, s[order[q]].next)];
    forall j | 0 <= j < |order|
      ensures t[order[j]] == if j == q then Leaf(g, s[order[q]].next) else s[order[j]]
    {
      if j < q {
        assert order[j] != order[q];
      } else if q < j {
        assert order[q] != order[j];
      }
    }
    hide Distinct;
    assert Leaves(t, order);
  }

  lemma {:induction false} GrownBag(l: Lists, q: nat, e: Entry)
    requires q < |l|
    ensures multiset(Flatten(l[q := Place(l[q], e)])) == multiset(Flatten(l)) + multiset{e}
  {
    hide Place, Flatten;
    var g := Place(l[q], e);
    PlaceAdds(l[q], e);
    ReplaceBag(l, q, g);
    GainOne(multiset(Flatten(l)), multiset(Flatten(l[q := g])), multiset(g), multiset(l[q]), e);
  }

  /** The chain after leaf q was cut: the fresh page follows it. */
  function Spliced(order: seq<UInt64>, q: nat, page: UInt64): (r: seq<UInt64>)
    requires q < |order|
  {
    order[..q + 1] + [page] + order[q + 1..]
  }

  /** A leaf that overflowed and was cut. */
  lemma {:induction false} CutOnChain(s: Store, order: seq<UInt64>, q: nat, e: Entry)
    requires Leaves(s, order) && Distinct(order) && Chain(s, order) && q < |order| && |s| < 0x7FFF_FFFF
    requires |s[order[q]].es| == 249
    ensures var t, chain := CutLeaf(s, order[q], Place(s[order[q]].es, e)), Spliced(order, q, |s|);
            && Leaves(t, chain) && Distinct(chain) && Chain(t, chain)
            && multiset(OnChain(t, chain)) == multiset(OnChain(s, order)) + multiset{e}
  {
    hide Flatten, Place;
    var l, g, chain := LeavesOf(s, order), Place(s[order[q]].es, e), Spliced(order, q, |s|);
    PlaceAdds(l[q], e);
    assert |g| == |multiset(g)| == 250;
    CutInChain(s, order, q, g, chain);
    CutTwice(l, q, g[..125], g[125..]);
    CutBagGain(l, q, e, q + 1);
    assert |s| !in order;
    InsertedDistinct(order, q + 1, |s|);
  }

  lemma {:induction false} Position(order: seq<UInt64>, c: UInt64) returns (q: nat)
    requires c in order
    ensures q < |order| && order[q] == c
  {
    q :| 0 <= q < |order| && order[q] == c;
  }

  /** The store after an insert, in terms of the target leaf. */
  lemma {:induction false} OutcomeIs(s: Store, root: nat, key: Int64, ptr: UInt64)
    requires Shape(s, root) && |s| + 2 <= 0x7FFF_FFFF
    ensures var c, o := Target(s, root, key), Insert(s, root, key, ptr);
            var g := Place(s[c].es, (key, ptr));
            var t := CutLeaf(s, c, g);
            && (|s[c].es| < 249 ==> o.store == s[c := Leaf(g, s[c].next)] && o.ok && o.root == root)
            && (|s[c].es| >= 249 ==>
                  && |s[c].es| == 249
                  && |t| <= |o.store| <= |t| + 1 && |t| == |s| + 1
                  && (s[root].Leaf? ==> o.store[..|t|] == t && Kids(o.store, o.root) == [root, |s|])
                  && (s[root].Inner? ==> o.root == root && forall p :: 0 <= p < |t| && p != root ==> o.store[p] == t[p])
                  && (s[root].Inner? && !o.ok ==> o.store == t && t[root] == s[root]))
  {
    hide Place, CutLeaf, AddChild, BTree.Insert;
    var c := Target(s, root, key);
    PlaceAdds(s[c].es, (key, ptr));
    var g := Place(s[c].es, (key, ptr));
    assert |g| == |multiset(g)| == |s[c].es| + 1;
    CutSize(s, c, g);
    InsertCases(s, root, key, ptr);
  }

  lemma {:induction false} CutSize(s: Store, c: UInt64, g: seq<Entry>)
    requires c < |s| && s[c].Leaf?
    ensures |CutLeaf(s, c, g)| == |s| + 1
  {
  }

  /** An insert whose leaf has room. */
  lemma {:induction false} GrowKeepsChain(s: Store, root: nat, key: Int64, ptr: UInt64, order: seq<UInt64>)
    requires Chained(s, root, order) && |s| + 2 <= 0x7FFF_FFFF && |s[Target(s, root, key)].es| < 249
    ensures var o := Insert(s, root, key, ptr);
            && Chained(o.store, o.root, order)
            && multiset(OnChain(o.store, order)) == multiset(OnChain(s, order)) + multiset{(key, ptr)}
            && Kids(o.store, o.root) == Kids(s, root)
  {
    hide BTree.Insert, Place, Chain, OnChain, Distinct, TreeLists;
    var q := Position(order, Target(s, root, key));
    OutcomeIs(s, root, key, ptr);
    GrowInChain(s, order, q, (key, ptr));
    NoSplitLists(s, root, key, ptr);
  }

  /** An insert that cuts its leaf, with or without success. */
  lemma {:induction false} SplitKeepsChain(s: Store, root: nat, key: Int64, ptr: UInt64, order: seq<UInt64>, q: nat)
    requires Chained(s, root, order) && |s| + 2 <= 0x7FFF_FFFF && |s[Target(s, root, key)].es| >= 249
    requires q < |order| && order[q] == Target(s, root, key)
    ensures var o, order' := Insert(s, root, key, ptr), Spliced(order, q, |s|);
            && Chained(o.store, o.root, order')
            && multiset(OnChain(o.store, order')) == multiset(OnChain(s, order)) + multiset{(key, ptr)}
            && (o.ok && (forall c :: c in order ==> c in Kids(s, root)) ==>
                  forall c :: c in order' ==> c in Kids(o.store, o.root))
  {
    hide BTree.Insert, Place, Chain, OnChain, Distinct, CutLeaf;
    var o, c, order' := Insert(s, root, key, ptr), Target(s, root, key), Spliced(order, q, |s|);
    InsertKeepsShape(s, root, key, ptr);
    OutcomeIs(s, root, key, ptr);
    CutOnChain(s, order, q, (key, ptr));
    var t := CutLeaf(s, c, Place(s[c].es, (key, ptr)));
    OffChain(s, root, order, q, t, o.store);
    SameLeaves(t, o.store, order');
    SameBag(t, o.store, order');
    SplitKids(s, root, key, ptr, order, q);
  }

  /** The only page that changes besides the cut leaf is an internal root, which is not on the chain. */
  lemma {:induction false} OffChain(s: Store, root: nat, order: seq<UInt64>, q: nat, t: Store, t': Store)
    requires root < |s| && Leaves(s, order) && q < |order| && |t| == |s| + 1 <= |t'| <= 0x7FFF_FFFF
    requires s[root].Leaf? ==> t'[..|t|] == t
    requires s[root].Inner? ==> forall p :: 0 <= p < |t| && p != root ==> t'[p] == t[p]
    ensures var order' := Spliced(order, q, |s|);
            forall i :: 0 <= i < |order'| ==> order'[i] < |t| && t'[order'[i]] == t[order'[i]]
  {
    var order' := Spliced(order, q, |s|);
    forall i | 0 <= i < |order'| ensures order'[i] < |t| && t'[order'[i]] == t[order'[i]] {
      if i != q + 1 {
        var k := if i <= q then i else i - 1;
        assert order'[i] == order[k] && s[order[k]].Leaf?;
      }
      if s[root].Leaf? {
        assert t'[..|t|][order'[i]] == t[order'[i]];
      }
    }
  }

  /** For any keys, whether it succeeds or fails: an insert keeps the chain, which gains
      exactly the new entry; and if it succeeds no leaf outside the tree joins it. */
  lemma {:induction false} InsertKeepsChain(s: Store, root: nat, key: Int64, ptr: UInt64, order: seq<UInt64>)
    returns (order': seq<UInt64>)
    requires Chained(s, root, order) && |s| + 2 <= 0x7FFF_FFFF
    ensures var o := Insert(s, root, key, ptr);
            && Chained(o.store, o.root, order')
            && multiset(OnChain(o.store, order')) == multiset(OnChain(s, order)) + multiset{(key, ptr)}
            && (o.ok && OnlyKids(s, root, order) ==> OnlyKids(o.store, o.root, order'))
  {
    hide BTree.Insert, Chain, OnChain, Contents, Shape;
    InsertKeepsShape(s, root, key, ptr);
    var c := Target(s, root, key);
    if |s[c].es| < 249 {
      order' := order;
      GrowKeepsChain(s, root, key, ptr, order);
    } else {
      var q := Position(order, c);
      order' := Spliced(order, q, |s|);
      SplitKeepsChain(s, root, key, ptr, order, q);
    }
  }

  lemma {:induction false} SameBag(t: Store, t': Store, chain: seq<UInt64>)
    requires Leaves(t, chain) && Leaves(t', chain) && LeavesOf(t', chain) == LeavesOf(t, chain)
    ensures OnChain(t', chain) == OnChain(t, chain)
  {
  }

  /** The children after a split are on the spliced chain, and conversely on success. */
  lemma {:induction false} SplitKids(s: Store, root: nat, key: Int64, ptr: UInt64, order: seq<UInt64>, q: nat)
    requires Shape(s, root) && |s| + 2 <= 0x7FFF_FFFF && |s[Target(s, root, key)].es| == 249 && q < |order|
    requires forall c :: c in Kids(s, root) ==> c in order
    requires Shape(Insert(s, root, key, ptr).store, Insert(s, root, key, ptr).root)
    ensures var o := Insert(s, root, key, ptr);
            && (forall c :: c in Kids(o.store, o.root) ==> c in Spliced(order, q, |s|))
            && (o.ok && (forall c :: c in order ==> c in Kids(s, root)) ==>
                  forall c :: c in Spliced(order, q, |s|) ==> c in Kids(o.store, o.root))
  {
    hide BTree.Insert, Place, CutLeaf, Flatten, Spliced, Distinct;
    var o, kids := Insert(s, root, key, ptr), Kids(s, root);
    SplicedMembers(order, q, |s|);
    OutcomeIs(s, root, key, ptr);
    InsertKeepsShape(s, root, key, ptr);
    if s[root].Inner? && o.ok {
      ParentSplitLists(s, root, key, ptr);
      var i := ChildFor(s, root, key);
      var p := Upper(Seps(s, root), Place(TreeLists(s, root)[i], (key, ptr))[125].0);
      SplicedMembers(kids, p, |s|);
    }
  }

  lemma {:induction false} SplicedMembers(order: seq<UInt64>, q: nat, page: UInt64)
    requires q < |order|
    ensures forall c :: c in Spliced(order, q, page) <==> c in order || c == page
  {
    var r := Spliced(order, q, page);
    assert order == order[..q + 1] + order[q + 1..];
  }

  // ---------------------------------------------------------------------
  // Runs
  // ---------------------------------------------------------------------

  /** Inserting all entries, going on after failures. */
  function RunAll(s: Store, root: nat, ops: seq<Entry>): (o: Outcome)
    requires Shape(s, root) && |s| + 2 * |ops| <= 0x7FFF_FFFF
    ensures Shape(o.store, o.root)
    decreases |ops|
  {
    if ops == [] then Outcome(s, root, true)
    else
      InsertKeepsShape(s, root, ops[0].0, ops[0].1);
      InsertFrame(s, root, ops[0].0, ops[0].1);
      var o := Insert(s, root, ops[0].0, ops[0].1);
      var r := RunAll(o.store, o.root, ops[1..]);
      r.(ok := o.ok && r.ok)
  }

  /** Over every run, whatever the keys and whatever inserts failed: the chain visits every
      leaf of the tree once, ends, and holds exactly the old and the inserted entries; without
      failures it visits nothing but the leaves of the tree. */
  lemma {:induction false} RunKeepsChain(s: Store, root: nat, ops: seq<Entry>, order: seq<UInt64>)
    returns (order': seq<UInt64>)
    requires Chained(s, root, order) && |s| + 2 * |ops| <= 0x7FFF_FFFF
    ensures var o := RunAll(s, root, ops);
            && Chained(o.store, o.root, order')
            && multiset(OnChain(o.store, order')) == multiset(OnChain(s, order)) + multiset(ops)
            && (o.ok && OnlyKids(s, root, order) ==> OnlyKids(o.store, o.root, order'))
    decreases |ops|
  {
    hide BTree.Insert, OnChain, OnlyKids, Chain, Shape;
    if ops == [] {
      order' := order;
    } else {
      var e := ops[0];
      InsertFrame(s, root, e.0, e.1);
      InsertKeepsShape(s, root, e.0, e.1);
      var next := InsertKeepsChain(s, root, e.0, e.1, order);
      var o := Insert(s, root, e.0, e.1);
      order' := RunKeepsChain(o.store, o.root, ops[1..], next);
      AddFirst(multiset(OnChain(s, order)), ops);
    }
  }

  /** The chain of a new index. */
  lemma {:induction false} EmptyChain(s: Store, root: nat)
    requires root < |s| <= 0x7FFF_FFFF && s[root] == Leaf([], -1)
    ensures Chained(s, root, [root]) && OnlyKids(s, root, [root])
  {
    assert s[root].next == Next([root], 0);
  }

  // ---------------------------------------------------------------------
  // Seek
  // ---------------------------------------------------------------------

  function IndexOf(order: seq<UInt64>, c: UInt64): (q: nat)
    requires c in order
    ensures q < |order| && order[q] == c
  {
    if order[0] == c then 0 else 1 + IndexOf(order[1..], c)
  }

  /** The rows a seek produces on any chained tree, before the visibility filter. */
  ghost function SeekAlong(s: Store, root: nat, order: seq<UInt64>, key: Int64): (rows: seq<UInt64>)
    requires Chained(s, root, order)
  {
    var c := Target(s, root, key);
    var es, rest := s[c].es, order[IndexOf(order, c) + 1..];
    WalkFrom(es, LeavesOf(s, rest), key)
  }

  /** The walk of the iterator: the first leaf from the first key that is not smaller, then
      the later leaves, up to the first greater key. */
  function WalkFrom(es: seq<Entry>, later: Lists, key: Int64): (rows: seq<UInt64>) {
    Matches(es[Lower(es, key)..] + Flatten(later), key)
  }

  lemma {:induction false} MatchesWithin(es: seq<Entry>, k: Int64)
    ensures multiset(Matches(es, k)) <= multiset(Under(es, k))
  {
    if es != [] {
      MatchesWithin(es[1..], k);
    }
  }

  /** For any keys a seek returns only rows stored on the chain under the key, none more often
      than it is stored. */
  lemma {:induction false} SeekIsSound(s: Store, root: nat, order: seq<UInt64>, key: Int64)
    requires Chained(s, root, order)
    ensures multiset(SeekAlong(s, root, order, key)) <= multiset(Under(OnChain(s, order), key))
    ensures OnlyKids(s, root, order) ==>
              multiset(SeekAlong(s, root, order, key)) <= multiset(Under(Contents(s, root), key))
  {
    hide Flatten, WalkFrom, Under, Chain, Contents, Distinct;
    var q, l := IndexOf(order, Target(s, root, key)), LeavesOf(s, order);
    assert LeavesOf(s, order[q + 1..]) == l[q + 1..];
    WalkIsSound(l, q, key);
    if OnlyKids(s, root, order) {
      UnderOfBag(OnChain(s, order), Contents(s, root), key);
    }
  }

  lemma {:induction false} WalkIsSound(l: Lists, q: nat, key: Int64)
    requires q < |l|
    ensures multiset(WalkFrom(l[q], l[q + 1..], key)) <= multiset(Under(Flatten(l), key))
  {
    hide Flatten, Matches, Under;
    var m := Lower(l[q], key);
    var before, rest := Flatten(l[..q]), l[q][m..] + Flatten(l[q + 1..]);
    FlattenHalves(l, q);
    assert Flatten(l[q..]) == l[q][..m] + rest;
    MatchesWithin(rest, key);
    UnderConcat(before, Flatten(l[q..]), key);
    UnderConcat(l[q][..m], rest, key);
  }

  lemma {:induction false} UnderOfBag(a: seq<Entry>, b: seq<Entry>, k: Int64)
    requires multiset(a) == multiset(b)
    ensures multiset(Under(a, k)) == multiset(Under(b, k))
  {
    forall id: UInt64 ensures multiset(Under(a, k))[id] == multiset(Under(b, k))[id] {
      UnderCounts(a, k, id);
      UnderCounts(b, k, id);
    }
  }

  /** Two chains from the same leaf are the same. */
  lemma {:induction false} ChainIsUnique(s: Store, a: seq<UInt64>, b: seq<UInt64>)
    requires Leaves(s, a) && Leaves(s, b) && Chain(s, a) && Chain(s, b) && a != [] && b != [] && a[0] == b[0]
    ensures a == b
    decreases |a|
  {
    assert s[a[0]].next == Next(a, 0) == Next(b, 0);
    if |a| > 1 && |b| > 1 {
      ChainTail(s, a);
      ChainTail(s, b);
      ChainIsUnique(s, a[1..], b[1..]);
      assert a == [a[0]] + a[1..] && b == [b[0]] + b[1..];
    }
  }

  lemma {:induction false} ChainTail(s: Store, a: seq<UInt64>)
    requires Leaves(s, a) && Chain(s, a) && a != []
    ensures Leaves(s, a[1..]) && Chain(s, a[1..])
  {
    var tail := a[1..];
    forall i | 0 <= i < |tail| ensures s[tail[i]].next == Next(tail, i) {
      assert s[a[i + 1]].next == Next(a, i + 1);
    }
  }

  lemma {:induction false} ChainSuffix(s: Store, kids: seq<UInt64>, j: nat)
    requires Leaves(s, kids) && Chain(s, kids) && j < |kids|
    ensures Leaves(s, kids[j..]) && Chain(s, kids[j..])
    ensures Leaves(s, kids[j + 1..]) && Chain(s, kids[j + 1..])
    ensures s[kids[j]].next == if kids[j + 1..] == [] then -1 else kids[j + 1..][0]
  {
    var rest := kids[j..];
    forall i | 0 <= i < |rest| ensures s[rest[i]].next == Next(rest, i) {
      assert s[kids[j + i]].next == Next(kids, j + i);
    }
    ChainTail(s, rest);
    assert rest[1..] == kids[j + 1..];
    assert s[kids[j]].next == Next(kids, j);
  }

  /** The leaf a seek starts in, and those behind it on the chain, by the lists of the tree. */
  lemma {:induction false} TailLists(s: Store, root: nat, order: seq<UInt64>, key: Int64)
    requires Linked(s, root) && Chained(s, root, order)
    ensures var l, j, c := TreeLists(s, root), ChildFor(s, root, key), Target(s, root, key);
            var rest := order[IndexOf(order, c) + 1..];
            j < |l| && s[c].es == l[j] && Leaves(s, rest) && LeavesOf(s, rest) == l[j + 1..]
  {
    hide Ordered, Chain, Distinct, Upper, IndexOf, LeavesOf;
    SameSuffix(s, root, order, key);
    SuffixLists(s, Kids(s, root), ChildFor(s, root, key) + 1);
  }

  /** When the children are chained in order, this is the seek over the children. */
  lemma {:induction false} AlongIsSeek(s: Store, root: nat, order: seq<UInt64>, key: Int64)
    requires Linked(s, root) && Chained(s, root, order)
    ensures SeekAlong(s, root, order, key) == Seek(s, root, key)
  {
    ChainedHasShape(s, root, order);
    hide *;
    AlongIsWalk(s, root, order, key);
    TailLists(s, root, order, key);
    SeekIsWalk(s, root, key);
  }

  lemma {:induction false} AlongIsWalk(s: Store, root: nat, order: seq<UInt64>, key: Int64)
    requires Chained(s, root, order)
    ensures var c := Target(s, root, key);
            var rest := order[IndexOf(order, c) + 1..];
            Leaves(s, rest) && SeekAlong(s, root, order, key) == WalkFrom(s[c].es, LeavesOf(s, rest), key)
  {
    var q := IndexOf(order, Target(s, root, key));
    SuffixLists(s, order, q + 1);
    hide WalkFrom, Chain, Distinct, IndexOf, LeavesOf, Leaves, Shape, Target, Kids, ChildFor;
  }

  lemma {:induction false} SeekIsWalk(s: Store, root: nat, key: Int64)
    requires Shape(s, root)
    ensures var l, j := TreeLists(s, root), ChildFor(s, root, key);
            Seek(s, root, key) == WalkFrom(l[j], l[j + 1..], key)
  {
    hide Matches, Flatten, Lower, Leaves, Distinct, Upper;
  }

  lemma {:induction false} SuffixLists(s: Store, kids: seq<UInt64>, j: nat)
    requires Leaves(s, kids) && j <= |kids|
    ensures Leaves(s, kids[j..]) && LeavesOf(s, kids[j..]) == LeavesOf(s, kids)[j..]
  {
  }

  lemma {:induction false} SameSuffix(s: Store, root: nat, order: seq<UInt64>, key: Int64)
    requires Chained(s, root, order) && Leaves(s, Kids(s, root)) && Chain(s, Kids(s, root))
    ensures Kids(s, root)[ChildFor(s, root, key) + 1..] == order[IndexOf(order, Target(s, root, key)) + 1..]
  {
    hide Chain, Distinct;
    var kids, j := Kids(s, root), ChildFor(s, root, key);
    var q := IndexOf(order, kids[j]);
    ChainSuffix(s, kids, j);
    ChainSuffix(s, order, q);
    ChainIsUnique(s, kids[j..], order[q..]);
    assert kids[j..][1..] == kids[j + 1..] && order[q..][1..] == order[q + 1..];
  }

  // ---------------------------------------------------------------------
  // After a failed insert
  // ---------------------------------------------------------------------

  /** Nothing before position q has the key, so walking from there finds all of it. */
  lemma {:induction false} WalkFindsAll(l: Lists, seps: seq<Int64>, q: nat, k: Int64)
    requires Ordered(l, seps) && q < |l| && forall j :: 0 <= j < q ==> AllLt(l[j], k)
    ensures WalkFrom(l[q], l[q + 1..], k) == Under(Flatten(l), k)
  {
    hide Flatten, Matches, Under;
    WalkLists(l, seps, q, k);
    var before := l[..q];
    forall j | 0 <= j < |before| ensures AllLe(before[j], k as int - 1) {
      assert AllLt(l[j], k);
    }
    FlattenAllLe(before, k as int - 1);
    UnderNone(Flatten(before), k);
  }

  /** The lists along the chain after the target leaf was cut. */
  function CutLists(l: Lists, i: nat, g: seq<Entry>): (r: Lists)
    requires i < |l| && |g| == 250
  {
    l[..i] + [g[..125], g[125..]] + l[i + 1..]
  }

  /** The leaf that a seek for k starts in, by its position on the chain. */
  function StartOf(seps: seq<Int64>, i: nat, k: Int64): (q: nat) {
    if Upper(seps, k) <= i then Upper(seps, k) else Upper(seps, k) + 1
  }

  /** Everything before the start of the walk is smaller than the key. */
  lemma {:induction false} SmallerBefore(l: Lists, seps: seq<Int64>, i: nat, g: seq<Entry>, k: Int64)
    requires Ordered(l, seps) && Separated(l, seps) && i < |l| && |g| == 250 && (i < |seps| ==> AllLt(g, seps[i]))
    ensures forall j :: 0 <= j < StartOf(seps, i, k) ==> AllLt(CutLists(l, i, g)[j], k)
  {
    var l' := CutLists(l, i, g);
    forall j | 0 <= j < StartOf(seps, i, k) ensures AllLt(l'[j], k) {
      if j < i {
        assert l'[j] == l[j] && AllLt(l[j], seps[j]);
      } else if j > i + 1 {
        assert l'[j] == l[j - 1] && AllLt(l[j - 1], seps[j - 1]);
      } else {
        assert AllLt(g, seps[i]);
        assert l'[j] == if j == i then g[..125] else g[125..];
      }
    }
  }

  lemma {:induction false} IndexOfDistinct(order: seq<UInt64>, q: nat)
    requires Distinct(order) && q < |order|
    ensures IndexOf(order, order[q]) == q
  {
  }

  /** The chain after a failed insert into a strict tree. */
  lemma {:induction false} FailedIsChained(s: Store, root: nat, key: Int64, ptr: UInt64)
    requires Strict(s, root) && |s| + 2 <= 0x7FFF_FFFF && IsFull(s, root, key)
    ensures var t, chain := Insert(s, root, key, ptr).store, Spliced(Kids(s, root), ChildFor(s, root, key), |s|);
            && t[root] == s[root] && Chained(t, root, chain)
            && LeavesOf(t, chain)
               == CutLists(TreeLists(s, root), ChildFor(s, root, key), Place(s[Target(s, root, key)].es, (key, ptr)))
  {
    hide BTree.Insert, Place, Flatten, Ordered, Separated, CutLeaf, Chain, Upper, Distinct, LeavesOf;
    var kids, i := Kids(s, root), ChildFor(s, root, key);
    var g := Place(s[kids[i]].es, (key, ptr));
    PlaceAdds(s[kids[i]].es, (key, ptr));
    assert |g| == |multiset(g)| == 250;
    FailedOutcome(s, root, key, ptr);
    FailureKeepsShape(s, root, key, ptr);
    CutInChain(s, kids, i, g, Spliced(kids, i, |s|));
    NewPageIsDistinct(s, kids, i);
    SplicedMembers(kids, i, |s|);
  }

  lemma {:induction false} NewPageIsDistinct(s: Store, kids: seq<UInt64>, i: nat)
    requires Leaves(s, kids) && Distinct(kids) && i < |kids| && |s| <= 0x7FFF_FFFF
    ensures Distinct(Spliced(kids, i, |s|))
  {
    assert |s| !in kids;
    InsertedDistinct(kids, i + 1, |s|);
  }

  /** The cut lists are ordered and hold the list with the pair placed in it. */
  lemma {:induction false} CutIs(l: Lists, seps: seq<Int64>, i: nat, e: Entry, k: Int64)
    requires Ordered(l, seps) && Separated(l, seps) && i < |l| && |l[i]| == 249
    requires i > 0 ==> seps[i - 1] <= e.0
    requires i < |seps| ==> e.0 < seps[i]
    ensures var g := Place(l[i], e);
            && |g| == 250 && StartOf(seps, i, k) < |CutLists(l, i, g)|
            && Ordered(CutLists(l, i, g), seps[..i] + [g[125].0] + seps[i..])
            && Flatten(CutLists(l, i, g)) == Place(Flatten(l), e)
  {
    assert |l| == |seps| + 1;
    hide Place, Flatten, Ordered, Separated;
    PlaceAdds(l[i], e);
    assert |Place(l[i], e)| == |multiset(Place(l[i], e))| == 250;
    GrowAndCut(l, seps, i, e);
  }

  lemma {:induction false} OneMoreLeaf(l: Lists, seps: seq<Int64>)
    requires Ordered(l, seps)
    ensures |l| == |seps| + 1
  {
  }

  /** On the lists: the walk finds the rows under the key with the new pair among them. */
  lemma {:induction false} FoundInLists(l: Lists, seps: seq<Int64>, i: nat, e: Entry, k: Int64)
    requires Ordered(l, seps) && Separated(l, seps) && i < |l| && |l[i]| == 249
    requires i > 0 ==> seps[i - 1] <= e.0
    requires i < |seps| ==> e.0 < seps[i]
    ensures var g, q := Place(l[i], e), StartOf(seps, i, k);
            && |g| == 250 && q < |CutLists(l, i, g)|
            && WalkFrom(CutLists(l, i, g)[q], CutLists(l, i, g)[q + 1..], k) == Under(Place(Flatten(l), e), k)
  {
    hide *;
    OneMoreLeaf(l, seps);
    CutIs(l, seps, i, e, k);
    var g := Place(l[i], e);
    PlaceKeepsOrder(l, seps, i, e);
    SmallerBefore(l, seps, i, g, k);
    WalkFindsAll(CutLists(l, i, g), seps[..i] + [g[125].0] + seps[i..], StartOf(seps, i, k), k);
  }

  /** The seek starts at that position of the chain. */
  lemma {:induction false} StartsThere(t: Store, root: nat, kids: seq<UInt64>, i: nat, page: UInt64, k: Int64)
    requires i < |kids| && Chained(t, root, Spliced(kids, i, page)) && kids == Kids(t, root)
    ensures var chain, q := Spliced(kids, i, page), StartOf(Seps(t, root), i, k);
            && q < |chain|
            && SeekAlong(t, root, chain, k) == WalkFrom(LeavesOf(t, chain)[q], LeavesOf(t, chain)[q + 1..], k)
  {
    hide WalkFrom, Chain, Flatten;
    var chain, q := Spliced(kids, i, page), StartOf(Seps(t, root), i, k);
    assert chain[q] == Target(t, root, k);
    IndexOfDistinct(chain, q);
    SuffixLists(t, chain, q + 1);
  }

  /** An insert that reported failure is found all the same: into a strict tree, every seek
      afterwards returns the rows under its key with the new pair among them, in order. */
  lemma {:induction false} SeekAfterFailure(s: Store, root: nat, key: Int64, ptr: UInt64, k: Int64)
    requires Strict(s, root) && |s| + 2 <= 0x7FFF_FFFF && IsFull(s, root, key)
    ensures var t, chain := Insert(s, root, key, ptr).store, Spliced(Kids(s, root), ChildFor(s, root, key), |s|);
            && Chained(t, root, chain)
            && SeekAlong(t, root, chain, k) == Under(Place(Contents(s, root), (key, ptr)), k)
  {
    hide BTree.Insert, Place, Flatten, Under, WalkFrom, Chained, SeekAlong, Chain, CutLists, Spliced, StartOf;
    var kids, i := Kids(s, root), ChildFor(s, root, key);
    FailedIsChained(s, root, key, ptr);
    FoundInLists(TreeLists(s, root), Seps(s, root), i, (key, ptr), k);
    StartsThere(Insert(s, root, key, ptr).store, root, kids, i, |s|, k);
  }
}
