/** SeekIndex and its iterator: descent to a leaf, start position, then a walk along
    the leaf chain until a greater key or the end. */
module IndexSeek {
  import opened Core
  import opened Sequences
  import opened SortedList
  import opened LeafLists
  import opened BTree
  import opened BTreeInsert
  import opened BTreeRuns
  import opened BTreeChain
  import opened NodeCodec
  import opened BufferPool
  import opened HeapFile
  import opened Index

  class SeekIterator {
    const pool: Pool
    const seekKey: Int64
    var currNode: BTreeNode
    var currIdx: nat
    ghost const s: Store
    ghost var rest: seq<UInt64>

    /** The index is unchanged since the seek, and `rest` are the leaves after the current one. */
    ghost predicate Valid()
      reads this, pool, pool.pages.Values, currNode
    {
      && Settled(pool) && Nodes(pool) == s && |s| <= 0x7FFF_FFFF
      && currNode.Ok() && currNode.leaf && currIdx <= |currNode.keys|
      && Leaves(s, rest) && Chain(s, rest)
      && currNode.nextLeaf == if rest == [] then -1 else rest[0]
    }

    /** The entries the iterator has not passed yet. */
    ghost function Remaining(): seq<Entry>
      requires Valid()
      reads this, pool, pool.pages.Values, currNode
    {
      currNode.Val().es[currIdx..] + Flatten(LeavesOf(s, rest))
    }

    constructor (pool: Pool, seekKey: Int64, leaf: BTreeNode, startIdx: nat, ghost rest: seq<UInt64>)
      requires Settled(pool) && |Nodes(pool)| <= 0x7FFF_FFFF && leaf.Ok() && leaf.leaf && startIdx <= |leaf.keys|
      requires Leaves(Nodes(pool), rest) && Chain(Nodes(pool), rest)
      requires leaf.nextLeaf == if rest == [] then -1 else rest[0]
      ensures Valid() && this.pool == pool && this.seekKey == seekKey && s == Nodes(pool) && currNode == leaf
      ensures Remaining() == leaf.Val().es[startIdx..] + Flatten(LeavesOf(Nodes(pool), rest))
    {
      this.pool, this.seekKey, currNode, currIdx := pool, seekKey, leaf, startIdx;
      this.s, this.rest := Nodes(pool), rest;
    }

    /** The chain step of Next: load the right sibling. */
    method Advance()
      requires Valid() && currIdx == |currNode.keys| && currNode.nextLeaf != -1
      modifies this, pool
      ensures Valid() && Remaining() == old(Remaining()) && fresh(currNode) && |rest| == |old(rest)| - 1
      ensures fresh(pool.pages.Values - old(pool.pages.Values))
    {
      hide DecodeNode, Settled, Nodes, Chain, Flatten, LeavesOf;
      ChainStep(s, rest);
      assert currNode.Val().es[currIdx..] == [];
      currNode := FetchNode(pool, currNode.nextLeaf);
      currIdx := 0;
      rest := rest[1..];
      assert currNode.Val().es[0..] == currNode.Val().es;
    }

    /** One turn of Next's loop: done with or without a row id, or one position further. */
    method Turn() returns (done: bool, r: Option<UInt64>)
      requires Valid()
      modifies this, pool
      ensures Valid() && (currNode == old(currNode) || fresh(currNode))
      ensures fresh(pool.pages.Values - old(pool.pages.Values))
      ensures !done ==> r.None? && Matches(Remaining(), seekKey) == Matches(old(Remaining()), seekKey)
      ensures !done ==> |rest| < |old(rest)| || (|rest| == |old(rest)| && |Remaining()| < |old(Remaining())|)
      ensures done && r.None? ==> Matches(old(Remaining()), seekKey) == [] == Matches(Remaining(), seekKey)
      ensures r.Some? ==> Matches(old(Remaining()), seekKey) == [r.value] + Matches(Remaining(), seekKey)
    {
      hide DecodeNode, Settled, Nodes, Chain, Matches;
      if currIdx >= |currNode.keys| {
        if currNode.nextLeaf == -1 {
          assert Flatten(LeavesOf(s, rest)) == [];
          HeadStep(Remaining(), seekKey);
          return true, None;
        }
        Advance();
        return false, None;
      }
      var val := currNode.keys[currIdx];
      ghost var rem := Remaining();
      assert rem[0] == (val, currNode.pointers[currIdx]);
      HeadStep(rem, seekKey);
      if val > seekKey {
        return true, None;
      }
      var rowID := currNode.pointers[currIdx];
      currIdx := currIdx + 1;
      assert Remaining() == rem[1..];
      done := val == seekKey;
      r := if done then Some(rowID) else None;
    }

    /** Next, before the row is looked up: the row id of the next entry with the key. */
    method NextEntry() returns (r: Option<UInt64>)
      requires Valid()
      modifies this, pool
      ensures Valid() && (currNode == old(currNode) || fresh(currNode))
      ensures fresh(pool.pages.Values - old(pool.pages.Values))
      ensures r.None? ==> Matches(old(Remaining()), seekKey) == [] == Matches(Remaining(), seekKey)
      ensures r.Some? ==> Matches(old(Remaining()), seekKey) == [r.value] + Matches(Remaining(), seekKey)
    {
      hide *;
      var done := false;
      r := None;
      while !done
        invariant Valid() && (currNode == old(currNode) || fresh(currNode))
        invariant fresh(pool.pages.Values - old(pool.pages.Values))
        invariant !done ==> Matches(Remaining(), seekKey) == Matches(old(Remaining()), seekKey)
        invariant done && r.None? ==> Matches(old(Remaining()), seekKey) == [] == Matches(Remaining(), seekKey)
        invariant done && r.Some? ==> Matches(old(Remaining()), seekKey) == [r.value] + Matches(Remaining(), seekKey)
        decreases !done, |rest|, |Remaining()|
      {
        done, r := Turn();
      }
    }
  }

  lemma {:induction false} HeadStep(es: seq<Entry>, k: Int64)
    ensures es == [] ==> Matches(es, k) == []
    ensures es != [] && es[0].0 > k ==> Matches(es, k) == []
    ensures es != [] && es[0].0 == k ==> Matches(es, k) == [es[0].1] + Matches(es[1..], k)
    ensures es != [] && es[0].0 < k ==> Matches(es, k) == Matches(es[1..], k)
  {
  }

  /** The start-index loop of SeekIndex. */
  method StartIndex(leaf: BTreeNode, key: Int64) returns (i: nat)
    requires leaf.Ok() && leaf.leaf
    ensures i == Lower(leaf.Val().es, key)
  {
    i := 0;
    while i < |leaf.keys|
      invariant i <= |leaf.keys| && forall j :: 0 <= j < i ==> leaf.keys[j] < key
    {
      if leaf.keys[i] >= key {
        break;
      }
      i := i + 1;
    }
    LowerIs(leaf.Val().es, key, i);
  }

  lemma {:induction false} LowerIs(es: seq<Entry>, key: Int64, i: nat)
    requires i <= |es| && (forall j :: 0 <= j < i ==> es[j].0 < key)
    requires i < |es| ==> key <= es[i].0
    ensures Lower(es, key) == i
  {
  }

  /** SeekIndex: the iterator will return exactly the rows of the model's seek. */
  method SeekIndex(tree: IndexTree, key: Int64) returns (it: SeekIterator)
    requires tree.Valid()
    modifies tree.pool
    ensures tree.Valid() && Nodes(tree.pool) == old(Nodes(tree.pool))
    ensures fresh(tree.pool.pages.Values - old(tree.pool.pages.Values)) && |tree.pool.file| == |old(tree.pool.file)|
    ensures fresh(it) && fresh(it.currNode) && it.pool == tree.pool && it.seekKey == key && it.Valid()
    ensures Matches(it.Remaining(), key) == SeekAlong(Nodes(tree.pool), tree.root, tree.order, key)
  {
    hide DecodeNode, Settled, Nodes, Matches, Chained, SeekAlong, AtTarget;
    var leaf, _ := tree.FindLeafWithPath(key);
    it := OpenAt(tree.pool, key, leaf, tree.root, tree.order);
  }

  /** The part of SeekIndex after the descent. */
  method OpenAt(pool: Pool, key: Int64, leaf: BTreeNode, ghost root: nat, ghost order: seq<UInt64>)
    returns (it: SeekIterator)
    requires Settled(pool) && Chained(Nodes(pool), root, order) && AtTarget(leaf, Nodes(pool), root, key)
    ensures fresh(it) && it.currNode == leaf && it.pool == pool && it.seekKey == key && it.Valid()
    ensures Matches(it.Remaining(), key) == SeekAlong(Nodes(pool), root, order, key)
  {
    hide DecodeNode, Settled, Nodes, Matches, Flatten, Chain, SeekAlong, Lower, Distinct, LeavesOf, Upper;
    var startIdx := StartIndex(leaf, key);
    ghost var s := Nodes(pool);
    ghost var rest := order[IndexOf(order, Target(s, root, key)) + 1..];
    SeekStart(s, root, key, order, rest);
    it := new SeekIterator(pool, key, leaf, startIdx, rest);
  }

  /** Where a seek starts: inside the target leaf, with the later leaves on the chain. */
  lemma {:induction false} SeekStart(s: Store, root: nat, key: Int64, order: seq<UInt64>, rest: seq<UInt64>)
    requires Chained(s, root, order) && rest == order[IndexOf(order, Target(s, root, key)) + 1..]
    ensures Leaves(s, rest) && Chain(s, rest)
    ensures s[Target(s, root, key)].next == if rest == [] then -1 else rest[0]
    ensures var es := s[Target(s, root, key)].es;
            SeekAlong(s, root, order, key) == Matches(es[Lower(es, key)..] + Flatten(LeavesOf(s, rest)), key)
  {
    hide Flatten, Matches, Lower, Upper, Distinct, Chain;
    ChainSuffix(s, order, IndexOf(order, Target(s, root, key)));
  }

  /** Draining an iterator delivers its remaining matches in order. */
  method Drain(it: SeekIterator) returns (rows: seq<UInt64>)
    requires it.Valid()
    modifies it, it.pool
    ensures it.Valid() && fresh(it.pool.pages.Values - old(it.pool.pages.Values))
    ensures rows == Matches(old(it.Remaining()), it.seekKey)
  {
    hide *;
    ghost var want := Matches(it.Remaining(), it.seekKey);
    rows := [];
    var next := it.NextEntry();
    while next.Some?
      invariant it.Valid() && (it.currNode == old(it.currNode) || fresh(it.currNode))
      invariant fresh(it.pool.pages.Values - old(it.pool.pages.Values))
      invariant next.None? ==> Matches(it.Remaining(), it.seekKey) == []
      invariant rows + (if next.Some? then [next.value] else []) + Matches(it.Remaining(), it.seekKey) == want
      decreases |want| - |rows|
    {
      rows := rows + [next.value];
      next := it.NextEntry();
      Assoc(rows, if next.Some? then [next.value] else [], Matches(it.Remaining(), it.seekKey));
    }
  }

  /** Draining a seek terminates on every index, whatever keys were inserted, and yields rows
      stored on the chain under the key.  On a strict tree it yields all of them, in the order
      they were inserted. */
  method DrainSeek(tree: IndexTree, key: Int64) returns (rows: seq<UInt64>)
    requires tree.Valid()
    modifies tree.pool
    ensures tree.Valid() && Nodes(tree.pool) == old(Nodes(tree.pool))
    ensures fresh(tree.pool.pages.Values - old(tree.pool.pages.Values))
    ensures rows == SeekAlong(Nodes(tree.pool), tree.root, tree.order, key)
    ensures multiset(rows) <= multiset(Under(OnChain(Nodes(tree.pool), tree.order), key))
    ensures Strict(Nodes(tree.pool), tree.root) ==> rows == Under(Contents(Nodes(tree.pool), tree.root), key)
  {
    hide DecodeNode, Settled, Nodes, Matches, Flatten, Shape, Chain, Leaves, Seek, SeekAlong, Under, OnChain, Strict;
    hide Contents;
    var it := SeekIndex(tree, key);
    rows := Drain(it);
    SeekIsSound(it.s, tree.root, tree.order, key);
    if Strict(it.s, tree.root) {
      StrictIsExact(it.s, tree.root, tree.order, key);
    }
  }

  lemma {:induction false} StrictIsExact(s: Store, root: nat, order: seq<UInt64>, key: Int64)
    requires Strict(s, root) && Chained(s, root, order)
    ensures SeekAlong(s, root, order, key) == Under(Contents(s, root), key)
  {
    hide SeekAlong, Seek, Under, Contents, Chained;
    AlongIsSeek(s, root, order, key);
    StrictSeek(s, root, key);
  }

  /** SeekIndex and the first Next for a key that no INT compares with, a NULL or a value of
      another type: the first comparison fails, during the descent below an internal root and
      in Next for a leaf root.  Only an empty index makes none, so there the seek ends without
      rows and without error. */
  method SeekIncomparable(tree: IndexTree, key: Value) returns (failed: bool)
    requires tree.Valid() && !key.Int?
    modifies tree.pool
    ensures tree.Valid() && Nodes(tree.pool) == old(Nodes(tree.pool))
    ensures fresh(tree.pool.pages.Values - old(tree.pool.pages.Values))
    ensures failed <==> Contents(Nodes(tree.pool), tree.root) != []
  {
    hide DecodeNode, Settled, Nodes, Chained, Contents;
    RootHoldsEntries(Nodes(tree.pool), tree.root);
    var node := FetchNode(tree.pool, tree.root);
    if !node.leaf {
      return Compare(key, Int(node.keys[0])).None?;
    }
    assert node.Val().Leaf? && |node.Val().es| == |node.keys|;
    if |node.keys| == 0 {
      return false;
    }
    failed := Compare(Int(node.keys[0]), key).None?;
  }

  /** An internal root has separators and entries below it; a leaf root holds the entries. */
  lemma {:induction false} RootHoldsEntries(s: Store, root: nat)
    requires Shape(s, root)
    ensures s[root].Inner? ==> |s[root].seps| > 0 && Contents(s, root) != []
    ensures s[root].Leaf? ==> Contents(s, root) == s[root].es
  {
    if s[root].Inner? {
      var l := TreeLists(s, root);
      FlattenSplit(l, 0);
      assert |l[0]| >= 125;
    } else {
      LeafContents(s, root);
    }
  }

  /** One leaf further along the chain. */
  lemma {:induction false} ChainStep(s: Store, rest: seq<UInt64>)
    requires Leaves(s, rest) && Chain(s, rest) && rest != []
    ensures Leaves(s, rest[1..]) && Chain(s, rest[1..])
    ensures s[rest[0]].next == if rest[1..] == [] then -1 else rest[1..][0]
    ensures [] + Flatten(LeavesOf(s, rest)) == s[rest[0]].es + Flatten(LeavesOf(s, rest[1..]))
  {
    var lists, tail := LeavesOf(s, rest), rest[1..];
    assert s[rest[0]].next == Next(rest, 0);
    assert lists[1..] == LeavesOf(s, tail);
    forall i | 0 <= i < |tail| ensures s[tail[i]].next == Next(tail, i) {
      assert s[rest[i + 1]].next == Next(rest, i + 1);
    }
  }
}
