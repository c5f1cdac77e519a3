/** The index operations on pages: nodes are fetched from and written to the shared
    page cache, and every call is proved to do what the B+-tree model says. */
module Index {
  import opened Core
  import opened Sequences
  import opened SortedList
  import opened BTree
  import opened BTreeChain
  import opened NodeCodec
  import opened BufferPool
  import opened HeapFile

  /** The pages of the index file, decoded. */
  ghost function Nodes(pool: Pool): (s: Store)
    requires Settled(pool)
    reads pool, pool.pages.Values
    ensures |s| == |pool.file| && forall i :: 0 <= i < |s| ==> s[i] == DecodeNode(pool.View(i))
  {
    seq(|pool.file|, i requires 0 <= i < |pool.file|
      && Settled(pool) reads pool, pool.pages.Values => DecodeNode(pool.View(i)))
  }

  /** Nodes whose arrays have matching lengths, so that they can be read back. */
  ghost predicate Fetchable(n: Node) {
    n.Leaf? || |n.kids| == |n.seps| + 1
  }

  method FetchNode(pool: Pool, id: nat) returns (node: BTreeNode)
    requires Settled(pool) && id < |pool.file| && Fetchable(Nodes(pool)[id])
    modifies pool
    ensures Settled(pool) && |pool.file| == |old(pool.file)| && fresh(pool.pages.Values - old(pool.pages.Values))
    ensures Nodes(pool) == old(Nodes(pool))
    ensures fresh(node) && node.Ok() && node.pageID == id && node.Val() == Nodes(pool)[id]
    ensures -0x8000_0000 <= node.nextLeaf < 0x8000_0000
  {
    var page := pool.FetchPage(id);
    node := ReadBytes(id, page);
  }

  method WriteNode(pool: Pool, node: BTreeNode)
    requires Settled(pool) && node.pageID < |pool.file|
    requires node.Ok() && |node.keys| < 255 && -0x8000_0000 <= node.nextLeaf < 0x8000_0000
    modifies pool, pool.pages.Values
    ensures Settled(pool) && |pool.file| == |old(pool.file)| && fresh(pool.pages.Values - old(pool.pages.Values))
    ensures Nodes(pool) == old(Nodes(pool))[node.pageID := node.Val()]
  {
    var page := pool.FetchPage(node.pageID);
    label fetched:
    WriteBytes(page, node);
    pool.Written@fetched(node.pageID);
    pool.MarkDirty(node.pageID);
  }

  /** allocateIndexPage: the file grows by a zero page right away. */
  method AllocatePage(pool: Pool) returns (id: nat)
    requires Settled(pool)
    modifies pool
    ensures Settled(pool) && pool.pages == old(pool.pages)
    ensures id == |old(pool.file)| && |pool.file| == |old(pool.file)| + 1
    ensures Nodes(pool)[..id] == old(Nodes(pool))
  {
    id := pool.ExtendFile();
  }

  /** insertIntoNodeArrays: find the position, extend both arrays, shift, drop the pair in. */
  method InsertIntoNodeArrays(node: BTreeNode, key: Int64, ptr: UInt64)
    requires node.Ok()
    modifies node
    ensures node.Ok() && node.leaf == old(node.leaf) && node.pageID == old(node.pageID)
    ensures node.nextLeaf == old(node.nextLeaf) && |node.keys| == |old(node.keys)| + 1
    ensures old(node.leaf) ==> node.Val() == Leaf(Place(old(node.Val()).es, (key, ptr)), old(node.nextLeaf))
    ensures !old(node.leaf) ==> node.Val() == AddChild(old(node.Val()), key, ptr)
  {
    ghost var keys0, ptrs0 := node.keys, node.pointers;
    var insertIdx := 0;
    while insertIdx < |node.keys|
      invariant 0 <= insertIdx <= |node.keys|
      invariant node.keys == keys0 && node.pointers == ptrs0
      invariant forall j :: 0 <= j < insertIdx ==> node.keys[j] <= key
    {
      if key < node.keys[insertIdx] {
        break;
      }
      insertIdx := insertIdx + 1;
    }
    UpperIs(keys0, key, insertIdx);
    node.keys := ShiftIn(node.keys, insertIdx, key, 0);
    if node.leaf {
      node.pointers := ShiftIn(node.pointers, insertIdx, ptr, 0);
      ZipPlace(keys0, ptrs0, key, ptr, insertIdx);
    } else {
      node.pointers := ShiftIn(node.pointers, insertIdx + 1, ptr, 0);
    }
  }

  /** Extend an array by one, shift everything from the position on, drop the element in. */
  method ShiftIn<T>(xs: seq<T>, i: nat, x: T, zero: T) returns (r: seq<T>)
    requires i <= |xs|
    ensures r == xs[..i] + [x] + xs[i..]
  {
    r := xs + [zero];
    r := r[..i + 1] + r[i..|r| - 1];
    r := r[i := x];
  }

  lemma {:induction false} UpperIs(keys: seq<Int64>, key: Int64, i: nat)
    requires i <= |keys| && (forall j :: 0 <= j < i ==> keys[j] <= key)
    requires i < |keys| ==> key < keys[i]
    ensures Upper(keys, key) == i
  {
  }

  lemma {:induction false} ZipPlace(keys: seq<Int64>, ptrs: seq<UInt64>, key: Int64, ptr: UInt64, i: nat)
    requires |keys| == |ptrs| && i <= |keys| && (forall j :: 0 <= j < i ==> keys[j] <= key)
    requires i < |keys| ==> key < keys[i]
    ensures Zip(keys[..i] + [key] + keys[i..], ptrs[..i] + [ptr] + ptrs[i..]) == Place(Zip(keys, ptrs), (key, ptr))
  {
    var es := Zip(keys, ptrs);
    PlaceAt(es, (key, ptr), i);
    assert Zip(keys[..i] + [key] + keys[i..], ptrs[..i] + [ptr] + ptrs[i..]) == es[..i] + [(key, ptr)] + es[i..];
  }

  /** The in-memory part of splitLeafNode: move the upper half, relink the chain. */
  method MoveUpperHalf(left: BTreeNode, right: BTreeNode)
    requires left != right && left.Ok() && left.leaf && |left.keys| == MAX_KEYS
    requires right.leaf && right.keys == [] && right.pointers == []
    modifies left, right
    ensures left.Ok() && right.Ok() && left.leaf && right.leaf
    ensures left.pageID == old(left.pageID) && right.pageID == old(right.pageID)
    ensures left.Val() == Leaf(old(left.Val()).es[..125], right.pageID)
    ensures right.Val() == Leaf(old(left.Val()).es[125..], old(left.nextLeaf))
    ensures |left.keys| == |right.keys| == 125 && left.nextLeaf == right.pageID && right.nextLeaf == old(left.nextLeaf)
  {
    var splitIdx := |left.keys| / 2;
    right.keys := right.keys + left.keys[splitIdx..];
    right.pointers := right.pointers + left.pointers[splitIdx..];
    left.keys := left.keys[..splitIdx];
    left.pointers := left.pointers[..splitIdx];
    right.nextLeaf := left.nextLeaf;
    left.nextLeaf := right.pageID;
  }

  /** splitLeafNode: the upper half moves to a fresh page and both halves are written. */
  method SplitLeafNode(pool: Pool, left: BTreeNode) returns (upKey: Int64, rightID: nat)
    requires Settled(pool) && left.pageID < |pool.file| < 0x7FFF_FFFF
    requires left.Ok() && left.leaf && |left.keys| == MAX_KEYS && Nodes(pool)[left.pageID].Leaf?
    requires -0x8000_0000 <= left.nextLeaf < 0x8000_0000 && left.nextLeaf == Nodes(pool)[left.pageID].next
    modifies pool, pool.pages.Values, left
    ensures Settled(pool) && fresh(pool.pages.Values - old(pool.pages.Values))
    ensures rightID == |old(pool.file)| && upKey == old(left.Val()).es[125].0
    ensures |pool.file| == |old(pool.file)| + 1
    ensures left.pageID == old(left.pageID)
    ensures Nodes(pool) == CutLeaf(old(Nodes(pool)), old(left.pageID), old(left.Val()).es)
  {
    hide DecodeNode, Settled;
    ghost var es, s := left.Val().es, Nodes(pool);
    rightID := AllocatePage(pool);
    ghost var t := Nodes(pool);
    var right := new BTreeNode(rightID, true);
    MoveUpperHalf(left, right);
    WriteNode(pool, left);
    WriteNode(pool, right);
    upKey := right.keys[0];
    assert right.Val().es[0] == es[125];
    CutStore(s, t, left.pageID, es);
  }

  lemma {:induction false} CutStore(s: Store, t: Store, c: nat, es: seq<Entry>)
    requires c < |s| && |t| == |s| + 1 && t[..|s|] == s && s[c].Leaf? && |es| == MAX_KEYS && |s| < 0x7FFF_FFFF
    ensures t[c := Leaf(es[..125], |s|)][|s| := Leaf(es[125..], s[c].next)] == CutLeaf(s, c, es)
  {
    var m := |s|;
    assert t == s + [t[m]];
  }

  /** createNewRoot: a fresh page holding one separator and the two halves. */
  method CreateNewRoot(pool: Pool, left: nat, right: nat, upKey: Int64) returns (newRoot: nat)
    requires Settled(pool) && left < |pool.file| && right < |pool.file| < 0x7FFF_FFFF
    modifies pool, pool.pages.Values
    ensures Settled(pool) && fresh(pool.pages.Values - old(pool.pages.Values))
    ensures newRoot == |old(pool.file)| && |pool.file| == |old(pool.file)| + 1
    ensures Nodes(pool) == old(Nodes(pool)) + [Inner([upKey], [left, right])]
  {
    hide DecodeNode, Settled;
    ghost var s := Nodes(pool);
    newRoot := AllocatePage(pool);
    ghost var t := Nodes(pool);
    var node := new BTreeNode(newRoot, false);
    node.keys := node.keys + [upKey];
    node.pointers := node.pointers + [left, right];
    assert t == s + [t[newRoot]];
    WriteNode(pool, node);
    assert node.Val() == Inner([upKey], [left, right]);
  }

  class IndexTree {
    const pool: Pool
    var root: nat
    ghost var order: seq<UInt64>

    ghost predicate Shaped()
      reads this, pool, pool.pages.Values
    {
      Settled(pool) && Shape(Nodes(pool), root)
    }

    /** A tree of the right shape whose leaf chain visits the pages of `order`. */
    ghost predicate Valid()
      reads this, pool, pool.pages.Values
    {
      Shaped() && Chained(Nodes(pool), root, order)
    }

    /** An empty index whose root is a fresh leaf page, as CreateIndex makes it. */
    constructor (pool: Pool)
      requires Settled(pool) && |pool.file| < 0x7FFF_FFFF
      modifies pool, pool.pages.Values
      ensures Valid() && this.pool == pool && fresh(pool.pages.Values - old(pool.pages.Values))
      ensures root == |old(pool.file)| && |pool.file| == |old(pool.file)| + 1
      ensures Nodes(pool)[root] == Leaf([], -1) && Nodes(pool)[..root] == old(Nodes(pool))
    {
      hide DecodeNode, Settled, Chained, Shape;
      this.pool := pool;
      new;
      root := AllocatePage(pool);
      var node := new BTreeNode(root, true);
      WriteNode(pool, node);
      order := [root];
      assert Nodes(pool)[root] == Leaf([], -1);
      EmptyChain(Nodes(pool), root);
      ChainedHasShape(Nodes(pool), root, order);
    }

    /** findLeafWithPath: the target leaf and the internal nodes passed on the way. */
    method FindLeafWithPath(key: Int64) returns (leaf: BTreeNode, path: seq<nat>)
      requires Shaped()
      modifies pool
      ensures Shaped() && Nodes(pool) == old(Nodes(pool)) && fresh(pool.pages.Values - old(pool.pages.Values))
      ensures |pool.file| == |old(pool.file)|
      ensures fresh(leaf) && AtTarget(leaf, Nodes(pool), root, key)
      ensures path == PathTo(Nodes(pool), root)
    {
      hide DecodeNode, Settled, Nodes, Shape, Target;
      ghost var s := Nodes(pool);
      Descent(s, root, key);
      var currPageID := root;
      path := [];
      while true
        invariant Settled(pool) && Nodes(pool) == s && fresh(pool.pages.Values - old(pool.pages.Values))
        invariant |pool.file| == |old(pool.file)| && root == old(root) && currPageID < |s|
        invariant if path == [] then currPageID == root
                  else path == [root] && s[root].Inner? && currPageID == Target(s, root, key)
        decreases if path == [] then 1 else 0
      {
        leaf := FetchNode(pool, currPageID);
        if leaf.leaf {
          return;
        }
        path := path + [currPageID];
        var childIdx := ChildIndex(leaf.keys, key);
        currPageID := leaf.pointers[childIdx];
      }
    }

    /** InsertIntoIndex with its split cascade; returns whether it succeeded. */
    method Insert(key: Int64, ptr: UInt64) returns (ok: bool)
      requires Valid() && |pool.file| + 2 <= 0x7FFF_FFFF
      modifies this, pool, pool.pages.Values
      ensures Valid() && fresh(pool.pages.Values - old(pool.pages.Values))
      ensures BTree.Insert(old(Nodes(pool)), old(root), key, ptr) == Outcome(Nodes(pool), root, ok)
    {
      hide DecodeNode, Settled, BTree.Insert, Place, Chained, Nodes, Shape;
      ghost var next := InsertKeepsChain(Nodes(pool), root, key, ptr, order);
      var leaf, path := FindLeafWithPath(key);
      InsertIntoNodeArrays(leaf, key, ptr);
      ok := StoreGrown(leaf, path, key, ptr);
      order := next;
      ChainedHasShape(Nodes(pool), root, order);
    }

    method StoreGrown(leaf: BTreeNode, path: seq<nat>, ghost key: Int64, ghost ptr: UInt64) returns (ok: bool)
      requires Shaped() && |pool.file| + 2 <= 0x7FFF_FFFF
      requires Grown(leaf, Nodes(pool), root, key, ptr) && path == PathTo(Nodes(pool), root)
      modifies this`root, pool, pool.pages.Values, leaf
      ensures Settled(pool) && fresh(pool.pages.Values - old(pool.pages.Values))
      ensures BTree.Insert(old(Nodes(pool)), old(root), key, ptr) == Outcome(Nodes(pool), root, ok)
    {
      hide DecodeNode, Settled, BTree.Insert, Place, CutLeaf, AddChild, Upper, Distinct;
      InsertCases(Nodes(pool), root, key, ptr);
      if |leaf.keys| < MAX_KEYS {
        WriteNode(pool, leaf);
        return true;
      }
      ok := HandleSplitCascade(leaf, path, key, ptr);
    }

    /** One turn of the cascade for an overflowing leaf: split it, then grow a new root or
        hand the separator to the parent; not done when the parent overflows in turn. */
    method SplitOnce(node: BTreeNode, path: seq<nat>, ghost key: Int64, ghost ptr: UInt64)
      returns (parent: BTreeNode, done: bool)
      requires Shaped() && |pool.file| + 2 <= 0x7FFF_FFFF
      requires Grown(node, Nodes(pool), root, key, ptr) && |node.keys| == MAX_KEYS && path == PathTo(Nodes(pool), root)
      modifies this`root, pool, pool.pages.Values, node
      ensures Settled(pool) && fresh(pool.pages.Values - old(pool.pages.Values))
      ensures !done ==> fresh(parent) && !parent.leaf && path != []
      ensures BTree.Insert(old(Nodes(pool)), old(root), key, ptr) == Outcome(Nodes(pool), root, done)
    {
      hide DecodeNode, Settled, BTree.Insert, Place, AddChild, CutLeaf;
      ghost var s := Nodes(pool);
      InsertCases(s, root, key, ptr);
      var upKey, right := SplitLeafNode(pool, node);
      if path == [] {
        root := CreateNewRoot(pool, node.pageID, right, upKey);
        return node, true;
      }
      parent, done := AddToParent(pool, path[|path| - 1], upKey, right);
    }

    /** handleSplitCascade: split the overflowing node, hand the separator to its parent
        and go on while the parent overflows; splitting an internal node is an error. */
    method HandleSplitCascade(overflowing: BTreeNode, pathIn: seq<nat>, ghost key: Int64, ghost ptr: UInt64)
      returns (ok: bool)
      requires Shaped() && |pool.file| + 2 <= 0x7FFF_FFFF
      requires Grown(overflowing, Nodes(pool), root, key, ptr) && |overflowing.keys| == MAX_KEYS
      requires pathIn == PathTo(Nodes(pool), root)
      modifies this`root, pool, pool.pages.Values, overflowing
      ensures Settled(pool) && fresh(pool.pages.Values - old(pool.pages.Values))
      ensures BTree.Insert(old(Nodes(pool)), old(root), key, ptr) == Outcome(Nodes(pool), root, ok)
    {
      hide DecodeNode, Settled, BTree.Insert, Place;
      ghost var s := Nodes(pool);
      var node, path := overflowing, pathIn;
      while node.leaf
        invariant Settled(pool) && fresh(pool.pages.Values - old(pool.pages.Values))
        invariant node.leaf ==>
                    && node == overflowing && path == pathIn && root == old(root)
                    && Nodes(pool) == s && Grown(node, s, root, key, ptr) && |node.keys| == MAX_KEYS
        invariant !node.leaf ==> BTree.Insert(s, old(root), key, ptr) == Outcome(Nodes(pool), root, false)
        decreases node.leaf
      {
        var parent, done := SplitOnce(node, path, key, ptr);
        if done {
          return true;
        }
        path := path[..|path| - 1];
        node := parent;
      }
      ok := false; // splitInternalNode is not implemented
    }
  }

  /** Where the descent goes: a leaf root is the target, an internal root has it as a child. */
  lemma {:induction false} Descent(s: Store, root: nat, key: Int64)
    requires Shape(s, root)
    ensures root < |s| && Fetchable(s[root])
    ensures var c := Target(s, root, key);
            && c < |s| && s[c].Leaf?
            && (s[root].Leaf? ==> c == root)
            && (s[root].Inner? ==> c == s[root].kids[Upper(s[root].seps, key)])
  {
  }

  /** Fetch the parent, add the separator and the new child; write it unless it overflows. */
  method AddToParent(pool: Pool, parentID: nat, upKey: Int64, right: nat) returns (parent: BTreeNode, done: bool)
    requires Settled(pool) && parentID < |pool.file| && right < 0x7FFF_FFFF
    requires Nodes(pool)[parentID].Inner? && |Nodes(pool)[parentID].kids| == |Nodes(pool)[parentID].seps| + 1
    modifies pool, pool.pages.Values
    ensures Settled(pool) && fresh(pool.pages.Values - old(pool.pages.Values))
    ensures fresh(parent) && !parent.leaf
    ensures var added := AddChild(old(Nodes(pool))[parentID], upKey, right);
            && (done <==> |added.seps| < MAX_KEYS)
            && Nodes(pool) == if done then old(Nodes(pool))[parentID := added] else old(Nodes(pool))
  {
    hide DecodeNode, Settled;
    parent := FetchNode(pool, parentID);
    InsertIntoNodeArrays(parent, upKey, right);
    done := |parent.keys| < MAX_KEYS;
    if done {
      WriteNode(pool, parent);
    }
  }

  /** The in-memory copy of the target leaf. */
  ghost predicate AtTarget(node: BTreeNode, s: Store, root: nat, key: Int64)
    requires Shape(s, root)
    reads node
  {
    var c := Target(s, root, key);
    && node.pageID == c && node.leaf && node.Ok() && node.Val() == s[c]
    && -0x8000_0000 <= node.nextLeaf < 0x8000_0000
  }

  /** The in-memory target leaf with the new pair in its arrays. */
  ghost predicate Grown(node: BTreeNode, s: Store, root: nat, key: Int64, ptr: UInt64)
    requires Shape(s, root)
    reads node
  {
    var c := Target(s, root, key);
    && node.pageID == c && node.leaf && node.Ok()
    && node.Val() == Leaf(Place(s[c].es, (key, ptr)), s[c].next)
    && -0x8000_0000 <= node.nextLeaf < 0x8000_0000
  }

  /** The internal nodes above the target leaf. */
  ghost function PathTo(s: Store, root: nat): seq<nat>
    requires root < |s|
  {
    if s[root].Leaf? then [] else [root]
  }

  /** The inner loop of the descent. */
  method ChildIndex(keys: seq<Int64>, key: Int64) returns (childIdx: nat)
    ensures childIdx == Upper(keys, key)
  {
    childIdx := 0;
    while childIdx < |keys|
      invariant childIdx <= |keys| && forall j :: 0 <= j < childIdx ==> keys[j] <= key
    {
      if key < keys[childIdx] {
        break;
      }
      childIdx := childIdx + 1;
    }
    UpperIs(keys, key, childIdx);
  }
}
