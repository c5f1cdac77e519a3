/** Index nodes as page bytes: fetchNode and writeNode. */
module NodeCodec {
  import opened Core
  import opened Bytes
  import opened SortedList
  import opened BTree
  import opened Page

  /** A node in memory: parallel arrays of keys and pointers. */
  class BTreeNode {
    var pageID: nat
    var leaf: bool
    var keys: seq<Int64>
    var pointers: seq<UInt64>
    var nextLeaf: int

    constructor (pageID: nat, leaf: bool)
      ensures this.pageID == pageID && this.leaf == leaf && keys == [] && pointers == [] && nextLeaf == -1
    {
      this.pageID := pageID;
      this.leaf := leaf;
      keys, pointers, nextLeaf := [], [], -1;
    }

    ghost predicate Ok()
      reads this
    {
      |pointers| == |keys| + if leaf then 0 else 1
    }

    ghost function Val(): (n: Node)
      reads this
      requires Ok()
    {
      if leaf then Leaf(Zip(keys, pointers), nextLeaf) else Inner(keys, pointers)
    }
  }

  function Zip(keys: seq<Int64>, ptrs: seq<UInt64>): (es: seq<Entry>)
    requires |keys| == |ptrs|
    ensures |es| == |keys| && forall i :: 0 <= i < |es| ==> es[i] == (keys[i], ptrs[i])
  {
    seq(|keys|, i requires 0 <= i < |keys| => (keys[i], ptrs[i]))
  }

  /** uint32(n) and back through int32. */
  function To32(n: int): (u: nat)
    ensures u < 0x1_0000_0000
  {
    n % 0x1_0000_0000
  }

  function From32(u: nat): int {
    if u >= 0x8000_0000 then u - 0x1_0000_0000 else u
  }

  function U32(d: seq<Byte>, off: nat): (x: nat)
    requires off + 4 <= |d|
  {
    Bytes.Get(d[off..off + 4])
  }

  /** Pair i of a node page: pointer, then key. */
  function PtrAt(d: PageBytes, i: nat): UInt64
    requires i < 255
  {
    U64(d, 12 + 16 * i)
  }

  function KeyAt(d: PageBytes, i: nat): Int64
    requires i < 255
  {
    ToSigned(U64(d, 20 + 16 * i))
  }

  function DecodeKeys(d: PageBytes, n: nat): (r: seq<Int64>)
    requires n < 255
  {
    seq(n, i requires 0 <= i < n => KeyAt(d, i))
  }

  function DecodePtrs(d: PageBytes, n: nat): (r: seq<UInt64>)
    requires n < 255
  {
    seq(n, i requires 0 <= i < n => PtrAt(d, i))
  }

  /** The node held by a page.  A count above 254 does not fit a page; the engine never
      reads such a page as a node. */
  function DecodeNode(d: PageBytes): (n: Node) {
    var n := U16(d, 2);
    if n >= 255 then Inner([], [])
    else if U16(d, 0) == 1 then Leaf(Zip(DecodeKeys(d, n), DecodePtrs(d, n)), From32(U32(d, 4)))
    else Inner(DecodeKeys(d, n), DecodePtrs(d, n) + [U64(d, 12 + 16 * n)])
  }

  // ---------------------------------------------------------------------
  // Writing
  // ---------------------------------------------------------------------

  function WriteHeader(d: PageBytes, leaf: bool, n: nat, next: int): (r: PageBytes) {
    Splice(Write16(Write16(d, 0, if leaf then 1 else 0), 2, n), 4, Put(To32(next), 4))
  }

  function WritePair(d: PageBytes, i: nat, ptr: UInt64, key: Int64): (r: PageBytes)
    requires i < 255
  {
    Splice(Splice(d, 12 + 16 * i, Put(ptr, 8)), 20 + 16 * i, Put(ToUnsigned(key), 8))
  }

  function WritePairs(d: PageBytes, keys: seq<Int64>, ptrs: seq<UInt64>, n: nat): (r: PageBytes)
    requires n <= |keys| && n <= |ptrs| && n < 255
  {
    if n == 0 then d else WritePair(WritePairs(d, keys, ptrs, n - 1), n - 1, ptrs[n - 1], keys[n - 1])
  }

  lemma {:induction false} SpliceElsewhere(d: seq<Byte>, off: nat, b: seq<Byte>, o: nat, n: nat)
    requires off + |b| <= |d| && o + n <= |d| && (o + n <= off || off + |b| <= o)
    ensures Splice(d, off, b)[o..o + n] == d[o..o + n]
  {
  }

  lemma {:induction false} SpliceHere(d: seq<Byte>, off: nat, b: seq<Byte>)
    requires off + |b| <= |d|
    ensures Splice(d, off, b)[off..off + |b|] == b
  {
  }

  lemma {:induction false} PairBack(d: PageBytes, i: nat, ptr: UInt64, key: Int64)
    requires i < 255
    ensures var r := WritePair(d, i, ptr, key);
            && PtrAt(r, i) == ptr && KeyAt(r, i) == key
            && (forall k :: 0 <= k < PAGE_SIZE && !(12 + 16 * i <= k < 28 + 16 * i) ==> r[k] == d[k])
  {
    var a := Splice(d, 12 + 16 * i, Put(ptr, 8));
    SpliceHere(d, 12 + 16 * i, Put(ptr, 8));
    SpliceElsewhere(a, 20 + 16 * i, Put(ToUnsigned(key), 8), 12 + 16 * i, 8);
    SpliceHere(a, 20 + 16 * i, Put(ToUnsigned(key), 8));
    GetPut64(ptr);
    GetPut64(ToUnsigned(key));
    assert ToSigned(ToUnsigned(key)) == key;
  }

  /** A pair depends on its own 16 bytes only. */
  lemma {:induction false} SamePair(a: PageBytes, b: PageBytes, i: nat)
    requires i < 255 && forall k :: 12 + 16 * i <= k < 28 + 16 * i ==> a[k] == b[k]
    ensures PtrAt(a, i) == PtrAt(b, i) && KeyAt(a, i) == KeyAt(b, i)
  {
    assert a[12 + 16 * i..20 + 16 * i] == b[12 + 16 * i..20 + 16 * i];
    assert a[20 + 16 * i..28 + 16 * i] == b[20 + 16 * i..28 + 16 * i];
  }

  lemma {:induction false} PairsFrame(d: PageBytes, keys: seq<Int64>, ptrs: seq<UInt64>, n: nat, k: nat)
    requires n <= |keys| && n <= |ptrs| && n < 255 && (k < 12 || 12 + 16 * n <= k < PAGE_SIZE)
    ensures WritePairs(d, keys, ptrs, n)[k] == d[k]
  {
    if n > 0 {
      PairsFrame(d, keys, ptrs, n - 1, k);
      PairBack(WritePairs(d, keys, ptrs, n - 1), n - 1, ptrs[n - 1], keys[n - 1]);
    }
  }

  lemma {:induction false} PairsBack(d: PageBytes, keys: seq<Int64>, ptrs: seq<UInt64>, n: nat, i: nat)
    requires i < n <= |keys| && n <= |ptrs| && n < 255
    ensures PtrAt(WritePairs(d, keys, ptrs, n), i) == ptrs[i] && KeyAt(WritePairs(d, keys, ptrs, n), i) == keys[i]
  {
    var a := WritePairs(d, keys, ptrs, n - 1);
    PairBack(a, n - 1, ptrs[n - 1], keys[n - 1]);
    if i < n - 1 {
      PairsBack(d, keys, ptrs, n - 1, i);
      SamePair(WritePairs(d, keys, ptrs, n), a, i);
    }
  }

  lemma {:induction false} AllPairsBack(d: PageBytes, keys: seq<Int64>, ptrs: seq<UInt64>)
    requires |keys| <= |ptrs| && |keys| < 255
    ensures var r := WritePairs(d, keys, ptrs, |keys|);
            && r[..12] == d[..12]
            && (forall i :: 0 <= i < |keys| ==> PtrAt(r, i) == ptrs[i] && KeyAt(r, i) == keys[i])
  {
    var r := WritePairs(d, keys, ptrs, |keys|);
    forall k | 0 <= k < 12 ensures r[k] == d[k] {
      PairsFrame(d, keys, ptrs, |keys|, k);
    }
    forall i | 0 <= i < |keys| ensures PtrAt(r, i) == ptrs[i] && KeyAt(r, i) == keys[i] {
      PairsBack(d, keys, ptrs, |keys|, i);
    }
  }

  lemma {:induction false} HeaderBack(d: PageBytes, leaf: bool, n: nat, next: int)
    requires n < 255 && -0x8000_0000 <= next < 0x8000_0000
    ensures var r := WriteHeader(d, leaf, n, next);
            U16(r, 0) == (if leaf then 1 else 0) && U16(r, 2) == n && From32(U32(r, 4)) == next
  {
    var a := Write16(Write16(d, 0, if leaf then 1 else 0), 2, n);
    SpliceHere(a, 4, Put(To32(next), 4));
    Sizes();
    GetPut(To32(next), 4);
  }

  lemma {:induction false} SameHeader(a: PageBytes, b: PageBytes)
    requires a[..12] == b[..12]
    ensures U16(a, 0) == U16(b, 0) && U16(a, 2) == U16(b, 2) && U32(a, 4) == U32(b, 4)
  {
    assert forall k :: 0 <= k < 12 ==> a[..12][k] == a[k] && b[..12][k] == b[k];
    assert a[4..8] == b[4..8];
  }

  /** What writeNode leaves in the page: header, pairs and, for an internal node, one more pointer. */
  function NodeBytes(d: PageBytes, leaf: bool, keys: seq<Int64>, ptrs: seq<UInt64>, next: int): (r: PageBytes)
    requires |keys| < 255 && |ptrs| == |keys| + if leaf then 0 else 1
  {
    var p := WritePairs(WriteHeader(d, leaf, |keys|, next), keys, ptrs, |keys|);
    if leaf then p else Splice(p, 12 + 16 * |keys|, Put(ptrs[|keys|], 8))
  }

  /** fetchNode returns what writeNode wrote, whatever was in the page before. */
  lemma {:induction false} LeafBack(d: PageBytes, keys: seq<Int64>, ptrs: seq<UInt64>, next: int)
    requires |keys| < 255 && |ptrs| == |keys| && -0x8000_0000 <= next < 0x8000_0000
    ensures DecodeNode(NodeBytes(d, true, keys, ptrs, next)) == Leaf(Zip(keys, ptrs), next)
  {
    var n := |keys|;
    var h := WriteHeader(d, true, n, next);
    var r := WritePairs(h, keys, ptrs, n);
    HeaderBack(d, true, n, next);
    AllPairsBack(h, keys, ptrs);
    SameHeader(r, h);
    assert DecodeKeys(r, n) == keys && DecodePtrs(r, n) == ptrs;
  }

  /** The pointer after the pairs disturbs neither header nor pairs. */
  lemma {:induction false} ExtraPointer(p: PageBytes, n: nat, x: UInt64)
    requires n < 255
    ensures var r := Splice(p, 12 + 16 * n, Put(x, 8));
            && r[..12] == p[..12]
            && U64(r, 12 + 16 * n) == x
            && (forall i :: 0 <= i < n ==> PtrAt(r, i) == PtrAt(p, i) && KeyAt(r, i) == KeyAt(p, i))
  {
    var hi := 12 + 16 * n;
    var r := Splice(p, hi, Put(x, 8));
    SpliceElsewhere(p, hi, Put(x, 8), 0, 12);
    SpliceHere(p, hi, Put(x, 8));
    GetPut64(x);
    forall i | 0 <= i < n ensures PtrAt(r, i) == PtrAt(p, i) && KeyAt(r, i) == KeyAt(p, i) {
      SamePair(r, p, i);
    }
  }

  lemma {:induction false} InnerBack(d: PageBytes, keys: seq<Int64>, ptrs: seq<UInt64>, next: int)
    requires |keys| < 255 && |ptrs| == |keys| + 1 && -0x8000_0000 <= next < 0x8000_0000
    ensures DecodeNode(NodeBytes(d, false, keys, ptrs, next)) == Inner(keys, ptrs)
  {
    hide DecodeNode, PtrAt, KeyAt, U16, U64, WriteHeader, WritePairs, Splice, Put;
    var n := |keys|;
    var h := WriteHeader(d, false, n, next);
    var p := WritePairs(h, keys, ptrs, n);
    var r := Splice(p, 12 + 16 * n, Put(ptrs[n], 8));
    HeaderBack(d, false, n, next);
    AllPairsBack(h, keys, ptrs);
    ExtraPointer(p, n, ptrs[n]);
    SameHeader(r, h);
    InnerFrom(r, keys, ptrs);
  }

  lemma {:induction false} InnerFrom(r: PageBytes, keys: seq<Int64>, ptrs: seq<UInt64>)
    requires |keys| < 255 && |ptrs| == |keys| + 1 && U16(r, 0) == 0 && U16(r, 2) == |keys|
    requires forall i :: 0 <= i < |keys| ==> PtrAt(r, i) == ptrs[i] && KeyAt(r, i) == keys[i]
    requires U64(r, 12 + 16 * |keys|) == ptrs[|keys|]
    ensures DecodeNode(r) == Inner(keys, ptrs)
  {
    var n := |keys|;
    assert DecodeKeys(r, n) == keys && DecodePtrs(r, n) == ptrs[..n];
    assert ptrs == ptrs[..n] + [ptrs[n]];
  }

  // ---------------------------------------------------------------------
  // The loops
  // ---------------------------------------------------------------------

  method PutHeader(page: array<Byte>, leaf: bool, n: nat, next: int)
    requires page.Length == PAGE_SIZE
    modifies page
    ensures page[..] == WriteHeader(old(page[..]), leaf, n, next)
  {
    Put16(page, 0, if leaf then 1 else 0);
    Put16(page, 2, n);
    CopyInto(page, 4, Put(To32(next), 4));
  }

  method PutPair(page: array<Byte>, i: nat, ptr: UInt64, key: Int64)
    requires page.Length == PAGE_SIZE && i < 255
    modifies page
    ensures page[..] == WritePair(old(page[..]), i, ptr, key)
  {
    CopyInto(page, 12 + 16 * i, Put(ptr, 8));
    CopyInto(page, 20 + 16 * i, Put(ToUnsigned(key), 8));
  }

  method PutPairs(page: array<Byte>, keys: seq<Int64>, ptrs: seq<UInt64>)
    requires page.Length == PAGE_SIZE && |keys| <= |ptrs| && |keys| < 255
    modifies page
    ensures page[..] == WritePairs(old(page[..]), keys, ptrs, |keys|)
  {
    ghost var h := page[..];
    for i := 0 to |keys|
      invariant page[..] == WritePairs(h, keys, ptrs, i)
    {
      PutPair(page, i, ptrs[i], keys[i]);
    }
  }

  /** writeNode: fills the page buffer from the arrays. */
  method WriteBytes(page: array<Byte>, node: BTreeNode)
    requires page.Length == PAGE_SIZE && node.Ok() && |node.keys| < 255
    requires -0x8000_0000 <= node.nextLeaf < 0x8000_0000
    modifies page
    ensures DecodeNode(page[..]) == node.Val()
  {
    ghost var d := page[..];
    var keys, ptrs := node.keys, node.pointers;
    PutHeader(page, node.leaf, |keys|, node.nextLeaf);
    PutPairs(page, keys, ptrs);
    if node.leaf {
      LeafBack(d, keys, ptrs, node.nextLeaf);
    } else {
      CopyInto(page, 12 + 16 * |keys|, Put(ptrs[|keys|], 8));
      InnerBack(d, keys, ptrs, node.nextLeaf);
    }
  }

  /** fetchNode: unpacks the page into fresh arrays. */
  method ReadBytes(pageID: nat, page: array<Byte>) returns (node: BTreeNode)
    requires page.Length == PAGE_SIZE && U16(page[..], 2) < 255
    ensures fresh(node) && node.Ok() && node.pageID == pageID && node.Val() == DecodeNode(page[..])
    ensures node.leaf <==> node.Val().Leaf?
    ensures -0x8000_0000 <= node.nextLeaf < 0x8000_0000
  {
    var d := page[..];
    var n := U16(d, 2);
    node := new BTreeNode(pageID, U16(d, 0) == 1);
    Sizes();
    node.nextLeaf := From32(U32(d, 4));
    for i := 0 to n
      invariant node.leaf == (U16(d, 0) == 1) && node.nextLeaf == From32(U32(d, 4)) && node.pageID == pageID
      invariant node.keys == DecodeKeys(d, i) && node.pointers == DecodePtrs(d, i)
    {
      node.pointers := node.pointers + [U64(d, 12 + 16 * i)];
      node.keys := node.keys + [ToSigned(U64(d, 20 + 16 * i))];
    }
    if !node.leaf {
      node.pointers := node.pointers + [U64(d, 12 + 16 * n)];
    }
  }
}
