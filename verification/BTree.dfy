/** The B+-tree secondary index on decoded nodes: descent, insertion with leaf
    split and root growth, and seek along the leaf chain.  A page id is a
    position in the sequence of nodes. */
module BTree {
  import opened Core
  import opened Sequences
  import opened SortedList
  import opened LeafLists

  const MAX_KEYS := 250

  /** A decoded page: parallel key and pointer arrays of a leaf are one list of
      entries; an internal node has one more child than it has separators. */
  datatype Node =
    | Leaf(es: seq<Entry>, next: int)
    | Inner(seps: seq<Int64>, kids: seq<UInt64>)

  type Store = seq<Node>

  /** First position whose key is greater than k; the end when there is none. */
  function Upper(keys: seq<Int64>, k: Int64): (i: nat)
    ensures i <= |keys|
    ensures forall j :: 0 <= j < i ==> keys[j] <= k
    ensures i < |keys| ==> k < keys[i]
  {
    if keys == [] || k < keys[0] then 0 else 1 + Upper(keys[1..], k)
  }

  /** insertIntoNodeArrays on an internal node: the new child goes to the right of its separator. */
  function AddChild(n: Node, sep: Int64, kid: UInt64): (r: Node)
    requires n.Inner? && |n.kids| == |n.seps| + 1
  {
    var i := Upper(n.seps, sep);
    Inner(n.seps[..i] + [sep] + n.seps[i..], n.kids[..i + 1] + [kid] + n.kids[i + 1..])
  }

  /** The pages holding entries: the root itself, or the children of an internal root. */
  function Kids(s: Store, root: nat): (kids: seq<UInt64>)
    requires root < |s| <= 0x7FFF_FFFF
  {
    if s[root].Leaf? then [root] else s[root].kids
  }

  function Seps(s: Store, root: nat): (seps: seq<Int64>)
    requires root < |s|
  {
    if s[root].Leaf? then [] else s[root].seps
  }

  /** What every index of the engine looks like, whatever keys were inserted: a
      leaf root, or one internal root over distinct, at least half full leaves. */
  ghost predicate Shape(s: Store, root: nat) {
    && root < |s| <= 0x7FFF_FFFF
    && if s[root].Leaf? then |s[root].es| < MAX_KEYS
       else
         && 1 <= |s[root].seps| < MAX_KEYS
         && |s[root].kids| == |s[root].seps| + 1
         && Distinct(s[root].kids)
         && Leaves(s, s[root].kids)
         && forall i :: 0 <= i < |s[root].kids| ==> 125 <= |s[s[root].kids[i]].es| < MAX_KEYS
  }

  ghost predicate Leaves(s: Store, kids: seq<UInt64>) {
    forall i :: 0 <= i < |kids| ==> kids[i] < |s| && s[kids[i]].Leaf?
  }

  /** The child that descent (and seek) chooses: right of every separator not greater than the key. */
  function ChildFor(s: Store, root: nat, key: Int64): (i: nat)
    requires Shape(s, root)
    ensures i < |Kids(s, root)| && Kids(s, root)[i] < |s| && s[Kids(s, root)[i]].Leaf?
  {
    Upper(Seps(s, root), key)
  }

  function Target(s: Store, root: nat, key: Int64): (c: UInt64)
    requires Shape(s, root)
    ensures c < |s| && s[c].Leaf?
  {
    Kids(s, root)[ChildFor(s, root, key)]
  }

  /** The file after an overflowing leaf was cut in two: the upper half moves to a
      fresh last page that takes over the chain pointer. */
  function CutLeaf(s: Store, c: UInt64, grown: seq<Entry>): (t: Store)
    requires c < |s| && s[c].Leaf?
  {
    var m := |grown| / 2;
    s[c := Leaf(grown[..m], |s|)] + [Leaf(grown[m..], s[c].next)]
  }

  /** The state after InsertIntoIndex and whether it reported success. */
  datatype Outcome = Outcome(store: Store, root: nat, ok: bool)

  /** InsertIntoIndex with handleSplitCascade, createNewRoot and the unimplemented
      split of an internal node, which leaves the two leaf halves written. */
  function Insert(s: Store, root: nat, key: Int64, ptr: UInt64): Outcome
    requires Shape(s, root)
  {
    var c := Target(s, root, key);
    var grown := Place(s[c].es, (key, ptr));
    if |grown| < MAX_KEYS then
      Outcome(s[c := s[c].(es := grown)], root, true)
    else
      var t := CutLeaf(s, c, grown);
      var sep := grown[|grown| / 2].0;
      if s[root].Leaf? then
        Outcome(t + [Inner([sep], [c, |s|])], |t|, true)
      else if |s[root].seps| + 1 < MAX_KEYS then
        Outcome(t[root := AddChild(s[root], sep, |s|)], root, true)
      else
        Outcome(t, root, false)
  }

  /** Insert, case by case. */
  lemma {:induction false} InsertCases(s: Store, root: nat, key: Int64, ptr: UInt64)
    requires Shape(s, root)
    ensures var c, o := Target(s, root, key), Insert(s, root, key, ptr);
            var grown := Place(s[c].es, (key, ptr));
            && (|grown| < MAX_KEYS ==> o == Outcome(s[c := Leaf(grown, s[c].next)], root, true))
            && (|grown| >= MAX_KEYS ==>
                  var t := CutLeaf(s, c, grown);
                  && |grown| == MAX_KEYS
                  && (s[root].Leaf? ==> c == root && o == Outcome(t + [Inner([grown[125].0], [c, |s|])], |s| + 1, true))
                  && (s[root].Inner? ==>
                        && c != root && t[root] == s[root] && |s[root].kids| == |s[root].seps| + 1
                        && var parent := AddChild(s[root], grown[125].0, |s|);
                           && |parent.seps| == |s[root].seps| + 1
                           && (|parent.seps| < MAX_KEYS ==> o == Outcome(t[root := parent], root, true))
                           && (|parent.seps| >= MAX_KEYS ==> o == Outcome(t, root, false))))
  {
  }

  /** If the insert overflows its leaf, the halves are cut between two different keys. */
  predicate SplitIsClean(s: Store, root: nat, key: Int64)
    requires Shape(s, root)
  {
    var grown := Place(s[Target(s, root, key)].es, (key, 0));
    |grown| < MAX_KEYS || grown[124].0 != grown[125].0
  }

  /** The entry lists of the given leaves. */
  function LeavesOf(s: Store, kids: seq<UInt64>): (l: Lists)
    requires Leaves(s, kids)
    ensures |l| == |kids| && forall i :: 0 <= i < |l| ==> l[i] == s[kids[i]].es
  {
    seq(|kids|, i requires 0 <= i < |kids| => s[kids[i]].es)
  }

  function TreeLists(s: Store, root: nat): (l: Lists)
    requires Shape(s, root)
  {
    LeavesOf(s, Kids(s, root))
  }

  /** All entries, in the order of the leaves. */
  function Contents(s: Store, root: nat): (es: seq<Entry>)
    requires Shape(s, root)
  {
    Flatten(TreeLists(s, root))
  }

  function Next(kids: seq<UInt64>, i: nat): int
    requires i < |kids|
  {
    if i + 1 < |kids| then kids[i + 1] else -1
  }

  /** The NextLeaf chain visits exactly the given pages in order and ends at -1. */
  ghost predicate Chain(s: Store, kids: seq<UInt64>)
    requires Leaves(s, kids)
  {
    forall i :: 0 <= i < |kids| ==> s[kids[i]].next == Next(kids, i)
  }

  /** A tree whose leaves are sorted, chained in child order and bounded by the separators. */
  ghost predicate Linked(s: Store, root: nat) {
    && Shape(s, root)
    && Chain(s, Kids(s, root))
    && Ordered(TreeLists(s, root), Seps(s, root))
  }

  /** Linked, and no key equals the separator to its right. */
  ghost predicate Strict(s: Store, root: nat) {
    Linked(s, root) && Separated(TreeLists(s, root), Seps(s, root))
  }

  /** Both the target leaf and the internal root are full. */
  ghost predicate IsFull(s: Store, root: nat, key: Int64)
    requires Shape(s, root)
  {
    && s[root].Inner?
    && |s[root].seps| == MAX_KEYS - 1
    && |s[Target(s, root, key)].es| == MAX_KEYS - 1
  }
}
