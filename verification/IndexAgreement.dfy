/** The index path and the table scan agree: every version with a non-NULL key is in
    the index exactly once, under a key that never changes, and both paths apply the
    same visibility test. */
module IndexAgreement {
  import opened Core
  import opened SortedList
  import opened LeafLists
  import opened BTree
  import opened BTreeInsert
  import opened BTreeRuns
  import opened Mvcc

  /** The indexed key of a row: the INT in its column, none for NULL. */
  function KeyOf(values: seq<Value>, col: nat): Option<Int64> {
    if col < |values| && values[col].Int? then Some(values[col].i) else None
  }

  predicate HasKey(rows: map<RowId, Row>, col: nat, k: Int64, id: RowId) {
    id in rows && KeyOf(rows[id].values, col) == Some(k)
  }

  /** Every version holds an INT or a NULL in the indexed column. */
  ghost predicate IntColumn(rows: map<RowId, Row>, col: nat) {
    forall id :: id in rows ==> col < |rows[id].values| && (rows[id].values[col].Int? || rows[id].values[col].Null?)
  }

  /** The entries are exactly the keys of the stored versions, once each. */
  ghost predicate Indexed(rows: map<RowId, Row>, col: nat, es: seq<Entry>) {
    forall k: Int64, id: RowId :: multiset(es)[(k, id)] == if HasKey(rows, col, k, id) then 1 else 0
  }

  /** Stamping a deleter changes no key. */
  lemma {:induction false} StampKeepsIndexed(rows: map<RowId, Row>, col: nat, es: seq<Entry>, id: RowId, t: TxId)
    requires Indexed(rows, col, es) && id in rows
    ensures Indexed(rows[id := rows[id].(xmax := t)], col, es)
  {
    var rows' := rows[id := rows[id].(xmax := t)];
    forall k: Int64, x: RowId ensures HasKey(rows', col, k, x) == HasKey(rows, col, k, x) {
    }
  }

  /** Adding a version together with its entry, or one without a key. */
  lemma {:induction false} AddKeepsIndexed(rows: map<RowId, Row>, col: nat, es: seq<Entry>, es': seq<Entry>,
                                           newId: RowId, r: Row)
    requires Indexed(rows, col, es) && newId !in rows
    requires KeyOf(r.values, col).None? ==> es' == es
    requires KeyOf(r.values, col).Some? ==>
               multiset(es') == multiset(es) + multiset{(KeyOf(r.values, col).value, newId)}
    ensures Indexed(rows[newId := r], col, es')
  {
    var rows' := rows[newId := r];
    forall k: Int64, x: RowId ensures multiset(es')[(k, x)] == if HasKey(rows', col, k, x) then 1 else 0 {
      assert HasKey(rows, col, k, x) ==> x != newId;
      assert multiset(es)[(k, x)] == if HasKey(rows, col, k, x) then 1 else 0;
    }
  }

  // ---------------------------------------------------------------------
  // Reading
  // ---------------------------------------------------------------------

  /** The btree iterator with its visibility filter, drained. */
  function Filtered(s: State, t: TxId, ids: seq<RowId>): (r: seq<RowId>) {
    if ids == [] then []
    else (if ids[0] in s.rows && Visible(s, t, s.rows[ids[0]]) then [ids[0]] else []) + Filtered(s, t, ids[1..])
  }

  /** The rows of a scan whose column equals the key. */
  function ScanWithKey(s: State, t: TxId, col: nat, k: Int64): set<RowId> {
    set id | id in s.rows && Visible(s, t, s.rows[id]) && KeyOf(s.rows[id].values, col) == Some(k)
  }

  lemma {:induction false} FilteredCounts(s: State, t: TxId, ids: seq<RowId>, id: RowId)
    ensures multiset(Filtered(s, t, ids))[id]
            == if id in s.rows && Visible(s, t, s.rows[id]) then multiset(ids)[id] else 0
  {
    if ids != [] {
      assert ids == [ids[0]] + ids[1..];
      FilteredCounts(s, t, ids[1..], id);
    }
  }

  /** An exact seek, filtered by visibility, returns each row of the filtered scan once and nothing else. */
  lemma {:induction false} SeekAgreesWithScan(s: State, t: TxId, col: nat, es: seq<Entry>, k: Int64)
    requires Indexed(s.rows, col, es)
    ensures multiset(Filtered(s, t, Under(es, k))) == multiset(ScanWithKey(s, t, col, k))
  {
    var got, want := multiset(Filtered(s, t, Under(es, k))), multiset(ScanWithKey(s, t, col, k));
    forall id: RowId ensures got[id] == want[id] {
      FilteredCounts(s, t, Under(es, k), id);
      UnderCounts(es, k, id);
      assert HasKey(s.rows, col, k, id) || !HasKey(s.rows, col, k, id);
    }
  }

  /** The ids whose version has the key in the indexed column. */
  ghost function WithKey(s: State, col: nat, key: Int64, ids: seq<RowId>): (r: seq<RowId>) {
    if ids == [] then []
    else (if HasKey(s.rows, col, key, ids[0]) then [ids[0]] else []) + WithKey(s, col, key, ids[1..])
  }

  lemma {:induction false} WithKeyCounts(s: State, col: nat, key: Int64, ids: seq<RowId>, id: RowId)
    ensures multiset(WithKey(s, col, key, ids))[id] == if HasKey(s.rows, col, key, id) then multiset(ids)[id] else 0
  {
    if ids != [] {
      assert ids == [ids[0]] + ids[1..];
      WithKeyCounts(s, col, key, ids[1..], id);
    }
  }

  // ---------------------------------------------------------------------
  // Whole runs of the engine with one index
  // ---------------------------------------------------------------------

  datatype Sys = Sys(mvcc: State, store: Store, root: nat)

  /** The index entry a call adds: that of the version it stores. */
  function NewEntry(s: State, col: nat, e: Event): Option<Entry> {
    match e
    case Insert(_, newId, values) => EntryFor(values, col, newId)
    case Update(t, id, newId, values, fits) =>
      if CanWrite(s, t, id) && fits then EntryFor(values, col, newId) else None
    case _ => None
  }

  function EntryFor(values: seq<Value>, col: nat, newId: RowId): Option<Entry> {
    var k := KeyOf(values, col);
    if k.Some? then Some((k.value, newId)) else None
  }

  /** One call of the engine, with the index insertion it triggers. */
  function SysStep(x: Sys, col: nat, e: Event): Sys
    requires Shape(x.store, x.root)
  {
    var n := NewEntry(x.mvcc, col, e);
    if n.None? then x.(mvcc := Step(x.mvcc, e))
    else
      var o := BTree.Insert(x.store, x.root, n.value.0, n.value.1);
      Sys(Step(x.mvcc, e), o.store, o.root)
  }

  /** The call is allowed, its index insertion succeeds, and a split it causes is clean. */
  ghost predicate Good(x: Sys, col: nat, e: Event)
    requires Shape(x.store, x.root)
  {
    var n := NewEntry(x.mvcc, col, e);
    && Allowed(x.mvcc, e)
    && (n.Some? ==> !IsFull(x.store, x.root, n.value.0) && SplitIsClean(x.store, x.root, n.value.0))
  }

  ghost predicate SysInv(x: Sys, col: nat) {
    && Mvcc.Inv(x.mvcc)
    && Strict(x.store, x.root)
    && Indexed(x.mvcc.rows, col, Contents(x.store, x.root))
  }

  lemma {:induction false} SysStepKeepsInv(x: Sys, col: nat, e: Event)
    requires SysInv(x, col) && Good(x, col, e) && |x.store| + 2 <= 0x7FFF_FFFF
    ensures SysInv(SysStep(x, col, e), col)
    ensures |SysStep(x, col, e).store| <= |x.store| + 2
  {
    hide BTree.Insert, Contents, Shape, Chain, Ordered, Separated, IsFull, SplitIsClean;
    var s, n := x.mvcc, NewEntry(x.mvcc, col, e);
    var es := Contents(x.store, x.root);
    StepKeepsInv(s, e);
    IndexGrows(x, col, e);
    var y := SysStep(x, col, e);
    var es' := Contents(y.store, y.root);
    match e
    case Insert(t, newId, values) => AddKeepsIndexed(s.rows, col, es, es', newId, Row(values, t, 0));
    case Delete(t, id) =>
      if CanWrite(s, t, id) { StampKeepsIndexed(s.rows, col, es, id, t); }
    case Update(t, id, newId, values, fits) =>
      if CanWrite(s, t, id) {
        StampKeepsIndexed(s.rows, col, es, id, t);
        if fits { AddKeepsIndexed(Stamp(s, t, id).rows, col, es, es', newId, Row(values, t, 0)); }
      }
    case _ =>
  }

  /** The index after a call: unchanged, or with the new entry in it. */
  lemma {:induction false} IndexGrows(x: Sys, col: nat, e: Event)
    requires Strict(x.store, x.root) && Good(x, col, e) && |x.store| + 2 <= 0x7FFF_FFFF
    ensures var y, n := SysStep(x, col, e), NewEntry(x.mvcc, col, e);
            && Strict(y.store, y.root) && |y.store| <= |x.store| + 2
            && (n.None? ==> y.store == x.store && y.root == x.root)
            && (n.Some? ==>
                  multiset(Contents(y.store, y.root)) == multiset(Contents(x.store, x.root)) + multiset{n.value})
  {
    var n := NewEntry(x.mvcc, col, e);
    if n.Some? {
      InsertRefinesPlace(x.store, x.root, n.value.0, n.value.1);
      InsertKeepsShape(x.store, x.root, n.value.0, n.value.1);
      InsertFrame(x.store, x.root, n.value.0, n.value.1);
    }
  }

  /** A run in which every call is good in the state it meets.  The shape of the tree, which
      Good needs to speak of its leaves, is kept by every insertion (InsertKeepsShape). */
  ghost predicate GoodRun(x: Sys, col: nat, es: seq<Event>)
    decreases |es|
  {
    es == [] || (Shape(x.store, x.root) && Good(x, col, es[0]) && GoodRun(SysStep(x, col, es[0]), col, es[1..]))
  }

  ghost function SysRun(x: Sys, col: nat, es: seq<Event>): (r: Sys)
    requires GoodRun(x, col, es)
    decreases |es|
  {
    if es == [] then x else SysRun(SysStep(x, col, es[0]), col, es[1..])
  }

  lemma {:induction false} SysRunKeepsInv(x: Sys, col: nat, es: seq<Event>)
    requires SysInv(x, col) && GoodRun(x, col, es) && |x.store| + 2 * |es| <= 0x7FFF_FFFF
    ensures SysInv(SysRun(x, col, es), col)
    decreases |es|
  {
    if es != [] {
      SysStepKeepsInv(x, col, es[0]);
      SysRunKeepsInv(SysStep(x, col, es[0]), col, es[1..]);
    }
  }

  /** In every state the engine reaches without index errors and with clean splits, for
      every transaction and key: draining the index seek returns exactly the rows of
      the table scan with that key, each once. */
  lemma {:induction false} IndexPathEqualsScan(store: Store, root: nat, col: nat, es: seq<Event>, t: TxId, k: Int64)
    requires root < |store| && store[root] == Leaf([], -1) && |store| + 2 * |es| <= 0x7FFF_FFFF
    requires GoodRun(Sys(INIT, store, root), col, es)
    ensures var x := SysRun(Sys(INIT, store, root), col, es);
            && Strict(x.store, x.root)
            && multiset(Filtered(x.mvcc, t, Seek(x.store, x.root, k))) == multiset(ScanWithKey(x.mvcc, t, col, k))
  {
    var x0 := Sys(INIT, store, root);
    EmptyIndex(store, root, col);
    SysRunKeepsInv(x0, col, es);
    InvariantMeansAgreement(SysRun(x0, col, es), col, t, k);
  }

  /** Both access paths agree in every state with the invariant, however it was reached. */
  lemma {:induction false} InvariantMeansAgreement(x: Sys, col: nat, t: TxId, k: Int64)
    requires SysInv(x, col)
    ensures multiset(Filtered(x.mvcc, t, Seek(x.store, x.root, k))) == multiset(ScanWithKey(x.mvcc, t, col, k))
  {
    StrictSeek(x.store, x.root, k);
    SeekAgreesWithScan(x.mvcc, t, col, Contents(x.store, x.root), k);
  }

  lemma {:induction false} EmptyIndex(store: Store, root: nat, col: nat)
    requires root < |store| <= 0x7FFF_FFFF && store[root] == Leaf([], -1)
    ensures SysInv(Sys(INIT, store, root), col)
  {
    EmptyTree(store, root);
    hide Strict, Contents;
  }

  lemma {:induction false} EmptyTree(store: Store, root: nat)
    requires root < |store| <= 0x7FFF_FFFF && store[root] == Leaf([], -1)
    ensures Strict(store, root) && Contents(store, root) == []
  {
    assert Kids(store, root) == [root];
    var none: seq<Entry> := [];
    assert TreeLists(store, root) == [none];
    TwoPieces(none, none, none);
    assert Contents(store, root) == [];
    assert store[root].next == Next([root], 0);
  }
}
