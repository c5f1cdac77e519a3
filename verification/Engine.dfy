/** The storage engine: one table with an index on one INT column, over the heap file,
    the B+-tree and the page caches.  Every call is proved to be a step of the model. */
module Engine {
  import opened Core
  import opened Sequences
  import opened RowCodec
  import opened SortedList
  import opened BTree
  import BTreeRuns
  import opened BTreeChain
  import NodeCodec
  import opened BufferPool
  import opened HeapFile
  import Index
  import IndexSeek
  import opened Mvcc
  import opened IndexAgreement
  import MvccReads
  import Table

  /** The values of a row as they come back from storage: a NULL loses its type, nothing else changes. */
  function Kept(values: seq<Value>): (kept: seq<Value>)
    ensures |kept| == |values|
    ensures forall i :: 0 <= i < |values| ==> kept[i] == if values[i].Null? then Null(TypeInt) else values[i]
  {
    UntaggedRow(Row(values, 0, 0)).values
  }

  lemma {:induction false} RollbackKeepsInv(s: Mvcc.State, t: TxId)
    requires Mvcc.Inv(s)
    ensures Mvcc.Inv(Step(s, Event.Rollback(t)))
  {
  }

  lemma {:induction false} KeptKey(values: seq<Value>, col: nat, id: RowId)
    ensures EntryFor(Kept(values), col, id) == EntryFor(values, col, id)
  {
  }

  /** Two caches that share no page buffer. */
  ghost predicate Apart(p: Pool, q: Pool)
    reads p, q
  {
    p != q && p.pages.Values !! q.pages.Values
  }

  class Engine {
    const table: Table.Table
    const index: Index.IndexTree
    const col: nat
    var nextTx: UInt64
    var activeTxns: set<TxId>
    var committed: set<TxId>
    var txnSnapshots: map<TxId, set<TxId>>

    ghost predicate Valid()
      reads this, table, table.heap, table.heap.pool, table.heap.pool.pages.Values
      reads index, index.pool, index.pool.pages.Values
    {
      && table.Valid() && index.Valid()
      && Apart(table.heap.pool, index.pool)
      && Mvcc.Inv(State())
    }

    ghost function State(): Mvcc.State
      reads this, table
    {
      Mvcc.State(nextTx, activeTxns, committed, txnSnapshots, table.rows)
    }

    /** The model state: transactions and versions, and the nodes of the index. */
    ghost function Model(): Sys
      requires Valid()
      reads this, table, table.heap, table.heap.pool, table.heap.pool.pages.Values
      reads index, index.pool, index.pool.pages.Values
    {
      Sys(State(), Index.Nodes(index.pool), index.root)
    }

    /** A fresh engine: no transactions, no rows, an empty index whose root is a new leaf. */
    constructor (indexPool: Pool, col: nat, capacity: nat)
      requires Settled(indexPool) && |indexPool.file| < 0x7FFF_FFFF
      modifies indexPool, indexPool.pages.Values
      ensures Valid() && State() == INIT && this.col == col && index.pool == indexPool
      ensures Index.Nodes(index.pool)[index.root] == Leaf([], -1)
    {
      hide Index.Nodes, Settled, Shape, Chained, Table.Table.Valid, BTree.Insert, Mvcc.Inv;
      EmptyInv();
      table := new Table.Table(capacity);
      index := new Index.IndexTree(indexPool);
      this.col := col;
      nextTx, activeTxns, committed, txnSnapshots := 0, {}, {}, map[];
      new;
    }

    // ----- transactions -----

    method Begin() returns (t: TxId)
      requires Valid() && nextTx + 1 < 0x1_0000_0000_0000_0000
      modifies this
      ensures Valid() && t == old(nextTx) + 1
      ensures Allowed(old(State()), Event.Begin(t)) && Model() == SysStep(old(Model()), col, Event.Begin(t))
    {
      hide Index.Nodes, Settled, Shape, Chained, Table.Table.Valid, Mvcc.Inv, BTree.Insert;
      StepKeepsInv(State(), Event.Begin(nextTx + 1));
      nextTx := nextTx + 1;
      var snap := committed;
      txnSnapshots := txnSnapshots[nextTx := snap];
      activeTxns := activeTxns + {nextTx};
      t := nextTx;
    }

    method Commit(t: TxId) returns (ok: bool)
      requires Valid()
      modifies this
      ensures Valid() && ok == (t in old(activeTxns))
      ensures Model() == if ok then SysStep(old(Model()), col, Event.Commit(t)) else old(Model())
    {
      hide Index.Nodes, Settled, Shape, Chained, Table.Table.Valid, Mvcc.Inv, BTree.Insert;
      if t !in activeTxns {
        return false;
      }
      StepKeepsInv(State(), Event.Commit(t));
      activeTxns := activeTxns - {t};
      txnSnapshots := txnSnapshots - {t};
      committed := committed + {t};
      ok := true;
    }

    method Rollback(t: TxId)
      requires Valid()
      modifies this
      ensures Valid() && Model() == SysStep(old(Model()), col, Event.Rollback(t))
    {
      hide Index.Nodes, Settled, Shape, Chained, Table.Table.Valid, Mvcc.Inv, BTree.Insert;
      RollbackKeepsInv(State(), t);
      activeTxns := activeTxns - {t};
      txnSnapshots := txnSnapshots - {t};
    }

    /** isVisible, with the fallback to the live set for a transaction without snapshot. */
    method IsVisible(t: TxId, row: Row) returns (v: bool)
      ensures v == Visible(State(), t, row)
    {
      var seen := if t in txnSnapshots then txnSnapshots[t] else committed;
      var createdVisible := row.xmin == t || row.xmin in seen;
      if !createdVisible {
        return false;
      }
      var deleted := row.xmax != 0 && (row.xmax == t || row.xmax in seen);
      v := !deleted;
    }

    method CheckWriteConflict(t: TxId, row: Row) returns (conflict: bool)
      ensures conflict == Conflict(State(), t, row)
    {
      if row.xmax != 0 && row.xmax != t && row.xmax in committed {
        return true;
      }
      if t in txnSnapshots && row.xmin != t && row.xmin in committed && row.xmin !in txnSnapshots[t] {
        return true;
      }
      conflict := false;
    }

    // ----- rows -----

    ghost predicate HasRoom()
      reads this, table, table.heap, table.heap.pool, index, index.pool
    {
      |table.heap.pool.file| < 0x1_0000_0000_0000 && |index.pool.file| + 2 <= 0x7FFF_FFFF
    }

    /** The index maintenance of Insert and Update for a version that was just stored. */
    method AddToIndex(values: seq<Value>, id: RowId) returns (ok: bool)
      requires table.Valid() && index.Valid() && Apart(table.heap.pool, index.pool)
               && |index.pool.file| + 2 <= 0x7FFF_FFFF && col < |values|
      requires values[col].Int? || values[col].Null?
      modifies index, index.pool, index.pool.pages.Values
      ensures table.Valid() && index.Valid() && Apart(table.heap.pool, index.pool)
      ensures fresh(index.pool.pages.Values - old(index.pool.pages.Values))
      ensures var n := EntryFor(values, col, id);
              && (n.None? ==>
                    && ok && index.root == old(index.root)
                    && Index.Nodes(index.pool) == old(Index.Nodes(index.pool)))
              && (n.Some? ==> BTree.Insert(old(Index.Nodes(index.pool)), old(index.root), n.value.0, n.value.1)
                              == Outcome(Index.Nodes(index.pool), index.root, ok))
    {
      hide Index.Nodes, Settled, BTree.Insert, Shape, Chained;
      ok := true;
      if !values[col].Null? {
        ok := index.Insert(values[col].i, id);
      }
    }

    /** Insert: stores the version, which t then sees, and indexes it; refused without effect when
        the row is too long for the heap, and reported as an error when only the index failed. */
    method Insert(t: TxId, values: seq<Value>) returns (id: Option<RowId>, ok: bool)
      requires Valid() && HasRoom() && t in activeTxns && col < |values|
      requires values[col].Int? || values[col].Null?
      modifies table, table.heap.pool, table.heap.pool.pages.Values, index, index.pool, index.pool.pages.Values
      ensures Valid()
      ensures id.None? <==> |Encode(Row(values, t, 0))| > 4088
      ensures id.None? ==> !ok && Model() == old(Model())
      ensures id.Some? ==>
                var e := Event.Insert(t, id.value, Kept(values));
                && Allowed(old(State()), e) && Model() == SysStep(old(Model()), col, e)
                && (ok <==> IndexSucceeds(old(Model()), col, e))
      ensures id.Some? ==>
                && id.value !in old(VisibleRows(State(), t))
                && VisibleRows(State(), t) == old(VisibleRows(State(), t))[id.value := Kept(values)]
    {
      hide Index.Nodes, Settled, Shape, Chained, Table.Table.Valid, BTree.Insert, Mvcc.Inv, UntaggedRow, Encode;
      hide VisibleRows;
      id := table.Add(Row(values, t, 0));
      if id.None? {
        return id, false;
      }
      KeptRow(values, t);
      StepKeepsInv(old(State()), Event.Insert(t, id.value, Kept(values)));
      MvccReads.InsertReads(old(State()), Event.Insert(t, id.value, Kept(values)));
      KeptKey(values, col, id.value);
      ok := AddToIndex(values, id.value);
    }

    /** Update: checks for a conflict, stamps the old version, then stores and indexes the new one
        as an insert does; t sees it in place of the old one.  A new row that is too long is an error that leaves the
        old version stamped. */
    method Update(t: TxId, id: RowId, values: seq<Value>) returns (newId: Option<RowId>, ok: bool)
      requires Valid() && HasRoom() && t in activeTxns && col < |values|
      requires values[col].Int? || values[col].Null?
      modifies table, table.heap.pool, table.heap.pool.pages.Values, index, index.pool, index.pool.pages.Values
      ensures Valid()
      ensures !CanWrite(old(State()), t, id) ==> !ok && newId.None? && Model() == old(Model())
      ensures CanWrite(old(State()), t, id) ==>
                && (newId.Some? <==> |Encode(Row(values, t, 0))| <= 4088)
                && (newId.None? ==> !ok && Model() == old(Model()).(mvcc := Mvcc.Stamp(old(State()), t, id)))
      ensures newId.Some? ==>
                var e := Event.Update(t, id, newId.value, Kept(values), true);
                && Allowed(old(State()), e) && Model() == SysStep(old(Model()), col, e)
                && (ok <==> IndexSucceeds(old(Model()), col, e))
      ensures CanWrite(old(State()), t, id) ==>
                var kept := old(VisibleRows(State(), t)) - {id};
                VisibleRows(State(), t) == if newId.Some? then kept[newId.value := Kept(values)] else kept
    {
      hide Index.Nodes, Settled, Shape, Chained, Table.Table.Valid, BTree.Insert, Mvcc.Inv, UntaggedRow, Encode;
      hide VisibleRows, Kept, CanWrite, IndexSucceeds;
      var stamped := StampRow(t, id);
      if !stamped {
        return None, false;
      }
      MvccReads.DeleteReads(old(State()), Event.Delete(t, id));
      ghost var m := Model();
      newId, ok := Insert(t, values);
      if newId.Some? {
        UpdateIsStampAndInsert(old(Model()), m, col, t, id, newId.value, Kept(values));
      }
    }

    /** Delete: checks for a conflict and stamps the version, which t then no longer sees. */
    method Delete(t: TxId, id: RowId) returns (ok: bool)
      requires Valid() && t in activeTxns
      modifies table, table.heap.pool, table.heap.pool.pages.Values
      ensures Valid() && ok == CanWrite(old(State()), t, id)
      ensures Model() == SysStep(old(Model()), col, Event.Delete(t, id))
      ensures VisibleRows(State(), t) == old(VisibleRows(State(), t)) - if ok then {id} else {}
    {
      hide Index.Nodes, Settled, Shape, Chained, Table.Table.Valid, BTree.Insert, Mvcc.Inv, VisibleRows;
      ok := StampRow(t, id);
      if ok {
        MvccReads.DeleteReads(old(State()), Event.Delete(t, id));
      }
    }

    /** The common part of Update and Delete: read the version, check, stamp in place. */
    method StampRow(t: TxId, id: RowId) returns (ok: bool)
      requires Valid() && t in activeTxns
      modifies table, table.heap.pool, table.heap.pool.pages.Values
      ensures Valid() && fresh(table.heap.pool.pages.Values - old(table.heap.pool.pages.Values))
      ensures |table.heap.pool.file| == |old(table.heap.pool.file)|
      ensures ok == CanWrite(old(State()), t, id)
      ensures State() == if ok then Mvcc.Stamp(old(State()), t, id) else old(State())
      ensures Index.Nodes(index.pool) == old(Index.Nodes(index.pool))
    {
      hide Index.Nodes, Settled, Shape, Chained, Table.Table.Valid, BTree.Insert, Mvcc.Inv;
      var r := table.Read(id);
      if r.None? {
        return false;
      }
      var conflict := CheckWriteConflict(t, r.value);
      if conflict {
        return false;
      }
      StampKeepsInv(State(), t, id);
      ok := table.Stamp(id, t);
    }
  }

  /** An update that goes through is a deletion mark followed by an insert. */
  lemma {:induction false} UpdateIsStampAndInsert(x: Sys, y: Sys, col: nat, t: TxId, id: RowId, newId: RowId,
                                                  values: seq<Value>)
    requires Shape(x.store, x.root) && CanWrite(x.mvcc, t, id) && y == x.(mvcc := Mvcc.Stamp(x.mvcc, t, id))
    ensures var u, i := Event.Update(t, id, newId, values, true), Event.Insert(t, newId, values);
            && SysStep(x, col, u) == SysStep(y, col, i)
            && (Allowed(x.mvcc, u) <==> Allowed(y.mvcc, i))
            && IndexSucceeds(x, col, u) == IndexSucceeds(y, col, i)
  {
    hide Shape, BTree.Insert, EntryFor;
  }

  // ---------------------------------------------------------------------
  // Reading
  // ---------------------------------------------------------------------

  /** One turn of the scan: the next stored version, with its values if the transaction sees it. */
  method ScanTurn(e: Engine, it: Table.HeapIterator, t: TxId) returns (next: Option<(RowId, Option<seq<Value>>)>)
    requires it.Valid() && it.table == e.table
    modifies it, e.table.heap.pool
    ensures it.Valid() && e.State() == old(e.State())
    ensures fresh(e.table.heap.pool.pages.Values - old(e.table.heap.pool.pages.Values))
    ensures next.None? ==> forall id :: id in VisibleRows(e.State(), t) ==> id < old(it.Pos())
    ensures next.Some? ==>
              var (id, values), view := next.value, VisibleRows(e.State(), t);
              && old(it.Pos()) <= id && it.Pos() == id + 1
              && values == (if id in view then Some(view[id]) else None)
              && forall x :: x in view ==> x < old(it.Pos()) || x >= id
  {
    hide Table.Table.Valid, Visible, PagesOk;
    var row := it.NextRow();
    if row.None? {
      return None;
    }
    var visible := e.IsVisible(t, row.value.1);
    next := Some((row.value.0, if visible then Some(row.value.1.values) else None));
  }

  /** Scan, drained: every visible version once, in the order of row ids, with its values. */
  method ScanAll(e: Engine, t: TxId) returns (ids: seq<RowId>, rows: map<RowId, seq<Value>>)
    requires e.Valid() && e.HasRoom()
    modifies e.table.heap.pool
    ensures e.Valid() && e.Model() == old(e.Model())
    ensures Ascending(ids) && forall id :: id in ids <==> id in rows
    ensures rows == VisibleRows(e.State(), t)
  {
    hide Index.Nodes, Settled, Shape, Chained, Table.Table.Valid;
    hide BTree.Insert, Mvcc.Inv, VisibleRows, NodeCodec.DecodeNode, PagesOk;
    ids, rows := [], map[];
    ghost var view := VisibleRows(e.State(), t);
    var it := new Table.HeapIterator(e.table);
    while true
      invariant it.Valid() && it.table == e.table && e.State() == old(e.State())
      invariant fresh(e.table.heap.pool.pages.Values - old(e.table.heap.pool.pages.Values))
      invariant Ascending(ids) && forall id :: id in ids <==> id in rows
      invariant forall id :: id in rows <==> id in view && id < it.Pos()
      invariant forall id :: id in rows ==> rows[id] == view[id]
      decreases 0x1_0000_0000_0000_0000 - it.Pos()
    {
      var next := ScanTurn(e, it, t);
      if next.None? {
        break;
      }
      var (id, values) := next.value;
      if values.Some? {
        OneMoreId(ids, id);
        ids, rows := ids + [id], rows[id := values.value];
      }
    }
  }

  lemma {:induction false} OneMoreId(ids: seq<RowId>, id: RowId)
    requires Ascending(ids) && forall x :: x in ids ==> x < id
    ensures Ascending(ids + [id])
  {
    assert forall i :: 0 <= i < |ids| ==> ids[i] in ids;
  }

  /** An open index iterator over an engine whose model state is m. */
  ghost predicate Reading(e: Engine, it: IndexSeek.SeekIterator, m: Sys)
    reads e, e.table, e.table.heap, e.table.heap.pool, e.table.heap.pool.pages.Values
    reads e.index, e.index.pool, e.index.pool.pages.Values, it, it.pool, it.pool.pages.Values, it.currNode
  {
    e.Valid() && it.Valid() && it.pool == e.index.pool && e.Model() == m
  }

  /** The row ids the iterator has not tested yet. */
  ghost function Pending(e: Engine, it: IndexSeek.SeekIterator, m: Sys): seq<RowId>
    requires Reading(e, it, m)
    reads e, e.table, e.table.heap, e.table.heap.pool, e.table.heap.pool.pages.Values
    reads e.index, e.index.pool, e.index.pool.pages.Values, it, it.pool, it.pool.pages.Values, it.currNode
  {
    Matches(it.Remaining(), it.seekKey)
  }

  /** SeekIndex, drained, with the lookup of the row and the visibility filter. */
  method SeekAll(e: Engine, t: TxId, key: Int64) returns (ids: seq<RowId>)
    requires e.Valid()
    modifies e.index.pool, e.table.heap.pool
    ensures e.Valid() && e.Model() == old(e.Model())
    ensures var m := e.Model(); ids == Filtered(m.mvcc, t, SeekAlong(m.store, m.root, e.index.order, key))
  {
    ghost var m := e.Model();
    var it := Open(e, key);
    ids := Drain(e, it, t, m);
  }

  method Open(e: Engine, key: Int64) returns (it: IndexSeek.SeekIterator)
    requires e.Valid()
    modifies e.index.pool
    ensures fresh(it) && fresh(it.currNode) && it.pool == e.index.pool && Reading(e, it, old(e.Model()))
    ensures fresh(e.index.pool.pages.Values - old(e.index.pool.pages.Values))
    ensures var m := old(e.Model()); Pending(e, it, m) == SeekAlong(m.store, m.root, e.index.order, key)
  {
    hide Index.Nodes, Settled, Shape, Chained, Table.Table.Valid, Mvcc.Inv, Matches, SeekAlong, Leaves, Chain;
    it := IndexSeek.SeekIndex(e.index, key);
  }

  /** Both access paths on one engine: while the index is exact, the drained seek is a
      permutation of the scanned rows with that key. */
  method SeekAgainstScan(e: Engine, t: TxId, key: Int64) returns (sought: seq<RowId>, scanned: seq<RowId>)
    requires e.Valid() && e.HasRoom() && SysInv(e.Model(), e.col)
    modifies e.index.pool, e.table.heap.pool
    ensures e.Valid() && e.Model() == old(e.Model())
    ensures Ascending(scanned) && forall id :: id in scanned <==> id in VisibleRows(e.State(), t)
    ensures forall id :: id in sought ==> id in scanned
    ensures multiset(sought) == multiset(WithKey(e.State(), e.col, key, scanned))
  {
    hide Index.Nodes, Settled, Shape, Chained, Table.Table.Valid, Mvcc.Inv, SeekAlong, Filtered, VisibleRows, SysInv;
    var rows;
    scanned, rows := ScanAll(e, t);
    sought := SeekAll(e, t, key);
    PathsAgree(e.Model(), e.col, t, key, e.index.order, scanned);
  }

  lemma {:induction false} PathsAgree(m: Sys, col: nat, t: TxId, key: Int64, order: seq<UInt64>, scanned: seq<RowId>)
    requires SysInv(m, col) && Chained(m.store, m.root, order)
    requires Ascending(scanned) && forall id :: id in scanned <==> id in VisibleRows(m.mvcc, t)
    ensures var sought := Filtered(m.mvcc, t, SeekAlong(m.store, m.root, order, key));
            && multiset(sought) == multiset(WithKey(m.mvcc, col, key, scanned))
            && forall id :: id in sought ==> id in scanned
  {
    hide Filtered, SeekAlong, Chained, Indexed, BTreeRuns.Seek, Mvcc.Inv, WithKey, Ascending;
    AlongIsSeek(m.store, m.root, order, key);
    InvariantMeansAgreement(m, col, t, key);
    var sought, want := Filtered(m.mvcc, t, SeekAlong(m.store, m.root, order, key)), WithKey(m.mvcc, col, key, scanned);
    var a, b := multiset(sought), multiset(want);
    forall id: RowId ensures a[id] == b[id] {
      WithKeyCounts(m.mvcc, col, key, scanned, id);
      AscendingOnce(scanned, id);
    }
    forall id | id in sought ensures id in scanned {
      assert id in multiset(sought);
    }
  }

  method Drain(e: Engine, it: IndexSeek.SeekIterator, t: TxId, ghost m: Sys) returns (ids: seq<RowId>)
    requires Reading(e, it, m)
    modifies it, e.index.pool, e.table.heap.pool
    ensures Reading(e, it, m)
    ensures ids == Filtered(m.mvcc, t, old(Pending(e, it, m)))
  {
    hide *;
    ghost var all := Pending(e, it, m);
    ids := [];
    var more := true;
    while more
      invariant Reading(e, it, m) && (it.currNode == old(it.currNode) || fresh(it.currNode))
      invariant fresh(e.index.pool.pages.Values - old(e.index.pool.pages.Values))
      invariant fresh(e.table.heap.pool.pages.Values - old(e.table.heap.pool.pages.Values))
      invariant more ==> ids + Filtered(m.mvcc, t, Pending(e, it, m)) == Filtered(m.mvcc, t, all)
      invariant !more ==> ids == Filtered(m.mvcc, t, all)
      decreases more, |Pending(e, it, m)|
    {
      FilteredParts(m.mvcc, t, Pending(e, it, m));
      var row;
      more, row := SeekTurn(e, it, t, m);
      if row.Some? {
        ids := ids + [row.value];
      }
    }
  }

  /** One entry of the index iterator: fetch the row and test its visibility. */
  method SeekTurn(e: Engine, it: IndexSeek.SeekIterator, t: TxId, ghost m: Sys) returns (more: bool, row: Option<RowId>)
    requires Reading(e, it, m)
    modifies it, e.index.pool, e.table.heap.pool
    ensures Reading(e, it, m) && (it.currNode == old(it.currNode) || fresh(it.currNode))
    ensures fresh(e.index.pool.pages.Values - old(e.index.pool.pages.Values))
    ensures fresh(e.table.heap.pool.pages.Values - old(e.table.heap.pool.pages.Values))
    ensures !more ==> row.None? && old(Pending(e, it, m)) == []
    ensures more ==>
              var ids, rows := old(Pending(e, it, m)), m.mvcc.rows;
              && ids != [] && Pending(e, it, m) == ids[1..]
              && row == if ids[0] in rows && Visible(m.mvcc, t, rows[ids[0]]) then Some(ids[0]) else None
  {
    hide Index.Nodes, Settled, Shape, Chained, Table.Table.Valid, Mvcc.Inv;
    hide Visible, Matches, Chain, Leaves, LeavesOf, NodeCodec.DecodeNode;
    var next := it.NextEntry();
    row := None;
    if next.None? {
      return false, row;
    }
    more := true;
    var r := e.table.Read(next.value);
    if r.Some? {
      var visible := e.IsVisible(t, r.value);
      if visible {
        row := Some(next.value);
      }
    }
  }

  lemma {:induction false} FilteredParts(s: Mvcc.State, t: TxId, ids: seq<RowId>)
    ensures ids == [] ==> Filtered(s, t, ids) == []
    ensures ids != [] ==>
              Filtered(s, t, ids)
              == (if ids[0] in s.rows && Visible(s, t, s.rows[ids[0]]) then [ids[0]] else []) + Filtered(s, t, ids[1..])
  {
  }

  lemma {:induction false} KeptRow(values: seq<Value>, t: TxId)
    ensures UntaggedRow(Row(values, t, 0)) == Row(Kept(values), t, 0)
  {
    assert UntaggedRow(Row(values, t, 0)).values == Kept(values);
  }

  lemma {:induction false} EmptyInv()
    ensures Mvcc.Inv(INIT)
  {
  }

  /** Whether the index insertion of the call, if it needs one, succeeds. */
  predicate IndexSucceeds(x: Sys, col: nat, e: Event)
    requires Shape(x.store, x.root)
  {
    var n := NewEntry(x.mvcc, col, e);
    n.None? || BTree.Insert(x.store, x.root, n.value.0, n.value.1).ok
  }
}
