/** The in-memory engine's own methods: maps changed in place by each call, proved against
    the step machine, and the two iterators that read it. */
module MemstoreEngine {
  import opened Core
  import opened Eval
  import opened Memstore
  import MemstoreReads
  import Query
  import opened Sequences

  /** A scan: row ids in ascending order over a private copy of the rows. */
  class RowIterator {
    const ids: seq<nat>
    const rows: map<nat, Tuple>
    var pos: nat

    ghost predicate Valid()
      reads this
    {
      pos <= |ids| && forall i :: 0 <= i < |ids| ==> ids[i] in rows
    }

    /** The rows not delivered yet. */
    ghost function Rest(): (r: seq<(nat, Tuple)>)
      requires Valid()
      reads this
    {
      Listing(rows, ids[pos..])
    }

    constructor (ids: seq<nat>, rows: map<nat, Tuple>)
      requires forall i :: 0 <= i < |ids| ==> ids[i] in rows
      ensures Valid() && this.ids == ids && this.rows == rows && pos == 0
    {
      this.ids, this.rows, pos := ids, rows, 0;
    }

    method Next() returns (item: Option<(nat, Tuple)>)
      requires Valid()
      modifies this
      ensures Valid()
      ensures item.None? ==> old(Rest()) == [] && Rest() == []
      ensures item.Some? ==> old(Rest()) == [item.value] + Rest()
    {
      if pos >= |ids| {
        return None;
      }
      assert ids[pos..][1..] == ids[pos + 1..];
      item := Some((ids[pos], rows[ids[pos]]));
      pos := pos + 1;
    }
  }

  function Listing(rows: map<nat, Tuple>, ids: seq<nat>): (r: seq<(nat, Tuple)>)
    requires forall i :: 0 <= i < |ids| ==> ids[i] in rows
  {
    if ids == [] then [] else [(ids[0], rows[ids[0]])] + Listing(rows, ids[1..])
  }

  /** The pairs whose column compares equal, without error, to the key. */
  function Hits(col: nat, key: Value, items: seq<(nat, Tuple)>): (r: seq<(nat, Tuple)>) {
    if items == [] then []
    else (if Query.KeyTest(col, key)(items[0].1) then [items[0]] else []) + Hits(col, key, items[1..])
  }

  function Tuples(items: seq<(nat, Tuple)>): (r: seq<Tuple>) {
    if items == [] then [] else [items[0].1] + Tuples(items[1..])
  }

  /** A seek delivers the rows of a scan that pass the seek test, in scan order: the list
      that IndexPlanPreservesMeaning puts below the joins. */
  lemma {:induction false} SeekIsFilteredScan(col: nat, key: Value, items: seq<(nat, Tuple)>)
    ensures Tuples(Hits(col, key, items)) == Query.Filter(Query.KeyTest(col, key), Tuples(items))
  {
    if items != [] {
      SeekIsFilteredScan(col, key, items[1..]);
      var more := Hits(col, key, items[1..]);
      assert Tuples(items)[1..] == Tuples(items[1..]);
      if Query.KeyTest(col, key)(items[0].1) {
        assert ([items[0]] + more)[1..] == more;
      } else {
        assert [] + more == more;
      }
    }
  }

  ghost predicate Fits(items: seq<(nat, Tuple)>, col: nat) {
    forall i :: 0 <= i < |items| ==> col < |items[i].1|
  }

  class IndexIterator {
    const base: RowIterator
    const col: nat
    const key: Value

    constructor (base: RowIterator, col: nat, key: Value)
      ensures this.base == base && this.col == col && this.key == key
    {
      this.base, this.col, this.key := base, col, key;
    }

    method Next() returns (item: Option<(nat, Tuple)>)
      requires base.Valid() && Fits(base.Rest(), col)
      modifies base
      ensures base.Valid() && Fits(base.Rest(), col)
      ensures item.None? ==> Hits(col, key, old(base.Rest())) == [] && base.Rest() == []
      ensures item.Some? ==> Hits(col, key, old(base.Rest())) == [item.value] + Hits(col, key, base.Rest())
    {
      while true
        invariant base.Valid() && Fits(base.Rest(), col)
        invariant Hits(col, key, base.Rest()) == Hits(col, key, old(base.Rest()))
        decreases |base.Rest()|
      {
        ghost var before := base.Rest();
        item := base.Next();
        if item.None? {
          return;
        }
        assert before[0] == item.value && before[1..] == base.Rest();
        assert forall i :: 0 <= i < |base.Rest()| ==> base.Rest()[i] == before[i + 1];
        if Compare(item.value.1[col], key) == Some(0) {
          return;
        }
      }
    }
  }

  /** The keys of a map, in ascending order. */
  method SortedKeys(keys: set<nat>) returns (ids: seq<nat>)
    ensures Ascending(ids) && Elems(ids) == keys
  {
    ids := [];
    var left := keys;
    while left != {}
      invariant left <= keys && Ascending(ids)
      invariant Elems(ids) == keys - left
      invariant forall i, k :: 0 <= i < |ids| && k in left ==> ids[i] < k
      decreases left
    {
      var least := Least(left);
      ghost var before := ids;
      ids := ids + [least];
      left := left - {least};
      OneMore(before, least);
    }
  }

  lemma {:induction false} OneMore(ids: seq<nat>, k: nat)
    ensures Elems(ids + [k]) == Elems(ids) + {k}
  {
    var more := ids + [k];
    assert forall i :: 0 <= i < |ids| ==> more[i] == ids[i];
    assert more[|ids|] == k;
    forall x | x in Elems(ids) ensures x in Elems(more) {
      var i :| 0 <= i < |ids| && ids[i] == x;
      assert more[i] == x;
    }
  }

  method Least(keys: set<nat>) returns (k: nat)
    requires keys != {}
    ensures k in keys && forall x :: x in keys ==> k <= x
  {
    k :| k in keys;
    var left := keys - {k};
    while left != {}
      invariant left <= keys && k in keys && forall x :: x in keys ==> x in left || k <= x
      decreases left
    {
      var x :| x in left;
      if x < k {
        k := x;
      }
      left := left - {x};
    }
  }

  class Engine {
    var tables: map<string, Table>
    var nextID: nat
    var nextTx: nat
    var pending: map<nat, Pending>
    var activeTxns: set<nat>

    ghost function Model(): (s: State)
      reads this
    {
      State(tables, nextID, nextTx, pending, activeTxns)
    }

    constructor ()
      ensures Model() == EMPTY
    {
      tables, nextID, nextTx, pending, activeTxns := map[], 0, 0, map[], {};
    }

    method Begin() returns (t: nat)
      modifies this
      ensures Model() == Step(old(Model()), Event.Begin) && t == old(nextTx) + 1
    {
      nextTx := nextTx + 1;
      activeTxns := activeTxns + {nextTx};
      t := nextTx;
    }

    /** The changes of one table, applied one after another. */
    method Publish(tbl: Table, changes: seq<Change>) returns (r: Table)
      ensures r == Published(tbl, changes)
    {
      r := tbl;
      for i := 0 to |changes|
        invariant r == Published(tbl, changes[..i])
      {
        assert changes[..i + 1][..i] == changes[..i];
        var c := changes[i];
        if c.row.None? {
          r := r.(rows := r.rows - {c.id}, owner := r.owner - {c.id});
        } else {
          r := r.(rows := r.rows[c.id := c.row.value], owner := r.owner[c.id := 0]);
        }
      }
      assert changes[..|changes|] == changes;
    }

    method Commit(t: nat)
      modifies this
      ensures Model() == Step(old(Model()), Event.Commit(t))
    {
      ghost var s := Model();
      if t in pending {
        var mine, left := pending[t], pending[t].Keys;
        while left != {}
          invariant left <= mine.Keys && tables.Keys == s.tables.Keys
          invariant pending == s.pending && activeTxns == s.active && nextID == s.nextID && nextTx == s.nextTx
          invariant forall n :: n in tables ==>
                      tables[n] == if n in left then s.tables[n] else Published(s.tables[n], Pend(s, t, n))
          decreases left
        {
          var n :| n in left;
          if n in tables {
            var r := Publish(tables[n], mine[n]);
            tables := tables[n := r];
          }
          left := left - {n};
        }
        pending := pending - {t};
      }
      activeTxns := activeTxns - {t};
      assert tables == Step(s, Event.Commit(t)).tables;
    }

    method Release(tbl: Table, t: nat, changes: seq<Change>) returns (r: Table)
      ensures r == Unclaimed(tbl, t, changes)
    {
      r := tbl;
      for i := 0 to |changes|
        invariant r == Unclaimed(tbl, t, changes[..i])
      {
        IdsAdded(changes[..i], changes[i]);
        assert changes[..i + 1] == changes[..i] + [changes[i]];
        var id := changes[i].id;
        if id in r.owner && r.owner[id] == t {
          r := r.(owner := r.owner[id := 0]);
        }
      }
      assert changes[..|changes|] == changes;
    }

    method Rollback(t: nat)
      modifies this
      ensures Model() == Step(old(Model()), Event.Rollback(t))
    {
      ghost var s := Model();
      assert forall tbl: Table :: Unclaimed(tbl, t, []).owner == tbl.owner;
      if t in pending {
        var mine, left := pending[t], pending[t].Keys;
        while left != {}
          invariant left <= mine.Keys && tables.Keys == s.tables.Keys
          invariant pending == s.pending && activeTxns == s.active && nextID == s.nextID && nextTx == s.nextTx
          invariant forall n :: n in tables ==>
                      tables[n] == if n in left then s.tables[n] else Unclaimed(s.tables[n], t, Pend(s, t, n))
          decreases left
        {
          var n :| n in left;
          if n in tables {
            var r := Release(tables[n], t, mine[n]);
            tables := tables[n := r];
          }
          left := left - {n};
        }
      }
      pending := pending - {t};
      activeTxns := activeTxns - {t};
      assert tables == Step(s, Event.Rollback(t)).tables;
    }

    method CreateTable(n: string, schema: Schema) returns (f: Option<Failure>)
      modifies this
      ensures Model() == Step(old(Model()), Event.CreateTable(n, schema))
      ensures f == if n in old(tables) then Some(TableExists) else None
    {
      if n in tables {
        return Some(TableExists);
      }
      tables := tables[n := Table(schema, map[], map[])];
      f := None;
    }

    method Remember(t: nat, n: string, c: Change)
      modifies this`pending
      ensures pending == AddPending(old(Model()), t, n, c)
    {
      if t !in pending {
        pending := pending[t := map[]];
      }
      var mine := pending[t];
      pending := pending[t := mine[n := (if n in mine then mine[n] else []) + [c]]];
    }

    /** Stores a row under the next id, in the table or among the pending changes of the caller,
        whose scans then return it. */
    method Insert(h: Option<nat>, n: string, row: Tuple) returns (f: Option<Failure>, id: nat)
      modifies this
      ensures Model() == Step(old(Model()), Event.Insert(h, n, row))
      ensures f == CheckInsert(old(Model()), Event.Insert(h, n, row)) && (f.None? ==> id == old(nextID) + 1)
      ensures f.None? ==>
                && n in old(tables) && n in tables
                && View(Model(), h, n) == old(View(Model(), h, n))[id := row]
    {
      id := 0;
      if n !in tables {
        return Some(NoTable), id;
      }
      if |row| != |tables[n].schema| {
        return Some(WrongWidth), id;
      }
      nextID := nextID + 1;
      id, f := nextID, None;
      if h.Some? {
        Remember(h.value, n, Change(id, Some(row)));
        MemstoreReads.Recorded(old(Model()), h.value, n, Change(id, Some(row)), Model());
        return;
      }
      var t := tables[n];
      tables := tables[n := t.(rows := t.rows[id := row], owner := t.owner[id := 0])];
    }

    /** Another active transaction claims the row. */
    predicate Conflicts(t: Table, id: nat, txn: nat)
      reads this
    {
      id in t.owner && t.owner[id] != 0 && t.owner[id] != txn && t.owner[id] in activeTxns
    }

    /** Writes a committed row, in the table or among the pending changes of the caller, whose
        scans then return the new one. */
    method Update(h: Option<nat>, n: string, id: nat, row: Tuple) returns (f: Option<Failure>)
      modifies this
      ensures Model() == Step(old(Model()), Write(h, n, id, Some(row)))
      ensures f == Check(old(Model()), Write(h, n, id, Some(row)))
      ensures f.None? ==>
                && n in old(tables) && n in tables
                && View(Model(), h, n) == old(View(Model(), h, n))[id := row]
    {
      if n !in tables {
        return Some(NoTable);
      }
      var t := tables[n];
      if id !in t.rows {
        return Some(NoRow);
      }
      if h.Some? && Conflicts(t, id, h.value) {
        return Some(WriteConflict);
      }
      if |row| != |t.schema| {
        return Some(WrongWidth);
      }
      f := None;
      if h.Some? {
        Remember(h.value, n, Change(id, Some(row)));
        tables := tables[n := t.(owner := t.owner[id := h.value])];
        MemstoreReads.Recorded(old(Model()), h.value, n, Change(id, Some(row)), Model());
        return;
      }
      tables := tables[n := t.(rows := t.rows[id := row], owner := t.owner[id := 0])];
    }

    /** Removes a committed row, from the table or in the pending changes of the caller, whose
        scans then no longer return it. */
    method Delete(h: Option<nat>, n: string, id: nat) returns (f: Option<Failure>)
      modifies this
      ensures Model() == Step(old(Model()), Write(h, n, id, None))
      ensures f == Check(old(Model()), Write(h, n, id, None))
      ensures f.None? ==>
                && n in old(tables) && n in tables
                && View(Model(), h, n) == old(View(Model(), h, n)) - {id}
    {
      if n !in tables {
        return Some(NoTable);
      }
      var t := tables[n];
      if id !in t.rows {
        return Some(NoRow);
      }
      if h.Some? && Conflicts(t, id, h.value) {
        return Some(WriteConflict);
      }
      f := None;
      if h.Some? {
        Remember(h.value, n, Change(id, None));
        tables := tables[n := t.(owner := t.owner[id := h.value])];
        MemstoreReads.Recorded(old(Model()), h.value, n, Change(id, None), Model());
        return;
      }
      tables := tables[n := t.(rows := t.rows - {id}, owner := t.owner - {id})];
    }

    /** The pending overlay, one change after another. */
    method Overlaid(rows: map<nat, Tuple>, changes: seq<Change>) returns (r: map<nat, Tuple>)
      ensures r == Overlay(rows, changes)
    {
      r := rows;
      for i := 0 to |changes|
        invariant r == Overlay(rows, changes[..i])
      {
        assert changes[..i + 1][..i] == changes[..i];
        if changes[i].row.None? {
          r := r - {changes[i].id};
        } else {
          r := r[changes[i].id := changes[i].row.value];
        }
      }
      assert changes[..|changes|] == changes;
    }

    /** A scan lists the view of the transaction once each, in ascending order of row id. */
    method Scan(h: Option<nat>, n: string) returns (it: Option<RowIterator>)
      ensures it.Some? <==> n in tables
      ensures it.Some? ==>
                && fresh(it.value) && it.value.Valid() && it.value.pos == 0 && it.value.rows == View(Model(), h, n)
                && Ascending(it.value.ids) && Elems(it.value.ids) == it.value.rows.Keys
    {
      if n !in tables {
        return None;
      }
      var rows := tables[n].rows;
      if h.Some? && h.value in pending && n in pending[h.value] {
        rows := Overlaid(rows, pending[h.value][n]);
      }
      assert rows == View(Model(), h, n) by {
        if h.Some? {
          assert h.value !in pending || n !in pending[h.value] ==> Pend(Model(), h.value, n) == [];
        }
      }
      var ids := SortedKeys(rows.Keys);
      forall i | 0 <= i < |ids| ensures ids[i] in rows {
        assert ids[i] in Elems(ids);
      }
      var scan := new RowIterator(ids, rows);
      it := Some(scan);
    }

    /** A seek filters a fresh scan on one column. */
    method SeekIndex(h: Option<nat>, n: string, column: string, key: Value) returns (it: Option<IndexIterator>)
      requires Wide(Model())
      ensures it.Some? <==> n in tables && ColumnIndex(tables[n].schema, column) >= 0
      ensures it.Some? ==>
                && fresh(it.value.base) && it.value.base.Valid() && it.value.base.pos == 0
                && it.value.base.rows == View(Model(), h, n) && it.value.key == key
                && it.value.col == ColumnIndex(tables[n].schema, column)
                && Ascending(it.value.base.ids)
                && Elems(it.value.base.ids) == it.value.base.rows.Keys
                && Fits(it.value.base.Rest(), it.value.col)
    {
      if n !in tables {
        return None;
      }
      var col := ColumnIndex(tables[n].schema, column);
      if col < 0 {
        return None;
      }
      var base := Scan(h, n);
      ViewFits(Model(), h, n);
      ListingFits(base.value.rows, base.value.ids, col);
      assert base.value.ids[0..] == base.value.ids;
      var seek := new IndexIterator(base.value, col, key);
      it := Some(seek);
    }
  }

  lemma {:induction false} ViewFits(s: State, h: Option<nat>, n: string)
    requires Wide(s) && n in s.tables
    ensures forall id :: id in View(s, h, n) ==> |View(s, h, n)[id]| == |s.tables[n].schema|
  {
    OverlayWide(s.tables[n].rows, if h.Some? then Pend(s, h.value, n) else [], |s.tables[n].schema|);
  }

  lemma {:induction false} ListingFits(rows: map<nat, Tuple>, ids: seq<nat>, col: nat)
    requires forall i :: 0 <= i < |ids| ==> ids[i] in rows
    requires forall id :: id in rows ==> col < |rows[id]|
    ensures Fits(Listing(rows, ids), col)
  {
    if ids != [] {
      ListingFits(rows, ids[1..], col);
    }
  }

  /** Draining a seek: all matching rows of the scan, in scan order. */
  method DrainSeek(it: IndexIterator) returns (items: seq<(nat, Tuple)>)
    requires it.base.Valid() && Fits(it.base.Rest(), it.col)
    modifies it.base
    ensures it.base.Valid() && items == Hits(it.col, it.key, old(it.base.Rest())) && it.base.Rest() == []
  {
    hide Hits, Listing, Fits;
    items := [];
    while true
      invariant it.base.Valid() && Fits(it.base.Rest(), it.col)
      invariant items + Hits(it.col, it.key, it.base.Rest()) == Hits(it.col, it.key, old(it.base.Rest()))
      decreases |Hits(it.col, it.key, it.base.Rest())|
    {
      var item := it.Next();
      if item.None? {
        return;
      }
      Assoc(items, [item.value], Hits(it.col, it.key, it.base.Rest()));
      items := items + [item.value];
    }
  }
}
