/** A table's versions in its heap file: stored, read back, stamped in place and scanned. */
module Table {
  import opened Core
  import opened RowCodec
  import opened HeapFile

  type RowId = UInt64

  /** A version as it comes back from its bytes, short enough for a page. */
  ghost predicate Storable(r: Row) {
    |Encode(r)| <= 4088 && UntaggedRow(r) == r
  }

  lemma {:induction false} StorableBack(r: Row)
    requires Storable(r)
    ensures Decode(Encode(r)) == Some(r) && |Encode(r)| >= 16
  {
    PageRowsAreShort(r);
    HeaderBack(r);
  }

  lemma {:induction false} StampStorable(r: Row, t: UInt64)
    requires Storable(r)
    ensures Storable(r.(xmax := t)) && |Encode(r.(xmax := t))| == |Encode(r)|
  {
    StampInPlace(r, t);
    assert UntaggedRow(r.(xmax := t)).values == r.values;
  }

  lemma {:induction false} UntaggedStorable(r: Row)
    requires |Encode(r)| <= 4088
    ensures Storable(UntaggedRow(r)) && Encode(UntaggedRow(r)) == Encode(r)
  {
    UntaggedBytes(r.values);
    assert UntaggedRow(Row(r.values, 0, 0)).values == UntaggedRow(r).values;
    var u := UntaggedRow(r);
    assert UntaggedRow(u).values == u.values;
  }

  class Table {
    const heap: HeapFile
    ghost var rows: map<RowId, Row>

    /** The heap holds exactly the bytes of the versions. */
    ghost predicate Valid()
      reads this, heap, heap.pool, heap.pool.pages.Values
    {
      && heap.Valid()
      && (forall id: RowId :: heap.Lookup(id) == if id in rows then Some(Encode(rows[id])) else None)
      && (forall id :: id in rows ==> Storable(rows[id]))
    }

    constructor (capacity: nat)
      ensures Valid() && rows == map[] && fresh(heap) && fresh(heap.pool) && heap.pool.pages == map[]
    {
      heap := new HeapFile(capacity);
      rows := map[];
    }

    /** HeapFile.Insert(Serialize(row)): a new version under an unused id, refused when too long. */
    method Add(row: Row) returns (id: Option<RowId>)
      requires Valid() && |heap.pool.file| < 0x1_0000_0000_0000
      modifies this, heap.pool, heap.pool.pages.Values
      ensures Valid() && fresh(heap.pool.pages.Values - old(heap.pool.pages.Values))
      ensures id.None? <==> |Encode(row)| > 4088
      ensures id.None? ==> rows == old(rows)
      ensures id.Some? ==> id.value !in old(rows) && rows == old(rows)[id.value := UntaggedRow(row)]
    {
      hide Encode, HeapFile.Valid, HeapFile.Lookup, UntaggedRow;
      var bytes := Serialize(row);
      id := heap.Insert(bytes);
      if id.Some? {
        UntaggedStorable(row);
        rows := rows[id.value := UntaggedRow(row)];
      }
    }

    /** Deserialize(HeapFile.Get(id)) */
    method Read(id: RowId) returns (r: Option<Row>)
      requires Valid()
      modifies heap.pool
      ensures Valid() && rows == old(rows) && fresh(heap.pool.pages.Values - old(heap.pool.pages.Values))
      ensures |heap.pool.file| == |old(heap.pool.file)|
      ensures r == if id in rows then Some(rows[id]) else None
    {
      hide Encode, Decode, HeapFile.Valid, HeapFile.Lookup, UntaggedRow;
      var bytes := heap.Get(id);
      if bytes.None? {
        return None;
      }
      r := Deserialize(bytes.value);
      StorableBack(rows[id]);
    }

    /** HeapFile.Update(id, Serialize(row)) with another deleter: the bytes keep their
        length, so it never fails as too large. */
    method Stamp(id: RowId, t: UInt64) returns (ok: bool)
      requires Valid() && id in rows
      modifies this, heap.pool, heap.pool.pages.Values
      ensures Valid() && fresh(heap.pool.pages.Values - old(heap.pool.pages.Values))
      ensures |heap.pool.file| == |old(heap.pool.file)|
      ensures ok && rows == old(rows)[id := old(rows)[id].(xmax := t)]
    {
      hide Encode, HeapFile.Valid, HeapFile.Lookup, UntaggedRow;
      var r := Read(id);
      var bytes := Serialize(r.value.(xmax := t));
      StampStorable(rows[id], t);
      ok := heap.Update(id, bytes);
      rows := rows[id := r.value.(xmax := t)];
    }
  }

  lemma {:induction false} IdIs(x: RowId)
    ensures x == PageOf(x) * 0x1_0000 + SlotOf(x) && SlotOf(x) < 0x1_0000
  {
  }

  /** No version has an id in [lo, hi). */
  ghost predicate NoneIn(rows: map<RowId, Row>, lo: nat, hi: nat) {
    forall x: RowId :: lo <= x < hi ==> x !in rows
  }

  /** heapFileIterator in raw mode: every stored version, in the order of pages and slots. */
  class HeapIterator {
    const table: Table
    const pageCount: nat
    var currPage: nat
    var currSlot: nat

    constructor (table: Table)
      requires table.Valid() && |table.heap.pool.file| < 0x1_0000_0000_0000
      ensures this.table == table && pageCount == |table.heap.pool.file| && Valid() && Pos() == 0
    {
      this.table := table;
      pageCount := |table.heap.pool.file|;
      currPage, currSlot := 0, 0;
    }

    /** The table has not grown since the scan began. */
    ghost predicate Valid()
      reads this, table, table.heap, table.heap.pool, table.heap.pool.pages.Values
    {
      table.Valid() && pageCount == |table.heap.pool.file| < 0x1_0000_0000_0000 && currPage <= pageCount
        && currSlot < 0x1_0000
    }

    /** Versions with an id below this were passed. */
    ghost function Pos(): nat
      reads this
    {
      currPage * 0x1_0000 + currSlot
    }

    /** The slot at the cursor: the next page when there is none, otherwise its bytes. */
    method Slot() returns (bytes: Option<seq<Byte>>)
      requires Valid() && currPage < pageCount
      modifies this, table.heap.pool
      ensures Valid() && table.rows == old(table.rows)
      ensures fresh(table.heap.pool.pages.Values - old(table.heap.pool.pages.Values))
      ensures bytes.None? ==> currPage == old(currPage) + 1 && currSlot == 0 && NoneIn(table.rows, old(Pos()), Pos())
      ensures bytes.Some? ==>
                && currPage == old(currPage) && currSlot == old(currSlot)
                && old(Pos()) < 0x1_0000_0000_0000_0000
                && old(Pos()) in table.rows && bytes.value == Encode(table.rows[old(Pos())])
    {
      hide Encode, HeapFile.Valid, HeapFile.Lookup, UntaggedRow, PageOf, SlotOf, Storable;
      var id := Pack(currPage, currSlot);
      IdIs(id);
      bytes := table.heap.Get(id);
      if bytes.None? {
        forall x: RowId | Pos() <= x < (currPage + 1) * 0x1_0000 ensures x !in table.rows {
          IdIs(x);
          SamePage(x, currPage);
          table.heap.NoGaps(id, x);
        }
        currPage, currSlot := currPage + 1, 0;
      }
    }

    /** Next: the stored version with the smallest id at or after the cursor. */
    method NextRow() returns (r: Option<(RowId, Row)>)
      requires Valid()
      modifies this, table.heap.pool
      ensures Valid() && table.rows == old(table.rows)
      ensures fresh(table.heap.pool.pages.Values - old(table.heap.pool.pages.Values))
      ensures r.None? ==> forall x :: x in table.rows ==> x < old(Pos())
      ensures r.Some? ==>
                && r.value.0 in table.rows && r.value.1 == table.rows[r.value.0]
                && old(Pos()) <= r.value.0 && Pos() == r.value.0 + 1 && NoneIn(table.rows, old(Pos()), r.value.0)
    {
      hide Encode, Decode, HeapFile.Valid, HeapFile.Lookup, UntaggedRow, PageOf, SlotOf;
      while currPage < pageCount
        invariant Valid() && table.rows == old(table.rows) && old(Pos()) <= Pos()
        invariant fresh(table.heap.pool.pages.Values - old(table.heap.pool.pages.Values))
        invariant NoneIn(table.rows, old(Pos()), Pos())
        decreases pageCount - currPage, 0x1_0000 - currSlot
      {
        var bytes := Slot();
        if bytes.Some? {
          var id := Pack(currPage, currSlot);
          IdIs(id);
          StorableBack(table.rows[id]);
          SlotBound(id);
          currSlot := currSlot + 1;
          if |bytes.value| > 0 {
            var row := Deserialize(bytes.value);
            return Some((id, row.value));
          }
        }
      }
      forall x | x in table.rows ensures x < old(Pos()) {
        IdIs(x);
        if PageOf(x) >= pageCount {
          table.heap.NothingPastEnd(x);
        }
      }
      r := None;
    }

    /** A used slot number leaves room for the next one. */
    lemma {:induction false} SlotBound(id: RowId)
      requires Valid() && id in table.rows
      ensures SlotOf(id) + 1 < 0x1_0000
    {
      table.heap.FewSlots(id);
    }
  }

  lemma {:induction false} SamePage(x: RowId, page: nat)
    requires page * 0x1_0000 <= x < (page + 1) * 0x1_0000
    ensures PageOf(x) == page
  {
  }
}
