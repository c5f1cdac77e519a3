/** CreateIndex on a table that already holds versions: fewer than 250 non-NULL keys fit the
    root leaf, and the finished index holds exactly the keys of the stored versions. */
module IndexBuild {
  import opened Core
  import opened SortedList
  import opened BTree
  import opened BTreeInsert
  import opened BTreeChain
  import opened BufferPool
  import opened IndexAgreement
  import Table
  type RowId = Table.RowId
  import Index
  import Engine
  import opened HeapFile

  /** The versions with a key. */
  ghost function Keyed(rows: map<RowId, Row>, col: nat): set<RowId> {
    set id | id in rows && KeyOf(rows[id].values, col).Some?
  }

  /** The versions a scan has passed. */
  ghost function Below(rows: map<RowId, Row>, pos: nat): map<RowId, Row> {
    map id | id in rows && id < pos :: rows[id]
  }

  /** The root is still a leaf and indexes exactly the given versions. */
  ghost predicate Built(s: Store, root: nat, rows: map<RowId, Row>, col: nat) {
    && Strict(s, root) && s[root].Leaf?
    && Indexed(rows, col, s[root].es) && |s[root].es| == |Keyed(rows, col)|
  }

  lemma {:induction false} KeyedStep(rows: map<RowId, Row>, col: nat, id: RowId, r: Row)
    requires id !in rows
    ensures |Keyed(rows[id := r], col)| == |Keyed(rows, col)| + if KeyOf(r.values, col).Some? then 1 else 0
  {
    var more := Keyed(rows[id := r], col);
    if KeyOf(r.values, col).Some? {
      assert more == Keyed(rows, col) + {id};
    } else {
      assert more == Keyed(rows, col);
    }
  }

  /** One more version. */
  lemma {:induction false} BuildStep(s: Store, root: nat, rows: map<RowId, Row>, col: nat, id: RowId, r: Row)
    requires Built(s, root, rows, col) && id !in rows && |s| + 2 <= 0x7FFF_FFFF
    requires KeyOf(r.values, col).Some? ==> |Keyed(rows, col)| + 1 < MAX_KEYS
    ensures var k := KeyOf(r.values, col);
            if k.None? then Built(s, root, rows[id := r], col)
            else
              var o := BTree.Insert(s, root, k.value, id);
              o.ok && o.root == root && |o.store| == |s| && Built(o.store, root, rows[id := r], col)
              && forall p :: 0 <= p < |s| && p != root ==> o.store[p] == s[p]
  {
    hide Strict, BTree.Insert, Indexed, Keyed;
    var k := KeyOf(r.values, col);
    StrictRoot(s, root);
    KeyedStep(rows, col, id, r);
    if k.None? {
      AddKeepsIndexed(rows, col, s[root].es, s[root].es, id, r);
    } else {
      LeafInsert(s, root, k.value, id);
      var es' := Place(s[root].es, (k.value, id));
      PlaceAdds(s[root].es, (k.value, id));
      assert |es'| == |multiset(es')| == |s[root].es| + 1;
      AddKeepsIndexed(rows, col, s[root].es, es', id, r);
    }
  }

  lemma {:induction false} StrictRoot(s: Store, root: nat)
    requires Strict(s, root)
    ensures Shape(s, root) && root < |s|
  {
  }

  lemma {:induction false} BelowStep(rows: map<RowId, Row>, pos: nat, id: RowId)
    requires id in rows && pos <= id && Table.NoneIn(rows, pos, id)
    ensures Below(rows, id + 1) == Below(rows, pos)[id := rows[id]] && id !in Below(rows, pos)
  {
  }

  lemma {:induction false} KeyedBelow(rows: map<RowId, Row>, col: nat, pos: nat, id: RowId)
    requires id in rows && id >= pos && KeyOf(rows[id].values, col).Some?
    ensures |Keyed(Below(rows, pos), col)| + 1 <= |Keyed(rows, col)|
  {
    var part := Keyed(Below(rows, pos), col) + {id};
    assert part <= Keyed(rows, col);
    Subset(part, Keyed(rows, col));
  }

  lemma {:induction false} Subset(a: set<RowId>, b: set<RowId>)
    requires a <= b
    ensures |a| <= |b|
  {
    assert b == a + (b - a);
  }

  lemma {:induction false} NothingBuilt(s: Store, root: nat, rows: map<RowId, Row>, col: nat)
    requires root < |s| <= 0x7FFF_FFFF && s[root] == Leaf([], -1)
    ensures Built(s, root, Below(rows, 0), col)
  {
    EmptyTree(s, root);
    assert Below(rows, 0) == map[];
    assert Keyed(map[], col) == {};
  }

  /** insertIntoIndexLocked for one version of the scan. */
  method AddVersion(index: Index.IndexTree, ghost rows: map<RowId, Row>, col: nat, id: RowId, r: Row)
    requires index.Valid() && |index.pool.file| + 2 <= 0x7FFF_FFFF
             && Built(Index.Nodes(index.pool), index.root, rows, col)
    requires id !in rows && col < |r.values| && (r.values[col].Int? || r.values[col].Null?)
    requires KeyOf(r.values, col).Some? ==> |Keyed(rows, col)| + 1 < MAX_KEYS
    modifies index, index.pool, index.pool.pages.Values
    ensures index.Valid() && index.root == old(index.root) && |index.pool.file| == |old(index.pool.file)|
    ensures fresh(index.pool.pages.Values - old(index.pool.pages.Values))
    ensures Built(Index.Nodes(index.pool), index.root, rows[id := r], col)
    ensures forall p :: 0 <= p < |index.pool.file| && p != index.root ==>
              Index.Nodes(index.pool)[p] == old(Index.Nodes(index.pool))[p]
  {
    hide Built, Strict, BTree.Insert, Shape, Chained;
    BuildStep(Index.Nodes(index.pool), index.root, rows, col, id, r);
    if !r.values[col].Null? {
      var ok := index.Insert(r.values[col].i, id);
    }
  }

  /** CreateIndex: refused without effect for a column that has an index.  Otherwise a new root
      is registered, also for a column the table does not have, which is then reported; a known
      column is filled from all stored versions. */
  method CreateIndex(table: Table.Table, pool: Pool, schema: Schema, roots: map<string, nat>, column: string)
    returns (index: Option<Index.IndexTree>, roots': map<string, nat>, ok: bool)
    requires table.Valid() && |table.heap.pool.file| < 0x1_0000_0000_0000
    requires Settled(pool) && |pool.file| + 3 <= 0x7FFF_FFFF && Engine.Apart(table.heap.pool, pool)
    requires var col := ColumnIndex(schema, column);
             col >= 0 ==> IntColumn(table.rows, col) && |Keyed(table.rows, col)| < MAX_KEYS
    modifies pool, pool.pages.Values, table.heap.pool
    ensures table.Valid() && table.rows == old(table.rows) && Settled(pool)
    ensures ok <==> column !in roots && ColumnIndex(schema, column) >= 0
    ensures column in roots ==> index.None? && roots' == roots && Index.Nodes(pool) == old(Index.Nodes(pool))
    ensures column !in roots ==>
              && index.Some? && index.value.Valid() && index.value.pool == pool
              && index.value.root == |old(pool.file)| && roots' == roots[column := index.value.root]
              && Index.Nodes(pool)[..index.value.root] == old(Index.Nodes(pool))
              && Strict(Index.Nodes(pool), index.value.root)
              && var col, es := ColumnIndex(schema, column), Contents(Index.Nodes(pool), index.value.root);
                 if ok then Indexed(table.rows, col, es) else es == []
  {
    hide Built, Strict, BTree.Insert, Shape, Chained, Settled, Indexed, Table.Table.Valid, Index.Nodes, Contents;
    if column in roots {
      return None, roots, false;
    }
    var tree := new Index.IndexTree(pool);
    index, roots' := Some(tree), roots[column := tree.root];
    EmptyTree(Index.Nodes(pool), tree.root);
    var col := ColumnIndex(schema, column);
    if col < 0 {
      ok := false;
      return;
    }
    NothingBuilt(Index.Nodes(pool), tree.root, table.rows, col);
    var it := new Table.HeapIterator(table);
    Fill(table, tree, it, col);
    Finished(Index.Nodes(pool), tree.root, table.rows, col);
    ok := true;
  }

  lemma {:induction false} Finished(s: Store, root: nat, rows: map<RowId, Row>, col: nat)
    requires Built(s, root, rows, col)
    ensures Strict(s, root) && Indexed(rows, col, Contents(s, root))
  {
    LeafContents(s, root);
  }

  /** The scan over the stored versions, visible or not. */
  method Fill(table: Table.Table, index: Index.IndexTree, it: Table.HeapIterator, col: nat)
    requires it.Valid() && it.table == table && it.Pos() == 0
    requires index.Valid() && |index.pool.file| + 2 <= 0x7FFF_FFFF && Engine.Apart(table.heap.pool, index.pool)
    requires IntColumn(table.rows, col) && |Keyed(table.rows, col)| < MAX_KEYS
    requires Built(Index.Nodes(index.pool), index.root, Below(table.rows, 0), col)
    modifies index, index.pool, index.pool.pages.Values, it, table.heap.pool
    ensures table.Valid() && table.rows == old(table.rows)
    ensures index.Valid() && index.root == old(index.root) && |index.pool.file| == |old(index.pool.file)|
    ensures Built(Index.Nodes(index.pool), index.root, table.rows, col)
    ensures forall p :: 0 <= p < |index.pool.file| && p != index.root ==>
              Index.Nodes(index.pool)[p] == old(Index.Nodes(index.pool))[p]
  {
    hide Built, Strict, BTree.Insert, Shape, Chained, Settled, Indexed, Table.Table.Valid, Index.Nodes, Keyed, Below;
    while true
      invariant it.Valid() && it.table == table && table.rows == old(table.rows)
      invariant index.Valid() && index.root == old(index.root) && |index.pool.file| == |old(index.pool.file)|
      invariant Engine.Apart(table.heap.pool, index.pool)
      invariant fresh(index.pool.pages.Values - old(index.pool.pages.Values))
      invariant fresh(table.heap.pool.pages.Values - old(table.heap.pool.pages.Values))
      invariant Built(Index.Nodes(index.pool), index.root, Below(table.rows, it.Pos()), col)
      invariant forall p :: 0 <= p < |index.pool.file| && p != index.root ==>
                  Index.Nodes(index.pool)[p] == old(Index.Nodes(index.pool))[p]
      decreases 0x1_0000_0000_0000_0000 - it.Pos()
    {
      ghost var pos := it.Pos();
      var next := it.NextRow();
      if next.None? {
        AllBelow(table.rows, pos);
        return;
      }
      BelowStep(table.rows, pos, next.value.0);
      if KeyOf(next.value.1.values, col).Some? {
        KeyedBelow(table.rows, col, pos, next.value.0);
      }
      AddVersion(index, Below(table.rows, pos), col, next.value.0, next.value.1);
    }
  }

  lemma {:induction false} AllBelow(rows: map<RowId, Row>, pos: nat)
    requires forall id :: id in rows ==> id < pos
    ensures Below(rows, pos) == rows
  {
  }
}
