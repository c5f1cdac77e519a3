/** Query plans over the disk engine: an index seek fails for a key that is no INT as soon as the
    index is not empty, and that is exactly when a plan with indexes differs from the query. */
module DiskPlans {
  import opened Core
  import opened Sequences
  import opened Eval
  import opened Query
  import opened Joins
  import opened JoinPlans
  import opened SelectPlans
  import opened IndexAgreement
  import BTree
  import BTreeRuns
  import BTreeChain
  import Mvcc
  import HeapFile
  import Index
  import IndexSeek
  import Table
  import Engine

  type RowId = Mvcc.RowId

  /** The values of the given versions. */
  function RowsOf(rows: map<RowId, Row>, ids: seq<RowId>): (r: seq<Tuple>) {
    if ids == [] then [] else (if ids[0] in rows then [rows[ids[0]].values] else []) + RowsOf(rows, ids[1..])
  }

  /** The seek of transaction t.  For an INT it delivers the visible rows the index leads to.
      For any other key the first comparison fails: while the seek is opened, or in the first
      call of Next when the root is a leaf, which a join or a scan reports alike.  An empty
      index makes no comparison. */
  ghost function DiskSeek(x: Sys, t: Mvcc.TxId): (seek: SeekFn)
    requires BTree.Shape(x.store, x.root)
  {
    (key: Value) =>
      if key.Int? then
        Some(Outs(RowsOf(x.mvcc.rows, Filtered(x.mvcc, t, BTreeRuns.Seek(x.store, x.root, key.i)))))
      else if BTree.Contents(x.store, x.root) == [] then Some([])
      else None
  }

  /** The ids a scan of transaction t delivers. */
  ghost predicate Scanned(x: Sys, t: Mvcc.TxId, ids: seq<RowId>) {
    Ascending(ids) && forall id :: id in ids <==> id in Mvcc.VisibleRows(x.mvcc, t)
  }

  /** A table on disk: the engine state with an exact index on INT column col, and a scan of it. */
  datatype DiskTable = DiskTable(x: Sys, col: nat, ids: seq<RowId>)
  {
    ghost predicate Ready(t: Mvcc.TxId) {
      SysInv(x, col) && IntColumn(x.mvcc.rows, col) && Scanned(x, t, ids)
    }

    function Rows(): seq<Tuple> { RowsOf(x.mvcc.rows, ids) }

    /** The index holds no entry, of visible versions or others. */
    ghost predicate NoEntries()
      requires BTree.Shape(x.store, x.root)
    {
      BTree.Contents(x.store, x.root) == []
    }
  }

  // ---------------------------------------------------------------------
  // The seek against the scan
  // ---------------------------------------------------------------------

  lemma {:induction false} RowsConcat(rows: map<RowId, Row>, a: seq<RowId>, b: seq<RowId>)
    ensures RowsOf(rows, a + b) == RowsOf(rows, a) + RowsOf(rows, b)
  {
    if a == [] {
      assert a + b == b;
    } else {
      assert (a + b)[1..] == a[1..] + b;
      RowsConcat(rows, a[1..], b);
    }
  }

  lemma {:induction false} RowsBag(rows: map<RowId, Row>, a: seq<RowId>, b: seq<RowId>)
    requires multiset(a) == multiset(b)
    ensures multiset(RowsOf(rows, a)) == multiset(RowsOf(rows, b))
    decreases |a|
  {
    hide RowsOf;
    if a == [] {
      assert |multiset(b)| == 0;
      assert b == [];
    } else {
      assert a[0] in multiset(b);
      var i :| 0 <= i < |b| && b[i] == a[0];
      var one, x, y := [a[0]], b[..i], b[i + 1..];
      RemoveBoth(a, b, i);
      RowsBag(rows, a[1..], x + y);
      assert a == one + a[1..] && b == x + (one + y);
      RowsConcat(rows, one, a[1..]);
      RowsConcat(rows, x, one + y);
      RowsConcat(rows, one, y);
      RowsConcat(rows, x, y);
    }
  }

  /** Picking by id is filtering the rows. */
  lemma {:induction false} RowsWithKey(s: Mvcc.State, col: nat, k: Int64, ids: seq<RowId>)
    ensures RowsOf(s.rows, WithKey(s, col, k, ids)) == Filter(KeyTest(col, Int(k)), RowsOf(s.rows, ids))
  {
    if ids != [] {
      var id, tail := ids[0], ids[1..];
      RowsWithKey(s, col, k, tail);
      var head := if HasKey(s.rows, col, k, id) then [id] else [];
      RowsConcat(s.rows, head, WithKey(s, col, k, tail));
      var one := if id in s.rows then [s.rows[id].values] else [];
      FilterConcat(KeyTest(col, Int(k)), one, RowsOf(s.rows, tail));
      OneRow(s, col, k, id);
    }
  }

  lemma {:induction false} OneRow(s: Mvcc.State, col: nat, k: Int64, id: RowId)
    ensures var head := if HasKey(s.rows, col, k, id) then [id] else [];
            var one := if id in s.rows then [s.rows[id].values] else [];
            RowsOf(s.rows, head) == Filter(KeyTest(col, Int(k)), one)
  {
    if id in s.rows {
      var row := s.rows[id].values;
      assert [id][1..] == [] && [row][1..] == [];
      assert HasKey(s.rows, col, k, id) <==> KeyTest(col, Int(k))(row);
    }
  }

  /** The seek for an INT returns the scanned rows with that key, in some order. */
  lemma {:induction false} IntSeekFindsScanned(d: DiskTable, t: Mvcc.TxId, k: Int64)
    requires d.Ready(t)
    ensures multiset(RowsOf(d.x.mvcc.rows, Filtered(d.x.mvcc, t, BTreeRuns.Seek(d.x.store, d.x.root, k))))
            == multiset(Filter(KeyTest(d.col, Int(k)), d.Rows()))
  {
    hide Filtered, BTreeRuns.Seek, WithKey, RowsOf, Filter, SysInv, Ascending;
    var s := d.x.mvcc;
    InvariantMeansAgreement(d.x, d.col, t, k);
    SysInvShape(d.x, d.col);
    var a: seq<RowId>, b: seq<RowId> := Filtered(s, t, BTreeRuns.Seek(d.x.store, d.x.root, k)), WithKey(s, d.col, k,
      d.ids);
    var got, want := multiset(a), multiset(b);
    forall id: RowId ensures got[id] == want[id] {
      WithKeyCounts(s, d.col, k, d.ids, id);
      AscendingOnce(d.ids, id);
    }
    RowsBag(s.rows, a, b);
    RowsWithKey(s, d.col, k, d.ids);
  }

  lemma {:induction false} SysInvShape(x: Sys, col: nat)
    requires SysInv(x, col)
    ensures BTree.Shape(x.store, x.root)
  {
  }

  /** No row of an INT column equals another kind of key. */
  lemma {:induction false} OtherKeyFindsNothing(rows: map<RowId, Row>, col: nat, ids: seq<RowId>, key: Value)
    requires IntColumn(rows, col) && !key.Int?
    ensures Filter(KeyTest(col, key), RowsOf(rows, ids)) == []
  {
    if ids != [] {
      OtherKeyFindsNothing(rows, col, ids[1..], key);
      var one := if ids[0] in rows then [rows[ids[0]].values] else [];
      FilterConcat(KeyTest(col, key), one, RowsOf(rows, ids[1..]));
      if ids[0] in rows {
        assert [rows[ids[0]].values][1..] == [];
      }
    }
  }

  /** The seek succeeds exactly for INTs and on an empty index, and then it is exact. */
  lemma {:induction false} DiskSeekIs(d: DiskTable, t: Mvcc.TxId, key: Value)
    requires d.Ready(t) && BTree.Shape(d.x.store, d.x.root)
    ensures var seek := DiskSeek(d.x, t);
            && (Succeeds(seek, key) <==> key.Int? || d.NoEntries())
            && (Succeeds(seek, key) ==>
                  && seek(key).value == Outs(RowsBefore(seek(key).value))
                  && multiset(RowsBefore(seek(key).value)) == multiset(Filter(KeyTest(d.col, key), d.Rows())))
  {
    hide Filtered, BTreeRuns.Seek, RowsOf, Filter, SysInv, FirstError, RowsBefore, BTree.Contents;
    if key.Int? {
      NoErrors(RowsOf(d.x.mvcc.rows, Filtered(d.x.mvcc, t, BTreeRuns.Seek(d.x.store, d.x.root, key.i))));
      IntSeekFindsScanned(d, t, key.i);
    } else {
      NoErrors([]);
      OtherKeyFindsNothing(d.x.mvcc.rows, d.col, d.ids, key);
      assert Outs([]) == [];
    }
  }

  // ---------------------------------------------------------------------
  // The seek as the engine runs it
  // ---------------------------------------------------------------------

  /** The rows of the given ids, fetched one by one. */
  method FetchRows(e: Engine.Engine, ids: seq<RowId>, ghost m: Sys) returns (rows: seq<Tuple>)
    requires e.Valid() && e.Model() == m
    modifies e.table.heap.pool
    ensures e.Valid() && e.Model() == m && rows == RowsOf(m.mvcc.rows, ids)
  {
    hide Index.Nodes, HeapFile.Settled, BTree.Shape, BTreeChain.Chained, Table.Table.Valid, Mvcc.Inv;
    rows := [];
    assert ids[..0] == [];
    for i := 0 to |ids|
      invariant e.Valid() && e.Model() == m && rows == RowsOf(m.mvcc.rows, ids[..i])
      invariant fresh(e.table.heap.pool.pages.Values - old(e.table.heap.pool.pages.Values))
    {
      var r := e.table.Read(ids[i]);
      RowsConcat(m.mvcc.rows, ids[..i], [ids[i]]);
      assert ids[..i + 1] == ids[..i] + [ids[i]];
      assert [ids[i]][1..] == [];
      if r.Some? {
        rows := rows + [r.value.values];
      }
    }
    assert ids[..|ids|] == ids;
  }

  /** A drained seek on pages, for any key, is the seek of the theorems below. */
  method SeekRows(e: Engine.Engine, t: Mvcc.TxId, key: Value) returns (found: Option<seq<Tuple>>)
    requires e.Valid() && SysInv(e.Model(), e.col)
    modifies e.index.pool, e.table.heap.pool
    ensures e.Valid() && e.Model() == old(e.Model()) && BTree.Shape(e.Model().store, e.Model().root)
    ensures DiskSeek(e.Model(), t)(key) == if found.Some? then Some(Outs(found.value)) else None
  {
    hide Index.Nodes, HeapFile.Settled, BTree.Shape, BTreeChain.Chained, Table.Table.Valid, Mvcc.Inv, BTreeRuns.Seek;
    hide BTreeChain.SeekAlong, Filtered, SysInv, BTree.Contents, RowsOf;
    ghost var m := e.Model();
    SysInvShape(m, e.col);
    if !key.Int? {
      var failed := IndexSeek.SeekIncomparable(e.index, key);
      assert Outs([]) == [];
      return if failed then None else Some([]);
    }
    var ids := Engine.SeekAll(e, t, key.i);
    SysInvAlong(m, e.col, e.index.order, key.i);
    var rows := FetchRows(e, ids, m);
    found := Some(rows);
  }

  lemma {:induction false} SysInvAlong(x: Sys, col: nat, order: seq<UInt64>, k: Int64)
    requires SysInv(x, col) && BTreeChain.Chained(x.store, x.root, order)
    ensures BTreeChain.SeekAlong(x.store, x.root, order, k) == BTreeRuns.Seek(x.store, x.root, k)
  {
    hide BTreeChain.SeekAlong, BTreeRuns.Seek, BTreeChain.Chained;
    BTreeChain.AlongIsSeek(x.store, x.root, order, k);
  }

  // ---------------------------------------------------------------------
  // One join
  // ---------------------------------------------------------------------

  /** The right side of the join is the table: its rows, and its indexed column. */
  ghost predicate Matches(site: Site, d: DiskTable, t: Mvcc.TxId) {
    d.Ready(t) && BTree.Shape(d.x.store, d.x.root)
    && (site.Columns().Some? ==> ColumnIndex(site.right, site.Columns().value.1) == d.col)
  }

  /** What a caller can check: the index is empty, or all left keys are INTs. */
  ghost predicate KeysFit(site: Site, d: DiskTable, ls: seq<Tuple>)
    requires site.Columns().Some? && (forall l :: l in ls ==> |l| == |site.left|) && BTree.Shape(d.x.store, d.x.root)
  {
    d.NoEntries() || forall l :: l in ls ==> site.Key(l).Int?
  }

  lemma {:induction false} DiskIsBagSeek(site: Site, d: DiskTable, t: Mvcc.TxId, ls: seq<Tuple>)
    requires site.Columns().Some? && Matches(site, d, t) && forall l :: l in ls ==> |l| == |site.left|
    ensures BagSeek(site, DiskSeek(d.x, t), ls, d.Rows())
    ensures (forall l :: l in ls ==> Succeeds(DiskSeek(d.x, t), site.Key(l))) <==> KeysFit(site, d, ls)
  {
    hide DiskSeek, FirstError, DiskTable.Ready, DiskTable.NoEntries, Filter, RowsBefore;
    forall l | l in ls
      ensures Succeeds(DiskSeek(d.x, t), site.Key(l)) <==> site.Key(l).Int? || d.NoEntries()
      ensures Succeeds(DiskSeek(d.x, t), site.Key(l)) ==>
                multiset(RowsBefore(DiskSeek(d.x, t)(site.Key(l)).value))
                  == multiset(Filter(site.Test(site.Key(l)), d.Rows()))
    {
      DiskSeekIs(d, t, site.Key(l));
    }
  }

  /** On disk the indexed join gives the bag of rows of the plain one if and only if the index
      is empty or every left key is an INT. */
  lemma {:induction false} DiskJoinIff(site: Site, d: DiskTable, t: Mvcc.TxId, ls: seq<Tuple>)
    requires site.Resolves() && Matches(site, d, t) && site.ErrorFree(ls, d.Rows())
    ensures multiset(site.Indexed(ls, DiskSeek(d.x, t))) == multiset(site.Plain(ls, d.Rows())) <==> KeysFit(site, d, ls)
  {
    hide DiskSeek, Succeeds, Matches, BagSeek, Site.Indexed, Site.Plain, KeysFit;
    assert BTree.Shape(d.x.store, d.x.root) by { MatchesShape(site, d, t); }
    DiskIsBagSeek(site, d, t, ls);
    IndexedJoinBagIff(site, DiskSeek(d.x, t), ls, d.Rows());
  }

  lemma {:induction false} MatchesShape(site: Site, d: DiskTable, t: Mvcc.TxId)
    requires Matches(site, d, t)
    ensures BTree.Shape(d.x.store, d.x.root)
  {
  }

  /** An instance: a left row whose key is NULL, over any index that is not empty.  The plain
      join skips the row, the indexed one reports an error. */
  lemma {:induction false} NullKeyFails(site: Site, d: DiskTable, t: Mvcc.TxId, l: Tuple)
    requires site.Resolves() && Matches(site, d, t) && site.ErrorFree([l], d.Rows())
    requires |l| == |site.left| && site.Key(l).Null? && !d.NoEntries()
    ensures site.Plain([l], d.Rows()) == [] && site.Indexed([l], DiskSeek(d.x, t)) == [Error]
  {
    hide Site.Plain, Site.Indexed, DiskSeek, DiskTable.NoEntries, Filter, EvalWhere;
    NullIsSkipped(site, d, l);
    NullIsReported(site, d, t, l);
  }

  lemma {:induction false} NullIsSkipped(site: Site, d: DiskTable, l: Tuple)
    requires site.Resolves() && site.ErrorFree([l], d.Rows()) && IntColumn(d.x.mvcc.rows, d.col)
    requires ColumnIndex(site.right, site.Columns().value.1) == d.col
    requires |l| == |site.left| && !site.Key(l).Int?
    ensures site.Plain([l], d.Rows()) == []
  {
    hide Filter, EvalWhere, JoinItems, True, JoinOne;
    var ls, s, rs := [l], site.Schema(), d.Rows();
    ItemsAreJoin(ls, rs, site.on, s);
    MatchesPassTest(site, l, rs);
    OtherKeyFindsNothing(d.x.mvcc.rows, d.col, d.ids, site.Key(l));
    JoinNothing(l, site.on, s);
    assert ls[1..] == [];
    assert Join(ls, rs, site.on, s) == JoinOne(l, rs, site.on, s) + Join(ls[1..], rs, site.on, s);
    assert Join([], rs, site.on, s) == [];
  }

  lemma {:induction false} JoinNothing(l: Tuple, on: Expr, schema: Schema)
    ensures JoinOne(l, [], on, schema) == []
  {
  }

  lemma {:induction false} NullIsReported(site: Site, d: DiskTable, t: Mvcc.TxId, l: Tuple)
    requires site.Columns().Some? && BTree.Shape(d.x.store, d.x.root)
    requires |l| == |site.left| && !site.Key(l).Int? && !d.NoEntries()
    ensures site.Indexed([l], DiskSeek(d.x, t)) == [Error]
  {
    assert [l][1..] == [];
    IndexedStep(site, [l], DiskSeek(d.x, t));
    NoneIndexed(site, DiskSeek(d.x, t));
    hide Site.Indexed;
    assert DiskSeek(d.x, t)(site.Key(l)).None?;
    assert site.Probed(l, DiskSeek(d.x, t)) == [Error];
  }

  // ---------------------------------------------------------------------
  // The whole plan
  // ---------------------------------------------------------------------

  /** A joined table with one indexed column. */
  datatype DiskStep = DiskStep(table: string, schema: Schema, column: string, on: Expr, d: DiskTable)

  ghost function StepOf(j: DiskStep, t: Mvcc.TxId): JoinStep
    requires BTree.Shape(j.d.x.store, j.d.x.root)
  {
    JoinStep(j.table, j.schema, (c: string) => c == j.column, j.on, j.d.Rows(), (c: string) => DiskSeek(j.d.x, t))
  }

  ghost predicate Shaped(js: seq<DiskStep>) {
    forall i :: 0 <= i < |js| ==> BTree.Shape(js[i].d.x.store, js[i].d.x.root)
  }

  ghost function StepsOf(js: seq<DiskStep>, t: Mvcc.TxId): (r: seq<JoinStep>)
    requires Shaped(js)
    ensures |r| == |js| && forall i :: 0 <= i < |js| ==> r[i] == StepOf(js[i], t)
  {
    if js == [] then [] else [StepOf(js[0], t)] + StepsOf(js[1..], t)
  }

  /** The joined tables are what the engine holds, indexed on the named column. */
  ghost predicate DiskFits(js: seq<DiskStep>, t: Mvcc.TxId) {
    forall i :: 0 <= i < |js| ==> js[i].d.Ready(t) && ColumnIndex(js[i].schema, js[i].column) == js[i].d.col
  }

  /** Along the joins of these left rows, every key that probes an index is an INT, or the index
      is empty. */
  ghost predicate KeysFitAll(ls: seq<Tuple>, schema: Schema, js: seq<DiskStep>, t: Mvcc.TxId)
    requires Shaped(js) && ChainFits(ls, schema, StepsOf(js, t))
    decreases |js|
  {
    js != [] ==>
      var j, site := js[0], SiteOf(schema, StepOf(js[0], t));
      && (site.Columns().Some? ==> KeysFit(site, j.d, ls))
      && (assert StepsOf(js, t)[1..] == StepsOf(js[1..], t);
          KeysFitAll(Join(ls, j.d.Rows(), j.on, schema + j.schema), schema + j.schema, js[1..], t))
  }

  lemma {:induction false} StepMatches(schema: Schema, j: DiskStep, t: Mvcc.TxId)
    requires BTree.Shape(j.d.x.store, j.d.x.root) && j.d.Ready(t) && ColumnIndex(j.schema, j.column) == j.d.col
    ensures Matches(SiteOf(schema, StepOf(j, t)), j.d, t)
  {
  }

  lemma {:induction false} StepsTail(js: seq<DiskStep>, t: Mvcc.TxId)
    requires Shaped(js) && js != []
    ensures StepsOf(js, t)[0] == StepOf(js[0], t) && Shaped(js[1..]) && StepsOf(js, t)[1..] == StepsOf(js[1..], t)
    ensures DiskFits(js, t) ==> DiskFits(js[1..], t)
  {
    assert forall i :: 0 <= i < |js[1..]| ==> js[1..][i] == js[i + 1];
  }

  /** With fitting keys one join on disk has an exact seek. */
  lemma {:induction false} DiskStepBag(ls: seq<Tuple>, schema: Schema, j: DiskStep, t: Mvcc.TxId)
    requires BTree.Shape(j.d.x.store, j.d.x.root) && j.d.Ready(t) && ColumnIndex(j.schema, j.column) == j.d.col
    requires StepFits(ls, schema, StepOf(j, t))
    requires var site := SiteOf(schema, StepOf(j, t)); site.Columns().Some? ==> KeysFit(site, j.d, ls)
    ensures StepBag(ls, schema, StepOf(j, t))
  {
    hide DiskSeek, Succeeds, BagSeek, KeysFit, Matches, DiskTable.Ready, Site.Resolves;
    var site := SiteOf(schema, StepOf(j, t));
    StepMatches(schema, j, t);
    if site.Columns().Some? {
      DiskIsBagSeek(site, j.d, t, ls);
    }
  }

  lemma {:induction false} DiskChainBag(ls: seq<Tuple>, schema: Schema, js: seq<DiskStep>, t: Mvcc.TxId)
    requires Shaped(js) && DiskFits(js, t) && ChainFits(ls, schema, StepsOf(js, t)) && KeysFitAll(ls, schema, js, t)
    ensures ChainBag(ls, schema, StepsOf(js, t))
    decreases |js|
  {
    hide Join, StepFits, StepBag, KeysFit, DiskTable.Ready;
    if js != [] {
      StepsTail(js, t);
      DiskStepBag(ls, schema, js[0], t);
      DiskChainBag(Join(ls, js[0].d.Rows(), js[0].on, schema + js[0].schema), schema + js[0].schema, js[1..], t);
    }
  }

  // ----- errors reach the top -----

  lemma {:induction false} ErrorInProbes(left: seq<Item>, seek: SeekFn, c: string, ls: Schema, on: Expr, schema: Schema)
    requires Error in left
    ensures Error in AllProbes(left, seek, c, ls, on, schema)
  {
    hide Probe;
    if left[0].Out? {
      ErrorInProbes(left[1..], seek, c, ls, on, schema);
    }
  }

  lemma {:induction false} ErrorInPairs(left: seq<Item>, right: seq<Tuple>, on: Expr, schema: Schema)
    requires Error in left
    ensures Error in AllPairs(left, right, on, schema)
  {
    hide PairsOf;
    if left[0].Out? {
      ErrorInPairs(left[1..], right, on, schema);
    }
  }

  lemma {:induction false} ErrorInChain(left: seq<Item>, schema: Schema, js: seq<JoinStep>)
    requires Error in left
    ensures Error in ChainItems(left, schema, js)
    decreases |js|
  {
    if js != [] {
      var j, s, c := js[0], schema + js[0].schema, SiteOf(schema, js[0]).Columns();
      hide AllPairs, AllProbes, Site.Columns;
      if c.Some? {
        ErrorInProbes(left, j.seek(c.value.1), c.value.0, schema, j.on, s);
      } else {
        NoErrors(j.rows);
        ErrorInPairs(left, j.rows, j.on, s);
      }
      ErrorInChain(StepItems(left, schema, j), s, js[1..]);
    }
  }

  lemma {:induction false} ErrorInFilter(e: Option<Expr>, items: seq<Item>, schema: Schema)
    requires Error in items
    ensures Error in FilterItems(e, items, schema)
  {
    hide EvalWhere;
    if items[0].Out? {
      ErrorInFilter(e, items[1..], schema);
    }
  }

  /** One join with a key that does not fit reports an error. */
  lemma {:induction false} DiskStepFails(ls: seq<Tuple>, found: seq<Tuple>, schema: Schema, j: DiskStep, t: Mvcc.TxId)
    requires BTree.Shape(j.d.x.store, j.d.x.root) && j.d.Ready(t) && ColumnIndex(j.schema, j.column) == j.d.col
    requires StepFits(ls, schema, StepOf(j, t)) && multiset(found) == multiset(ls)
    requires var site := SiteOf(schema, StepOf(j, t)); site.Columns().Some? && !KeysFit(site, j.d, ls)
    ensures Error in StepItems(Outs(found), schema, StepOf(j, t))
  {
    hide DiskSeek, Succeeds, BagSeek, Matches, DiskTable.Ready, AllProbes, DiskTable.NoEntries, EvalWhere;
    var site := SiteOf(schema, StepOf(j, t));
    StepMatches(schema, j, t);
    BagMembers(found, ls);
    BagMembers(ls, found);
    assert !KeysFit(site, j.d, found);
    DiskIsBagSeek(site, j.d, t, found);
    IndexedBag(site, DiskSeek(j.d.x, t), found, j.d.Rows());
  }

  lemma {:induction false} DiskChainFails(ls: seq<Tuple>, found: seq<Tuple>, schema: Schema, js: seq<DiskStep>,
                                          t: Mvcc.TxId)
    requires Shaped(js) && DiskFits(js, t) && ChainFits(ls, schema, StepsOf(js, t)) && !KeysFitAll(ls, schema, js, t)
    requires multiset(found) == multiset(ls)
    ensures Error in ChainItems(Outs(found), schema, StepsOf(js, t))
    decreases |js|
  {
    hide Join, StepItems, StepFits, KeysFit, DiskTable.Ready, StepOf, Site.Columns, StepBag;
    var j, s := js[0], schema + js[0].schema;
    StepsTail(js, t);
    var site := SiteOf(schema, StepOf(j, t));
    StepFacts(schema, j, t);
    assert StepFits(ls, schema, StepOf(j, t));
    SiteWidths(ls, schema, j, t);
    if site.Columns().Some? && !KeysFit(site, j.d, ls) {
      DiskStepFails(ls, found, schema, j, t);
      ErrorInChain(StepItems(Outs(found), schema, StepOf(j, t)), s, StepsOf(js[1..], t));
    } else {
      var want, items := Join(ls, j.d.Rows(), j.on, s), StepItems(Outs(found), schema, StepOf(j, t));
      BagMembers(found, ls);
      DiskStepBag(ls, schema, j, t);
      StepBagMembers(found, ls, schema, StepOf(j, t));
      StepIsJoinBag(found, schema, StepOf(j, t));
      BagIsRows(items, Join(found, j.d.Rows(), j.on, s));
      JoinBag(found, ls, j.d.Rows(), j.on, s);
      DiskChainFails(want, RowsBefore(items), s, js[1..], t);
    }
  }

  lemma {:induction false} StepFacts(schema: Schema, j: DiskStep, t: Mvcc.TxId)
    requires BTree.Shape(j.d.x.store, j.d.x.root)
    ensures var k := StepOf(j, t); k.rows == j.d.Rows() && k.on == j.on && k.schema == j.schema
  {
  }

  lemma {:induction false} SiteWidths(ls: seq<Tuple>, schema: Schema, j: DiskStep, t: Mvcc.TxId)
    requires BTree.Shape(j.d.x.store, j.d.x.root) && StepFits(ls, schema, StepOf(j, t))
    ensures forall l :: l in ls ==> |l| == |SiteOf(schema, StepOf(j, t)).left|
  {
  }

  lemma {:induction false} StepBagMembers(found: seq<Tuple>, ls: seq<Tuple>, schema: Schema, j: JoinStep)
    requires StepBag(ls, schema, j) && forall l :: l in found ==> l in ls
    ensures StepBag(found, schema, j)
  {
    hide EvalWhere, Succeeds, Filter;
  }

  // ----- the base access path -----

  /** The items of the base access path; an index scan that cannot be opened is an error. */
  ghost function BaseItems(d: DiskTable, t: Mvcc.TxId, a: Access): (items: seq<Item>)
    requires BTree.Shape(d.x.store, d.x.root)
  {
    if a.FullScan? then Outs(d.Rows())
    else
      var found := DiskSeek(d.x, t)(a.key);
      if found.None? then [Error] else found.value
  }

  /** The literal is an INT, or the index is empty, or no index is used. */
  ghost predicate BaseFits(d: DiskTable, a: Access)
    requires BTree.Shape(d.x.store, d.x.root)
  {
    a.FullScan? || a.key.Int? || d.NoEntries()
  }

  lemma {:induction false} BaseIs(d: DiskTable, t: Mvcc.TxId, a: Access, schema: Schema)
    requires d.Ready(t) && BTree.Shape(d.x.store, d.x.root)
    requires a.IndexScan? ==> ColumnIndex(schema, a.column) == d.col
    ensures !BaseFits(d, a) ==> BaseItems(d, t, a) == [Error]
    ensures BaseFits(d, a) ==>
              var found := RowsBefore(BaseItems(d, t, a));
              BaseItems(d, t, a) == Outs(found) && multiset(found) == multiset(BaseRows(a, d.Rows(), schema))
  {
    hide RowsBefore, Filter, DiskTable.Ready, FirstError;
    if a.FullScan? {
      NoErrors(d.Rows());
    } else {
      DiskSeekIs(d, t, a.key);
    }
  }

  /** A SELECT over tables on disk, with an index on the base table and on each joined one, for
      ON conditions that evaluate without error and clean WHERE terms: the plan delivers the bag
      of rows of scan, join and filter, without error, if and only if the literal of the base
      path is an INT or that index is empty, and along the joins every key that probes an index
      is an INT or that index is empty. */
  lemma {:induction false} DiskPlanIff(hasIndex: string -> bool, table: string, schema: Schema, filter: Option<Expr>,
                                       a: Access, rest: Option<Expr>, d: DiskTable, js: seq<DiskStep>, t: Mvcc.TxId)
    requires Planned(hasIndex, table, schema, filter, a, rest) && Wide(d.Rows(), |schema|)
    requires d.Ready(t) && BTree.Shape(d.x.store, d.x.root)
    requires a.IndexScan? ==> ColumnIndex(schema, a.column) == d.col
    requires Shaped(js) && DiskFits(js, t) && ChainFits(d.Rows(), schema, StepsOf(js, t))
    requires var joins := Inputs(StepsOf(js, t));
             CleanOn(filter, JoinAll(d.Rows(), schema, joins), FinalSchema(schema, joins))
    ensures ChainFits(BaseRows(a, d.Rows(), schema), schema, StepsOf(js, t))
    ensures var joins := Inputs(StepsOf(js, t));
            multiset(PlanItems(BaseItems(d, t, a), schema, StepsOf(js, t), rest))
            == multiset(Outs(Where(filter, JoinAll(d.Rows(), schema, joins), FinalSchema(schema, joins))))
            <==> BaseFits(d, a) && KeysFitAll(BaseRows(a, d.Rows(), schema), schema, js, t)
  {
    hide Planned, Wide, CleanOn, ChainFits, DiskTable.Ready, BaseItems, BaseFits, KeysFitAll, ChainItems, FilterItems;
    hide Where, JoinAll, RowsBefore, DiskFits, Shaped, ChainBag, BaseRows;
    var base, steps := BaseRows(a, d.Rows(), schema), StepsOf(js, t);
    PlannedColumn(hasIndex, table, schema, filter, a, rest);
    BaseSubset(a, d.Rows(), schema);
    ChainFitsSubset(base, d.Rows(), schema, steps);
    BaseIs(d, t, a, schema);
    var items, found := BaseItems(d, t, a), RowsBefore(BaseItems(d, t, a));
    if BaseFits(d, a) && KeysFitAll(base, schema, js, t) {
      DiskChainBag(base, schema, js, t);
      PlanIsQueryBag(hasIndex, table, schema, filter, a, rest, found, d.Rows(), steps);
    } else {
      if BaseFits(d, a) {
        DiskChainFails(base, found, schema, js, t);
      } else {
        ErrorInChain(items, schema, steps);
      }
      var s, joins := FinalSchema(schema, Inputs(steps)), Inputs(steps);
      ErrorInFilter(rest, ChainItems(items, schema, steps), s);
      BagDiffers(PlanItems(items, schema, steps, rest), Where(filter, JoinAll(d.Rows(), schema, joins), s));
    }
  }

  lemma {:induction false} BagDiffers(items: seq<Item>, rows: seq<Tuple>)
    requires Error in items
    ensures multiset(items) != multiset(Outs(rows))
  {
    OutsCount(rows, Error);
    assert Error in multiset(items);
  }

  /** An instance: a literal that is no INT, over a table whose rows are all deleted or not yet
      visible.  The query has no rows, whatever it joins, and the plan reports an error. */
  lemma {:induction false} OtherLiteralFails(schema: Schema, filter: Option<Expr>, a: Access, rest: Option<Expr>,
                                             d: DiskTable, js: seq<JoinStep>, t: Mvcc.TxId)
    requires BTree.Shape(d.x.store, d.x.root) && a.IndexScan? && !a.key.Int? && !d.NoEntries() && d.Rows() == []
    ensures Where(filter, JoinAll(d.Rows(), schema, Inputs(js)), FinalSchema(schema, Inputs(js))) == []
    ensures Error in PlanItems(BaseItems(d, t, a), schema, js, rest)
  {
    hide ChainItems, FilterItems;
    JoinAllNothing(schema, Inputs(js));
    ErrorInChain([Error], schema, js);
    ErrorInFilter(rest, ChainItems([Error], schema, js), FinalSchema(schema, Inputs(js)));
  }

  lemma {:induction false} JoinAllNothing(schema: Schema, joins: seq<JoinInput>)
    ensures JoinAll([], schema, joins) == []
    decreases |joins|
  {
    if joins != [] {
      assert Join([], joins[0].rows, joins[0].on, schema + joins[0].schema) == [];
      JoinAllNothing(schema + joins[0].schema, joins[1..]);
    }
  }
}
