/** buildSelectPlan as a whole: the base access path, a chain of plain or indexed joins and the
    remaining filter give what scanning, joining and filtering gives. */
module SelectPlans {
  import opened Core
  import opened Eval
  import opened Query
  import opened Joins
  import opened JoinPlans

  /** One join of the statement, with the rows a scan of its table returns and the seek on each
      of its indexes. */
  datatype JoinStep = JoinStep(table: string, schema: Schema, hasIndex: string -> bool, on: Expr, rows: seq<Tuple>,
                               seek: string -> SeekFn)

  function SiteOf(left: Schema, j: JoinStep): Site {
    Site(left, j.schema, j.table, j.hasIndex, j.on)
  }

  function Inputs(js: seq<JoinStep>): (r: seq<JoinInput>)
    ensures |r| == |js| && forall i :: 0 <= i < |js| ==> r[i] == JoinInput(js[i].rows, js[i].schema, js[i].on)
  {
    seq(|js|, i requires 0 <= i < |js| => JoinInput(js[i].rows, js[i].schema, js[i].on))
  }

  /** buildJoinPlan: the indexed join where ON equates a left column with an indexed one. */
  function StepItems(left: seq<Item>, schema: Schema, j: JoinStep): (items: seq<Item>) {
    var c := SiteOf(schema, j).Columns();
    if c.Some? then AllProbes(left, j.seek(c.value.1), c.value.0, schema, j.on, schema + j.schema)
    else JoinItems(left, Outs(j.rows), j.on, schema + j.schema)
  }

  function ChainItems(left: seq<Item>, schema: Schema, js: seq<JoinStep>): (items: seq<Item>)
    decreases |js|
  {
    if js == [] then left else ChainItems(StepItems(left, schema, js[0]), schema + js[0].schema, js[1..])
  }

  /** FilterOp over the items of its child. */
  function FilterItems(e: Option<Expr>, items: seq<Item>, schema: Schema): (r: seq<Item>) {
    if items == [] then []
    else
      var w := if items[0].Error? then None else EvalWhere(e, items[0].row, schema);
      (if w.None? then [Error] else if w.value then [items[0]] else []) + FilterItems(e, items[1..], schema)
  }

  function PlanItems(base: seq<Item>, schema: Schema, js: seq<JoinStep>, rest: Option<Expr>): (items: seq<Item>) {
    FilterItems(rest, ChainItems(base, schema, js), FinalSchema(schema, Inputs(js)))
  }

  // ---------------------------------------------------------------------
  // What the plan needs
  // ---------------------------------------------------------------------

  /** ON evaluates without error on the rows that meet, and an indexed column resolves. */
  ghost predicate StepFits(ls: seq<Tuple>, schema: Schema, j: JoinStep) {
    var site := SiteOf(schema, j);
    site.ErrorFree(ls, j.rows) && (site.Columns().Some? ==> site.Resolves())
  }

  /** The seek returns the matching rows in scan order. */
  ghost predicate StepExact(ls: seq<Tuple>, schema: Schema, j: JoinStep) {
    var site := SiteOf(schema, j);
    && StepFits(ls, schema, j)
    && (site.Columns().Some? ==> ExactSeek(site, j.seek(site.Columns().value.1), ls, j.rows))
  }

  /** The seek succeeds on the keys that occur and returns the matching rows in some order. */
  ghost predicate StepBag(ls: seq<Tuple>, schema: Schema, j: JoinStep) {
    var site := SiteOf(schema, j);
    && StepFits(ls, schema, j)
    && (site.Columns().Some? ==>
          var seek := j.seek(site.Columns().value.1);
          BagSeek(site, seek, ls, j.rows) && forall l :: l in ls ==> Succeeds(seek, site.Key(l)))
  }

  ghost predicate ChainExact(ls: seq<Tuple>, schema: Schema, js: seq<JoinStep>)
    decreases |js|
  {
    js != [] ==>
      && StepExact(ls, schema, js[0])
      && ChainExact(Join(ls, js[0].rows, js[0].on, schema + js[0].schema), schema + js[0].schema, js[1..])
  }

  ghost predicate ChainBag(ls: seq<Tuple>, schema: Schema, js: seq<JoinStep>)
    decreases |js|
  {
    js != [] ==>
      && StepBag(ls, schema, js[0])
      && ChainBag(Join(ls, js[0].rows, js[0].on, schema + js[0].schema), schema + js[0].schema, js[1..])
  }

  /** What findIndexedEquality and buildBaseAccessPath chose. */
  ghost predicate Planned(hasIndex: string -> bool, table: string, schema: Schema, filter: Option<Expr>, a: Access,
                          rest: Option<Expr>) {
    match a
    case FullScan => rest == filter
    case IndexScan(term, column, _) =>
      && filter.Some? && Chosen(hasIndex, table, filter.value, a) && ColumnIndex(schema, column) >= 0
      && rest == Combine(Split(filter.value)[..term] + Split(filter.value)[term + 1..])
  }

  /** The rows the base access path must deliver. */
  function BaseRows(a: Access, rows: seq<Tuple>, schema: Schema): (r: seq<Tuple>)
    requires a.IndexScan? ==> ColumnIndex(schema, a.column) >= 0
  {
    if a.FullScan? then rows else Filter(KeyTest(ColumnIndex(schema, a.column), a.key), rows)
  }

  /** The terms of WHERE are clean on the rows of the join. */
  ghost predicate CleanOn(filter: Option<Expr>, rows: seq<Tuple>, schema: Schema) {
    filter.Some? ==> forall i :: 0 <= i < |rows| ==> AllClean(Split(filter.value), rows[i], schema)
  }

  // ---------------------------------------------------------------------
  // Fewer rows
  // ---------------------------------------------------------------------

  lemma {:induction false} JoinOneIn(l: Tuple, left: seq<Tuple>, right: seq<Tuple>, on: Expr, schema: Schema)
    requires l in left
    ensures forall z :: z in JoinOne(l, right, on, schema) ==> z in Join(left, right, on, schema)
  {
    hide JoinOne;
    if left[0] != l {
      JoinOneIn(l, left[1..], right, on, schema);
    }
  }

  /** Joining fewer left rows gives fewer rows. */
  lemma {:induction false} JoinSubset(a: seq<Tuple>, b: seq<Tuple>, right: seq<Tuple>, on: Expr, schema: Schema)
    requires forall l :: l in a ==> l in b
    ensures forall z :: z in Join(a, right, on, schema) ==> z in Join(b, right, on, schema)
  {
    hide JoinOne;
    if a != [] {
      assert a[0] in a;
      JoinOneIn(a[0], b, right, on, schema);
      JoinSubset(a[1..], b, right, on, schema);
    }
  }

  lemma {:induction false} ChainBagSubset(a: seq<Tuple>, b: seq<Tuple>, schema: Schema, js: seq<JoinStep>)
    requires ChainBag(b, schema, js) && forall l :: l in a ==> l in b
    ensures ChainBag(a, schema, js)
    decreases |js|
  {
    hide Join, EvalWhere, Filter;
    if js != [] {
      var s := schema + js[0].schema;
      JoinSubset(a, b, js[0].rows, js[0].on, s);
      ChainBagSubset(Join(a, js[0].rows, js[0].on, s), Join(b, js[0].rows, js[0].on, s), s, js[1..]);
    }
  }

  // ---------------------------------------------------------------------
  // The chain of joins
  // ---------------------------------------------------------------------

  lemma {:induction false} InputsStep(ls: seq<Tuple>, schema: Schema, js: seq<JoinStep>)
    requires js != []
    ensures var s := schema + js[0].schema;
            && JoinAll(ls, schema, Inputs(js)) == JoinAll(Join(ls, js[0].rows, js[0].on, s), s, Inputs(js[1..]))
            && FinalSchema(schema, Inputs(js)) == FinalSchema(s, Inputs(js[1..]))
  {
    assert Inputs(js)[1..] == Inputs(js[1..]);
  }

  lemma {:induction false} StepIsJoin(ls: seq<Tuple>, schema: Schema, j: JoinStep)
    requires StepExact(ls, schema, j)
    ensures StepItems(Outs(ls), schema, j) == Outs(Join(ls, j.rows, j.on, schema + j.schema))
  {
    hide Join, AllProbes, JoinItems, EvalWhere;
    var site := SiteOf(schema, j);
    if site.Columns().Some? {
      IndexedIsJoin(site, j.seek(site.Columns().value.1), ls, j.rows);
    } else {
      ItemsAreJoin(ls, j.rows, j.on, schema + j.schema);
    }
  }

  lemma {:induction false} ChainIsJoinAll(ls: seq<Tuple>, schema: Schema, js: seq<JoinStep>)
    requires ChainExact(ls, schema, js)
    ensures ChainItems(Outs(ls), schema, js) == Outs(JoinAll(ls, schema, Inputs(js)))
    decreases |js|
  {
    hide Join, StepItems, StepExact;
    if js != [] {
      var s := schema + js[0].schema;
      StepIsJoin(ls, schema, js[0]);
      ChainIsJoinAll(Join(ls, js[0].rows, js[0].on, s), s, js[1..]);
      InputsStep(ls, schema, js);
    }
  }

  lemma {:induction false} ErrorIsThere(items: seq<Item>)
    ensures FirstError(items) < |items| ==> Error in multiset(items)
  {
    if FirstError(items) < |items| {
      assert items[FirstError(items)] == Error;
    }
  }

  /** Items with the bag of a list of rows are rows. */
  lemma {:induction false} BagIsRows(items: seq<Item>, rows: seq<Tuple>)
    requires multiset(items) == multiset(Outs(rows))
    ensures items == Outs(RowsBefore(items)) && multiset(RowsBefore(items)) == multiset(rows)
  {
    hide FirstError, RowsBefore;
    OutsCount(rows, Error);
    assert Error !in multiset(items);
    ErrorIsThere(items);
    RowsAreOuts(items);
    var found := RowsBefore(items);
    forall x: Tuple ensures multiset(found)[x] == multiset(rows)[x] {
      OutsCount(found, Out(x));
      OutsCount(rows, Out(x));
    }
  }

  lemma {:induction false} StepIsJoinBag(ls: seq<Tuple>, schema: Schema, j: JoinStep)
    requires StepBag(ls, schema, j)
    ensures multiset(StepItems(Outs(ls), schema, j)) == multiset(Outs(Join(ls, j.rows, j.on, schema + j.schema)))
  {
    hide Join, AllProbes, JoinItems, EvalWhere;
    var site := SiteOf(schema, j);
    if site.Columns().Some? {
      IndexedBag(site, j.seek(site.Columns().value.1), ls, j.rows);
    } else {
      ItemsAreJoin(ls, j.rows, j.on, schema + j.schema);
    }
  }

  lemma {:induction false} ChainIsJoinAllBag(ls: seq<Tuple>, schema: Schema, js: seq<JoinStep>)
    requires ChainBag(ls, schema, js)
    ensures var items := ChainItems(Outs(ls), schema, js);
            items == Outs(RowsBefore(items)) && multiset(RowsBefore(items)) == multiset(JoinAll(ls, schema, Inputs(js)))
    decreases |js|
  {
    hide Join, StepItems, StepBag, RowsBefore;
    if js == [] {
      BagIsRows(Outs(ls), ls);
    } else {
      var s := schema + js[0].schema;
      var want, items := Join(ls, js[0].rows, js[0].on, s), StepItems(Outs(ls), schema, js[0]);
      StepIsJoinBag(ls, schema, js[0]);
      BagIsRows(items, want);
      var found := RowsBefore(items);
      BagMembers(found, want);
      ChainBagSubset(found, want, s, js[1..]);
      ChainIsJoinAllBag(found, s, js[1..]);
      JoinAllBag(found, want, s, Inputs(js[1..]));
      InputsStep(ls, schema, js);
    }
  }

  // ---------------------------------------------------------------------
  // The filter on top
  // ---------------------------------------------------------------------

  lemma {:induction false} FilterIsWhere(e: Option<Expr>, rows: seq<Tuple>, schema: Schema)
    requires forall i :: 0 <= i < |rows| ==> EvalWhere(e, rows[i], schema).Some?
    ensures FilterItems(e, Outs(rows), schema) == Outs(Where(e, rows, schema))
  {
    hide EvalWhere;
    if rows != [] {
      assert Outs(rows)[1..] == Outs(rows[1..]);
      assert forall i :: 0 <= i < |rows[1..]| ==> rows[1..][i] == rows[i + 1];
      FilterIsWhere(e, rows[1..], schema);
      var head := if EvalWhere(e, rows[0], schema).value then [rows[0]] else [];
      OutsConcat(head, Where(e, rows[1..], schema));
      assert Outs(head) == if EvalWhere(e, rows[0], schema).value then [Out(rows[0])] else [];
    }
  }

  /** On clean rows the remaining filter evaluates without error. */
  lemma {:induction false} RestIsDefined(hasIndex: string -> bool, table: string, schema: Schema, filter: Option<Expr>,
                                         a: Access, rest: Option<Expr>, row: Tuple, s: Schema)
    requires Planned(hasIndex, table, schema, filter, a, rest)
    requires filter.Some? ==> AllClean(Split(filter.value), row, s)
    ensures EvalWhere(rest, row, s).Some?
  {
    if a.IndexScan? {
      TakeOut(filter.value, a.term, row, s);
    } else if filter.Some? {
      SplitMeans(filter.value, row, s);
      WhereIsTrue(filter.value, row, s);
    }
  }

  /** Rows among the clean ones are filtered without error. */
  lemma {:induction false} RestOnSubset(hasIndex: string -> bool, table: string, schema: Schema, filter: Option<Expr>,
                                        a: Access, rest: Option<Expr>, part: seq<Tuple>, all: seq<Tuple>, s: Schema)
    requires Planned(hasIndex, table, schema, filter, a, rest) && CleanOn(filter, all, s)
    requires forall z :: z in part ==> z in all
    ensures FilterItems(rest, Outs(part), s) == Outs(Where(rest, part, s))
  {
    forall i | 0 <= i < |part| ensures EvalWhere(rest, part[i], s).Some? {
      assert part[i] in all;
      var j :| 0 <= j < |all| && all[j] == part[i];
      assert filter.Some? ==> AllClean(Split(filter.value), all[j], s);
      RestIsDefined(hasIndex, table, schema, filter, a, rest, part[i], s);
    }
    FilterIsWhere(rest, part, s);
  }

  lemma {:induction false} JoinAllSubset(a: seq<Tuple>, b: seq<Tuple>, schema: Schema, joins: seq<JoinInput>)
    requires forall l :: l in a ==> l in b
    ensures forall z :: z in JoinAll(a, schema, joins) ==> z in JoinAll(b, schema, joins)
    decreases |joins|
  {
    hide Join;
    if joins != [] {
      var s := schema + joins[0].schema;
      JoinSubset(a, b, joins[0].rows, joins[0].on, s);
      JoinAllSubset(Join(a, joins[0].rows, joins[0].on, s), Join(b, joins[0].rows, joins[0].on, s), s, joins[1..]);
    }
  }

  /** The list form: the base rows, joined and filtered by the rest, are the query. */
  lemma {:induction false} BaseIsQuery(hasIndex: string -> bool, table: string, schema: Schema, filter: Option<Expr>,
                                       a: Access, rest: Option<Expr>, rows: seq<Tuple>, joins: seq<JoinInput>)
    requires Planned(hasIndex, table, schema, filter, a, rest) && Wide(rows, |schema|)
    requires CleanOn(filter, JoinAll(rows, schema, joins), FinalSchema(schema, joins))
    ensures var s := FinalSchema(schema, joins);
            Where(rest, JoinAll(BaseRows(a, rows, schema), schema, joins), s)
              == Where(filter, JoinAll(rows, schema, joins), s)
  {
    if a.IndexScan? {
      IndexPlanPreservesMeaning(hasIndex, table, filter.value, a, rows, schema, joins);
    }
  }

  lemma {:induction false} BaseSubset(a: Access, rows: seq<Tuple>, schema: Schema)
    requires a.IndexScan? ==> ColumnIndex(schema, a.column) >= 0
    ensures forall l :: l in BaseRows(a, rows, schema) ==> l in rows
  {
    if a.IndexScan? {
      FilterSubset(KeyTest(ColumnIndex(schema, a.column), a.key), rows);
    }
  }

  // ---------------------------------------------------------------------
  // The theorems
  // ---------------------------------------------------------------------

  /** The whole plan with seeks in scan order delivers the rows of scan, join and filter, in
      the same order and without error. */
  lemma {:induction false} PlanIsQuery(hasIndex: string -> bool, table: string, schema: Schema, filter: Option<Expr>,
                                       a: Access, rest: Option<Expr>, rows: seq<Tuple>, js: seq<JoinStep>)
    requires Planned(hasIndex, table, schema, filter, a, rest) && Wide(rows, |schema|)
    requires ChainExact(BaseRows(a, rows, schema), schema, js)
    requires CleanOn(filter, JoinAll(rows, schema, Inputs(js)), FinalSchema(schema, Inputs(js)))
    ensures var s := FinalSchema(schema, Inputs(js));
            PlanItems(Outs(BaseRows(a, rows, schema)), schema, js, rest)
            == Outs(Where(filter, JoinAll(rows, schema, Inputs(js)), s))
  {
    hide ChainItems, FilterItems, Where, JoinAll, ChainExact, Planned, CleanOn, Wide;
    PlannedColumn(hasIndex, table, schema, filter, a, rest);
    var base, joins := BaseRows(a, rows, schema), Inputs(js);
    BaseSubset(a, rows, schema);
    ChainIsJoinAll(base, schema, js);
    JoinAllSubset(base, rows, schema, joins);
    RestOnSubset(hasIndex, table, schema, filter, a, rest, JoinAll(base, schema, joins), JoinAll(rows, schema, joins),
                 FinalSchema(schema, joins));
    BaseIsQuery(hasIndex, table, schema, filter, a, rest, rows, joins);
  }

  lemma {:induction false} PlannedColumn(hasIndex: string -> bool, table: string, schema: Schema, filter: Option<Expr>,
                                         a: Access, rest: Option<Expr>)
    requires Planned(hasIndex, table, schema, filter, a, rest)
    ensures a.IndexScan? ==> ColumnIndex(schema, a.column) >= 0
  {
  }

  lemma {:induction false} WhereBag(e: Option<Expr>, a: seq<Tuple>, b: seq<Tuple>, schema: Schema)
    requires multiset(a) == multiset(b)
    ensures multiset(Where(e, a, schema)) == multiset(Where(e, b, schema))
  {
    var p := (row: Tuple) => EvalWhere(e, row, schema) == Some(true);
    forall x: Tuple ensures multiset(Filter(p, a))[x] == multiset(Filter(p, b))[x] {
      FilterBag(p, a, x);
      FilterBag(p, b, x);
    }
    assert multiset(Filter(p, a)) == multiset(Filter(p, b));
  }

  /** The whole plan with exact seeks in any order, on the base table and on every joined one:
      it reports no error and delivers the same bag of rows. */
  lemma {:induction false} PlanIsQueryBag(hasIndex: string -> bool, table: string, schema: Schema, filter: Option<Expr>,
                                          a: Access, rest: Option<Expr>, found: seq<Tuple>, rows: seq<Tuple>,
                                          js: seq<JoinStep>)
    requires Planned(hasIndex, table, schema, filter, a, rest) && Wide(rows, |schema|)
    requires ChainBag(BaseRows(a, rows, schema), schema, js)
    requires multiset(found) == multiset(BaseRows(a, rows, schema))
    requires CleanOn(filter, JoinAll(rows, schema, Inputs(js)), FinalSchema(schema, Inputs(js)))
    ensures var s := FinalSchema(schema, Inputs(js));
            multiset(PlanItems(Outs(found), schema, js, rest))
            == multiset(Outs(Where(filter, JoinAll(rows, schema, Inputs(js)), s)))
  {
    hide ChainItems, FilterItems, Where, JoinAll, ChainBag, Planned, CleanOn, Wide, RowsBefore;
    PlannedColumn(hasIndex, table, schema, filter, a, rest);
    var base, joins, s := BaseRows(a, rows, schema), Inputs(js), FinalSchema(schema, Inputs(js));
    BaseSubset(a, rows, schema);
    BagMembers(found, base);
    ChainBagSubset(found, base, schema, js);
    ChainIsJoinAllBag(found, schema, js);
    var joined := RowsBefore(ChainItems(Outs(found), schema, js));
    JoinAllBag(found, base, schema, joins);
    BagMembers(joined, JoinAll(found, schema, joins));
    JoinAllSubset(found, rows, schema, joins);
    RestOnSubset(hasIndex, table, schema, filter, a, rest, joined, JoinAll(rows, schema, joins), s);
    WhereBag(rest, joined, JoinAll(base, schema, joins), s);
    BaseIsQuery(hasIndex, table, schema, filter, a, rest, rows, joins);
    OutsBag(Where(rest, joined, s), Where(filter, JoinAll(rows, schema, joins), s));
  }

  // ---------------------------------------------------------------------
  // The in-memory engine
  // ---------------------------------------------------------------------

  /** The in-memory seek filters a scan: rows in scan order, never an error. */
  function MemorySeek(rows: seq<Tuple>, schema: Schema): (seek: string -> SeekFn) {
    (column: string) => (key: Value) =>
      Some(if ColumnIndex(schema, column) < 0 then [] else Outs(Filter(KeyTest(ColumnIndex(schema, column), key),
        rows)))
  }

  /** Along the chain ON evaluates without error and indexed columns resolve. */
  ghost predicate ChainFits(ls: seq<Tuple>, schema: Schema, js: seq<JoinStep>)
    decreases |js|
  {
    js != [] ==>
      && StepFits(ls, schema, js[0])
      && ChainFits(Join(ls, js[0].rows, js[0].on, schema + js[0].schema), schema + js[0].schema, js[1..])
  }

  ghost predicate InMemory(js: seq<JoinStep>) {
    forall i :: 0 <= i < |js| ==> js[i].seek == MemorySeek(js[i].rows, js[i].schema)
  }

  lemma {:induction false} MemoryIsExact(ls: seq<Tuple>, schema: Schema, js: seq<JoinStep>)
    requires ChainFits(ls, schema, js) && InMemory(js)
    ensures ChainExact(ls, schema, js)
    decreases |js|
  {
    hide Join, EvalWhere, Filter;
    if js != [] {
      var j, s := js[0], schema + js[0].schema;
      assert js[0].seek == MemorySeek(j.rows, j.schema);
      assert forall i :: 0 <= i < |js[1..]| ==> js[1..][i] == js[i + 1];
      MemoryIsExact(Join(ls, j.rows, j.on, s), s, js[1..]);
    }
  }

  lemma {:induction false} ChainFitsSubset(a: seq<Tuple>, b: seq<Tuple>, schema: Schema, js: seq<JoinStep>)
    requires ChainFits(b, schema, js) && forall l :: l in a ==> l in b
    ensures ChainFits(a, schema, js)
    decreases |js|
  {
    hide Join, EvalWhere;
    if js != [] {
      var s := schema + js[0].schema;
      JoinSubset(a, b, js[0].rows, js[0].on, s);
      ChainFitsSubset(Join(a, js[0].rows, js[0].on, s), Join(b, js[0].rows, js[0].on, s), s, js[1..]);
    }
  }

  /** Over the in-memory engine, for every SELECT whose ON conditions evaluate without error and
      whose WHERE terms are clean: the plan, with the base path and the joins it chose, delivers
      the rows of scan, join and filter in the same order. */
  lemma {:induction false} MemoryPlanIsQuery(hasIndex: string -> bool, table: string, schema: Schema,
                                             filter: Option<Expr>, a: Access, rest: Option<Expr>, rows: seq<Tuple>,
                                             js: seq<JoinStep>)
    requires Planned(hasIndex, table, schema, filter, a, rest) && Wide(rows, |schema|)
    requires ChainFits(rows, schema, js) && InMemory(js)
    requires CleanOn(filter, JoinAll(rows, schema, Inputs(js)), FinalSchema(schema, Inputs(js)))
    ensures var base := if a.FullScan? then Outs(rows) else MemorySeek(rows, schema)(a.column)(a.key).value;
            PlanItems(base, schema, js, rest)
            == Outs(Where(filter, JoinAll(rows, schema, Inputs(js)), FinalSchema(schema, Inputs(js))))
  {
    hide PlanItems, ChainFits, CleanOn, Planned, Wide, JoinAll, Where;
    PlannedColumn(hasIndex, table, schema, filter, a, rest);
    BaseSubset(a, rows, schema);
    ChainFitsSubset(BaseRows(a, rows, schema), rows, schema, js);
    MemoryIsExact(BaseRows(a, rows, schema), schema, js);
    PlanIsQuery(hasIndex, table, schema, filter, a, rest, rows, js);
  }
}
