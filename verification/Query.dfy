/** The SELECT plan: an indexed equality is taken out of WHERE and pushed below all
    joins; the result is the same as scanning, joining and then filtering. */
module Query {
  import opened Core
  import opened Sequences
  import opened Eval

  // ---------------------------------------------------------------------
  // Lists of rows
  // ---------------------------------------------------------------------

  function Filter(p: Tuple -> bool, rows: seq<Tuple>): (r: seq<Tuple>) {
    if rows == [] then []
    else (if p(rows[0]) then [rows[0]] else []) + Filter(p, rows[1..])
  }

  /** The matches of one left row, in the order of the right rows. */
  function JoinOne(l: Tuple, right: seq<Tuple>, on: Expr, schema: Schema): (r: seq<Tuple>) {
    if right == [] then []
    else (if True(on, l + right[0], schema) then [l + right[0]] else []) + JoinOne(l, right[1..], on, schema)
  }

  /** The join as a comprehension: every left ++ right pair whose ON is true, in order. */
  function Join(left: seq<Tuple>, right: seq<Tuple>, on: Expr, schema: Schema): (r: seq<Tuple>) {
    if left == [] then [] else JoinOne(left[0], right, on, schema) + Join(left[1..], right, on, schema)
  }

  /** One join of a query: the rows and schema of the right table, and ON. */
  datatype JoinInput = JoinInput(rows: seq<Tuple>, schema: Schema, on: Expr)

  function JoinAll(left: seq<Tuple>, schema: Schema, joins: seq<JoinInput>): (r: seq<Tuple>)
    decreases |joins|
  {
    if joins == [] then left
    else
      var s := schema + joins[0].schema;
      JoinAll(Join(left, joins[0].rows, joins[0].on, s), s, joins[1..])
  }

  function FinalSchema(schema: Schema, joins: seq<JoinInput>): (s: Schema)
    ensures schema <= s
    decreases |joins|
  {
    if joins == [] then schema else FinalSchema(schema + joins[0].schema, joins[1..])
  }

  lemma {:induction false} FilterConcat(p: Tuple -> bool, a: seq<Tuple>, b: seq<Tuple>)
    ensures Filter(p, a + b) == Filter(p, a) + Filter(p, b)
  {
    if a == [] {
      assert a + b == b;
    } else {
      assert (a + b)[1..] == a[1..] + b;
      FilterConcat(p, a[1..], b);
    }
  }

  /** A test that looks only at the first n values. */
  ghost predicate LooksAt(p: Tuple -> bool, n: nat) {
    forall x: Tuple, y: Tuple :: |x| >= n ==> p(x + y) == p(x)
  }

  lemma {:induction false} FilterJoinOne(p: Tuple -> bool, n: nat, l: Tuple, right: seq<Tuple>, on: Expr,
                                         schema: Schema)
    requires LooksAt(p, n) && |l| >= n
    ensures Filter(p, JoinOne(l, right, on, schema)) == if p(l) then JoinOne(l, right, on, schema) else []
  {
    if right != [] {
      var head := if True(on, l + right[0], schema) then [l + right[0]] else [];
      FilterJoinOne(p, n, l, right[1..], on, schema);
      FilterConcat(p, head, JoinOne(l, right[1..], on, schema));
      assert head != [] ==> head[1..] == [];
    }
  }

  ghost predicate Wide(rows: seq<Tuple>, n: nat) {
    forall i :: 0 <= i < |rows| ==> |rows[i]| >= n
  }

  /** A test on left columns can be applied before or after the join. */
  lemma {:induction false} FilterJoin(p: Tuple -> bool, n: nat, left: seq<Tuple>, right: seq<Tuple>, on: Expr,
                                      schema: Schema)
    requires LooksAt(p, n) && Wide(left, n)
    ensures Filter(p, Join(left, right, on, schema)) == Join(Filter(p, left), right, on, schema)
  {
    if left != [] {
      var one, more := JoinOne(left[0], right, on, schema), Join(left[1..], right, on, schema);
      FilterConcat(p, one, more);
      FilterJoinOne(p, n, left[0], right, on, schema);
      FilterJoin(p, n, left[1..], right, on, schema);
      if p(left[0]) {
        assert Filter(p, left) == [left[0]] + Filter(p, left[1..]);
        assert Filter(p, left)[1..] == Filter(p, left[1..]);
      } else {
        assert Filter(p, left) == Filter(p, left[1..]);
      }
    }
  }

  lemma {:induction false} JoinWide(n: nat, left: seq<Tuple>, right: seq<Tuple>, on: Expr, schema: Schema)
    requires Wide(left, n)
    ensures Wide(Join(left, right, on, schema), n)
  {
    if left != [] {
      JoinOneWide(n, left[0], right, on, schema);
      JoinWide(n, left[1..], right, on, schema);
    }
  }

  lemma {:induction false} JoinOneWide(n: nat, l: Tuple, right: seq<Tuple>, on: Expr, schema: Schema)
    requires |l| >= n
    ensures Wide(JoinOne(l, right, on, schema), n)
  {
    if right != [] {
      JoinOneWide(n, l, right[1..], on, schema);
    }
  }

  /** Pushing a test on base columns below a whole chain of joins. */
  lemma {:induction false} PushBelowJoins(p: Tuple -> bool, n: nat, rows: seq<Tuple>, schema: Schema,
                                          joins: seq<JoinInput>)
    requires LooksAt(p, n) && Wide(rows, n)
    ensures Filter(p, JoinAll(rows, schema, joins)) == JoinAll(Filter(p, rows), schema, joins)
    ensures Wide(JoinAll(rows, schema, joins), n)
    decreases |joins|
  {
    if joins != [] {
      var s := schema + joins[0].schema;
      FilterJoin(p, n, rows, joins[0].rows, joins[0].on, s);
      JoinWide(n, rows, joins[0].rows, joins[0].on, s);
      PushBelowJoins(p, n, Join(rows, joins[0].rows, joins[0].on, s), s, joins[1..]);
    }
  }

  // ---------------------------------------------------------------------
  // Choosing the access path
  // ---------------------------------------------------------------------

  /** columnLiteral */
  function ColumnLiteral(left: Expr, right: Expr, table: string): Option<(string, Value)> {
    if left.ColumnRef? && (left.table == "" || left.table == table) && right.Literal?
    then Some((left.name, right.value)) else None
  }

  /** equalityColumnLiteral: the column may stand on either side. */
  function EqualityColumnLiteral(e: Expr, table: string): Option<(string, Value)> {
    if !(e.Binary? && e.op == OpEq) then None
    else
      var a := ColumnLiteral(e.left, e.right, table);
      if a.Some? then a else ColumnLiteral(e.right, e.left, table)
  }

  datatype Access = FullScan | IndexScan(term: nat, column: string, key: Value)

  /** findIndexedEquality: the first term that is an equality on an indexed column. */
  method FindIndexedEquality(hasIndex: string -> bool, table: string, filter: Option<Expr>)
    returns (a: Access, rest: Option<Expr>)
    ensures a.FullScan? ==> rest == filter
    ensures a.FullScan? && filter.Some? ==> forall i :: 0 <= i < |Split(filter.value)| ==>
              var q := EqualityColumnLiteral(Split(filter.value)[i], table); q.None? || !hasIndex(q.value.0)
    ensures a.IndexScan? ==>
              && filter.Some? && Chosen(hasIndex, table, filter.value, a)
              && rest == Combine(Split(filter.value)[..a.term] + Split(filter.value)[a.term + 1..])
              && forall i :: 0 <= i < a.term ==>
                   var q := EqualityColumnLiteral(Split(filter.value)[i], table); q.None? || !hasIndex(q.value.0)
  {
    if filter.None? {
      return FullScan, None;
    }
    var terms := Split(filter.value);
    for i := 0 to |terms|
      invariant forall j :: 0 <= j < i ==>
                  var q := EqualityColumnLiteral(terms[j], table); q.None? || !hasIndex(q.value.0)
    {
      var q := EqualityColumnLiteral(terms[i], table);
      if q.Some? && hasIndex(q.value.0) {
        rest := CombineAndTerms(terms[..i] + terms[i + 1..]);
        return IndexScan(i, q.value.0, q.value.1), rest;
      }
    }
    a, rest := FullScan, filter;
  }

  ghost predicate Chosen(hasIndex: string -> bool, table: string, e: Expr, a: Access)
    requires a.IndexScan?
  {
    && a.term < |Split(e)|
    && EqualityColumnLiteral(Split(e)[a.term], table) == Some((a.column, a.key))
    && hasIndex(a.column)
  }

  /** What an index seek tests: the column compares equal, without error, to the key. */
  function KeyTest(i: nat, key: Value): (p: Tuple -> bool) {
    (row: Tuple) => i < |row| && Compare(row[i], key) == Some(0)
  }

  lemma {:induction false} KeyTestLooksAt(i: nat, key: Value)
    ensures LooksAt(KeyTest(i, key), i + 1)
  {
  }

  lemma {:induction false} PrefixColumn(schema: Schema, s: Schema, name: string)
    requires schema <= s && ColumnIndex(schema, name) >= 0
    ensures ColumnIndex(s, name) == ColumnIndex(schema, name)
  {
    var i, j := ColumnIndex(schema, name), ColumnIndex(s, name);
    assert s[i] == schema[i];
  }

  /** An equality without error is true exactly for equal, non-NULL values. */
  lemma {:induction false} EqMeans(x: Value, y: Value)
    ensures EvalBinary(OpEq, x, y) == Some(Bool(true)) <==> !x.Null? && x == y
    ensures Compare(x, y) == Some(0) <==> !x.Null? && x == y
  {
  }

  /** On a row of the join, the equality term is true exactly when the seek test passes. */
  lemma {:induction false} TermIsKeyTest(e: Expr, table: string, column: string, key: Value, schema: Schema, s: Schema,
                                         row: Tuple)
    requires EqualityColumnLiteral(e, table) == Some((column, key))
    requires schema <= s && ColumnIndex(schema, column) >= 0 && |row| >= |schema|
    requires Clean(e, row, s)
    ensures True(e, row, s) == KeyTest(ColumnIndex(schema, column), key)(row)
  {
    PrefixColumn(schema, s, column);
    var i := ColumnIndex(schema, column);
    EqMeans(row[i], key);
    EqMeans(key, row[i]);
    if ColumnLiteral(e.left, e.right, table).Some? {
      assert Eval.Eval(e, row, s) == EvalBinary(OpEq, row[i], key);
    } else {
      assert Eval.Eval(e, row, s) == EvalBinary(OpEq, key, row[i]);
    }
  }

  // ---------------------------------------------------------------------
  // The theorem
  // ---------------------------------------------------------------------

  /** FilterOp over a list of rows: an absent predicate keeps everything. */
  function Where(e: Option<Expr>, rows: seq<Tuple>, schema: Schema): (r: seq<Tuple>) {
    Filter((row: Tuple) => EvalWhere(e, row, schema) == Some(true), rows)
  }

  lemma {:induction false} FilterTwice(p: Tuple -> bool, q: Tuple -> bool, r: Tuple -> bool, rows: seq<Tuple>)
    requires forall i :: 0 <= i < |rows| ==> (r(rows[i]) <==> p(rows[i]) && q(rows[i]))
    ensures Filter(q, Filter(p, rows)) == Filter(r, rows)
  {
    if rows != [] {
      var head := if p(rows[0]) then [rows[0]] else [];
      assert forall i :: 0 <= i < |rows[1..]| ==> rows[1..][i] == rows[i + 1];
      FilterTwice(p, q, r, rows[1..]);
      FilterConcat(q, head, Filter(p, rows[1..]));
      assert head != [] ==> head[1..] == [];
    }
  }

  /** Splitting WHERE, seeking on the indexed term below all joins and filtering by the
      recombined rest gives the same rows, in the same order, as scan, join and filter,
      whenever the terms of WHERE are clean on the rows of the join. */
  lemma {:induction false} IndexPlanPreservesMeaning(hasIndex: string -> bool, table: string, e: Expr, a: Access,
                            rows: seq<Tuple>, schema: Schema, joins: seq<JoinInput>)
    requires a.IndexScan? && Chosen(hasIndex, table, e, a)
    requires ColumnIndex(schema, a.column) >= 0 && Wide(rows, |schema|)
    requires forall i :: 0 <= i < |JoinAll(rows, schema, joins)| ==>
               AllClean(Split(e), JoinAll(rows, schema, joins)[i], FinalSchema(schema, joins))
    ensures var seek := Filter(KeyTest(ColumnIndex(schema, a.column), a.key), rows);
            var rest := Combine(Split(e)[..a.term] + Split(e)[a.term + 1..]);
            var s := FinalSchema(schema, joins);
            Where(rest, JoinAll(seek, schema, joins), s) == Where(Some(e), JoinAll(rows, schema, joins), s)
  {
    var c, s, all := ColumnIndex(schema, a.column), FinalSchema(schema, joins), JoinAll(rows, schema, joins);
    var p := KeyTest(c, a.key);
    var rest := Combine(Split(e)[..a.term] + Split(e)[a.term + 1..]);
    KeyTestLooksAt(c, a.key);
    assert Wide(rows, c + 1);
    PushBelowJoins(p, c + 1, rows, schema, joins);
    PushBelowJoins((_: Tuple) => true, |schema|, rows, schema, joins);
    var q := (row: Tuple) => EvalWhere(rest, row, s) == Some(true);
    var r := (row: Tuple) => EvalWhere(Some(e), row, s) == Some(true);
    forall i | 0 <= i < |all| ensures r(all[i]) <==> p(all[i]) && q(all[i]) {
      TakeOut(e, a.term, all[i], s);
      TermIsKeyTest(Split(e)[a.term], table, a.column, a.key, schema, s, all[i]);
    }
    FilterTwice(p, q, r, all);
  }

  // ---------------------------------------------------------------------
  // A seek that returns the rows in another order
  // ---------------------------------------------------------------------

  lemma {:induction false} JoinConcat(a: seq<Tuple>, b: seq<Tuple>, right: seq<Tuple>, on: Expr, schema: Schema)
    ensures Join(a + b, right, on, schema) == Join(a, right, on, schema) + Join(b, right, on, schema)
  {
    if a == [] {
      assert a + b == b;
    } else {
      assert (a + b)[1..] == a[1..] + b;
      JoinConcat(a[1..], b, right, on, schema);
    }
  }

  lemma {:induction false} JoinWithout(b: seq<Tuple>, i: nat, right: seq<Tuple>, on: Expr, schema: Schema)
    requires i < |b|
    ensures multiset(Join(b, right, on, schema))
            == multiset(JoinOne(b[i], right, on, schema)) + multiset(Join(b[..i] + b[i + 1..], right, on, schema))
  {
    var x, y := b[..i], b[i + 1..];
    assert b == x + ([b[i]] + y);
    JoinConcat(x, [b[i]] + y, right, on, schema);
    JoinConcat([b[i]], y, right, on, schema);
    JoinConcat(x, y, right, on, schema);
    assert [b[i]][1..] == [];
    assert Join([b[i]], right, on, schema) == JoinOne(b[i], right, on, schema);
  }

  /** Joining a permutation gives a permutation. */
  lemma {:induction false} JoinBag(a: seq<Tuple>, b: seq<Tuple>, right: seq<Tuple>, on: Expr, schema: Schema)
    requires multiset(a) == multiset(b)
    ensures multiset(Join(a, right, on, schema)) == multiset(Join(b, right, on, schema))
    decreases |a|
  {
    if a == [] {
      assert |multiset(b)| == 0;
      assert b == [];
    } else {
      assert a[0] in multiset(b);
      var i :| 0 <= i < |b| && b[i] == a[0];
      var b' := b[..i] + b[i + 1..];
      RemoveBoth(a, b, i);
      JoinBag(a[1..], b', right, on, schema);
      JoinWithout(b, i, right, on, schema);
    }
  }

  lemma {:induction false} JoinAllBag(a: seq<Tuple>, b: seq<Tuple>, schema: Schema, joins: seq<JoinInput>)
    requires multiset(a) == multiset(b)
    ensures multiset(JoinAll(a, schema, joins)) == multiset(JoinAll(b, schema, joins))
    decreases |joins|
  {
    if joins != [] {
      var s := schema + joins[0].schema;
      JoinBag(a, b, joins[0].rows, joins[0].on, s);
      JoinAllBag(Join(a, joins[0].rows, joins[0].on, s), Join(b, joins[0].rows, joins[0].on, s), s, joins[1..]);
    }
  }

  lemma {:induction false} FilterBag(p: Tuple -> bool, a: seq<Tuple>, x: Tuple)
    ensures multiset(Filter(p, a))[x] == if p(x) then multiset(a)[x] else 0
  {
    if a != [] {
      assert a == [a[0]] + a[1..];
      FilterBag(p, a[1..], x);
    }
  }

  /** With any exact seek, in whatever order it returns its rows, the plan produces the
      same bag of rows. */
  lemma {:induction false} AnyExactSeekPreservesMeaning(hasIndex: string -> bool, table: string, e: Expr, a: Access,
                            seek: seq<Tuple>, rows: seq<Tuple>, schema: Schema, joins: seq<JoinInput>)
    requires a.IndexScan? && Chosen(hasIndex, table, e, a)
    requires ColumnIndex(schema, a.column) >= 0 && Wide(rows, |schema|)
    requires multiset(seek) == multiset(Filter(KeyTest(ColumnIndex(schema, a.column), a.key), rows))
    requires forall i :: 0 <= i < |JoinAll(rows, schema, joins)| ==>
               AllClean(Split(e), JoinAll(rows, schema, joins)[i], FinalSchema(schema, joins))
    ensures var rest := Combine(Split(e)[..a.term] + Split(e)[a.term + 1..]);
            var s := FinalSchema(schema, joins);
            multiset(Where(rest, JoinAll(seek, schema, joins), s))
              == multiset(Where(Some(e), JoinAll(rows, schema, joins), s))
  {
    var inOrder := Filter(KeyTest(ColumnIndex(schema, a.column), a.key), rows);
    var rest := Combine(Split(e)[..a.term] + Split(e)[a.term + 1..]);
    var s := FinalSchema(schema, joins);
    IndexPlanPreservesMeaning(hasIndex, table, e, a, rows, schema, joins);
    JoinAllBag(seek, inOrder, schema, joins);
    var q := (row: Tuple) => EvalWhere(rest, row, s) == Some(true);
    var x, y := JoinAll(seek, schema, joins), JoinAll(inOrder, schema, joins);
    forall row: Tuple ensures multiset(Filter(q, x))[row] == multiset(Filter(q, y))[row] {
      FilterBag(q, x, row);
      FilterBag(q, y, row);
    }
    assert multiset(Filter(q, x)) == multiset(Filter(q, y));
  }
}
