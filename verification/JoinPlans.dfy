/** When the indexed join may stand for the plain one: the same rows in the same order for a
    seek in scan order, the same bag of rows for any exact seek, and exactly when not. */
module JoinPlans {
  import opened Core
  import opened Eval
  import opened Query
  import opened Joins

  /** Draining the plain operator on error-free input yields the join comprehension. */
  lemma {:induction false} ItemsAreJoin(left: seq<Tuple>, right: seq<Tuple>, on: Expr, schema: Schema)
    requires forall l, r :: l in left && r in right ==> EvalWhere(Some(on), l + r, schema).Some?
    ensures JoinItems(Outs(left), Outs(right), on, schema) == Outs(Join(left, right, on, schema))
  {
    hide AllPairs, Join;
    NoErrors(right);
    PairsAreJoinAll(left, right, on, schema);
  }

  lemma {:induction false} NoErrors(rows: seq<Tuple>)
    ensures FirstError(Outs(rows)) == |rows| && RowsBefore(Outs(rows)) == rows
  {
    if rows != [] {
      NoErrors(rows[1..]);
      assert Outs(rows)[1..] == Outs(rows[1..]);
      assert rows == [rows[0]] + rows[1..];
    }
  }

  lemma {:induction false} PairsAreJoinAll(left: seq<Tuple>, right: seq<Tuple>, on: Expr, schema: Schema)
    requires forall l, r :: l in left && r in right ==> EvalWhere(Some(on), l + r, schema).Some?
    ensures AllPairs(Outs(left), right, on, schema) == Outs(Join(left, right, on, schema))
  {
    if left != [] {
      assert left[0] in left;
      assert Outs(left)[1..] == Outs(left[1..]);
      PairsAreJoin(left[0], right, on, schema);
      PairsAreJoinAll(left[1..], right, on, schema);
      OutsConcat(JoinOne(left[0], right, on, schema), Join(left[1..], right, on, schema));
    }
  }

  lemma {:induction false} OutsConcat(a: seq<Tuple>, b: seq<Tuple>)
    ensures Outs(a + b) == Outs(a) + Outs(b)
  {
  }

  lemma {:induction false} PairsAreJoin(l: Tuple, right: seq<Tuple>, on: Expr, schema: Schema)
    requires forall r :: r in right ==> EvalWhere(Some(on), l + r, schema).Some?
    ensures PairsOf(l, right, on, schema) == Outs(JoinOne(l, right, on, schema))
  {
    hide Pair, EvalWhere, True;
    if right != [] {
      assert right[0] in right;
      CleanPair(l, right[0], on, schema);
      PairsAreJoin(l, right[1..], on, schema);
      OutsConcat(if True(on, l + right[0], schema) then [l + right[0]] else [], JoinOne(l, right[1..], on, schema));
    }
  }

  /** An error-free pair is delivered exactly if ON is true. */
  lemma {:induction false} CleanPair(l: Tuple, r: Tuple, on: Expr, schema: Schema)
    requires EvalWhere(Some(on), l + r, schema).Some?
    ensures Pair(l, r, on, schema) == Outs(if True(on, l + r, schema) then [l + r] else [])
  {
    hide Eval.Eval;
  }

  lemma {:induction false} ItemPairsAreJoin(l: Tuple, right: seq<Tuple>, on: Expr, schema: Schema)
    requires forall r :: r in right ==> EvalWhere(Some(on), l + r, schema).Some?
    ensures ItemPairs(l, Outs(right), on, schema) == Outs(JoinOne(l, right, on, schema))
  {
    hide Pair, EvalWhere, True;
    if right != [] {
      assert right[0] in right;
      CleanPair(l, right[0], on, schema);
      assert Outs(right)[1..] == Outs(right[1..]);
      ItemPairsAreJoin(l, right[1..], on, schema);
      OutsConcat(if True(on, l + right[0], schema) then [l + right[0]] else [], JoinOne(l, right[1..], on, schema));
    }
  }

  // ---------------------------------------------------------------------
  // Choosing the indexed join
  // ---------------------------------------------------------------------

  /** columnBelongsToSchema */
  predicate Belongs(c: Expr, schema: Schema, table: string)
    requires c.ColumnRef?
  {
    !(table != "" && c.table != "" && c.table != table) && ColumnIndex(schema, c.name) >= 0
  }

  /** One join of a plan: the schemas on both sides, the right table and its indexes, ON. */
  datatype Site = Site(left: Schema, right: Schema, table: string, hasIndex: string -> bool, on: Expr)
  {
    function Schema(): Schema { left + right }

    /** joinColumnsForIndex */
    function JoinColumns(l: Expr, r: Expr): Option<(string, string)> {
      if l.ColumnRef? && r.ColumnRef? && Belongs(l, left, "") && Belongs(r, right, table) && hasIndex(r.name)
      then Some((l.name, r.name)) else None
    }

    /** indexedJoinEquality: the columns may stand in either order. */
    function Columns(): Option<(string, string)> {
      if !(on.Binary? && on.op == OpEq) then None
      else
        var a := JoinColumns(on.left, on.right);
        if a.Some? then a else JoinColumns(on.right, on.left)
    }

    /** The chosen columns resolve as intended: the right one is not a left column name. */
    predicate Resolves() {
      Columns().Some? && ColumnIndex(left, Columns().value.1) < 0
    }

    /** The key a left row probes with. */
    function Key(l: Tuple): Value
      requires Columns().Some? && |l| == |left|
    {
      l[ColumnIndex(left, Columns().value.0)]
    }

    /** What the seek for a key must find. */
    function Test(key: Value): Tuple -> bool
      requires Columns().Some?
    {
      KeyTest(ColumnIndex(right, Columns().value.1), key)
    }

    /** The rows fit the schemas and ON evaluates without error on every pair. */
    ghost predicate ErrorFree(ls: seq<Tuple>, rs: seq<Tuple>) {
      && (forall l :: l in ls ==> |l| == |left|)
      && (forall r :: r in rs ==> |r| == |right|)
      && (forall l, r :: l in ls && r in rs ==> EvalWhere(Some(on), l + r, Schema()).Some?)
    }

    function Probed(l: Tuple, seek: SeekFn): seq<Item>
      requires Columns().Some?
    {
      Probe(l, seek, Columns().value.0, left, on, Schema())
    }

    function Indexed(ls: seq<Tuple>, seek: SeekFn): seq<Item>
      requires Columns().Some?
    {
      AllProbes(Outs(ls), seek, Columns().value.0, left, on, Schema())
    }

    function Plain(ls: seq<Tuple>, rs: seq<Tuple>): seq<Item> {
      JoinItems(Outs(ls), Outs(rs), on, Schema())
    }
  }

  /** A column of the right table that no left column shadows is found behind the left columns. */
  lemma {:induction false} RightColumn(left: Schema, right: Schema, name: string)
    requires ColumnIndex(left, name) < 0 && ColumnIndex(right, name) >= 0
    ensures ColumnIndex(left + right, name) == |left| + ColumnIndex(right, name)
  {
    var s, i := left + right, ColumnIndex(right, name);
    var j := ColumnIndex(s, name);
    assert s[|left| + i] == right[i];
    assert forall k :: 0 <= k < |left| ==> s[k] == left[k];
    assert forall k :: 0 <= k < |right| ==> s[|left| + k] == right[k];
    assert j >= |left| ==> s[j] == right[j - |left|];
  }

  /** On one pair, an error-free equality ON is true exactly when the seek test passes. */
  lemma {:induction false} OnIsKeyTest(site: Site, l: Tuple, r: Tuple)
    requires site.Resolves() && |l| == |site.left| && |r| == |site.right|
    requires EvalWhere(Some(site.on), l + r, site.Schema()).Some?
    ensures True(site.on, l + r, site.Schema()) == site.Test(site.Key(l))(r)
  {
    var (lc, rc) := site.Columns().value;
    var on, s, row := site.on, site.Schema(), l + r;
    PrefixColumn(site.left, s, lc);
    RightColumn(site.left, site.right, rc);
    var x, y := l[ColumnIndex(site.left, lc)], r[ColumnIndex(site.right, rc)];
    EqMeans(x, y);
    EqMeans(y, x);
    if site.JoinColumns(on.left, on.right).Some? {
      assert Eval.Eval(on, row, s) == EvalBinary(OpEq, x, y);
    } else {
      assert Eval.Eval(on, row, s) == EvalBinary(OpEq, y, x);
    }
  }

  lemma {:induction false} JoinOneFiltered(p: Tuple -> bool, l: Tuple, right: seq<Tuple>, on: Expr, schema: Schema)
    requires forall r :: r in right ==> True(on, l + r, schema) == p(r)
    ensures JoinOne(l, Filter(p, right), on, schema) == JoinOne(l, right, on, schema)
  {
    if right != [] {
      assert right[0] in right;
      JoinOneFiltered(p, l, right[1..], on, schema);
      if p(right[0]) {
        assert Filter(p, right) == [right[0]] + Filter(p, right[1..]);
        assert Filter(p, right)[1..] == Filter(p, right[1..]);
      } else {
        assert Filter(p, right) == Filter(p, right[1..]);
      }
    }
  }

  lemma {:induction false} FilterSubset(p: Tuple -> bool, rows: seq<Tuple>)
    ensures forall r :: r in Filter(p, rows) ==> r in rows
  {
    if rows != [] {
      FilterSubset(p, rows[1..]);
    }
  }

  /** The matches of one left row, found among the rows that pass the seek test. */
  lemma {:induction false} MatchesPassTest(site: Site, l: Tuple, rs: seq<Tuple>)
    requires site.Resolves() && site.ErrorFree([l], rs)
    ensures JoinOne(l, Filter(site.Test(site.Key(l)), rs), site.on, site.Schema())
            == JoinOne(l, rs, site.on, site.Schema())
  {
    hide Filter, JoinOne, EvalWhere, True;
    assert l in [l];
    forall r | r in rs ensures True(site.on, l + r, site.Schema()) == site.Test(site.Key(l))(r) {
      OnIsKeyTest(site, l, r);
    }
    JoinOneFiltered(site.Test(site.Key(l)), l, rs, site.on, site.Schema());
  }

  /** A probe whose seek delivers rows without error. */
  lemma {:induction false} ProbeIs(site: Site, l: Tuple, seek: SeekFn, found: seq<Tuple>, rs: seq<Tuple>)
    requires site.Columns().Some? && site.ErrorFree([l], rs) && (forall r :: r in found ==> r in rs)
    requires seek(site.Key(l)) == Some(Outs(found))
    ensures site.Probed(l, seek) == Outs(JoinOne(l, found, site.on, site.Schema()))
  {
    assert l in [l];
    ItemPairsAreJoin(l, found, site.on, site.Schema());
  }

  lemma {:induction false} ErrorFreeParts(site: Site, ls: seq<Tuple>, rs: seq<Tuple>)
    requires site.ErrorFree(ls, rs) && ls != []
    ensures site.ErrorFree([ls[0]], rs) && site.ErrorFree(ls[1..], rs)
  {
    assert ls[0] in ls;
  }

  lemma {:induction false} IndexedStep(site: Site, ls: seq<Tuple>, seek: SeekFn)
    requires site.Columns().Some? && ls != []
    ensures site.Indexed(ls, seek) == site.Probed(ls[0], seek) + site.Indexed(ls[1..], seek)
  {
    assert Outs(ls)[1..] == Outs(ls[1..]);
  }

  // ---------------------------------------------------------------------
  // A seek in scan order
  // ---------------------------------------------------------------------

  /** For the keys that occur, the seek returns exactly the matching right rows in scan order. */
  ghost predicate ExactSeek(site: Site, seek: SeekFn, ls: seq<Tuple>, rs: seq<Tuple>)
    requires site.Columns().Some? && forall l :: l in ls ==> |l| == |site.left|
  {
    forall l :: l in ls ==> seek(site.Key(l)) == Some(Outs(Filter(site.Test(site.Key(l)), rs)))
  }

  lemma {:induction false} IndexedIsJoin(site: Site, seek: SeekFn, ls: seq<Tuple>, rs: seq<Tuple>)
    requires site.Resolves() && site.ErrorFree(ls, rs) && ExactSeek(site, seek, ls, rs)
    ensures site.Indexed(ls, seek) == Outs(Join(ls, rs, site.on, site.Schema()))
    decreases |ls|
  {
    hide Filter, JoinOne, EvalWhere, Probe;
    if ls != [] {
      var l, s := ls[0], site.Schema();
      assert l in ls;
      ErrorFreeParts(site, ls, rs);
      FilterSubset(site.Test(site.Key(l)), rs);
      ProbeIs(site, l, seek, Filter(site.Test(site.Key(l)), rs), rs);
      MatchesPassTest(site, l, rs);
      IndexedStep(site, ls, seek);
      IndexedIsJoin(site, seek, ls[1..], rs);
      OutsConcat(JoinOne(l, rs, site.on, s), Join(ls[1..], rs, site.on, s));
    }
  }

  /** The indexed join delivers the same rows in the same order as the plain one, for
      error-free ON conditions, when no left column has the name of the right join column
      and the seek returns the matching right rows in scan order. */
  lemma {:induction false} IndexedJoinEqualsPlain(site: Site, seek: SeekFn, ls: seq<Tuple>, rs: seq<Tuple>)
    requires site.Resolves() && site.ErrorFree(ls, rs) && ExactSeek(site, seek, ls, rs)
    ensures site.Indexed(ls, seek) == site.Plain(ls, rs)
  {
    IndexedIsJoin(site, seek, ls, rs);
    ItemsAreJoin(ls, rs, site.on, site.Schema());
  }

  // ---------------------------------------------------------------------
  // Any exact seek, with the keys it fails on
  // ---------------------------------------------------------------------

  /** The seek for the key opens and reads to the end without error. */
  predicate Succeeds(seek: SeekFn, key: Value) {
    seek(key).Some? && FirstError(seek(key).value) == |seek(key).value|
  }

  /** Whenever the seek succeeds on a key that occurs, it finds the matching right rows, each
      as often as it is there, in whatever order. */
  ghost predicate BagSeek(site: Site, seek: SeekFn, ls: seq<Tuple>, rs: seq<Tuple>)
    requires site.Columns().Some? && forall l :: l in ls ==> |l| == |site.left|
  {
    forall l :: l in ls && Succeeds(seek, site.Key(l)) ==>
      multiset(RowsBefore(seek(site.Key(l)).value)) == multiset(Filter(site.Test(site.Key(l)), rs))
  }

  lemma {:induction false} RowsAreOuts(items: seq<Item>)
    requires FirstError(items) == |items|
    ensures items == Outs(RowsBefore(items))
  {
    if items != [] {
      RowsAreOuts(items[1..]);
      assert items == [items[0]] + items[1..];
    }
  }

  lemma {:induction false} OutsCount(a: seq<Tuple>, item: Item)
    ensures multiset(Outs(a))[item] == if item.Out? then multiset(a)[item.row] else 0
  {
    if a != [] {
      var one, tail := [a[0]], a[1..];
      assert a == one + tail;
      OutsConcat(one, tail);
      assert Outs(one) == [Out(a[0])];
      OutsCount(tail, item);
    }
  }

  lemma {:induction false} OutsBag(a: seq<Tuple>, b: seq<Tuple>)
    requires multiset(a) == multiset(b)
    ensures multiset(Outs(a)) == multiset(Outs(b))
  {
    forall item: Item ensures multiset(Outs(a))[item] == multiset(Outs(b))[item] {
      OutsCount(a, item);
      OutsCount(b, item);
    }
  }

  /** A row of the join comes from one right row. */
  lemma {:induction false} JoinOneCount(l: Tuple, a: seq<Tuple>, on: Expr, schema: Schema, z: Tuple)
    ensures multiset(JoinOne(l, a, on, schema))[z]
            == if l <= z && True(on, z, schema) then multiset(a)[z[|l|..]] else 0
  {
    hide True;
    if a != [] {
      var head := if True(on, l + a[0], schema) then [l + a[0]] else [];
      assert a == [a[0]] + a[1..];
      assert JoinOne(l, a, on, schema) == head + JoinOne(l, a[1..], on, schema);
      JoinOneCount(l, a[1..], on, schema, z);
      if l <= z {
        assert z == l + z[|l|..];
        assert z == l + a[0] <==> z[|l|..] == a[0];
      }
    }
  }

  lemma {:induction false} JoinOneBag(l: Tuple, a: seq<Tuple>, b: seq<Tuple>, on: Expr, schema: Schema)
    requires multiset(a) == multiset(b)
    ensures multiset(JoinOne(l, a, on, schema)) == multiset(JoinOne(l, b, on, schema))
  {
    forall z: Tuple ensures multiset(JoinOne(l, a, on, schema))[z] == multiset(JoinOne(l, b, on, schema))[z] {
      JoinOneCount(l, a, on, schema, z);
      JoinOneCount(l, b, on, schema, z);
    }
  }

  lemma {:induction false} BagMembers(a: seq<Tuple>, b: seq<Tuple>)
    requires multiset(a) == multiset(b)
    ensures forall r :: r in a ==> r in b
  {
    forall r | r in a ensures r in b {
      assert r in multiset(a);
    }
  }

  /** One probe that succeeds gives the matches of the plain join, in some order. */
  lemma {:induction false} ProbeBag(site: Site, seek: SeekFn, l: Tuple, rs: seq<Tuple>)
    requires site.Resolves() && site.ErrorFree([l], rs) && BagSeek(site, seek, [l], rs) && |l| == |site.left|
    requires Succeeds(seek, site.Key(l))
    ensures multiset(site.Probed(l, seek)) == multiset(Outs(JoinOne(l, rs, site.on, site.Schema())))
  {
    hide Filter, JoinOne, Probe, FirstError;
    assert l in [l];
    var found, want := RowsBefore(seek(site.Key(l)).value), Filter(site.Test(site.Key(l)), rs);
    RowsAreOuts(seek(site.Key(l)).value);
    FilterSubset(site.Test(site.Key(l)), rs);
    BagMembers(found, want);
    ProbeIs(site, l, seek, found, rs);
    JoinOneBag(l, found, want, site.on, site.Schema());
    MatchesPassTest(site, l, rs);
    OutsBag(JoinOne(l, found, site.on, site.Schema()), JoinOne(l, want, site.on, site.Schema()));
  }

  lemma {:induction false} ErrorShows(l: Tuple, items: seq<Item>, on: Expr, schema: Schema)
    requires FirstError(items) < |items|
    ensures Error in ItemPairs(l, items, on, schema)
  {
    if items[0].Out? {
      ErrorShows(l, items[1..], on, schema);
    }
  }

  /** A probe that fails reports an error. */
  lemma {:induction false} ProbeFails(site: Site, seek: SeekFn, l: Tuple)
    requires site.Columns().Some? && |l| == |site.left| && !Succeeds(seek, site.Key(l))
    ensures Error in site.Probed(l, seek)
  {
    if seek(site.Key(l)).Some? {
      ErrorShows(l, seek(site.Key(l)).value, site.on, site.Schema());
    }
  }

  lemma {:induction false} IndexedBag(site: Site, seek: SeekFn, ls: seq<Tuple>, rs: seq<Tuple>)
    requires site.Resolves() && site.ErrorFree(ls, rs) && BagSeek(site, seek, ls, rs)
    ensures (forall l :: l in ls ==> Succeeds(seek, site.Key(l))) ==>
              multiset(site.Indexed(ls, seek)) == multiset(Outs(Join(ls, rs, site.on, site.Schema())))
    ensures (exists l :: l in ls && !Succeeds(seek, site.Key(l))) ==> Error in site.Indexed(ls, seek)
    decreases |ls|
  {
    hide Filter, JoinOne, EvalWhere, Probe, FirstError;
    if ls != [] {
      var l, s := ls[0], site.Schema();
      assert l in ls && l in [l];
      ErrorFreeParts(site, ls, rs);
      IndexedStep(site, ls, seek);
      IndexedBag(site, seek, ls[1..], rs);
      if Succeeds(seek, site.Key(l)) {
        ProbeBag(site, seek, l, rs);
      } else {
        ProbeFails(site, seek, l);
      }
      OutsConcat(JoinOne(l, rs, site.on, s), Join(ls[1..], rs, site.on, s));
    }
  }

  /** With any exact seek, in whatever order it returns its rows: the indexed join gives the
      bag of rows of the plain one if and only if no left row has a key on which the seek
      fails.  (The plain join reports no error and skips a NULL key.) */
  lemma {:induction false} IndexedJoinBagIff(site: Site, seek: SeekFn, ls: seq<Tuple>, rs: seq<Tuple>)
    requires site.Resolves() && site.ErrorFree(ls, rs) && BagSeek(site, seek, ls, rs)
    ensures multiset(site.Indexed(ls, seek)) == multiset(site.Plain(ls, rs))
            <==> forall l :: l in ls ==> Succeeds(seek, site.Key(l))
  {
    hide Succeeds, BagSeek, JoinItems, AllProbes;
    IndexedBag(site, seek, ls, rs);
    ItemsAreJoin(ls, rs, site.on, site.Schema());
    var plain := Outs(Join(ls, rs, site.on, site.Schema()));
    assert Error !in plain && Error !in multiset(plain);
    if exists l :: l in ls && !Succeeds(seek, site.Key(l)) {
      assert Error in multiset(site.Indexed(ls, seek));
    }
  }

  // ---------------------------------------------------------------------
  // The condition on the name is exact
  // ---------------------------------------------------------------------

  /** A row of the given width with the same integer everywhere. */
  function Constant(n: nat, v: Int64): (row: Tuple)
    ensures |row| == n && forall i :: 0 <= i < n ==> row[i] == Int(v)
  {
    seq(n, i => Int(v))
  }

  /** Whenever a left column does have the name of the right join column, some rows make the
      two joins differ: the plain one compares two left columns and keeps a pair that the seek
      skips. */
  lemma {:induction false} ShadowedColumnDiffers(site: Site, seek: SeekFn)
    requires site.Columns().Some? && !site.Resolves()
    requires ExactSeek(site, seek, [Constant(|site.left|, 1)], [Constant(|site.right|, 2)])
    ensures var l, r := Constant(|site.left|, 1), Constant(|site.right|, 2);
            && EvalWhere(Some(site.on), l + r, site.Schema()) == Some(true)
            && site.Plain([l], [r]) == [Out(l + r)]
            && site.Indexed([l], seek) == []
  {
    hide Site.Plain, Site.Indexed, Site.Test, Site.Key, EvalWhere;
    var l, r := Constant(|site.left|, 1), Constant(|site.right|, 2);
    ShadowedOn(site);
    PlainPair(site, l, r);
    ShadowedTest(site);
    MissedPair(site, seek, l, r);
  }

  lemma {:induction false} PlainPair(site: Site, l: Tuple, r: Tuple)
    requires EvalWhere(Some(site.on), l + r, site.Schema()) == Some(true)
    ensures site.Plain([l], [r]) == [Out(l + r)]
  {
    hide Join, JoinItems;
    ItemsAreJoin([l], [r], site.on, site.Schema());
    OnePair(l, r, site.on, site.Schema());
  }

  lemma {:induction false} ShadowedTest(site: Site)
    requires site.Columns().Some?
    ensures !site.Test(site.Key(Constant(|site.left|, 1)))(Constant(|site.right|, 2))
  {
  }

  lemma {:induction false} MissedPair(site: Site, seek: SeekFn, l: Tuple, r: Tuple)
    requires site.Columns().Some? && |l| == |site.left| && !site.Test(site.Key(l))(r) && ExactSeek(site, seek, [l], [r])
    ensures site.Indexed([l], seek) == []
  {
    hide Filter, Probe, AllProbes, Site.Test, Site.Key;
    assert l in [l];
    OneMissed(site.Test(site.Key(l)), r);
    IndexedStep(site, [l], seek);
    ProbeIs(site, l, seek, [], []);
    assert JoinOne(l, [], site.on, site.Schema()) == [];
    assert site.Indexed([l][1..], seek) == [] by { NoneIndexed(site, seek); }
  }

  lemma {:induction false} NoneIndexed(site: Site, seek: SeekFn)
    requires site.Columns().Some?
    ensures site.Indexed([], seek) == []
  {
  }

  lemma {:induction false} OnePair(l: Tuple, r: Tuple, on: Expr, schema: Schema)
    requires True(on, l + r, schema)
    ensures Join([l], [r], on, schema) == [l + r]
  {
    hide True;
    var ls, rs := [l], [r];
    assert ls[1..] == [] && rs[1..] == [];
    assert Join(ls, rs, on, schema) == JoinOne(l, rs, on, schema) + Join(ls[1..], rs, on, schema);
    assert JoinOne(l, rs, on, schema) == [l + r] + JoinOne(l, rs[1..], on, schema);
  }

  lemma {:induction false} OneMissed(p: Tuple -> bool, r: Tuple)
    requires !p(r)
    ensures Filter(p, [r]) == []
  {
    assert [r][1..] == [];
  }

  lemma {:induction false} ShadowedOn(site: Site)
    requires site.Columns().Some? && !site.Resolves()
    ensures EvalWhere(Some(site.on), Constant(|site.left|, 1) + Constant(|site.right|, 2), site.Schema()) == Some(true)
  {
    var c, on := site.Columns().value, site.on;
    var s, row := site.Schema(), Constant(|site.left|, 1) + Constant(|site.right|, 2);
    PrefixColumn(site.left, s, c.0);
    PrefixColumn(site.left, s, c.1);
    assert row[ColumnIndex(s, c.0)] == Int(1) && row[ColumnIndex(s, c.1)] == Int(1);
    assert Eval.Eval(on.left, row, s) == Some(Int(1)) && Eval.Eval(on.right, row, s) == Some(Int(1));
    assert Eval.Eval(on, row, s) == EvalBinary(OpEq, Int(1), Int(1));
  }
}
