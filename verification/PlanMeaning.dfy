/** What the parts of a SELECT plan do, one row at a time and errors included, and which
    conditions the planner recognises, in terms of the value of each expression alone. */
module PlanMeaning {
  import opened Core
  import opened Eval
  import opened Query
  import opened Joins
  import opened JoinPlans
  import opened SelectPlans

  // ---------------------------------------------------------------------
  // Joins
  // ---------------------------------------------------------------------

  /** What one right item adds for a left row: an error stays one; a pair is delivered, the left
      cells in front, when ON is true, dropped when ON is false or NULL, and otherwise an error. */
  function Contribution(l: Tuple, r: Item, on: Expr, schema: Schema): (items: seq<Item>) {
    if r.Error? then [Error]
    else
      var v := Eval.Eval(on, l + r.row, schema);
      if v == Some(Bool(true)) then [Out(l + r.row)]
      else if v.Some? && (v.value == Bool(false) || v.value.Null?) then []
      else [Error]
  }

  function Contributions(l: Tuple, rs: seq<Item>, on: Expr, schema: Schema): (items: seq<Item>) {
    if rs == [] then []
    else Contributions(l, rs[..|rs| - 1], on, schema) + Contribution(l, rs[|rs| - 1], on, schema)
  }

  /** The right items a left row meets; None when they cannot be had. */
  type Meets = Tuple -> Option<seq<Item>>

  function RowItems(l: Item, meets: Meets, on: Expr, schema: Schema): (items: seq<Item>) {
    if l.Error? || meets(l.row).None? then [Error] else Contributions(l.row, meets(l.row).value, on, schema)
  }

  /** A join: for every left item in turn, what the right items it meets contribute. */
  function Joined(ls: seq<Item>, meets: Meets, on: Expr, schema: Schema): (items: seq<Item>) {
    if ls == [] then [] else Joined(ls[..|ls| - 1], meets, on, schema) + RowItems(ls[|ls| - 1], meets, on, schema)
  }

  lemma {:induction false} ContributionsFromFront(l: Tuple, r: Item, rs: seq<Item>, on: Expr, schema: Schema)
    ensures Contributions(l, [r] + rs, on, schema) == Contribution(l, r, on, schema) + Contributions(l, rs, on, schema)
  {
    hide Contribution;
    var all := [r] + rs;
    if rs == [] {
      assert all[..0] == [];
    } else {
      var init := rs[..|rs| - 1];
      assert all[..|all| - 1] == [r] + init;
      ContributionsFromFront(l, r, init, on, schema);
    }
  }

  lemma {:induction false} JoinedFromFront(l: Item, ls: seq<Item>, meets: Meets, on: Expr, schema: Schema)
    ensures Joined([l] + ls, meets, on, schema) == RowItems(l, meets, on, schema) + Joined(ls, meets, on, schema)
  {
    hide RowItems;
    var all := [l] + ls;
    if ls == [] {
      assert all[..0] == [];
    } else {
      var init := ls[..|ls| - 1];
      assert all[..|all| - 1] == [l] + init;
      JoinedFromFront(l, init, meets, on, schema);
    }
  }

  lemma {:induction false} PairIsContribution(l: Tuple, r: Tuple, on: Expr, schema: Schema)
    ensures Pair(l, r, on, schema) == Contribution(l, Out(r), on, schema)
  {
    hide Eval.Eval;
  }

  lemma {:induction false} PairsAreContributions(l: Tuple, rs: seq<Tuple>, on: Expr, schema: Schema)
    ensures PairsOf(l, rs, on, schema) == Contributions(l, Outs(rs), on, schema)
  {
    hide Pair, Contribution;
    if rs != [] {
      PairIsContribution(l, rs[0], on, schema);
      PairsAreContributions(l, rs[1..], on, schema);
      ContributionsFromFront(l, Out(rs[0]), Outs(rs[1..]), on, schema);
      assert Outs(rs) == [Out(rs[0])] + Outs(rs[1..]);
    }
  }

  lemma {:induction false} ItemPairsAreContributions(l: Tuple, rs: seq<Item>, on: Expr, schema: Schema)
    ensures ItemPairs(l, rs, on, schema) == Contributions(l, rs, on, schema)
  {
    hide Pair, Contribution;
    if rs != [] {
      if rs[0].Out? {
        PairIsContribution(l, rs[0].row, on, schema);
        assert rs[0] == Out(rs[0].row);
      } else {
        ErrorStays(l, on, schema);
      }
      ItemPairsAreContributions(l, rs[1..], on, schema);
      ContributionsFromFront(l, rs[0], rs[1..], on, schema);
      assert rs == [rs[0]] + rs[1..];
    }
  }

  lemma {:induction false} ErrorStays(l: Tuple, on: Expr, schema: Schema)
    ensures Contribution(l, Error, on, schema) == [Error]
  {
  }

  /** Every left row meets all right rows. */
  function All(rs: seq<Tuple>): (m: Meets) {
    (_: Tuple) => Some(Outs(rs))
  }

  lemma {:induction false} PairsAreJoined(ls: seq<Item>, rs: seq<Tuple>, on: Expr, schema: Schema)
    ensures AllPairs(ls, rs, on, schema) == Joined(ls, All(rs), on, schema)
  {
    hide PairsOf, Contributions;
    if ls != [] {
      if ls[0].Out? {
        PairsAreContributions(ls[0].row, rs, on, schema);
      }
      PairsAreJoined(ls[1..], rs, on, schema);
      JoinedFromFront(ls[0], ls[1..], All(rs), on, schema);
      assert ls == [ls[0]] + ls[1..];
    }
  }

  /** The plain join: rows meet all right rows.  An error of the right child comes first, once,
      and reading goes on behind it. */
  lemma {:induction false} PlainIsJoined(ls: seq<Item>, rs: seq<Tuple>, more: seq<Item>, on: Expr, schema: Schema)
    ensures JoinItems(ls, Outs(rs), on, schema) == Joined(ls, All(rs), on, schema)
    ensures JoinItems(ls, Outs(rs) + [Error] + more, on, schema) == [Error] + JoinItems(ls, more, on, schema)
  {
    hide AllPairs, Joined;
    NoErrors(rs);
    PairsAreJoined(ls, rs, on, schema);
    var right := Outs(rs) + [Error] + more;
    assert right[|rs|] == Error && forall i :: 0 <= i < |rs| ==> right[i] == Out(rs[i]);
    assert right[|rs| + 1..] == more;
  }

  /** A row meets what the seek finds for its cell under the first column of that name. */
  function Sought(seek: SeekFn, column: string, leftSchema: Schema): (m: Meets) {
    (l: Tuple) =>
      var i := ColumnIndex(leftSchema, column);
      if 0 <= i < |l| then seek(l[i]) else None
  }

  lemma {:induction false} ProbeIsRow(l: Item, seek: SeekFn, column: string, leftSchema: Schema, on: Expr,
                                      schema: Schema)
    ensures (if l.Error? then [Error] else Probe(l.row, seek, column, leftSchema, on, schema))
            == RowItems(l, Sought(seek, column, leftSchema), on, schema)
  {
    hide ItemPairs, Contributions;
    if l.Out? {
      var key := Eval.Eval(ColumnRef("", column), l.row, leftSchema);
      if key.Some? && seek(key.value).Some? {
        ItemPairsAreContributions(l.row, seek(key.value).value, on, schema);
      }
    }
  }

  /** The indexed join: rows meet what the seek for their key finds. */
  lemma {:induction false} IndexedIsJoined(ls: seq<Item>, seek: SeekFn, column: string, leftSchema: Schema, on: Expr,
                                           schema: Schema)
    ensures AllProbes(ls, seek, column, leftSchema, on, schema)
            == Joined(ls, Sought(seek, column, leftSchema), on, schema)
  {
    hide Probe, RowItems;
    if ls != [] {
      ProbeIsRow(ls[0], seek, column, leftSchema, on, schema);
      IndexedIsJoined(ls[1..], seek, column, leftSchema, on, schema);
      JoinedFromFront(ls[0], ls[1..], Sought(seek, column, leftSchema), on, schema);
      assert ls == [ls[0]] + ls[1..];
    }
  }

  // ---------------------------------------------------------------------
  // Filters
  // ---------------------------------------------------------------------

  /** What the filter makes of one item: rows pass when there is no condition or it is true, are
      dropped when it is false or NULL, and anything else is an error. */
  function Sifted(e: Option<Expr>, item: Item, schema: Schema): (items: seq<Item>) {
    if item.Error? then [Error]
    else if e.None? then [item]
    else
      var v := Eval.Eval(e.value, item.row, schema);
      if v == Some(Bool(true)) then [item]
      else if v.Some? && (v.value == Bool(false) || v.value.Null?) then []
      else [Error]
  }

  /** The filter treats every item by itself, in order. */
  lemma {:induction false} FilterMeans(e: Option<Expr>, items: seq<Item>, last: Item, schema: Schema)
    ensures FilterItems(e, [], schema) == []
    ensures FilterItems(e, items + [last], schema) == FilterItems(e, items, schema) + Sifted(e, last, schema)
  {
    hide Eval.Eval;
    if items == [] {
      assert [] + [last] == [last] && [last][1..] == [];
    } else {
      assert (items + [last])[1..] == items[1..] + [last];
      FilterMeans(e, items[1..], last, schema);
    }
  }

  // ---------------------------------------------------------------------
  // Conditions
  // ---------------------------------------------------------------------

  /** The indexed equality is recognised exactly in the forms column = literal and literal =
      column, where the column is unqualified or qualified by the table. */
  lemma {:induction false} EqualityIff(e: Expr, table: string, column: string, key: Value)
    ensures EqualityColumnLiteral(e, table) == Some((column, key)) <==>
              exists t :: (t == "" || t == table) && IsEquality(e, ColumnRef(t, column), Literal(key))
  {
    if EqualityColumnLiteral(e, table) == Some((column, key)) {
      var c := if e.left.ColumnRef? && e.right.Literal? then e.left else e.right;
      assert IsEquality(e, ColumnRef(c.table, column), Literal(key));
    }
  }

  /** An equality of the two, in either order. */
  predicate IsEquality(e: Expr, x: Expr, y: Expr) {
    e == Binary(OpEq, x, y) || e == Binary(OpEq, y, x)
  }

  /** A column of the left schema and an indexed column of the right table. */
  ghost predicate Usable(site: Site, l: Expr, r: Expr) {
    && l.ColumnRef? && (exists i :: 0 <= i < |site.left| && site.left[i].name == l.name)
    && r.ColumnRef? && (exists i :: 0 <= i < |site.right| && site.right[i].name == r.name)
    && (site.table == "" || r.table == "" || r.table == site.table) && site.hasIndex(r.name)
  }

  /** An indexed join is chosen exactly for an equality of two such columns; if both ways fit,
      the left operand is the left column. */
  lemma {:induction false} IndexedJoinIff(site: Site, lc: string, rc: string)
    ensures site.Columns() == Some((lc, rc)) <==>
              && site.on.Binary? && site.on.op == OpEq
              && var a, b := site.on.left, site.on.right;
                 || (Usable(site, a, b) && lc == a.name && rc == b.name)
                 || (!Usable(site, a, b) && Usable(site, b, a) && lc == b.name && rc == a.name)
  {
    if site.on.Binary? {
      UsableIff(site, site.on.left, site.on.right);
      UsableIff(site, site.on.right, site.on.left);
      hide Usable;
    }
  }

  lemma {:induction false} UsableIff(site: Site, l: Expr, r: Expr)
    ensures site.JoinColumns(l, r) == if Usable(site, l, r) then Some((l.name, r.name)) else None
  {
    if l.ColumnRef? && r.ColumnRef? {
      var i, j := ColumnIndex(site.left, l.name), ColumnIndex(site.right, r.name);
    }
  }

  ghost predicate Flat(terms: seq<Expr>) {
    forall i :: 0 <= i < |terms| ==> !(terms[i].Binary? && terms[i].op == OpAnd)
  }

  /** Splitting leaves no conjunction, and splitting a combination of such terms gives them back
      in order. */
  lemma {:induction false} SplitIsFlat(e: Expr)
    ensures Flat(Split(e))
  {
    if e.Binary? && e.op == OpAnd {
      SplitIsFlat(e.left);
      SplitIsFlat(e.right);
    }
  }

  lemma {:induction false} SplitUndoesCombine(terms: seq<Expr>)
    requires terms != [] && Flat(terms)
    ensures Split(Combine(terms).value) == terms
    decreases |terms|
  {
    var init, last := terms[..|terms| - 1], terms[|terms| - 1];
    assert Split(last) == [last];
    if |terms| > 1 {
      SplitUndoesCombine(init);
      assert terms == init + [last];
    } else {
      assert terms == [last];
    }
  }
}
