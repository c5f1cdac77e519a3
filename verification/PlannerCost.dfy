/** The costs and estimates the optimizer compares, as plain arithmetic on the statistics. */
module PlannerCost {
  import opened Core
  import opened Planner
  import Eval
  import EvalMeaning

  // ---------------------------------------------------------------------
  // The cost of a plan as a sum
  // ---------------------------------------------------------------------

  /** The leftmost scan. */
  function First(p: Plan): (s: Plan)
    ensures s.Scan?
  {
    if p.Scan? then p else First(p.left)
  }

  /** The joins of a left-deep plan from the innermost to the outermost. */
  function Spine(p: Plan): (js: seq<Plan>)
    ensures forall i :: 0 <= i < |js| ==> js[i].Join?
  {
    if p.Scan? then [] else Spine(p.left) + [p]
  }

  /** Over all joins, the rows of the left side times the rows of the right side. */
  function Probes(js: seq<Plan>): (n: int)
    requires forall i :: 0 <= i < |js| ==> js[i].Join?
  {
    if js == [] then 0
    else
      var j := js[|js| - 1];
      Probes(js[..|js| - 1]) + j.left.rows * j.right.rows
  }

  /** What a left-deep plan costs: the rows of the first table, and for every join the rows on
      its left times the rows of the table on its right. */
  function Total(p: Plan): (n: int) {
    First(p).rows + Probes(Spine(p))
  }

  lemma {:induction false} CostIsTotal(p: Plan)
    requires LeftDeep(p)
    ensures Cost(p) == Total(p) as real
  {
    if p.Join? {
      CostIsTotal(p.left);
      var js := Spine(p);
      assert js[..|js| - 1] == Spine(p.left);
      assert Total(p) == Total(p.left) + p.left.rows * p.right.rows;
      RealProduct(p.left.rows, p.right.rows);
    }
  }

  lemma {:induction false} RealProduct(x: int, y: int)
    ensures (x * y) as real == (x as real) * (y as real)
  {
  }

  lemma {:induction false} SplitIsLeftDeep(q: Plan, stats: Stats, joins: seq<JoinClause>, ts: seq<string>, i: nat,
                                           k: nat)
    requires i < |ts| && k < |joins| && IsSplit(q, stats, joins, ts, i, k)
    ensures LeftDeep(q)
  {
    hide Best;
    BestIsLeftDeep(stats, joins, Without(ts, i));
  }

  // ---------------------------------------------------------------------
  // The choice
  // ---------------------------------------------------------------------

  /** The order in which the loops try right tables and clauses. */
  predicate Before(j: nat, c: nat, i: nat, k: nat) {
    j < i || (j == i && c < k)
  }

  ghost predicate Tried(q: Plan, stats: Stats, joins: seq<JoinClause>, ts: seq<string>, i: nat, k: nat) {
    i < |ts| && k < |joins| && IsSplit(q, stats, joins, ts, i, k)
  }

  /** Among the splits tried before (n, m), the one at (i, k) is the first of the cheapest. */
  ghost predicate Leads(p: Plan, stats: Stats, joins: seq<JoinClause>, ts: seq<string>, i: nat, k: nat, n: nat,
                        m: nat) {
    && Before(i, k, n, m) && Tried(p, stats, joins, ts, i, k) && Cost(p) < MAX_FLOAT
    && forall q, j: nat, c: nat :: Before(j, c, n, m) && Tried(q, stats, joins, ts, j, c) ==>
         Cost(p) <= Cost(q) && (Before(j, c, i, k) ==> Cost(p) < Cost(q))
  }

  /** The best of the splits tried before (n, m), none when none is worth considering. */
  ghost predicate BestSoFar(best: Option<Plan>, stats: Stats, joins: seq<JoinClause>, ts: seq<string>, n: nat,
                            m: nat) {
    if best.Some? then exists i: nat, k: nat :: Leads(best.value, stats, joins, ts, i, k, n, m)
    else forall q, j: nat, c: nat :: Before(j, c, n, m) && Tried(q, stats, joins, ts, j, c) ==> Cost(q) >= MAX_FLOAT
  }

  /** One more clause. */
  lemma {:induction false} NextClause(best: Option<Plan>, stats: Stats, joins: seq<JoinClause>, ts: seq<string>,
                                      n: nat, m: nat, q: Plan)
    requires BestSoFar(best, stats, joins, ts, n, m) && Tried(q, stats, joins, ts, n, m)
    ensures BestSoFar(Better(best, q), stats, joins, ts, n, m + 1)
  {
    hide Best, Cost;
    forall x | Tried(x, stats, joins, ts, n, m) ensures x == q {
    }
    hide IsSplit;
    if Better(best, q) == Some(q) && (best.None? || Cost(q) < Cost(best.value)) {
      assert Leads(q, stats, joins, ts, n, m, n, m + 1);
    } else if best.Some? {
      var i: nat, k: nat :| Leads(best.value, stats, joins, ts, i, k, n, m);
      assert Leads(best.value, stats, joins, ts, i, k, n, m + 1);
    }
  }

  /** A step over places where no split is tried. */
  lemma {:induction false} NothingTried(best: Option<Plan>, stats: Stats, joins: seq<JoinClause>, ts: seq<string>,
                                        n: nat, m: nat, n': nat, m': nat)
    requires BestSoFar(best, stats, joins, ts, n, m)
    requires forall q, j: nat, c: nat :: Tried(q, stats, joins, ts, j, c) ==>
               (Before(j, c, n, m) <==> Before(j, c, n', m'))
    ensures BestSoFar(best, stats, joins, ts, n', m')
  {
    hide Best, Cost, Before, IsSplit;
    if best.Some? {
      var i: nat, k: nat :| Leads(best.value, stats, joins, ts, i, k, n, m);
      assert Leads(best.value, stats, joins, ts, i, k, n', m');
    }
  }

  lemma {:induction false} ClausesInOrder(stats: Stats, joins: seq<JoinClause>, ts: seq<string>, n: nat, m: nat,
                                          l: Plan, best: Option<Plan>)
    requires n < |ts| && m <= |joins| && Best(stats, joins, Without(ts, n)) == Some(l)
    requires BestSoFar(best, stats, joins, ts, n, 0)
    ensures BestSoFar(TryClauses(stats, joins, l, AccessPath(stats, ts[n]), ts[n], m, best), stats, joins, ts, n, m)
  {
    hide Best, Cost, EstimateJoinSize, BestSoFar;
    if m > 0 {
      ClausesInOrder(stats, joins, ts, n, m - 1, l, best);
      var b := TryClauses(stats, joins, l, AccessPath(stats, ts[n]), ts[n], m - 1, best);
      if joins[m - 1].table == ts[n] {
        NextClause(b, stats, joins, ts, n, m - 1, JoinPlan(stats, l, AccessPath(stats, ts[n]), joins[m - 1].on));
      } else {
        NothingTried(b, stats, joins, ts, n, m - 1, n, m);
      }
    }
  }

  lemma {:induction false} SplitsInOrder(stats: Stats, joins: seq<JoinClause>, ts: seq<string>, n: nat)
    requires n <= |ts|
    ensures BestSoFar(TrySplits(stats, joins, ts, n), stats, joins, ts, n, 0)
  {
    hide Best, Cost, TryClauses;
    if n > 0 {
      SplitsInOrder(stats, joins, ts, n - 1);
      var b, l := TrySplits(stats, joins, ts, n - 1), Best(stats, joins, Without(ts, n - 1));
      hide BestSoFar;
      if l.Some? {
        ClausesInOrder(stats, joins, ts, n - 1, |joins|, l.value, b);
        NothingTried(TrySplits(stats, joins, ts, n), stats, joins, ts, n - 1, |joins|, n, 0);
      } else {
        NothingTried(b, stats, joins, ts, n - 1, 0, n, 0);
      }
    }
  }

  /** A plan is one of the splits that join one table to the plan chosen for the others; none of
      these has a smaller sum, and those that are tried before it have larger ones. */
  ghost predicate FirstLeast(p: Plan, stats: Stats, joins: seq<JoinClause>, ts: seq<string>) {
    exists i: nat, k: nat :: FirstLeastAt(p, stats, joins, ts, i, k)
  }

  ghost predicate FirstLeastAt(p: Plan, stats: Stats, joins: seq<JoinClause>, ts: seq<string>, i: nat, k: nat) {
    && Tried(p, stats, joins, ts, i, k)
    && forall q, j: nat, c: nat :: Tried(q, stats, joins, ts, j, c) ==>
         Total(p) <= Total(q) && (Before(j, c, i, k) ==> Total(p) < Total(q))
  }

  /** The chosen plan is the first of the splits with the least sum. */
  lemma {:induction false} ChosenIsFirstLeast(stats: Stats, joins: seq<JoinClause>, ts: seq<string>)
    requires |ts| >= 2 && Best(stats, joins, ts).Some?
    ensures FirstLeast(Best(stats, joins, ts).value, stats, joins, ts)
  {
    SplitsInOrder(stats, joins, ts, |ts|);
    var p := Best(stats, joins, ts).value;
    hide Best, LeftDeep, Cost, Total, IsSplit;
    var i: nat, k: nat :| Leads(p, stats, joins, ts, i, k, |ts|, 0);
    SplitIsLeftDeep(p, stats, joins, ts, i, k);
    CostIsTotal(p);
    forall q, j: nat, c: nat | Tried(q, stats, joins, ts, j, c)
      ensures Total(p) <= Total(q) && (Before(j, c, i, k) ==> Total(p) < Total(q))
    {
      SplitIsLeftDeep(q, stats, joins, ts, j, c);
      CostIsTotal(q);
    }
    assert FirstLeastAt(p, stats, joins, ts, i, k);
  }

  // ---------------------------------------------------------------------
  // The row counts in it
  // ---------------------------------------------------------------------

  /** The row count of a table, 0 for one without statistics. */
  ghost predicate HasRows(stats: Stats, table: string, n: int) {
    n == if table in stats then stats[table].rowCount else 0
  }

  /** The distinct values of a column, 1 when they are unknown or not positive. */
  ghost predicate HasDistinct(stats: Stats, table: string, column: string, d: int) {
    d == if table in stats && column in stats[table].distinct && stats[table].distinct[column] > 0
         then stats[table].distinct[column] else 1
  }

  /** The condition is a binary one with a column on its left. */
  predicate OnColumn(on: Option<Expr>) {
    on.Some? && on.value.Binary? && on.value.left.ColumnRef?
  }

  /** Without such a column the estimate is the product of the row counts, up to a multiple of
      2^64 and exactly when it fits. */
  lemma {:induction false} CrossEstimate(stats: Stats, left: string, right: string, on: Option<Expr>, l: int, r: int)
    requires HasRows(stats, left, l) && HasRows(stats, right, r) && !OnColumn(on)
    ensures EvalMeaning.Congruent(EstimateJoinSize(stats, left, right, on), l * r)
    ensures EvalMeaning.InRange(l * r) ==> EstimateJoinSize(stats, left, right, on) == l * r
  {
    EvalMeaning.WrapMeans(l * r);
  }

  /** a divided by d, rounded toward zero, is n. */
  ghost predicate DividesTo(a: int, d: int, n: int) {
    && (a >= 0 ==> n * d <= a < n * d + d)
    && (a <= 0 ==> n * d - d < a <= n * d)
  }

  /** With a column, the product, in the 64-bit range, is divided by the larger number of
      distinct values, rounding toward zero. */
  lemma {:induction false} ColumnEstimate(stats: Stats, left: string, right: string, on: Option<Expr>, l: int, r: int,
                                          x: int, y: int)
    requires HasRows(stats, left, l) && HasRows(stats, right, r) && OnColumn(on)
    requires HasDistinct(stats, left, on.value.left.name, x) && HasDistinct(stats, right, on.value.left.name, y)
    ensures x >= 1 && y >= 1
    ensures exists w: Int64 ::
              && EvalMeaning.Congruent(w, l * r) && (EvalMeaning.InRange(l * r) ==> w == l * r)
              && DividesTo(w, if x >= y then x else y, EstimateJoinSize(stats, left, right, on))
  {
    EvalMeaning.WrapMeans(l * r);
    QuotientMeans(Eval.Wrap(l * r), if x >= y then x else y);
  }

  lemma {:induction false} QuotientMeans(a: int, b: int)
    requires b >= 1
    ensures DividesTo(a, b, Quotient(a, b))
  {
    var m := if a >= 0 then a else -a;
    var q, r := m / b, m % b;
    assert m == b * q + r && 0 <= r < b;
    if a >= 0 {
      assert Quotient(a, b) == q;
      assert q * b == b * q;
    } else {
      assert Quotient(a, b) == -q;
      assert (-q) * b == -(b * q);
    }
  }

  /** In a chosen plan every scan carries the row count of its table, and every join the
      estimate for the table on its right and the single table on its left, if it is one; a
      joined left side counts as a table of no rows. */
  ghost predicate Estimated(p: Plan, stats: Stats) {
    match p
    case Scan(t, n) => HasRows(stats, t, n)
    case Join(l, r, n, on) =>
      && Estimated(l, stats) && Estimated(r, stats) && r.Scan?
      && n == EstimateJoinSize(stats, if l.Scan? then l.table else "", r.table, on)
  }

  lemma {:induction false} ChosenIsEstimated(stats: Stats, joins: seq<JoinClause>, ts: seq<string>)
    requires Best(stats, joins, ts).Some?
    ensures Estimated(Best(stats, joins, ts).value, stats)
    decreases |ts|
  {
    if |ts| >= 2 {
      hide EstimateJoinSize, TrySplits;
      BestIsCheapestSplit(stats, joins, ts);
      var p := Best(stats, joins, ts).value;
      var i, k :| 0 <= i < |ts| && 0 <= k < |joins| && IsSplit(p, stats, joins, ts, i, k);
      ChosenIsEstimated(stats, joins, Without(ts, i));
    }
  }

  /** Two tables: an order costs the rows of its first table and the product of the two. */
  lemma {:induction false} TwoTables(stats: Stats, joins: seq<JoinClause>, ts: seq<string>, p: Plan, x: int, y: int)
    requires Best(stats, joins, ts) == Some(p) && LeftDeep(p) && |Leaves(p)| == 2
    requires HasRows(stats, Leaves(p)[0], x) && HasRows(stats, Leaves(p)[1], y)
    ensures Total(p) == x + x * y
  {
    ChosenIsEstimated(stats, joins, ts);
    hide Best, EstimateJoinSize;
    LeafCount(p);
    LeafCount(p.left);
    assert p.left.Scan? && p.right.Scan?;
    assert Leaves(p) == [p.left.table, p.right.table];
    assert p.left.rows == x && p.right.rows == y;
    assert First(p) == p.left;
    assert Spine(p.left) == [] && Spine(p) == [p];
    assert [p][..0] == [];
    assert Probes([p]) == p.left.rows * p.right.rows;
  }

  lemma {:induction false} LeafCount(p: Plan)
    requires LeftDeep(p)
    ensures p.Join? ==> |Leaves(p)| == |Leaves(p.left)| + 1
    ensures |Leaves(p)| >= 1 && (|Leaves(p)| == 1 <==> p.Scan?)
  {
    if p.Join? {
      LeafCount(p.left);
    }
  }
}
