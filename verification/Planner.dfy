/** Join ordering by dynamic programming over table subsets: plans, costs and the plain
    recursion that the memo table computes. */
module Planner {
  import opened Core
  import opened Sequences
  import Eval

  // ---------------------------------------------------------------------
  // Plans and estimates
  // ---------------------------------------------------------------------

  datatype Plan =
    | Scan(table: string, rows: Int64)
    | Join(left: Plan, right: Plan, rows: Int64, on: Option<Expr>)

  datatype TableStats = TableStats(rowCount: Int64, distinct: map<string, Int64>)

  type Stats = map<string, TableStats>

  /** A missing map entry reads as the zero value. */
  function StatsOf(stats: Stats, table: string): TableStats {
    if table in stats then stats[table] else TableStats(0, map[])
  }

  /** A join plan carries no table name. */
  function TableOf(p: Plan): string {
    if p.Scan? then p.table else ""
  }

  function DistinctOf(s: TableStats, column: string): (d: Int64)
    ensures d >= 1
  {
    if column in s.distinct && s.distinct[column] > 0 then s.distinct[column] else 1
  }

  /** Integer division that truncates toward zero. */
  function Quotient(a: int, b: int): (q: int)
    requires b >= 1
    ensures (if a <= 0 then a else 0) <= q <= (if a >= 0 then a else 0)
  {
    if a >= 0 then
      QuotientBound(a, b);
      a / b
    else
      QuotientBound(0 - a, b);
      0 - (0 - a) / b
  }

  lemma {:induction false} QuotientBound(a: nat, b: nat)
    requires b >= 1
    ensures 0 <= a / b <= a
  {
    var q := a / b;
    var r := a % b;
    assert a == b * q + r;
    Larger(b, q);
  }

  lemma {:induction false} Larger(b: nat, q: nat)
    requires b >= 1
    ensures b * q >= q
  {
    assert b * q == (b - 1) * q + q;
  }

  /** EstimateJoinSize, in wrapping 64-bit arithmetic. */
  function EstimateJoinSize(stats: Stats, left: string, right: string, on: Option<Expr>): (n: Int64) {
    var l, r := StatsOf(stats, left), StatsOf(stats, right);
    var product := Eval.Wrap(l.rowCount * r.rowCount);
    if on.None? || !on.value.Binary? || !on.value.left.ColumnRef? then product
    else
      var column := on.value.left.name;
      var x, y := DistinctOf(l, column), DistinctOf(r, column);
      Quotient(product, if y > x then y else x)
  }

  /** CostPlan, with real arithmetic in place of floating point. */
  function Cost(p: Plan): real {
    match p
    case Scan(_, n) => n as real
    case Join(l, r, _, _) => Cost(l) + (l.rows as real) * Cost(r)
  }

  /** 2 to the 243rd */
  const HUGE: int := 0x8000000000000000000000000000000000000000000000000000000000000

  /** math.MaxFloat64: (2^53 - 1) * 2^971 */
  const MAX_FLOAT: real := (0x1F_FFFF_FFFF_FFFF * HUGE * HUGE * HUGE * (HUGE / 2)) as real

  function AccessPath(stats: Stats, table: string): Plan {
    Scan(table, StatsOf(stats, table).rowCount)
  }

  function JoinPlan(stats: Stats, l: Plan, r: Plan, on: Expr): Plan {
    Join(l, r, EstimateJoinSize(stats, TableOf(l), TableOf(r), Some(on)), Some(on))
  }

  // ---------------------------------------------------------------------
  // The recursion behind the memo table
  // ---------------------------------------------------------------------

  function Without(ts: seq<string>, i: nat): (r: seq<string>)
    requires i < |ts|
    ensures |r| == |ts| - 1
  {
    ts[..i] + ts[i + 1..]
  }

  /** The cheaper of the best plan so far and a new one; the earlier wins a tie. */
  function Better(best: Option<Plan>, p: Plan): (r: Option<Plan>) {
    if Cost(p) < (if best.Some? then Cost(best.value) else MAX_FLOAT) then Some(p) else best
  }

  /** The best over the first k join clauses for one split. */
  function TryClauses(stats: Stats, joins: seq<JoinClause>, l: Plan, r: Plan, right: string, k: nat,
                      best: Option<Plan>): (p: Option<Plan>)
    requires k <= |joins|
  {
    if k == 0 then best
    else
      var b := TryClauses(stats, joins, l, r, right, k - 1, best);
      if joins[k - 1].table == right then Better(b, JoinPlan(stats, l, r, joins[k - 1].on)) else b
  }

  /** The best over the splits that take one of the first i tables as the right side. */
  function TrySplits(stats: Stats, joins: seq<JoinClause>, ts: seq<string>, i: nat): (p: Option<Plan>)
    requires i <= |ts|
    decreases |ts|, i
  {
    if i == 0 then None
    else
      var b, l := TrySplits(stats, joins, ts, i - 1), Best(stats, joins, Without(ts, i - 1));
      if l.None? then b
      else TryClauses(stats, joins, l.value, AccessPath(stats, ts[i - 1]), ts[i - 1], |joins|, b)
  }

  /** The plan chosen for a list of tables. */
  function Best(stats: Stats, joins: seq<JoinClause>, ts: seq<string>): (p: Option<Plan>)
    decreases |ts|, |ts| + 1
  {
    if ts == [] then None
    else if |ts| == 1 then Some(AccessPath(stats, ts[0]))
    else TrySplits(stats, joins, ts, |ts|)
  }

  // ---------------------------------------------------------------------
  // What the recursion promises
  // ---------------------------------------------------------------------

  /** The tables of a plan from left to right. */
  function Leaves(p: Plan): (ts: seq<string>)
    ensures ts != []
  {
    if p.Scan? then [p.table] else Leaves(p.left) + Leaves(p.right)
  }

  ghost predicate LeftDeep(p: Plan) {
    p.Scan? || (LeftDeep(p.left) && p.right.Scan?)
  }

  /** Every predicate is the ON of a clause for the table on its right. */
  ghost predicate OnRight(p: Plan, joins: seq<JoinClause>) {
    p.Join? ==> OnRight(p.left, joins) && p.right.Scan?
                && exists k :: 0 <= k < |joins| && joins[k].table == p.right.table && p.on == Some(joins[k].on)
  }

  /** Joins one table of ts to the best plan of the others. */
  ghost predicate IsSplit(p: Plan, stats: Stats, joins: seq<JoinClause>, ts: seq<string>, i: nat, k: nat)
    requires i < |ts| && k < |joins|
  {
    var l := Best(stats, joins, Without(ts, i));
    l.Some? && joins[k].table == ts[i] && p == JoinPlan(stats, l.value, AccessPath(stats, ts[i]), joins[k].on)
  }

  ghost predicate SomeSplit(p: Plan, stats: Stats, joins: seq<JoinClause>, ts: seq<string>) {
    exists i, k :: 0 <= i < |ts| && 0 <= k < |joins| && IsSplit(p, stats, joins, ts, i, k)
  }

  /** No dearer than p, if p is worth considering at all. */
  ghost predicate Beats(best: Option<Plan>, p: Plan) {
    Cost(p) < MAX_FLOAT ==> best.Some? && Cost(best.value) <= Cost(p)
  }

  lemma {:induction false} ClausesCheapest(stats: Stats, joins: seq<JoinClause>, ts: seq<string>, i: nat, k: nat,
                                           l: Plan, best: Option<Plan>)
    requires i < |ts| && k <= |joins| && Best(stats, joins, Without(ts, i)) == Some(l)
    requires best.Some? ==> SomeSplit(best.value, stats, joins, ts) && Cost(best.value) < MAX_FLOAT
    ensures var p := TryClauses(stats, joins, l, AccessPath(stats, ts[i]), ts[i], k, best);
            && (p.Some? ==> SomeSplit(p.value, stats, joins, ts) && Cost(p.value) < MAX_FLOAT)
            && (best.Some? ==> p.Some? && Cost(p.value) <= Cost(best.value))
            && forall q, c :: 0 <= c < k && IsSplit(q, stats, joins, ts, i, c) ==> Beats(p, q)
  {
    hide Best, Cost, EstimateJoinSize;
    if k > 0 {
      ClausesCheapest(stats, joins, ts, i, k - 1, l, best);
      if joins[k - 1].table == ts[i] {
        var q := JoinPlan(stats, l, AccessPath(stats, ts[i]), joins[k - 1].on);
        assert IsSplit(q, stats, joins, ts, i, k - 1);
      }
    }
  }

  lemma {:induction false} SplitsCheapest(stats: Stats, joins: seq<JoinClause>, ts: seq<string>, i: nat)
    requires i <= |ts|
    ensures var p := TrySplits(stats, joins, ts, i);
            && (p.Some? ==> SomeSplit(p.value, stats, joins, ts) && Cost(p.value) < MAX_FLOAT)
            && forall q, j, c :: 0 <= j < i && 0 <= c < |joins| && IsSplit(q, stats, joins, ts, j, c) ==> Beats(p, q)
  {
    hide Best, Cost, TryClauses;
    if i > 0 {
      SplitsCheapest(stats, joins, ts, i - 1);
      var l := Best(stats, joins, Without(ts, i - 1));
      if l.Some? {
        ClausesCheapest(stats, joins, ts, i - 1, |joins|, l.value, TrySplits(stats, joins, ts, i - 1));
      }
    }
  }

  /** The chosen plan is one of the one-table splits over the best plans of the parts, and
      none of these costs less. */
  lemma {:induction false} BestIsCheapestSplit(stats: Stats, joins: seq<JoinClause>, ts: seq<string>)
    requires |ts| >= 2
    ensures var p := Best(stats, joins, ts);
            && (p.Some? ==> SomeSplit(p.value, stats, joins, ts))
            && forall q :: SomeSplit(q, stats, joins, ts) && Cost(q) < MAX_FLOAT ==> p.Some? && Cost(p.value) <= Cost(q)
  {
    SplitsCheapest(stats, joins, ts, |ts|);
    hide TrySplits, Cost, IsSplit;
    var p := Best(stats, joins, ts);
    forall q | SomeSplit(q, stats, joins, ts) && Cost(q) < MAX_FLOAT ensures p.Some? && Cost(p.value) <= Cost(q) {
      var i, k :| 0 <= i < |ts| && 0 <= k < |joins| && IsSplit(q, stats, joins, ts, i, k);
      assert Beats(p, q);
    }
  }

  lemma {:induction false} WithoutBag(ts: seq<string>, i: nat)
    requires i < |ts|
    ensures multiset(ts) == multiset(Without(ts, i)) + multiset{ts[i]}
  {
    assert ts == ts[..i] + [ts[i]] + ts[i + 1..];
  }

  /** A chosen plan is left-deep, joins each table once and uses each predicate as the ON of
      the table on its right. */
  lemma {:induction false} BestIsLeftDeep(stats: Stats, joins: seq<JoinClause>, ts: seq<string>)
    requires Best(stats, joins, ts).Some?
    ensures var p := Best(stats, joins, ts).value;
            LeftDeep(p) && OnRight(p, joins) && multiset(Leaves(p)) == multiset(ts)
    decreases |ts|
  {
    if |ts| >= 2 {
      BestIsCheapestSplit(stats, joins, ts);
      var p := Best(stats, joins, ts).value;
      var i, k :| 0 <= i < |ts| && 0 <= k < |joins| && IsSplit(p, stats, joins, ts, i, k);
      BestIsLeftDeep(stats, joins, Without(ts, i));
      WithoutBag(ts, i);
      assert joins[k].table == p.right.table;
    } else {
      assert ts == [ts[0]];
    }
  }

  /** The FROM table, which no clause joins, is the leftmost leaf. */
  lemma {:induction false} FromIsLeftmost(stats: Stats, joins: seq<JoinClause>, ts: seq<string>, from: string)
    requires Best(stats, joins, ts).Some? && from in ts
    requires forall k :: 0 <= k < |joins| ==> joins[k].table != from
    ensures Leaves(Best(stats, joins, ts).value)[0] == from
    decreases |ts|
  {
    if |ts| >= 2 {
      BestIsCheapestSplit(stats, joins, ts);
      var p := Best(stats, joins, ts).value;
      var i, k :| 0 <= i < |ts| && 0 <= k < |joins| && IsSplit(p, stats, joins, ts, i, k);
      assert from in Without(ts, i);
      FromIsLeftmost(stats, joins, Without(ts, i), from);
    }
  }

  // ----- costs stay far below the start value of the minimum -----

  lemma {:induction false} TimesMonotone(x: real, y: real, z: real)
    requires x >= 0.0 && y <= z
    ensures x * y <= x * z && y * x <= z * x
  {
    assert x * (z - y) >= 0.0;
  }

  lemma {:induction false} ProductBound(x: real, y: real, b: real)
    requires -b <= x <= b && -b <= y <= b
    ensures x * y <= b * b
  {
    if x >= 0.0 {
      calc {
        x * y;
      <= { TimesMonotone(x, y, b); }
        x * b;
      <= { TimesMonotone(b, x, b); }
        b * b;
      }
    } else {
      var u, v := -x, -y;
      calc {
        x * y;
      ==
        u * v;
      <= { TimesMonotone(u, v, b); }
        u * b;
      <= { TimesMonotone(b, u, b); }
        b * b;
      }
    }
  }

  const BOUND: real := 9223372036854775808.0

  lemma {:induction false} CostBound(p: Plan)
    requires LeftDeep(p)
    ensures Cost(p) <= (|Leaves(p)| as real) * (BOUND * BOUND)
  {
    if p.Join? {
      CostBound(p.left);
      ProductBound(p.left.rows as real, Cost(p.right), BOUND);
      var n := |Leaves(p.left)| as real;
      assert |Leaves(p)| as real == n + 1.0;
      assert (n + 1.0) * (BOUND * BOUND) == n * (BOUND * BOUND) + BOUND * BOUND;
    } else {
      assert BOUND * BOUND == 85070591730234615865843651857942052864.0;
      assert |Leaves(p)| as real == 1.0;
    }
  }

  /** Every table is the FROM table or is joined by some clause. */
  ghost predicate Joinable(joins: seq<JoinClause>, ts: seq<string>, from: string) {
    forall i :: 0 <= i < |ts| ==> ts[i] == from || exists k :: 0 <= k < |joins| && joins[k].table == ts[i]
  }

  lemma {:induction false} WithoutKeeps(joins: seq<JoinClause>, ts: seq<string>, from: string, i: nat)
    requires i < |ts| && Joinable(joins, ts, from) && Distinct(ts)
    ensures Joinable(joins, Without(ts, i), from) && Distinct(Without(ts, i))
  {
    var w := Without(ts, i);
    assert forall j :: 0 <= j < |w| ==> w[j] == ts[if j < i then j else j + 1];
  }

  /** Every list of at most 62 distinct tables of a query gets a plan. */
  lemma {:induction false} BestIsTotal(stats: Stats, joins: seq<JoinClause>, ts: seq<string>, from: string)
    requires 1 <= |ts| <= 62 && Distinct(ts) && Joinable(joins, ts, from)
    ensures Best(stats, joins, ts).Some?
    decreases |ts|
  {
    if |ts| >= 2 {
      var i := if ts[0] == from then 1 else 0;
      assert ts[i] != from;
      var k :| 0 <= k < |joins| && joins[k].table == ts[i];
      WithoutKeeps(joins, ts, from, i);
      BestIsTotal(stats, joins, Without(ts, i), from);
      SplitIsAffordable(stats, joins, ts, i, k);
      BestIsCheapestSplit(stats, joins, ts);
    }
  }

  lemma {:induction false} SplitIsAffordable(stats: Stats, joins: seq<JoinClause>, ts: seq<string>, i: nat, k: nat)
    requires 2 <= |ts| <= 62 && i < |ts| && k < |joins| && joins[k].table == ts[i]
    requires Best(stats, joins, Without(ts, i)).Some?
    ensures var q := JoinPlan(stats, Best(stats, joins, Without(ts, i)).value, AccessPath(stats, ts[i]), joins[k].on);
            SomeSplit(q, stats, joins, ts) && Cost(q) < MAX_FLOAT
  {
    hide EstimateJoinSize;
    var l := Best(stats, joins, Without(ts, i)).value;
    var q := JoinPlan(stats, l, AccessPath(stats, ts[i]), joins[k].on);
    assert IsSplit(q, stats, joins, ts, i, k);
    BestIsLeftDeep(stats, joins, Without(ts, i));
    hide Best;
    CostBound(q);
    assert |multiset(Leaves(l))| == |multiset(Without(ts, i))|;
    assert |Leaves(q)| <= 62;
    SixtyTwo(|Leaves(q)|);
  }

  lemma {:induction false} SixtyTwo(n: nat)
    requires n <= 62
    ensures (n as real) * (BOUND * BOUND) < MAX_FLOAT
  {
    assert BOUND * BOUND == 85070591730234615865843651857942052864.0;
    assert (n as real) * (BOUND * BOUND) <= 62.0 * (BOUND * BOUND);
  }

  /** The estimate of a join whose left side is itself a join is 0 rows, so from the fourth
      table on the order no longer changes the cost. */
  lemma {:induction false} UpperJoinsAreFree(stats: Stats, joins: seq<JoinClause>, ts: seq<string>)
    requires |ts| >= 4 && Best(stats, joins, ts).Some? && "" !in stats
    ensures var p := Best(stats, joins, ts).value; p.Join? && p.rows == 0 && Cost(p) == Cost(p.left)
    decreases |ts|
  {
    JoinOverJoin(stats, joins, ts);
    var p := Best(stats, joins, ts).value;
    var i, k :| 0 <= i < |ts| && 0 <= k < |joins| && IsSplit(p, stats, joins, ts, i, k);
    JoinOverJoin(stats, joins, Without(ts, i));
  }

  lemma {:induction false} JoinOverJoin(stats: Stats, joins: seq<JoinClause>, ts: seq<string>)
    requires |ts| >= 3 && Best(stats, joins, ts).Some? && "" !in stats
    ensures var p := Best(stats, joins, ts).value; p.Join? && p.rows == 0 && SomeSplit(p, stats, joins, ts)
  {
    BestIsCheapestSplit(stats, joins, ts);
    var p := Best(stats, joins, ts).value;
    var i, k :| 0 <= i < |ts| && 0 <= k < |joins| && IsSplit(p, stats, joins, ts, i, k);
    BestIsCheapestSplit(stats, joins, Without(ts, i));
    assert p.left.Join?;
    assert StatsOf(stats, TableOf(p.left)).rowCount == 0;
    ZeroEstimate(stats, TableOf(p.right), p.on);
  }

  lemma {:induction false} ZeroEstimate(stats: Stats, right: string, on: Option<Expr>)
    requires "" !in stats
    ensures EstimateJoinSize(stats, "", right, on) == 0
  {
    assert 0 * StatsOf(stats, right).rowCount == 0;
  }
}
