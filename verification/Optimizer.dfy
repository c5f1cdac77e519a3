/** The optimizer's loops: the memo table filled by growing subset size holds exactly the
    plans of the plain recursion. */
module Optimizer {
  import opened Core
  import opened Subsets
  import opened Planner
  import opened PlannerCost
  import opened Sequences

  type Memo = map<string, Plan>

  /** The memo agrees with the recursion on one list of tables. */
  ghost predicate Agrees(stats: Stats, joins: seq<JoinClause>, memo: Memo, ts: seq<string>) {
    var p := Best(stats, joins, ts);
    (Key(ts) in memo <==> p.Some?) && (p.Some? ==> memo[Key(ts)] == p.value)
  }

  method AllBut(subset: seq<string>, i: nat) returns (left: seq<string>)
    requires i < |subset|
    ensures left == Without(subset, i)
  {
    left := [];
    for j := 0 to |subset|
      invariant left == if j <= i then subset[..j] else subset[..i] + subset[i + 1..j]
    {
      if j != i {
        left := left + [subset[j]];
      }
    }
  }

  /** One split: every clause for the right table is tried against the best so far. */
  method TryRight(stats: Stats, joins: seq<JoinClause>, l: Plan, r: Plan, right: string, best: Option<Plan>,
                  bestCost: real)
    returns (best': Option<Plan>, bestCost': real)
    requires bestCost == if best.Some? then Cost(best.value) else MAX_FLOAT
    ensures best' == TryClauses(stats, joins, l, r, right, |joins|, best)
    ensures bestCost' == if best'.Some? then Cost(best'.value) else MAX_FLOAT
  {
    best', bestCost' := best, bestCost;
    for k := 0 to |joins|
      invariant best' == TryClauses(stats, joins, l, r, right, k, best)
      invariant bestCost' == if best'.Some? then Cost(best'.value) else MAX_FLOAT
    {
      if joins[k].table == right {
        var p := JoinPlan(stats, l, r, joins[k].on);
        if Cost(p) < bestCost' {
          best', bestCost' := Some(p), Cost(p);
        }
      }
    }
  }

  method FindBestJoinForSubset(stats: Stats, joins: seq<JoinClause>, subset: seq<string>, memo: Memo)
    returns (best: Option<Plan>)
    requires |subset| >= 2 ==> forall i :: 0 <= i < |subset| ==>
               Agrees(stats, joins, memo, [subset[i]]) && Agrees(stats, joins, memo, Without(subset, i))
    ensures best == if |subset| < 2 then None else Best(stats, joins, subset)
  {
    hide Key, TryClauses;
    best := None;
    if |subset| < 2 {
      return;
    }
    var bestCost := MAX_FLOAT;
    for i := 0 to |subset|
      invariant best == TrySplits(stats, joins, subset, i)
      invariant bestCost == if best.Some? then Cost(best.value) else MAX_FLOAT
    {
      assert Agrees(stats, joins, memo, [subset[i]]) && Agrees(stats, joins, memo, Without(subset, i));
      var rightKey := SubsetKey([subset[i]]);
      if rightKey in memo {
        var left := AllBut(subset, i);
        var leftKey := SubsetKey(left);
        if leftKey in memo {
          best, bestCost := TryRight(stats, joins, memo[leftKey], memo[rightKey], subset[i], best, bestCost);
        }
      }
    }
  }

  // ---------------------------------------------------------------------
  // The memo table
  // ---------------------------------------------------------------------

  /** The memo agrees with the recursion on the subsets done, and has no entry for the others. */
  ghost predicate Covers(stats: Stats, joins: seq<JoinClause>, ts: seq<string>, memo: Memo, done: set<nat>) {
    forall m :: 0 < m < Pow2(|ts|) ==>
      if m in done then Agrees(stats, joins, memo, Pick(ts, m)) else Key(Pick(ts, m)) !in memo
  }

  lemma {:induction false} DifferentKeys(ts: seq<string>, m: nat, k: nat)
    requires Distinct(ts) && CommaFree(ts) && m < Pow2(|ts|) && k < Pow2(|ts|) && m != k
    ensures Key(Pick(ts, m)) != Key(Pick(ts, k))
  {
    hide Key;
    var a, b := Pick(ts, m), Pick(ts, k);
    PickCommaFree(ts, m);
    PickCommaFree(ts, k);
    KeyIdentifies(a, b);
    MaskOfPick(ts, m);
    MaskOfPick(ts, k);
    if multiset(a) == multiset(b) {
      SameElems(a, b);
    }
  }

  lemma {:induction false} SameElems(a: seq<string>, b: seq<string>)
    requires multiset(a) == multiset(b)
    ensures Elems(a) == Elems(b)
  {
    assert forall x :: x in Elems(a) <==> x in multiset(a);
    assert forall x :: x in Elems(b) <==> x in multiset(b);
  }

  lemma {:induction false} PickCommaFree(ts: seq<string>, m: nat)
    requires CommaFree(ts)
    ensures CommaFree(Pick(ts, m))
  {
    if ts != [] {
      PickCommaFree(ts[1..], m / 2);
    }
  }

  /** Storing the plan of one more subset. */
  lemma {:induction false} CoverOneMore(stats: Stats, joins: seq<JoinClause>, ts: seq<string>, memo: Memo,
                                        done: set<nat>, m: nat, memo': Memo)
    requires Distinct(ts) && CommaFree(ts) && Covers(stats, joins, ts, memo, done) && 0 < m < Pow2(|ts|) && m !in done
    requires var p := Best(stats, joins, Pick(ts, m));
             memo' == if p.Some? then memo[Key(Pick(ts, m)) := p.value] else memo
    ensures Covers(stats, joins, ts, memo', done + {m})
  {
    hide Key, Best, Pick, Pow2;
    forall k | 0 < k < Pow2(|ts|)
      ensures if k in done + {m} then Agrees(stats, joins, memo', Pick(ts, k)) else Key(Pick(ts, k)) !in memo'
    {
      if k != m {
        DifferentKeys(ts, k, m);
      }
    }
  }

  lemma {:induction false} Doubled(h: nat, d: nat)
    requires d < 2
    ensures (2 * h + d) / 2 == h && (2 * h + d) % 2 == d && Count(2 * h + d) == d + Count(h)
  {
  }

  lemma {:induction false} WithoutLater(pre: seq<string>, s: seq<string>, i: nat)
    requires i < |s|
    ensures Without(pre + s, |pre| + i) == pre + Without(s, i)
  {
  }

  /** Removing one table from a picked subset clears one bit. */
  lemma {:induction false} WithoutIsPick(ts: seq<string>, m: nat, i: nat) returns (k: nat)
    requires m < Pow2(|ts|) && i < |Pick(ts, m)|
    ensures k < Pow2(|ts|) && Pick(ts, k) == Without(Pick(ts, m), i) && Count(k) + 1 == Count(m)
  {
    hide Count, Without;
    var pre, more := if m % 2 == 1 then [ts[0]] else [], Pick(ts[1..], m / 2);
    Doubled(m / 2, m % 2);
    if i < |pre| {
      k := 2 * (m / 2);
      Doubled(m / 2, 0);
      WithoutFirst(ts[0], more);
      assert [] + more == more;
    } else {
      var h := WithoutIsPick(ts[1..], m / 2, i - |pre|);
      k := 2 * h + |pre|;
      Doubled(h, |pre|);
      WithoutLater(pre, more, i - |pre|);
    }
  }

  lemma {:induction false} WithoutFirst(x: string, s: seq<string>)
    ensures Without([x] + s, 0) == s
  {
  }

  lemma {:induction false} OneIsPick(ts: seq<string>, m: nat, i: nat) returns (k: nat)
    requires m < Pow2(|ts|) && i < |Pick(ts, m)|
    ensures k < Pow2(|ts|) && Pick(ts, k) == [Pick(ts, m)[i]] && Count(k) == 1
  {
    if m % 2 == 1 && i == 0 {
      k := 1;
      NothingPicked(ts[1..]);
    } else {
      var d := if m % 2 == 1 then 1 else 0;
      var h := OneIsPick(ts[1..], m / 2, i - d);
      k := 2 * h;
      assert k / 2 == h && k % 2 == 0;
    }
  }

  lemma {:induction false} NothingPicked(ts: seq<string>)
    ensures Pick(ts, 0) == []
  {
    if ts != [] {
      NothingPicked(ts[1..]);
    }
  }

  /** With all smaller subsets done, the memo serves every split of a subset. */
  lemma {:induction false} SplitsAreDone(stats: Stats, joins: seq<JoinClause>, ts: seq<string>, memo: Memo,
                                         done: set<nat>, m: nat)
    requires Covers(stats, joins, ts, memo, done) && m < Pow2(|ts|) && Count(m) >= 2
    requires forall k :: 0 < k < Pow2(|ts|) && Count(k) < Count(m) ==> k in done
    ensures var s := Pick(ts, m);
            forall i :: 0 <= i < |s| ==> Agrees(stats, joins, memo, [s[i]]) && Agrees(stats, joins, memo, Without(s, i))
  {
    hide Key, Best, Agrees;
    var s := Pick(ts, m);
    forall i | 0 <= i < |s| ensures Agrees(stats, joins, memo, [s[i]]) && Agrees(stats, joins, memo, Without(s, i)) {
      var a := OneIsPick(ts, m, i);
      var b := WithoutIsPick(ts, m, i);
      assert a > 0 && b > 0;
    }
  }

  /** The masks of a given size, once the first j of them are done. */
  ghost function DoneBy(ts: seq<string>, size: nat, j: nat): (done: set<nat>)
    requires j <= |Masks(Pow2(|ts|), size)|
  {
    (set m: nat | m < Pow2(|ts|) && Count(m) < size) + (set i | 0 <= i < j :: Masks(Pow2(|ts|), size)[i])
  }

  lemma {:induction false} DoneStep(ts: seq<string>, size: nat, j: nat)
    requires j < |Masks(Pow2(|ts|), size)|
    ensures var m := Masks(Pow2(|ts|), size)[j];
            m !in DoneBy(ts, size, j) && DoneBy(ts, size, j + 1) == DoneBy(ts, size, j) + {m} && m < Pow2(|ts|)
              && Count(m) == size
  {
    MasksAscend(Pow2(|ts|), size);
  }

  lemma {:induction false} DoneAll(ts: seq<string>, size: nat)
    ensures DoneBy(ts, size, |Masks(Pow2(|ts|), size)|) == DoneBy(ts, size + 1, 0)
  {
    var ms := Masks(Pow2(|ts|), size);
    MasksAscend(Pow2(|ts|), size);
    var a, b := DoneBy(ts, size, |ms|), DoneBy(ts, size + 1, 0);
    forall m | m in b ensures m in a {
      if Count(m) == size {
        MaskListed(Pow2(|ts|), size, m);
      }
    }
  }

  lemma {:induction false} FullMask(ts: seq<string>)
    ensures Pick(ts, Pow2(|ts|) - 1) == ts && Count(Pow2(|ts|) - 1) == |ts|
  {
    if ts != [] {
      FullMask(ts[1..]);
      assert (Pow2(|ts|) - 1) / 2 == Pow2(|ts[1..]|) - 1 && (Pow2(|ts|) - 1) % 2 == 1;
      assert ts == [ts[0]] + ts[1..];
    }
  }

  /** The plans of all subsets of one size, given those of all smaller sizes; beyond 62
      tables there are no subsets and the memo stays as it is. */
  method FillSize(stats: Stats, joins: seq<JoinClause>, ts: seq<string>, size: nat, memo: Memo) returns (memo': Memo)
    requires Distinct(ts) && CommaFree(ts) && 1 <= size <= |ts|
    requires |ts| <= 62 ==> Covers(stats, joins, ts, memo, DoneBy(ts, size, 0))
    ensures if |ts| <= 62 then Covers(stats, joins, ts, memo', DoneBy(ts, size + 1, 0)) else memo' == memo
  {
    hide Key, Best, Agrees, Pick, DoneBy, Covers, Masks;
    memo' := memo;
    var subsets := GenerateSubsets(ts, size);
    ghost var ms := Masks(Pow2(|ts|), size);
    for j := 0 to |subsets|
      invariant if |ts| <= 62 then Covers(stats, joins, ts, memo', DoneBy(ts, size, j)) else memo' == memo
    {
      var subset := subsets[j];
      ghost var before := memo';
      DoneStep(ts, size, j);
      SubsetReady(stats, joins, ts, memo', size, j);
      var key := SubsetKey(subset);
      var best: Option<Plan>;
      if size == 1 {
        best := Some(AccessPath(stats, subset[0]));
      } else {
        best := FindBestJoinForSubset(stats, joins, subset, memo');
      }
      if best.Some? {
        memo' := memo'[key := best.value];
      }
      CoverOneMore(stats, joins, ts, before, DoneBy(ts, size, j), ms[j], memo');
    }
    DoneAll(ts, size);
  }

  lemma {:induction false} SubsetReady(stats: Stats, joins: seq<JoinClause>, ts: seq<string>, memo: Memo, size: nat,
                                       j: nat)
    requires 1 <= size <= |ts| && j < |Masks(Pow2(|ts|), size)| && Covers(stats, joins, ts, memo, DoneBy(ts, size, j))
    ensures var m := Masks(Pow2(|ts|), size)[j];
            var s := Pick(ts, m);
            && m > 0 && |s| == size
            && (size == 1 ==> Best(stats, joins, s) == Some(AccessPath(stats, s[0])))
            && (size >= 2 ==> forall i :: 0 <= i < |s| ==>
                  Agrees(stats, joins, memo, [s[i]]) && Agrees(stats, joins, memo, Without(s, i)))
  {
    hide Agrees, Key;
    var m := Masks(Pow2(|ts|), size)[j];
    DoneStep(ts, size, j);
    PickCount(ts, m);
    if size >= 2 {
      SplitsAreDone(stats, joins, ts, memo, DoneBy(ts, size, j), m);
    }
  }

  /** The ON of the first clause for a table, if there is one. */
  ghost predicate FirstOn(joins: seq<JoinClause>, table: string, on: Option<Expr>) {
    if on.None? then forall k :: 0 <= k < |joins| ==> joins[k].table != table
    else
      exists k :: 0 <= k < |joins| && joins[k].table == table && joins[k].on == on.value
                  && forall c :: 0 <= c < k ==> joins[c].table != table
  }

  /** Every scan carries the rows of its table, and every join the first clause for the table on
      its right and the estimate for that table and the first one of the list. */
  ghost predicate IsFallback(p: Plan, stats: Stats, joins: seq<JoinClause>, first: string) {
    match p
    case Scan(t, n) => HasRows(stats, t, n)
    case Join(l, r, n, on) =>
      && IsFallback(l, stats, joins, first) && r.Scan? && HasRows(stats, r.table, r.rows)
      && FirstOn(joins, r.table, on) && n == EstimateJoinSize(stats, first, r.table, on)
  }

  method FirstClause(joins: seq<JoinClause>, table: string) returns (on: Option<Expr>)
    ensures FirstOn(joins, table, on)
  {
    for k := 0 to |joins|
      invariant forall c :: 0 <= c < k ==> joins[c].table != table
    {
      if joins[k].table == table {
        assert joins[k].table == table;
        return Some(joins[k].on);
      }
    }
    on := None;
  }

  /** The fallback: the tables joined one by one in list order. */
  method BuildLeftDeepPlan(stats: Stats, joins: seq<JoinClause>, ts: seq<string>) returns (plan: Plan)
    requires ts != []
    ensures LeftDeep(plan) && Leaves(plan) == ts && IsFallback(plan, stats, joins, ts[0])
  {
    hide FirstOn, EstimateJoinSize;
    plan := AccessPath(stats, ts[0]);
    for i := 1 to |ts|
      invariant LeftDeep(plan) && Leaves(plan) == ts[..i] && IsFallback(plan, stats, joins, ts[0])
    {
      var on := FirstClause(joins, ts[i]);
      plan := Join(plan, AccessPath(stats, ts[i]), EstimateJoinSize(stats, ts[0], ts[i], on), on);
    }
  }

  /** findBestJoinOrder computes the plain recursion: the first of the cheapest splits, by the
      plain sum of its rows, with the estimated rows in its joins.  The fallback is taken when
      that finds no plan or when there are too many tables for the bit masks. */
  method FindBestJoinOrder(stats: Stats, joins: seq<JoinClause>, ts: seq<string>) returns (plan: Plan)
    requires ts != [] && Distinct(ts) && CommaFree(ts)
    ensures |ts| <= 62 && Best(stats, joins, ts).Some? ==>
              && plan == Best(stats, joins, ts).value && Estimated(plan, stats)
              && (|ts| >= 2 ==> FirstLeast(plan, stats, joins, ts))
    ensures |ts| > 62 || Best(stats, joins, ts).None? ==>
              LeftDeep(plan) && Leaves(plan) == ts && IsFallback(plan, stats, joins, ts[0])
  {
    hide Key, Pick, Covers, DoneBy, Masks, TrySplits, Estimated, FirstLeast, IsFallback;
    if Best(stats, joins, ts).Some? {
      ChosenIsEstimated(stats, joins, ts);
      if |ts| >= 2 {
        ChosenIsFirstLeast(stats, joins, ts);
      }
    }
    if |ts| == 1 {
      return AccessPath(stats, ts[0]);
    }
    var memo := FillMemo(stats, joins, ts);
    if |ts| <= 62 {
      WholeList(stats, joins, ts, memo);
    }
    var allKey := SubsetKey(ts);
    if allKey in memo {
      return memo[allKey];
    }
    plan := BuildLeftDeepPlan(stats, joins, ts);
  }

  method FillMemo(stats: Stats, joins: seq<JoinClause>, ts: seq<string>) returns (memo: Memo)
    requires Distinct(ts) && CommaFree(ts)
    ensures if |ts| <= 62 then Covers(stats, joins, ts, memo, DoneBy(ts, |ts| + 1, 0)) else memo == map[]
  {
    memo := map[];
    NothingDone(stats, joins, ts);
    hide Covers, DoneBy;
    for size := 1 to |ts| + 1
      invariant if |ts| <= 62 then Covers(stats, joins, ts, memo, DoneBy(ts, size, 0)) else memo == map[]
    {
      memo := FillSize(stats, joins, ts, size, memo);
    }
  }

  lemma {:induction false} NothingDone(stats: Stats, joins: seq<JoinClause>, ts: seq<string>)
    ensures Covers(stats, joins, ts, map[], DoneBy(ts, 1, 0))
  {
    forall m: nat | 0 < m ensures Count(m) >= 1 {
      SomeBit(m);
    }
  }

  lemma {:induction false} SomeBit(m: nat)
    requires m > 0
    ensures Count(m) >= 1
  {
    if m > 1 {
      SomeBit(m / 2);
    }
  }

  lemma {:induction false} WholeList(stats: Stats, joins: seq<JoinClause>, ts: seq<string>, memo: Memo)
    requires ts != [] && Covers(stats, joins, ts, memo, DoneBy(ts, |ts| + 1, 0))
    ensures Agrees(stats, joins, memo, ts)
  {
    hide Agrees, Key;
    FullMask(ts);
    assert Pow2(|ts|) >= 2;
  }

  /** For up to 62 distinct tables, each the FROM table or joined by a clause, the fallback is
      never taken: the chosen plan is left-deep with every table once, starts with the FROM
      table, and is the first of the one-table splits with the least sum. */
  lemma {:induction false} ChosenPlan(stats: Stats, joins: seq<JoinClause>, ts: seq<string>, from: string)
    requires 2 <= |ts| <= 62 && Distinct(ts) && from in ts && Joinable(joins, ts, from)
    requires forall k :: 0 <= k < |joins| ==> joins[k].table != from
    ensures Best(stats, joins, ts).Some?
    ensures var p := Best(stats, joins, ts).value;
            && LeftDeep(p) && OnRight(p, joins) && multiset(Leaves(p)) == multiset(ts) && Leaves(p)[0] == from
            && FirstLeast(p, stats, joins, ts) && Estimated(p, stats)
  {
    BestIsTotal(stats, joins, ts, from);
    BestIsLeftDeep(stats, joins, ts);
    FromIsLeftmost(stats, joins, ts, from);
    ChosenIsFirstLeast(stats, joins, ts);
    ChosenIsEstimated(stats, joins, ts);
  }
}
