/** Table subsets as bit masks, and the memo key of a subset. */
module Subsets {
  import opened Sequences

  // ---------------------------------------------------------------------
  // Masks
  // ---------------------------------------------------------------------

  function Pow2(n: nat): (p: nat)
    ensures p >= 1
  {
    if n == 0 then 1 else 2 * Pow2(n - 1)
  }

  /** The number of set bits. */
  function Count(m: nat): (c: nat) {
    if m == 0 then 0 else m % 2 + Count(m / 2)
  }

  /** The tables whose bits are set, in list order. */
  function Pick(ts: seq<string>, m: nat): (r: seq<string>) {
    if ts == [] then [] else (if m % 2 == 1 then [ts[0]] else []) + Pick(ts[1..], m / 2)
  }

  /** The mask of a set of tables. */
  ghost function MaskOf(ts: seq<string>, s: set<string>): (m: nat)
    ensures m < Pow2(|ts|)
  {
    if ts == [] then 0 else (if ts[0] in s then 1 else 0) + 2 * MaskOf(ts[1..], s)
  }

  lemma {:induction false} PickCount(ts: seq<string>, m: nat)
    requires m < Pow2(|ts|)
    ensures |Pick(ts, m)| == Count(m)
  {
    if ts != [] {
      PickCount(ts[1..], m / 2);
    }
  }

  lemma {:induction false} ElemsTail(ts: seq<string>)
    requires ts != []
    ensures Elems(ts) == {ts[0]} + Elems(ts[1..])
  {
    assert forall i :: 0 <= i < |ts[1..]| ==> ts[1..][i] == ts[i + 1];
    forall x | x in Elems(ts[1..]) ensures x in Elems(ts) {
      var i :| 0 <= i < |ts[1..]| && ts[1..][i] == x;
      assert ts[i + 1] == x;
    }
  }

  lemma {:induction false} ElemsCons(x: string, ts: seq<string>)
    ensures Elems([x] + ts) == {x} + Elems(ts)
  {
    ElemsTail([x] + ts);
    assert ([x] + ts)[1..] == ts;
  }

  /** Which tables a mask picks. */
  lemma {:induction false} PickStep(ts: seq<string>, m: nat)
    requires ts != []
    ensures Elems(Pick(ts, m)) == (if m % 2 == 1 then {ts[0]} else {}) + Elems(Pick(ts[1..], m / 2))
  {
    var more := Pick(ts[1..], m / 2);
    if m % 2 == 1 {
      ElemsCons(ts[0], more);
    } else {
      assert [] + more == more;
    }
  }

  lemma {:induction false} PickWithin(ts: seq<string>, m: nat)
    ensures Elems(Pick(ts, m)) <= Elems(ts)
  {
    if ts != [] {
      PickStep(ts, m);
      PickWithin(ts[1..], m / 2);
      ElemsTail(ts);
    }
  }

  lemma {:induction false} HeadIsFresh(ts: seq<string>)
    requires ts != [] && Distinct(ts)
    ensures ts[0] !in Elems(ts[1..]) && Distinct(ts[1..])
  {
    assert forall i :: 0 <= i < |ts[1..]| ==> ts[1..][i] == ts[i + 1];
  }

  /** A mask can be read back from the tables it picks. */
  lemma {:induction false} MaskOfPick(ts: seq<string>, m: nat)
    requires Distinct(ts) && m < Pow2(|ts|)
    ensures MaskOf(ts, Elems(Pick(ts, m))) == m
  {
    if ts != [] {
      HeadIsFresh(ts);
      PickStep(ts, m);
      PickWithin(ts[1..], m / 2);
      MaskOfPick(ts[1..], m / 2);
      MaskIgnores(ts[1..], Elems(Pick(ts[1..], m / 2)), ts[0], Elems(Pick(ts, m)));
    }
  }

  lemma {:induction false} MaskIgnores(ts: seq<string>, s: set<string>, x: string, s': set<string>)
    requires x !in Elems(ts) && s <= s' <= s + {x}
    ensures MaskOf(ts, s) == MaskOf(ts, s')
  {
    if ts != [] {
      ElemsTail(ts);
      MaskIgnores(ts[1..], s, x, s');
    }
  }

  lemma {:induction false} MaskStep(ts: seq<string>, s: set<string>)
    requires ts != []
    ensures MaskOf(ts, s) / 2 == MaskOf(ts[1..], s) && MaskOf(ts, s) % 2 == if ts[0] in s then 1 else 0
  {
  }

  lemma {:induction false} PickLength(ts: seq<string>, m: nat)
    requires ts != []
    ensures |Pick(ts, m)| == m % 2 + |Pick(ts[1..], m / 2)|
  {
  }

  /** Every set of tables is picked by its mask. */
  lemma {:induction false} PickOfMask(ts: seq<string>, s: set<string>)
    requires s <= Elems(ts) && Distinct(ts)
    ensures Elems(Pick(ts, MaskOf(ts, s))) == s && |Pick(ts, MaskOf(ts, s))| == |s|
  {
    if ts == [] {
      NoElems();
    } else {
      hide *;
      var x, tail, rest := ts[0], ts[1..], s - {ts[0]};
      var m := MaskOf(ts, s);
      HeadIsFresh(ts);
      ElemsTail(ts);
      PickOfMask(tail, rest);
      MaskIgnores(tail, rest, x, s);
      MaskStep(ts, s);
      PickStep(ts, m);
      PickLength(ts, m);
      TakeOne(s, x);
      assert Elems(Pick(tail, m / 2)) == rest;
    }
  }

  lemma {:induction false} TakeOne(s: set<string>, x: string)
    ensures s == (if x in s then {x} else {}) + (s - {x}) && |s| == (if x in s then 1 else 0) + |s - {x}|
  {
    if x in s {
      assert s == {x} + (s - {x});
    } else {
      assert s == s - {x};
    }
  }

  lemma {:induction false} NoElems()
    ensures Elems<string>([]) == {}
  {
  }

  lemma {:induction false} PickDistinct(ts: seq<string>, m: nat)
    requires Distinct(ts)
    ensures Distinct(Pick(ts, m))
  {
    if ts != [] {
      HeadIsFresh(ts);
      PickDistinct(ts[1..], m / 2);
      PickWithin(ts[1..], m / 2);
      var more := Pick(ts[1..], m / 2);
      assert forall i :: 0 <= i < |more| ==> more[i] in Elems(more);
    }
  }

  // ---------------------------------------------------------------------
  // generateSubsets
  // ---------------------------------------------------------------------

  /** The masks below `limit` with `size` bits, ascending. */
  function Masks(limit: nat, size: nat): (ms: seq<nat>)
  {
    if limit == 0 then []
    else Masks(limit - 1, size) + (if Count(limit - 1) == size then [limit - 1] else [])
  }

  function Picks(ts: seq<string>, ms: seq<nat>): (r: seq<seq<string>>)
    ensures |r| == |ms| && forall i :: 0 <= i < |ms| ==> r[i] == Pick(ts, ms[i])
  {
    seq(|ms|, i requires 0 <= i < |ms| => Pick(ts, ms[i]))
  }

  /** 1 << n on a 64-bit int. */
  function ShiftOne(n: nat): int {
    if n <= 62 then Pow2(n) else if n == 63 then -0x8000_0000_0000_0000 else 0
  }

  /** The subsets generateSubsets lists: none at all once 1 << n is not positive. */
  function SubsetsOf(ts: seq<string>, size: nat): (r: seq<seq<string>>) {
    if size > |ts| || |ts| > 62 then [] else Picks(ts, Masks(Pow2(|ts|), size))
  }

  /** m >> i */
  function Shift(m: nat, i: nat): nat {
    if i == 0 then m else Shift(m, i - 1) / 2
  }

  /** m & (1 << i) != 0 */
  predicate Bit(m: nat, i: nat) {
    Shift(m, i) % 2 == 1
  }

  lemma {:induction false} ShiftBound(m: nat, n: nat, i: nat)
    requires m < Pow2(n) && i <= n
    ensures Shift(m, i) < Pow2(n - i)
  {
    if i > 0 {
      ShiftBound(m, n, i - 1);
    }
  }

  method CountBits(m: nat, n: nat) returns (count: nat)
    requires m < Pow2(n)
    ensures count == Count(m)
  {
    count := 0;
    for i := 0 to n
      invariant count + Count(Shift(m, i)) == Count(m)
    {
      if Bit(m, i) {
        count := count + 1;
      }
    }
    ShiftBound(m, n, n);
  }

  method PickBits(ts: seq<string>, m: nat) returns (subset: seq<string>)
    ensures subset == Pick(ts, m)
  {
    subset := [];
    assert ts[0..] == ts;
    for i := 0 to |ts|
      invariant subset + Pick(ts[i..], Shift(m, i)) == Pick(ts, m)
    {
      assert ts[i..][1..] == ts[i + 1..];
      if Bit(m, i) {
        subset := subset + [ts[i]];
      }
    }
    assert ts[|ts|..] == [];
  }

  method GenerateSubsets(ts: seq<string>, size: nat) returns (result: seq<seq<string>>)
    ensures result == SubsetsOf(ts, size)
  {
    result := [];
    if size > |ts| {
      return;
    }
    var mask := 0;
    while mask < ShiftOne(|ts|)
      invariant 0 <= mask && (mask <= ShiftOne(|ts|) || mask == 0)
      invariant result == Picks(ts, Masks(mask, size))
    {
      var count := CountBits(mask, |ts|);
      if count == size {
        var subset := PickBits(ts, mask);
        result := result + [subset];
      }
      mask := mask + 1;
    }
  }

  /** Every mask of the right size is listed. */
  lemma {:induction false} MaskListed(limit: nat, size: nat, m: nat)
    requires m < limit && Count(m) == size
    ensures exists i :: 0 <= i < |Masks(limit, size)| && Masks(limit, size)[i] == m
  {
    hide Count;
    var init, ms := Masks(limit - 1, size), Masks(limit, size);
    if m == limit - 1 {
      assert ms[|init|] == m;
    } else {
      MaskListed(limit - 1, size, m);
      var i :| 0 <= i < |init| && init[i] == m;
      assert ms[i] == m;
    }
  }

  lemma {:induction false} MasksAscend(limit: nat, size: nat)
    ensures forall i, j :: 0 <= i < j < |Masks(limit, size)| ==> Masks(limit, size)[i] < Masks(limit, size)[j]
    ensures forall i :: 0 <= i < |Masks(limit, size)| ==>
              Masks(limit, size)[i] < limit && Count(Masks(limit, size)[i]) == size
  {
    if limit > 0 {
      MasksAscend(limit - 1, size);
    }
  }

  /** Up to 62 tables, every subset of the given size is listed exactly once, and nothing
      else is listed. */
  lemma {:induction false} EachSubsetOnce(ts: seq<string>, size: nat)
    requires Distinct(ts) && size <= |ts| <= 62
    ensures var r := SubsetsOf(ts, size);
            && (forall s :: s <= Elems(ts) && |s| == size ==> exists i :: 0 <= i < |r| && Elems(r[i]) == s)
            && (forall i :: 0 <= i < |r| ==> Elems(r[i]) <= Elems(ts) && Distinct(r[i]) && |r[i]| == size)
            && (forall i, j :: 0 <= i < j < |r| ==> Elems(r[i]) != Elems(r[j]))
  {
    var ms, r := Masks(Pow2(|ts|), size), SubsetsOf(ts, size);
    MasksAscend(Pow2(|ts|), size);
    forall s | s <= Elems(ts) && |s| == size ensures exists i :: 0 <= i < |r| && Elems(r[i]) == s {
      var m := MaskOf(ts, s);
      PickOfMask(ts, s);
      PickCount(ts, m);
      MaskListed(Pow2(|ts|), size, m);
      var i :| 0 <= i < |ms| && ms[i] == m;
      assert Elems(r[i]) == s;
    }
    forall i | 0 <= i < |r| ensures Elems(r[i]) <= Elems(ts) && Distinct(r[i]) && |r[i]| == size {
      PickWithin(ts, ms[i]);
      PickDistinct(ts, ms[i]);
      PickCount(ts, ms[i]);
    }
    forall i, j | 0 <= i < j < |r| ensures Elems(r[i]) != Elems(r[j]) {
      MaskOfPick(ts, ms[i]);
      MaskOfPick(ts, ms[j]);
    }
  }

  // ---------------------------------------------------------------------
  // subsetKey
  // ---------------------------------------------------------------------

  /** The order of strings. */
  predicate Leq(a: string, b: string) {
    a == "" || (b != "" && (a[0] < b[0] || (a[0] == b[0] && Leq(a[1..], b[1..]))))
  }

  function Place(x: string, s: seq<string>): (r: seq<string>)
    ensures multiset(r) == multiset{x} + multiset(s)
  {
    if s == [] || Leq(x, s[0]) then [x] + s
    else
      assert s == [s[0]] + s[1..];
      [s[0]] + Place(x, s[1..])
  }

  function Sort(s: seq<string>): (r: seq<string>)
    ensures multiset(r) == multiset(s)
  {
    if s == [] then []
    else
      assert s == [s[0]] + s[1..];
      Place(s[0], Sort(s[1..]))
  }

  function Joined(s: seq<string>): (k: string) {
    if s == [] then "" else s[0] + "," + Joined(s[1..])
  }

  function Key(ts: seq<string>): (k: string) {
    Joined(Sort(ts))
  }

  method SubsetKey(ts: seq<string>) returns (key: string)
    ensures key == Key(ts)
  {
    var sorted := Sort(ts);
    key := "";
    for i := 0 to |sorted|
      invariant key + Joined(sorted[i..]) == Joined(sorted)
    {
      assert sorted[i..][1..] == sorted[i + 1..];
      var rest := Joined(sorted[i + 1..]);
      assert key + (sorted[i] + "," + rest) == key + (sorted[i] + ",") + rest;
      key := key + (sorted[i] + ",");
    }
    assert sorted[|sorted|..] == [];
    assert key + "" == key;
  }

  lemma {:induction false} LeqTotal(a: string, b: string)
    ensures Leq(a, b) || Leq(b, a)
  {
    if a != "" && b != "" && a[0] == b[0] {
      LeqTotal(a[1..], b[1..]);
    }
  }

  lemma {:induction false} LeqAntisymmetric(a: string, b: string)
    requires Leq(a, b) && Leq(b, a)
    ensures a == b
  {
    if a != "" && b != "" {
      LeqAntisymmetric(a[1..], b[1..]);
      assert a == [a[0]] + a[1..] && b == [b[0]] + b[1..];
    }
  }

  lemma {:induction false} LeqTransitive(a: string, b: string, c: string)
    requires Leq(a, b) && Leq(b, c)
    ensures Leq(a, c)
  {
    if a != "" && a[0] == b[0] && b[0] == c[0] {
      LeqTransitive(a[1..], b[1..], c[1..]);
    }
  }

  /** The head is at most every other element, recursively. */
  ghost predicate Ordered(s: seq<string>) {
    s == [] || ((forall i :: 0 <= i < |s| ==> Leq(s[0], s[i])) && Ordered(s[1..]))
  }

  lemma {:induction false} PlaceOrdered(x: string, s: seq<string>)
    requires Ordered(s)
    ensures Ordered(Place(x, s))
  {
    LeqTotal(x, x);
    if s == [] {
      assert [x][1..] == [];
    } else if Leq(x, s[0]) {
      assert ([x] + s)[1..] == s;
      forall i | 0 <= i < |s| ensures Leq(x, s[i]) {
        LeqTransitive(x, s[0], s[i]);
      }
    } else {
      LeqTotal(x, s[0]);
      var more := Place(x, s[1..]);
      PlaceOrdered(x, s[1..]);
      assert ([s[0]] + more)[1..] == more;
      forall i | 0 <= i < |more| ensures Leq(s[0], more[i]) {
        FromBag(x, s[1..], more[i]);
      }
    }
  }

  lemma {:induction false} FromBag(x: string, s: seq<string>, y: string)
    requires y in Place(x, s)
    ensures y == x || exists i :: 0 <= i < |s| && s[i] == y
  {
    assert y in multiset(Place(x, s));
    if y != x {
      assert y in multiset(s);
    }
  }

  lemma {:induction false} SortOrdered(s: seq<string>)
    ensures Ordered(Sort(s))
  {
    if s != [] {
      SortOrdered(s[1..]);
      PlaceOrdered(s[0], Sort(s[1..]));
    }
  }

  lemma {:induction false} OrderedUnique(a: seq<string>, b: seq<string>)
    requires Ordered(a) && Ordered(b) && multiset(a) == multiset(b)
    ensures a == b
  {
    if a == [] {
      assert |multiset(b)| == 0;
    } else {
      assert a[0] in multiset(b);
      assert b[0] in multiset(a);
      LeqAntisymmetric(a[0], b[0]);
      assert a == [a[0]] + a[1..] && b == [b[0]] + b[1..];
      assert multiset(a[1..]) == multiset(a) - multiset{a[0]};
      assert multiset(b[1..]) == multiset(b) - multiset{a[0]};
      OrderedUnique(a[1..], b[1..]);
    }
  }

  ghost predicate CommaFree(ts: seq<string>) {
    forall i :: 0 <= i < |ts| ==> ',' !in ts[i]
  }

  /** A comma-free name is recovered from the text up to the first comma. */
  lemma {:induction false} SplitAtComma(a: string, x: string, b: string, y: string)
    requires ',' !in a && ',' !in b && a + "," + x == b + "," + y
    ensures a == b && x == y
  {
    var s := a + "," + x;
    assert s[|a|] == ',' && s[|b|] == ',';
    assert forall i :: 0 <= i < |a| ==> s[i] == a[i];
    assert forall i :: 0 <= i < |b| ==> s[i] == b[i];
    assert |a| == |b|;
    assert a == s[..|a|] && b == s[..|b|];
    assert x == s[|a| + 1..] && y == s[|b| + 1..];
  }

  lemma {:induction false} JoinedInjective(a: seq<string>, b: seq<string>)
    requires CommaFree(a) && CommaFree(b) && Joined(a) == Joined(b)
    ensures a == b
  {
    if a != [] && b != [] {
      SplitAtComma(a[0], Joined(a[1..]), b[0], Joined(b[1..]));
      JoinedInjective(a[1..], b[1..]);
      assert a == [a[0]] + a[1..] && b == [b[0]] + b[1..];
    }
  }

  lemma {:induction false} SortCommaFree(s: seq<string>)
    requires CommaFree(s)
    ensures CommaFree(Sort(s))
  {
    forall i | 0 <= i < |Sort(s)| ensures ',' !in Sort(s)[i] {
      assert Sort(s)[i] in multiset(Sort(s));
      assert Sort(s)[i] in multiset(s);
    }
  }

  /** For comma-free names, keys are equal exactly when the tables are the same, in any order. */
  lemma {:induction false} KeyIdentifies(a: seq<string>, b: seq<string>)
    requires CommaFree(a) && CommaFree(b)
    ensures Key(a) == Key(b) <==> multiset(a) == multiset(b)
  {
    if Key(a) == Key(b) {
      SortCommaFree(a);
      SortCommaFree(b);
      JoinedInjective(Sort(a), Sort(b));
      assert multiset(a) == multiset(Sort(a)) && multiset(b) == multiset(Sort(b));
    }
    if multiset(a) == multiset(b) {
      SortOrdered(a);
      SortOrdered(b);
      OrderedUnique(Sort(a), Sort(b));
    }
  }

  /** A comma in a name breaks this: the name shares its key with the two tables it spells. */
  lemma {:induction false} CommaBreaksKeys(x: string, y: string)
    requires Leq(x, y)
    ensures Key([x, y]) == Key([x + "," + y])
  {
    KeyOfOne(x + "," + y);
    KeyOfTwo(x, y);
    assert x + "," + (y + ",") == x + "," + y + ",";
  }

  lemma {:induction false} SortOne(x: string)
    ensures Sort([x]) == [x]
  {
    assert [x][1..] == [];
    assert Sort([]) == [];
  }

  lemma {:induction false} JoinedOne(x: string)
    ensures Joined([x]) == x + ","
  {
    assert [x][1..] == [];
    assert x + "," + "" == x + ",";
  }

  lemma {:induction false} KeyOfOne(x: string)
    ensures Key([x]) == x + ","
  {
    SortOne(x);
    hide Sort;
    JoinedOne(x);
  }

  lemma {:induction false} KeyOfTwo(x: string, y: string)
    requires Leq(x, y)
    ensures Key([x, y]) == x + "," + (y + ",")
  {
    hide Leq;
    assert [x, y][1..] == [y];
    SortOne(y);
    assert Sort([x, y]) == Place(x, [y]) == [x] + [y];
    hide Sort;
    assert ([x] + [y])[1..] == [y];
    JoinedOne(y);
  }
}
