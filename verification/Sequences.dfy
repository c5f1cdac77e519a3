/** Facts about sequences that several layers share. */
module Sequences {

  lemma {:induction false} Assoc<T>(a: seq<T>, b: seq<T>, c: seq<T>)
    ensures (a + b) + c == a + (b + c)
  {
  }

  ghost function Elems<T>(s: seq<T>): set<T> {
    set i | 0 <= i < |s| :: s[i]
  }

  // ---------------------------------------------------------------------
  // Lists without repetition
  // ---------------------------------------------------------------------

  ghost predicate Distinct<T>(s: seq<T>) {
    forall i, j :: 0 <= i < j < |s| ==> s[i] != s[j]
  }

  ghost predicate Ascending(ids: seq<int>) {
    forall i, j :: 0 <= i < j < |ids| ==> ids[i] < ids[j]
  }

  /** A list without repetition holds each of its elements once, ... */
  lemma {:induction false} DistinctOnce<T>(s: seq<T>, x: T)
    requires Distinct(s)
    ensures multiset(s)[x] == if x in s then 1 else 0
  {
    if s != [] {
      var tail := s[1..];
      assert s == [s[0]] + tail;
      assert forall i :: 0 <= i < |tail| ==> tail[i] == s[i + 1];
      DistinctOnce(tail, x);
    }
  }

  /** ... and only such a list does. */
  lemma {:induction false} OnceDistinct<T>(s: seq<T>)
    requires forall x :: x in s ==> multiset(s)[x] == 1
    ensures Distinct(s)
  {
    forall i, j | 0 <= i < j < |s| ensures s[i] != s[j] {
      var a, b := s[..j], s[j + 1..];
      assert s == a + [s[j]] + b;
      assert multiset(s) == multiset(a) + multiset{s[j]} + multiset(b);
      assert a[i] == s[i] && s[i] in multiset(a);
      assert multiset(s)[s[j]] == multiset(a)[s[j]] + 1 + multiset(b)[s[j]];
      assert s[j] in s;
    }
  }

  lemma {:induction false} AscendingOnce(ids: seq<int>, id: int)
    requires Ascending(ids)
    ensures multiset(ids)[id] == if id in ids then 1 else 0
  {
    DistinctOnce(ids, id);
  }

  // ---------------------------------------------------------------------
  // Permutations
  // ---------------------------------------------------------------------

  /** Taking the same element out of two lists with the same bag. */
  lemma {:induction false} RemoveBoth<T>(a: seq<T>, b: seq<T>, i: nat)
    requires a != [] && i < |b| && b[i] == a[0] && multiset(a) == multiset(b)
    ensures multiset(a[1..]) == multiset(b[..i] + b[i + 1..])
  {
    assert a == [a[0]] + a[1..] && b == b[..i] + [b[i]] + b[i + 1..];
    assert multiset(a[1..]) == multiset(a) - multiset{a[0]};
    assert multiset(b[..i] + b[i + 1..]) == multiset(b) - multiset{a[0]};
  }
}
