/** The flat reference for an index: a list of (key, row) entries kept in key
    order, with a new entry placed after every key that is not greater. */
module SortedList {
  import opened Core

  type Entry = (Int64, UInt64)

  ghost predicate Sorted(es: seq<Entry>) {
    forall i, j :: 0 <= i < j < |es| ==> es[i].0 <= es[j].0
  }

  /** Every key of es is at most k (respectively at least, below, above). */
  ghost predicate AllLe(es: seq<Entry>, k: int) { forall i :: 0 <= i < |es| ==> es[i].0 <= k }
  ghost predicate AllGe(es: seq<Entry>, k: int) { forall i :: 0 <= i < |es| ==> k <= es[i].0 }
  ghost predicate AllLt(es: seq<Entry>, k: int) { forall i :: 0 <= i < |es| ==> es[i].0 < k }
  ghost predicate AllGt(es: seq<Entry>, k: int) { forall i :: 0 <= i < |es| ==> k < es[i].0 }

  function Place(es: seq<Entry>, e: Entry): (r: seq<Entry>)
    ensures |r| == |es| + 1
  {
    if es == [] || e.0 < es[0].0 then [e] + es else [es[0]] + Place(es[1..], e)
  }

  /** The rows stored under a key, in list order. */
  function Under(es: seq<Entry>, k: Int64): (r: seq<UInt64>) {
    if es == [] then []
    else if es[0].0 == k then [es[0].1] + Under(es[1..], k)
    else Under(es[1..], k)
  }

  /** What an iterator returns that skips smaller keys and stops at the first greater one. */
  function Matches(es: seq<Entry>, k: Int64): (r: seq<UInt64>) {
    if es == [] || es[0].0 > k then []
    else if es[0].0 == k then [es[0].1] + Matches(es[1..], k)
    else Matches(es[1..], k)
  }

  lemma {:induction false} PlaceAdds(es: seq<Entry>, e: Entry)
    ensures multiset(Place(es, e)) == multiset(es) + multiset{e}
  {
    if es == [] || e.0 < es[0].0 {
    } else {
      PlaceAdds(es[1..], e);
      assert es == [es[0]] + es[1..];
    }
  }

  lemma {:induction false} PlaceKeepsSorted(es: seq<Entry>, e: Entry)
    requires Sorted(es)
    ensures Sorted(Place(es, e))
  {
    if es == [] || e.0 < es[0].0 {
    } else {
      PlaceKeepsSorted(es[1..], e);
      var t := Place(es[1..], e);
      PlaceAdds(es[1..], e);
      forall i | 0 <= i < |t| ensures es[0].0 <= t[i].0 {
        assert t[i] in multiset(t);
        assert t[i] in multiset(es[1..]) + multiset{e};
      }
    }
  }

  lemma {:induction false} PlaceBounds(es: seq<Entry>, e: Entry, k: int)
    ensures AllGe(es, k) && k <= e.0 ==> AllGe(Place(es, e), k)
    ensures AllLt(es, k) && e.0 < k ==> AllLt(Place(es, e), k)
  {
    if es != [] && e.0 >= es[0].0 {
      PlaceBounds(es[1..], e, k);
    }
  }

  /** Where the new entry goes: after every key that is not greater. */
  lemma {:induction false} PlaceAt(es: seq<Entry>, e: Entry, i: nat)
    requires i <= |es| && AllLe(es[..i], e.0)
    requires i < |es| ==> e.0 < es[i].0
    ensures Place(es, e) == es[..i] + [e] + es[i..]
  {
    if i > 0 {
      assert es[0] == es[..i][0];
      assert es[1..][..i - 1] == es[..i][1..];
      PlaceAt(es[1..], e, i - 1);
      assert es[1..][i - 1..] == es[i..];
    }
  }

  /** Placing inside a middle segment, when everything before is not greater and
      everything after is greater. */
  lemma {:induction false} PlaceBefore(m: seq<Entry>, b: seq<Entry>, e: Entry)
    requires AllGt(b, e.0)
    ensures Place(m + b, e) == Place(m, e) + b
  {
    if m == [] {
      assert m + b == b;
    } else if e.0 >= m[0].0 {
      assert (m + b)[1..] == m[1..] + b;
      PlaceBefore(m[1..], b, e);
    }
  }

  lemma {:induction false} PlaceInMiddle(a: seq<Entry>, m: seq<Entry>, b: seq<Entry>, e: Entry)
    requires AllLe(a, e.0) && AllGt(b, e.0)
    ensures Place(a + m + b, e) == a + Place(m, e) + b
  {
    if a != [] {
      assert (a + m + b)[1..] == a[1..] + m + b;
      PlaceInMiddle(a[1..], m, b, e);
    } else {
      assert a + m + b == m + b;
      PlaceBefore(m, b, e);
    }
  }

  lemma {:induction false} UnderConcat(a: seq<Entry>, b: seq<Entry>, k: Int64)
    ensures Under(a + b, k) == Under(a, k) + Under(b, k)
  {
    if a == [] {
      assert a + b == b;
    } else {
      assert (a + b)[1..] == a[1..] + b;
      UnderConcat(a[1..], b, k);
    }
  }

  lemma {:induction false} UnderNone(es: seq<Entry>, k: Int64)
    requires forall i :: 0 <= i < |es| ==> es[i].0 != k
    ensures Under(es, k) == []
  {
    if es != [] {
      UnderNone(es[1..], k);
    }
  }

  lemma {:induction false} UnderSome(es: seq<Entry>, k: Int64, i: nat)
    requires i < |es| && es[i].0 == k
    ensures es[i].1 in Under(es, k)
  {
    if i > 0 {
      UnderSome(es[1..], k, i - 1);
    }
  }

  /** On a sorted list, stopping early loses nothing. */
  lemma {:induction false} MatchesIsUnder(es: seq<Entry>, k: Int64)
    requires Sorted(es)
    ensures Matches(es, k) == Under(es, k)
  {
    if es == [] {
    } else if es[0].0 > k {
      UnderNone(es, k);
    } else {
      MatchesIsUnder(es[1..], k);
    }
  }

  lemma {:induction false} UnderCounts(es: seq<Entry>, k: Int64, id: UInt64)
    ensures multiset(Under(es, k))[id] == multiset(es)[(k, id)]
  {
    if es != [] {
      assert es == [es[0]] + es[1..];
      UnderCounts(es[1..], k, id);
    }
  }

  /** A new entry shows up under its own key, after the rows already there, and nowhere else. */
  lemma {:induction false} UnderPlace(es: seq<Entry>, e: Entry, k: Int64)
    requires Sorted(es)
    ensures Under(Place(es, e), k) == if k == e.0 then Under(es, k) + [e.1] else Under(es, k)
  {
    if es == [] || e.0 < es[0].0 {
      assert Place(es, e)[1..] == es;
      if k == e.0 {
        UnderNone(es, k);
      }
    } else {
      UnderPlace(es[1..], e, k);
      assert Place(es, e)[1..] == Place(es[1..], e);
    }
  }

  /** The new entry is at some position with everything else in order around it. */
  lemma {:induction false} PlaceSomewhere(es: seq<Entry>, e: Entry) returns (i: nat)
    ensures i <= |es| && Place(es, e) == es[..i] + [e] + es[i..]
  {
    if es == [] || e.0 < es[0].0 {
      i := 0;
    } else {
      i := PlaceSomewhere(es[1..], e);
      i := i + 1;
      assert es[..i] == [es[0]] + es[1..][..i - 1];
      assert es[i..] == es[1..][i - 1..];
    }
  }

  /** Number of leading entries whose key is smaller. */
  function Lower(es: seq<Entry>, k: Int64): (i: nat)
    ensures i <= |es| && AllLt(es[..i], k)
    ensures i < |es| ==> k <= es[i].0
  {
    if es == [] || k <= es[0].0 then 0
    else
      var r := Lower(es[1..], k);
      assert es[..r + 1] == [es[0]] + es[1..][..r];
      r + 1
  }

  lemma {:induction false} MatchesSkips(a: seq<Entry>, b: seq<Entry>, k: Int64)
    requires AllLt(a, k)
    ensures Matches(a + b, k) == Matches(b, k)
  {
    if a == [] {
      assert a + b == b;
    } else {
      assert (a + b)[1..] == a[1..] + b;
      MatchesSkips(a[1..], b, k);
    }
  }

  ghost predicate DistinctKeys(es: seq<Entry>) {
    forall i, j :: 0 <= i < j < |es| ==> es[i].0 != es[j].0
  }

  lemma {:induction false} PlaceDistinct(es: seq<Entry>, e: Entry)
    requires DistinctKeys(es) && forall i :: 0 <= i < |es| ==> es[i].0 != e.0
    ensures DistinctKeys(Place(es, e))
    ensures forall x :: x in Place(es, e) <==> x in es || x == e
  {
    var i := PlaceSomewhere(es, e);
    var p := Place(es, e);
    assert forall x :: x in es <==> x in es[..i] || x in es[i..] by {
      assert es == es[..i] + es[i..];
    }
    forall a, b | 0 <= a < b < |p| ensures p[a].0 != p[b].0 {
      assert a < i ==> p[a] == es[a];
      assert b > i ==> p[b] == es[b - 1];
      assert b < i ==> p[b] == es[b];
      assert a > i ==> p[a] == es[a - 1];
    }
  }
}
