/** Lists of leaves between separators, and how cutting or replacing one leaf
    changes their concatenation. */
module LeafLists {
  import opened Core
  import opened SortedList

  type Lists = seq<seq<Entry>>

  function Flatten(l: Lists): (es: seq<Entry>) {
    if l == [] then [] else l[0] + Flatten(l[1..])
  }

  ghost predicate SortedKeys(keys: seq<Int64>) {
    forall i, j :: 0 <= i < j < |keys| ==> keys[i] <= keys[j]
  }

  /** Keys in list i are at most separator i, keys in list i+1 at least separator i. */
  ghost predicate Ordered(l: Lists, seps: seq<Int64>) {
    && |l| == |seps| + 1
    && SortedKeys(seps)
    && (forall i :: 0 <= i < |l| ==> Sorted(l[i]))
    && (forall i :: 0 <= i < |seps| ==> AllLe(l[i], seps[i]))
    && (forall i :: 1 <= i < |l| ==> AllGe(l[i], seps[i - 1]))
  }

  /** No key equals the separator to its right. */
  ghost predicate Separated(l: Lists, seps: seq<Int64>)
    requires |l| == |seps| + 1
  {
    forall i :: 0 <= i < |seps| ==> AllLt(l[i], seps[i])
  }

  lemma {:induction false} FlattenConcat(a: Lists, b: Lists)
    ensures Flatten(a + b) == Flatten(a) + Flatten(b)
  {
    if a == [] {
      assert a + b == b;
    } else {
      assert (a + b)[1..] == a[1..] + b;
      FlattenConcat(a[1..], b);
    }
  }

  lemma {:induction false} FlattenSplit(l: Lists, i: nat)
    requires i < |l|
    ensures Flatten(l) == Flatten(l[..i]) + l[i] + Flatten(l[i + 1..])
  {
    assert l == l[..i] + l[i..];
    FlattenConcat(l[..i], l[i..]);
    assert l[i..][1..] == l[i + 1..];
  }

  /** Two pieces standing for one list. */
  lemma {:induction false} FlattenPieces(l: Lists, i: nat, x: seq<Entry>, y: seq<Entry>)
    requires i < |l|
    ensures Flatten(l[..i] + [x, y] + l[i + 1..]) == Flatten(l[..i]) + (x + y) + Flatten(l[i + 1..])
    ensures Flatten(l[i := x + y]) == Flatten(l[..i]) + (x + y) + Flatten(l[i + 1..])
  {
    FlattenConcat(l[..i] + [x, y], l[i + 1..]);
    FlattenConcat(l[..i], [x, y]);
    assert [x, y][1..] == [y] && [y][1..] == [];
    assert Flatten([y]) == y;
    var m := l[i := x + y];
    FlattenSplit(m, i);
    assert m[..i] == l[..i] && m[i + 1..] == l[i + 1..];
  }

  /** An additional list anywhere adds its entries. */
  lemma {:induction false} FlattenAdds(l: Lists, p: nat, x: seq<Entry>)
    requires p <= |l|
    ensures multiset(Flatten(l[..p] + [x] + l[p..])) == multiset(Flatten(l)) + multiset(x)
  {
    assert l == l[..p] + l[p..];
    FlattenConcat(l[..p], l[p..]);
    FlattenConcat(l[..p] + [x], l[p..]);
    FlattenConcat(l[..p], [x]);
    assert [x][1..] == [];
    assert Flatten([x]) == x;
  }

  /** Where an entry of the concatenation comes from. */
  lemma {:induction false} FlattenMember(l: Lists, x: nat) returns (j: nat, m: nat)
    requires x < |Flatten(l)|
    ensures j < |l| && m < |l[j]| && Flatten(l)[x] == l[j][m]
  {
    if x < |l[0]| {
      j, m := 0, x;
    } else {
      j, m := FlattenMember(l[1..], x - |l[0]|);
      j := j + 1;
    }
  }

  lemma {:induction false} FlattenAllLe(l: Lists, k: int)
    requires forall i :: 0 <= i < |l| ==> AllLe(l[i], k)
    ensures AllLe(Flatten(l), k)
  {
    forall x | 0 <= x < |Flatten(l)| ensures Flatten(l)[x].0 <= k {
      var j, m := FlattenMember(l, x);
    }
  }

  lemma {:induction false} FlattenAllGe(l: Lists, k: int)
    requires forall i :: 0 <= i < |l| ==> AllGe(l[i], k)
    ensures AllGe(Flatten(l), k)
  {
    forall x | 0 <= x < |Flatten(l)| ensures k <= Flatten(l)[x].0 {
      var j, m := FlattenMember(l, x);
    }
  }

  lemma {:induction false} OrderedTail(l: Lists, seps: seq<Int64>)
    requires Ordered(l, seps) && |l| > 1
    ensures Ordered(l[1..], seps[1..])
    ensures AllGe(Flatten(l[1..]), seps[0])
  {
    var t, u := l[1..], seps[1..];
    forall i | 1 <= i < |t| ensures AllGe(t[i], u[i - 1]) {
      assert AllGe(l[i + 1], seps[i]);
    }
    forall i | 0 <= i < |t| ensures AllGe(t[i], seps[0]) {
      assert AllGe(l[i + 1], seps[i]);
      assert i > 0 ==> seps[0] <= seps[i];
    }
    FlattenAllGe(t, seps[0]);
  }

  lemma {:induction false} OrderedIsSorted(l: Lists, seps: seq<Int64>)
    requires Ordered(l, seps)
    ensures Sorted(Flatten(l))
    decreases |l|
  {
    if |l| == 1 {
      assert l[1..] == [];
      assert Flatten(l) == l[0];
    } else {
      OrderedTail(l, seps);
      OrderedIsSorted(l[1..], seps[1..]);
      SortedConcat(l[0], Flatten(l[1..]), seps[0]);
    }
  }

  lemma {:induction false} SortedConcat(a: seq<Entry>, b: seq<Entry>, k: int)
    requires Sorted(a) && Sorted(b) && AllLe(a, k) && AllGe(b, k)
    ensures Sorted(a + b)
  {
  }

  /** In a separated list, everything left of the position chosen for a key is at
      most the key and everything right of it is greater. */
  lemma {:induction false} Neighbours(l: Lists, seps: seq<Int64>, i: nat, key: Int64)
    requires Ordered(l, seps) && i < |l|
    requires i > 0 ==> seps[i - 1] <= key
    requires i < |seps| ==> key < seps[i]
    ensures AllLe(Flatten(l[..i]), key) && AllGt(Flatten(l[i + 1..]), key)
  {
    forall j | 0 <= j < |l[..i]| ensures AllLe(l[..i][j], key) {
      assert AllLe(l[j], seps[j]);
      assert j < i - 1 ==> seps[j] <= seps[i - 1];
    }
    FlattenAllLe(l[..i], key);
    var b := l[i + 1..];
    forall j | 0 <= j < |b| ensures AllGe(b[j], key as int + 1) {
      assert AllGe(l[i + 1 + j], seps[i + j]);
      assert j > 0 ==> seps[i] <= seps[i + j];
    }
    FlattenAllGe(b, key as int + 1);
  }

  /** Placing an entry into the list chosen for its key is placing it into the whole. */
  lemma {:induction false} PlaceInList(l: Lists, seps: seq<Int64>, i: nat, e: Entry)
    requires Ordered(l, seps) && i < |l|
    requires i > 0 ==> seps[i - 1] <= e.0
    requires i < |seps| ==> e.0 < seps[i]
    ensures Flatten(l[i := Place(l[i], e)]) == Place(Flatten(l), e)
  {
    Neighbours(l, seps, i, e.0);
    FlattenSplit(l, i);
    PlaceInMiddle(Flatten(l[..i]), l[i], Flatten(l[i + 1..]), e);
    FlattenPieces(l, i, Place(l[i], e), []);
    assert Place(l[i], e) + [] == Place(l[i], e);
  }

  /** The grown list stays sorted and between its separators. */
  lemma {:induction false} PlaceKeepsOrder(l: Lists, seps: seq<Int64>, i: nat, e: Entry)
    requires Ordered(l, seps) && Separated(l, seps) && i < |l|
    requires i > 0 ==> seps[i - 1] <= e.0
    requires i < |seps| ==> e.0 < seps[i]
    ensures var g := Place(l[i], e);
            && Sorted(g)
            && (i > 0 ==> AllGe(g, seps[i - 1]))
            && (i < |seps| ==> AllLt(g, seps[i]))
            && Ordered(l[i := g], seps) && Separated(l[i := g], seps)
  {
    PlaceKeepsSorted(l[i], e);
    if i > 0 {
      PlaceBounds(l[i], e, seps[i - 1]);
    }
    if i < |seps| {
      PlaceBounds(l[i], e, seps[i]);
    }
    ReplaceKeepsOrder(l, seps, i, Place(l[i], e));
  }

  lemma {:induction false} ReplaceKeepsOrder(l: Lists, seps: seq<Int64>, i: nat, g: seq<Entry>)
    requires Ordered(l, seps) && Separated(l, seps) && i < |l| && Sorted(g)
    requires i > 0 ==> AllGe(g, seps[i - 1])
    requires i < |seps| ==> AllLt(g, seps[i])
    ensures Ordered(l[i := g], seps) && Separated(l[i := g], seps)
  {
    var l' := l[i := g];
    forall j | 0 <= j < |seps| ensures AllLe(l'[j], seps[j]) && AllLt(l'[j], seps[j]) {
      assert j != i ==> l'[j] == l[j];
    }
    forall j | 1 <= j < |l'| ensures AllGe(l'[j], seps[j - 1]) {
      assert j != i ==> l'[j] == l[j];
    }
  }

  /** Cutting a list that fits between its separators keeps the order. */
  lemma {:induction false} CutOrders(l: Lists, seps: seq<Int64>, i: nat, m: nat)
    requires Ordered(l, seps) && i < |l| && 0 < m < |l[i]|
    ensures Ordered(l[..i] + [l[i][..m], l[i][m..]] + l[i + 1..], seps[..i] + [l[i][m].0] + seps[i..])
  {
    var l' := l[..i] + [l[i][..m], l[i][m..]] + l[i + 1..];
    var seps' := seps[..i] + [l[i][m].0] + seps[i..];
    CutIsCut(l, seps, i, m, l[i][..m], l[i][m..]);
    CutSeps(l, seps, i, m, seps');
    CutGe(l, seps, i, m, l', seps');
    CutLe(l, seps, i, m, l', seps');
    CutSorts(l, seps, i, m, l', seps');
  }

  /** It keeps the separation exactly when the cut falls between two different keys. */
  lemma {:induction false} CutKeepsOrder(l: Lists, seps: seq<Int64>, i: nat, m: nat)
    requires Ordered(l, seps) && Separated(l, seps) && i < |l| && 0 < m < |l[i]|
    ensures var l' := l[..i] + [l[i][..m], l[i][m..]] + l[i + 1..];
            var seps' := seps[..i] + [l[i][m].0] + seps[i..];
            && Ordered(l', seps')
            && (Separated(l', seps') <==> l[i][m - 1].0 != l[i][m].0)
  {
    var l' := l[..i] + [l[i][..m], l[i][m..]] + l[i + 1..];
    var seps' := seps[..i] + [l[i][m].0] + seps[i..];
    CutOrders(l, seps, i, m);
    CutIsCut(l, seps, i, m, l[i][..m], l[i][m..]);
    CutLt(l, seps, i, m, l', seps');
    CutPieces(l[i], m);
  }

  lemma {:induction false} CutSeps(l: Lists, seps: seq<Int64>, i: nat, m: nat, seps': seq<Int64>)
    requires Ordered(l, seps) && i < |l| && m < |l[i]|
    requires |seps'| == |seps| + 1 && seps'[i] == l[i][m].0
    requires forall j :: 0 <= j < i ==> seps'[j] == seps[j]
    requires forall j :: i < j < |seps'| ==> seps'[j] == seps[j - 1]
    ensures SortedKeys(seps')
  {
    assert i > 0 ==> AllGe(l[i], seps[i - 1]);
    assert i < |seps| ==> AllLe(l[i], seps[i]);
    forall a, b | 0 <= a < b < |seps'| ensures seps'[a] <= seps'[b] {
      assert a < i - 1 ==> seps[a] <= seps[i - 1];
      assert b > i + 1 ==> seps[i] <= seps[b - 1];
    }
  }

  /** l' is l with list i cut into two pieces, and seps' has the first key of the second piece. */
  ghost predicate IsCut(l: Lists, seps: seq<Int64>, i: nat, m: nat, l': Lists, seps': seq<Int64>) {
    && i < |l| == |seps| + 1 && 0 < m < |l[i]|
    && |l'| == |l| + 1 == |seps'| + 1
    && (forall j :: 0 <= j < i ==> l'[j] == l[j])
    && (forall j :: 0 <= j < i ==> seps'[j] == seps[j])
    && l'[i] == l[i][..m] && l'[i + 1] == l[i][m..] && seps'[i] == l[i][m].0
    && (forall j :: i + 1 < j < |l'| ==> l'[j] == l[j - 1])
    && (forall j :: i < j < |seps'| ==> seps'[j] == seps[j - 1])
  }

  lemma {:induction false} CutIsCut(l: Lists, seps: seq<Int64>, i: nat, m: nat, x: seq<Entry>, y: seq<Entry>)
    requires |l| == |seps| + 1 && i < |l| && 0 < m < |l[i]| && x == l[i][..m] && y == l[i][m..]
    ensures IsCut(l, seps, i, m, l[..i] + [x, y] + l[i + 1..], seps[..i] + [l[i][m].0] + seps[i..])
  {
  }

  lemma {:induction false} CutGe(l: Lists, seps: seq<Int64>, i: nat, m: nat, l': Lists, seps': seq<Int64>)
    requires IsCut(l, seps, i, m, l', seps') && Ordered(l, seps)
    ensures forall j :: 1 <= j < |l'| ==> AllGe(l'[j], seps'[j - 1])
  {
    CutPieces(l[i], m);
    forall j | 1 <= j < |l'| ensures AllGe(l'[j], seps'[j - 1]) {
      if j < i {
        assert AllGe(l[j], seps[j - 1]);
      } else if j == i {
        assert AllGe(l[i], seps[i - 1]);
      } else if j > i + 1 {
        assert AllGe(l[j - 1], seps[j - 2]);
      }
    }
  }

  lemma {:induction false} CutLe(l: Lists, seps: seq<Int64>, i: nat, m: nat, l': Lists, seps': seq<Int64>)
    requires IsCut(l, seps, i, m, l', seps') && Ordered(l, seps)
    ensures forall j :: 0 <= j < |seps'| ==> AllLe(l'[j], seps'[j])
  {
    CutPieces(l[i], m);
    forall j | 0 <= j < |seps'| ensures AllLe(l'[j], seps'[j]) {
      if j < i {
        assert AllLe(l[j], seps[j]);
      } else if j == i + 1 {
        assert AllLe(l[i], seps[i]);
      } else if j > i {
        assert AllLe(l[j - 1], seps[j - 1]);
      }
    }
  }

  lemma {:induction false} CutLt(l: Lists, seps: seq<Int64>, i: nat, m: nat, l': Lists, seps': seq<Int64>)
    requires IsCut(l, seps, i, m, l', seps') && Ordered(l, seps) && Separated(l, seps)
    ensures forall j :: 0 <= j < |seps'| && j != i ==> AllLt(l'[j], seps'[j])
  {
    forall j | 0 <= j < |seps'| && j != i ensures AllLt(l'[j], seps'[j]) {
      if j < i {
        assert AllLt(l[j], seps[j]);
      } else if j == i + 1 {
        assert AllLt(l[i], seps[i]);
      } else {
        assert AllLt(l[j - 1], seps[j - 1]);
      }
    }
  }

  lemma {:induction false} CutSorts(l: Lists, seps: seq<Int64>, i: nat, m: nat, l': Lists, seps': seq<Int64>)
    requires IsCut(l, seps, i, m, l', seps') && Ordered(l, seps)
    ensures forall j :: 0 <= j < |l'| ==> Sorted(l'[j])
  {
    CutPieces(l[i], m);
    forall j | 0 <= j < |l'| ensures Sorted(l'[j]) {
      assert j < i ==> Sorted(l[j]);
      assert j > i + 1 ==> Sorted(l[j - 1]);
    }
  }

  lemma {:induction false} CutPieces(es: seq<Entry>, m: nat)
    requires Sorted(es) && 0 < m < |es|
    ensures Sorted(es[..m]) && Sorted(es[m..])
    ensures AllLe(es[..m], es[m].0) && AllGe(es[m..], es[m].0)
    ensures AllLt(es[..m], es[m].0) <==> es[m - 1].0 != es[m].0
  {
    assert es[..m][m - 1] == es[m - 1];
  }
}
