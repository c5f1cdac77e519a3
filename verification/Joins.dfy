/** The join operators as stateful iterators, proved equal to list comprehensions, errors of
    their children included. */
module Joins {
  import opened Core
  import opened Eval
  import Sequences

  /** What a call of Next delivers: a row, or an error. */
  datatype Item = Out(row: Tuple) | Error

  /** A child operator: delivers a fixed list of rows and errors one by one. */
  class Source {
    const items: seq<Item>
    var pos: nat

    constructor (items: seq<Item>)
      ensures this.items == items && pos == 0 && Rest() == items
    {
      this.items, pos := items, 0;
    }

    ghost function Rest(): seq<Item>
      reads this
    {
      if pos <= |items| then items[pos..] else []
    }

    method Next() returns (item: Option<Item>)
      modifies this
      ensures item.None? ==> old(Rest()) == [] && Rest() == []
      ensures item.Some? ==> old(Rest()) == [item.value] + Rest()
    {
      if pos >= |items| {
        return None;
      }
      item := Some(items[pos]);
      pos := pos + 1;
    }
  }

  // ---------------------------------------------------------------------
  // Comprehensions
  // ---------------------------------------------------------------------

  function Outs(rows: seq<Tuple>): (items: seq<Item>)
    ensures |items| == |rows| && forall i :: 0 <= i < |rows| ==> items[i] == Out(rows[i])
  {
    seq(|rows|, i requires 0 <= i < |rows| => Out(rows[i]))
  }

  /** The items of one pair. */
  function Pair(l: Tuple, r: Tuple, on: Expr, schema: Schema): (items: seq<Item>)
    ensures |items| <= 1
  {
    match EvalWhere(Some(on), l + r, schema)
    case None => [Error]
    case Some(b) => if b then [Out(l + r)] else []
  }

  function PairsOf(l: Tuple, right: seq<Tuple>, on: Expr, schema: Schema): (items: seq<Item>) {
    if right == [] then [] else Pair(l, right[0], on, schema) + PairsOf(l, right[1..], on, schema)
  }

  /** The join with right rows that were read without error; errors of the left child show
      up where they occur. */
  function AllPairs(left: seq<Item>, right: seq<Tuple>, on: Expr, schema: Schema): (items: seq<Item>) {
    if left == [] then []
    else
      (if left[0].Error? then [Error] else PairsOf(left[0].row, right, on, schema))
      + AllPairs(left[1..], right, on, schema)
  }

  /** The position of the first error, or the end. */
  function FirstError(items: seq<Item>): (n: nat)
    ensures n <= |items| && (n < |items| ==> items[n].Error?) && forall i :: 0 <= i < n ==> items[i].Out?
  {
    if items == [] || items[0].Error? then 0 else 1 + FirstError(items[1..])
  }

  /** The rows before the first error. */
  function RowsBefore(items: seq<Item>): (rows: seq<Tuple>) {
    if items == [] || items[0].Error? then [] else [items[0].row] + RowsBefore(items[1..])
  }

  /** The whole operator.  An error of the right child is reported before any row; the next
      call starts reading it again after the error. */
  function JoinItems(left: seq<Item>, right: seq<Item>, on: Expr, schema: Schema): (items: seq<Item>)
    decreases |right|
  {
    if FirstError(right) < |right| then [Error] + JoinItems(left, right[FirstError(right) + 1..], on, schema)
    else AllPairs(left, RowsBefore(right), on, schema)
  }

  // ---------------------------------------------------------------------
  // The plain join
  // ---------------------------------------------------------------------

  class NestedLoopJoinOp {
    const left: Source
    const right: Source
    const on: Expr
    const schema: Schema
    var leftRow: Tuple
    var leftOK: bool
    var rightRows: seq<Tuple>
    var rightIndex: nat
    var initialized: bool

    constructor (left: Source, right: Source, on: Expr, schema: Schema)
      requires left != right
      ensures Valid() && this.left == left && this.right == right && this.on == on && this.schema == schema
      ensures Remaining() == JoinItems(left.Rest(), right.Rest(), on, schema)
    {
      this.left, this.right, this.on, this.schema := left, right, on, schema;
      leftRow, leftOK, rightRows, rightIndex, initialized := [], false, [], 0, false;
    }

    ghost predicate Valid()
      reads this
    {
      left != right && rightIndex <= |rightRows| && (!initialized ==> !leftOK)
    }

    /** The items not delivered yet. */
    ghost function Remaining(): seq<Item>
      requires Valid()
      reads this, left, right
    {
      if !initialized then JoinItems(left.Rest(), right.Rest(), on, schema)
      else
        (if leftOK then PairsOf(leftRow, rightRows[rightIndex..], on, schema) else [])
        + AllPairs(left.Rest(), rightRows, on, schema)
    }

    /** materializeRight: drains the right child, up to its first error. */
    method MaterializeRight() returns (ok: bool)
      requires Valid() && !initialized
      modifies this, right
      ensures Valid() && !initialized && !leftOK
      ensures var rest := old(right.Rest());
              && (ok <==> FirstError(rest) == |rest|)
              && (ok ==> rightRows == RowsBefore(rest))
              && (!ok ==> right.Rest() == rest[FirstError(rest) + 1..])
    {
      hide FirstError, RowsBefore;
      var rows: seq<Tuple> := [];
      ghost var read := 0;
      while true
        invariant !initialized && !leftOK && rightIndex <= |rightRows|
        invariant read + FirstError(right.Rest()) == FirstError(old(right.Rest())) && read <= |old(right.Rest())|
        invariant right.Rest() == old(right.Rest())[read..]
        invariant rows + RowsBefore(right.Rest()) == RowsBefore(old(right.Rest()))
        decreases |right.Rest()|
      {
        ghost var before := right.Rest();
        var item := right.Next();
        HeadItem(before);
        if item.None? {
          break;
        }
        assert before[1..] == right.Rest() == old(right.Rest())[read + 1..];
        if item.value.Error? {
          return false;
        }
        read := read + 1;
        Sequences.Assoc(rows, [item.value.row], RowsBefore(right.Rest()));
        rows := rows + [item.value.row];
      }
      rightRows := rows;
      rightIndex := 0;
      ok := true;
    }

    /** Next delivers exactly the remaining items in order, then reports the end for ever. */
    method Next() returns (item: Option<Item>)
      requires Valid()
      modifies this, left, right
      ensures Valid()
      ensures item.None? ==> old(Remaining()) == [] && Remaining() == []
      ensures item.Some? ==> old(Remaining()) == [item.value] + Remaining()
    {
      if !initialized {
        var ok := MaterializeRight();
        if !ok {
          return Some(Error);
        }
        initialized := true;
        assert [] + AllPairs(left.Rest(), rightRows, on, schema) == AllPairs(left.Rest(), rightRows, on, schema);
      }
      hide PairsOf, AllPairs;
      while true
        invariant Valid() && initialized && Remaining() == old(Remaining())
        decreases |left.Rest()|, |rightRows| - rightIndex
      {
        if !leftOK || rightIndex >= |rightRows| {
          item := AdvanceLeft();
          if item.None? || item.value.Error? {
            return;
          }
        }
        item := ScanRight();
        if item.Some? {
          return;
        }
      }
    }

    /** Fetches the next left row and restarts the right side. */
    method AdvanceLeft() returns (item: Option<Item>)
      requires Valid() && initialized && (!leftOK || rightIndex >= |rightRows|)
      modifies this, left
      ensures Valid() && initialized
      ensures item.None? ==> old(Remaining()) == [] && Remaining() == []
      ensures item.Some? ==> |left.Rest()| == |old(left.Rest())| - 1
      ensures item == Some(Error) ==> old(Remaining()) == [Error] + Remaining()
      ensures item.Some? && item.value.Out? ==> leftOK && Remaining() == old(Remaining())
    {
      hide PairsOf, AllPairs;
      PairsEmpty(leftRow, rightRows, on, schema);
      assert leftOK ==> rightIndex == |rightRows|;
      assert [] + AllPairs(left.Rest(), rightRows, on, schema) == AllPairs(left.Rest(), rightRows, on, schema);
      NoLeft(rightRows, on, schema);
      item := left.Next();
      if item.None? {
        return;
      }
      LeftStep(item.value, left.Rest(), rightRows, on, schema);
      assert [] + AllPairs(left.Rest(), rightRows, on, schema) == AllPairs(left.Rest(), rightRows, on, schema);
      if item.value.Error? {
        return;
      }
      leftRow, leftOK, rightIndex := item.value.row, true, 0;
      assert rightRows[0..] == rightRows;
    }

    /** One turn of the inner loop: the current left row with the next right row. */
    method PairAt() returns (item: Option<Item>)
      requires Valid() && initialized && leftOK && rightIndex < |rightRows|
      modifies this`rightIndex
      ensures Valid() && rightIndex == old(rightIndex) + 1
      ensures item.None? ==> Remaining() == old(Remaining())
      ensures item.Some? ==> old(Remaining()) == [item.value] + Remaining()
    {
      hide PairsOf, AllPairs, EvalWhere, Pair;
      var rightRow := rightRows[rightIndex];
      ghost var after := AllPairs(left.Rest(), rightRows, on, schema);
      PairsStep(leftRow, rightRows, rightIndex, on, schema, after);
      PairIs(leftRow, rightRow, on, schema);
      rightIndex := rightIndex + 1;
      var combined := leftRow + rightRow;
      var matches := EvalWhere(Some(on), combined, schema);
      if matches.None? {
        return Some(Error);
      }
      item := if matches.value then Some(Out(combined)) else None;
    }

    /** The inner loop: the next item of the current left row, if there is one. */
    method ScanRight() returns (item: Option<Item>)
      requires Valid() && initialized && leftOK
      modifies this`rightIndex
      ensures Valid() && rightIndex >= old(rightIndex)
      ensures item.None? ==> Remaining() == old(Remaining()) && rightIndex == |rightRows|
      ensures item.Some? ==> old(Remaining()) == [item.value] + Remaining()
    {
      hide Remaining;
      while rightIndex < |rightRows|
        invariant Valid() && Remaining() == old(Remaining()) && rightIndex >= old(rightIndex)
      {
        item := PairAt();
        if item.Some? {
          return;
        }
      }
      item := None;
    }
  }

  lemma {:induction false} HeadItem(items: seq<Item>)
    ensures items == [] ==> FirstError(items) == 0 && RowsBefore(items) == []
    ensures items != [] && items[0].Error? ==> FirstError(items) == 0
    ensures items != [] && items[0].Out? ==>
              && FirstError(items) == 1 + FirstError(items[1..])
              && RowsBefore(items) == [items[0].row] + RowsBefore(items[1..])
  {
  }

  /** The items of the next right row come first. */
  lemma {:induction false} PairsStep(l: Tuple, right: seq<Tuple>, i: nat, on: Expr, schema: Schema, after: seq<Item>)
    requires i < |right|
    ensures var later := PairsOf(l, right[i + 1..], on, schema) + after;
            var items := Pair(l, right[i], on, schema);
            PairsOf(l, right[i..], on, schema) + after == if items == [] then later else [items[0]] + later
  {
    assert right[i..][1..] == right[i + 1..];
    var items, more := Pair(l, right[i], on, schema), PairsOf(l, right[i + 1..], on, schema);
    hide PairsOf, Pair;
    Prepended(items, more, after);
  }

  /** At most one item in front of two lists. */
  lemma {:induction false} Prepended(items: seq<Item>, more: seq<Item>, after: seq<Item>)
    requires |items| <= 1
    ensures items + more + after == if items == [] then more + after else [items[0]] + (more + after)
  {
    if items == [] {
      assert items + more == more;
    } else {
      assert items == [items[0]];
      Sequences.Assoc(items, more, after);
    }
  }

  lemma {:induction false} PairIs(l: Tuple, r: Tuple, on: Expr, schema: Schema)
    ensures var w := EvalWhere(Some(on), l + r, schema);
            Pair(l, r, on, schema) == if w.None? then [Error] else if w.value then [Out(l + r)] else []
  {
  }

  lemma {:induction false} PairsEmpty(l: Tuple, right: seq<Tuple>, on: Expr, schema: Schema)
    ensures PairsOf(l, right[|right|..], on, schema) == []
  {
  }

  lemma {:induction false} NoLeft(right: seq<Tuple>, on: Expr, schema: Schema)
    ensures AllPairs([], right, on, schema) == []
  {
  }

  lemma {:induction false} LeftStep(l: Item, rest: seq<Item>, right: seq<Tuple>, on: Expr, schema: Schema)
    ensures AllPairs([l] + rest, right, on, schema)
            == (if l.Error? then [Error] else PairsOf(l.row, right, on, schema)) + AllPairs(rest, right, on, schema)
  {
    assert ([l] + rest)[1..] == rest;
  }

  // ---------------------------------------------------------------------
  // The indexed join
  // ---------------------------------------------------------------------

  /** An index seek on the right table: an error when it is opened, or an iterator that
      delivers rows and errors. */
  type SeekFn = Value -> Option<seq<Item>>

  /** The items of one left row with an open iterator. */
  function ItemPairs(l: Tuple, right: seq<Item>, on: Expr, schema: Schema): (items: seq<Item>) {
    if right == [] then []
    else
      (if right[0].Error? then [Error] else Pair(l, right[0].row, on, schema)) + ItemPairs(l, right[1..], on, schema)
  }

  /** The items of one left row: an error when its key or the opening of the seek fails. */
  function Probe(l: Tuple, seek: SeekFn, column: string, leftSchema: Schema, on: Expr,
                 schema: Schema): (items: seq<Item>) {
    var key := Eval.Eval(ColumnRef("", column), l, leftSchema);
    if key.None? then [Error]
    else if seek(key.value).None? then [Error]
    else ItemPairs(l, seek(key.value).value, on, schema)
  }

  function AllProbes(left: seq<Item>, seek: SeekFn, column: string, leftSchema: Schema, on: Expr,
                     schema: Schema): (items: seq<Item>) {
    if left == [] then []
    else
      (if left[0].Error? then [Error] else Probe(left[0].row, seek, column, leftSchema, on, schema))
      + AllProbes(left[1..], seek, column, leftSchema, on, schema)
  }

  class IndexedNestedLoopJoinOp {
    const left: Source
    const seek: SeekFn
    const leftColumn: string
    const leftSchema: Schema
    const on: Expr
    const schema: Schema
    var leftRow: Tuple
    var rightIter: Option<seq<Item>>

    constructor (left: Source, seek: SeekFn, leftColumn: string, leftSchema: Schema, on: Expr, schema: Schema)
      ensures this.left == left && this.seek == seek && this.leftColumn == leftColumn
      ensures this.leftSchema == leftSchema && this.on == on && this.schema == schema
      ensures Remaining() == AllProbes(left.Rest(), seek, leftColumn, leftSchema, on, schema)
    {
      this.left, this.seek, this.leftColumn := left, seek, leftColumn;
      this.leftSchema, this.on, this.schema := leftSchema, on, schema;
      leftRow, rightIter := [], None;
    }

    ghost function Remaining(): seq<Item>
      reads this, left
    {
      (if rightIter.Some? then ItemPairs(leftRow, rightIter.value, on, schema) else [])
      + AllProbes(left.Rest(), seek, leftColumn, leftSchema, on, schema)
    }

    /** Next delivers exactly the remaining items in order, then reports the end for ever. */
    method Next() returns (item: Option<Item>)
      modifies this, left
      ensures item.None? ==> old(Remaining()) == [] && Remaining() == []
      ensures item.Some? ==> old(Remaining()) == [item.value] + Remaining()
    {
      while true
        invariant Remaining() == old(Remaining())
        decreases |left.Rest()|, rightIter.Some?, if rightIter.Some? then |rightIter.value| else 0
      {
        var done;
        done, item := Turn();
        if done {
          return;
        }
      }
    }

    /** One turn of Next's loop. */
    method Turn() returns (done: bool, item: Option<Item>)
      modifies this, left
      ensures !done ==> item.None? && Remaining() == old(Remaining())
      ensures !done ==>
                || |left.Rest()| < |old(left.Rest())|
                || (|left.Rest()| == |old(left.Rest())| && old(rightIter).Some?
                    && (rightIter.None? || |rightIter.value| < |old(rightIter).value|))
      ensures done && item.None? ==> old(Remaining()) == [] && Remaining() == []
      ensures item.Some? ==> old(Remaining()) == [item.value] + Remaining()
    {
      if rightIter.None? {
        done, item := Open();
        return;
      }
      hide ItemPairs, AllProbes, Pair, EvalWhere;
      ghost var after := AllProbes(left.Rest(), seek, leftColumn, leftSchema, on, schema);
      IterStep(leftRow, rightIter.value, on, schema, after);
      if rightIter.value == [] {
        rightIter := None;
        return false, None;
      }
      var right := rightIter.value[0];
      rightIter := Some(rightIter.value[1..]);
      if right.Error? {
        return true, Some(Error);
      }
      PairIs(leftRow, right.row, on, schema);
      var combined := leftRow + right.row;
      var matches := EvalWhere(Some(on), combined, schema);
      if matches.None? {
        return true, Some(Error);
      }
      if matches.value {
        return true, Some(Out(combined));
      }
      done, item := false, None;
    }

    /** Takes the next left row and opens the seek for its key. */
    method Open() returns (done: bool, item: Option<Item>)
      requires rightIter.None?
      modifies this, left
      ensures !done ==> item.None? && Remaining() == old(Remaining()) && |left.Rest()| < |old(left.Rest())|
      ensures done && item.None? ==> old(Remaining()) == [] && Remaining() == []
      ensures item.Some? ==> old(Remaining()) == [item.value] + Remaining()
    {
      hide ItemPairs, AllProbes;
      ProbeStep(Error, [], seek, leftColumn, leftSchema, on, schema);
      var l := left.Next();
      if l.None? {
        return true, None;
      }
      ProbeStep(l.value, left.Rest(), seek, leftColumn, leftSchema, on, schema);
      if l.value.Error? {
        return true, Some(Error);
      }
      var key := Eval.Eval(ColumnRef("", leftColumn), l.value.row, leftSchema);
      if key.None? {
        return true, Some(Error);
      }
      var iter := seek(key.value);
      if iter.None? {
        return true, Some(Error);
      }
      leftRow, rightIter := l.value.row, iter;
      done, item := false, None;
    }
  }

  /** The head of an open iterator. */
  lemma {:induction false} IterStep(l: Tuple, right: seq<Item>, on: Expr, schema: Schema, after: seq<Item>)
    ensures right == [] ==> ItemPairs(l, right, on, schema) + after == after && [] + after == after
    ensures right != [] ==>
              var later := ItemPairs(l, right[1..], on, schema) + after;
              var items := if right[0].Error? then [Error] else Pair(l, right[0].row, on, schema);
              ItemPairs(l, right, on, schema) + after == if items == [] then later else [items[0]] + later
  {
    if right != [] {
      var items := if right[0].Error? then [Error] else Pair(l, right[0].row, on, schema);
      var more := ItemPairs(l, right[1..], on, schema);
      assert ItemPairs(l, right, on, schema) == items + more;
      hide ItemPairs, Pair;
      Prepended(items, more, after);
    }
  }

  lemma {:induction false} ProbeStep(l: Item, rest: seq<Item>, seek: SeekFn, c: string, ls: Schema, on: Expr,
                                     schema: Schema)
    ensures AllProbes([l] + rest, seek, c, ls, on, schema)
            == (if l.Error? then [Error] else Probe(l.row, seek, c, ls, on, schema)) + AllProbes(rest, seek, c, ls, on,
              schema)
    ensures AllProbes([], seek, c, ls, on, schema) == []
  {
    assert ([l] + rest)[1..] == rest;
  }
}
