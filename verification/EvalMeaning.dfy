/** What expressions mean, operator by operator and type by type: comparisons as facts about
    numbers, bytes and truth values, AND and OR as three-valued tables, + and - in 64 bits. */
module EvalMeaning {
  import opened Core
  import opened Eval

  /** The operands of a binary expression evaluate to these values. */
  predicate Operands(e: Expr, row: Tuple, schema: Schema, l: Value, r: Value) {
    e.Binary? && Eval.Eval(e.left, row, schema) == Some(l) && Eval.Eval(e.right, row, schema) == Some(r)
  }

  /** The first failing operand fails the whole; neither AND nor OR skips its right side. */
  lemma {:induction false} ErrorsSpread(e: Expr, row: Tuple, schema: Schema)
    requires e.Binary?
    requires Eval.Eval(e.left, row, schema).None? || Eval.Eval(e.right, row, schema).None?
    ensures Eval.Eval(e, row, schema).None?
  {
  }

  ghost predicate FirstNamed(schema: Schema, name: string, i: int) {
    0 <= i < |schema| && schema[i].name == name && forall j :: 0 <= j < i ==> schema[j].name != name
  }

  /** A literal is itself; a column is the cell under the first column of that name, whatever
      table qualifies it; a missing column or cell and a star are errors. */
  lemma {:induction false} LeavesMean(e: Expr, row: Tuple, schema: Schema)
    ensures e.Literal? ==> Eval.Eval(e, row, schema) == Some(e.value)
    ensures e.Star? ==> Eval.Eval(e, row, schema).None?
    ensures e.ColumnRef? ==>
              forall i :: FirstNamed(schema, e.name, i) ==>
                Eval.Eval(e, row, schema) == if i < |row| then Some(row[i]) else None
    ensures e.ColumnRef? && (forall i :: 0 <= i < |schema| ==> schema[i].name != e.name) ==>
              Eval.Eval(e, row, schema).None?
  {
    if e.ColumnRef? {
      var c := ColumnIndex(schema, e.name);
      forall i | FirstNamed(schema, e.name, i) ensures i == c {
      }
    }
  }

  /** Two integers: the six comparisons are those of the numbers, AND and OR are errors. */
  lemma {:induction false} IntsMean(e: Expr, row: Tuple, schema: Schema, x: Int64, y: Int64)
    requires Operands(e, row, schema, Int(x), Int(y))
    ensures e.op == OpEq ==> Eval.Eval(e, row, schema) == Some(Bool(x == y))
    ensures e.op == OpNe ==> Eval.Eval(e, row, schema) == Some(Bool(x != y))
    ensures e.op == OpLt ==> Eval.Eval(e, row, schema) == Some(Bool(x < y))
    ensures e.op == OpLe ==> Eval.Eval(e, row, schema) == Some(Bool(x <= y))
    ensures e.op == OpGt ==> Eval.Eval(e, row, schema) == Some(Bool(x > y))
    ensures e.op == OpGe ==> Eval.Eval(e, row, schema) == Some(Bool(x >= y))
    ensures e.op == OpAnd || e.op == OpOr ==> Eval.Eval(e, row, schema).None?
  {
  }

  predicate InRange(x: int) { -0x8000_0000_0000_0000 <= x < 0x8000_0000_0000_0000 }

  /** The same number up to a multiple of 2^64. */
  ghost predicate Congruent(x: int, y: int) {
    exists k: int :: x == y + k * 0x1_0000_0000_0000_0000
  }

  lemma {:induction false} WrapMeans(x: int)
    ensures Congruent(Wrap(x), x) && (InRange(x) ==> Wrap(x) == x)
  {
    var m := 0x1_0000_0000_0000_0000;
    var s := x + 0x8000_0000_0000_0000;
    var q := s / m;
    assert s == q * m + s % m;
    assert Wrap(x) == x + (-q) * m;
  }

  /** The sum and the difference of two integers: exact in the 64-bit range, otherwise the
      number in that range that is congruent to it. */
  lemma {:induction false} SumsMean(e: Expr, row: Tuple, schema: Schema, x: Int64, y: Int64)
    requires Operands(e, row, schema, Int(x), Int(y)) && (e.op == OpAdd || e.op == OpSub)
    ensures var exact := if e.op == OpAdd then x + y else x - y;
            var v := Eval.Eval(e, row, schema);
            v.Some? && v.value.Int? && Congruent(v.value.i, exact) && (InRange(exact) ==> v.value.i == exact)
  {
    WrapMeans(if e.op == OpAdd then x + y else x - y);
  }

  /** Two texts compare by their bytes; everything else is an error. */
  lemma {:induction false} TextsMean(e: Expr, row: Tuple, schema: Schema, a: seq<Byte>, b: seq<Byte>)
    requires Operands(e, row, schema, Text(a), Text(b))
    ensures e.op == OpEq ==> Eval.Eval(e, row, schema) == Some(Bool(a == b))
    ensures e.op == OpNe ==> Eval.Eval(e, row, schema) == Some(Bool(a != b))
    ensures e.op == OpLt ==> Eval.Eval(e, row, schema) == Some(Bool(Precedes(a, b)))
    ensures e.op == OpLe ==> Eval.Eval(e, row, schema) == Some(Bool(a == b || Precedes(a, b)))
    ensures e.op == OpGt ==> Eval.Eval(e, row, schema) == Some(Bool(Precedes(b, a)))
    ensures e.op == OpGe ==> Eval.Eval(e, row, schema) == Some(Bool(a == b || Precedes(b, a)))
    ensures e.op == OpAnd || e.op == OpOr || e.op == OpAdd || e.op == OpSub ==> Eval.Eval(e, row, schema).None?
  {
    CompareOrders(Text(a), Text(b));
    CompareOrders(Text(b), Text(a));
    hide Precedes;
  }

  /** Two booleans: false before true, AND and OR as usual, + and - are errors. */
  lemma {:induction false} BoolsMean(e: Expr, row: Tuple, schema: Schema, a: bool, b: bool)
    requires Operands(e, row, schema, Bool(a), Bool(b))
    ensures e.op == OpEq ==> Eval.Eval(e, row, schema) == Some(Bool(a == b))
    ensures e.op == OpNe ==> Eval.Eval(e, row, schema) == Some(Bool(a != b))
    ensures e.op == OpLt ==> Eval.Eval(e, row, schema) == Some(Bool(!a && b))
    ensures e.op == OpLe ==> Eval.Eval(e, row, schema) == Some(Bool(!a || b))
    ensures e.op == OpGt ==> Eval.Eval(e, row, schema) == Some(Bool(a && !b))
    ensures e.op == OpGe ==> Eval.Eval(e, row, schema) == Some(Bool(a || !b))
    ensures e.op == OpAnd ==> Eval.Eval(e, row, schema) == Some(Bool(a && b))
    ensures e.op == OpOr ==> Eval.Eval(e, row, schema) == Some(Bool(a || b))
    ensures e.op == OpAdd || e.op == OpSub ==> Eval.Eval(e, row, schema).None?
  {
  }

  /** Values of different types: every operator is an error. */
  lemma {:induction false} MixedIsError(e: Expr, row: Tuple, schema: Schema, l: Value, r: Value)
    requires Operands(e, row, schema, l, r) && !l.Null? && !r.Null? && l.Type() != r.Type()
    ensures Eval.Eval(e, row, schema).None?
  {
  }

  /** With a NULL operand: AND with a false operand is false and otherwise NULL, OR with a true
      one is true and otherwise NULL, whatever the type of the other; every other operator is
      NULL. */
  lemma {:induction false} NullsMean(e: Expr, row: Tuple, schema: Schema, l: Value, r: Value)
    requires Operands(e, row, schema, l, r) && (l.Null? || r.Null?)
    ensures e.op == OpAnd && (l == Bool(false) || r == Bool(false)) ==> Eval.Eval(e, row, schema) == Some(Bool(false))
    ensures e.op == OpAnd && l != Bool(false) && r != Bool(false) ==> Eval.Eval(e, row, schema) == Some(Null(TypeBool))
    ensures e.op == OpOr && (l == Bool(true) || r == Bool(true)) ==> Eval.Eval(e, row, schema) == Some(Bool(true))
    ensures e.op == OpOr && l != Bool(true) && r != Bool(true) ==> Eval.Eval(e, row, schema) == Some(Null(TypeBool))
    ensures e.op != OpAnd && e.op != OpOr ==> Eval.Eval(e, row, schema) == Some(Null(TypeBool))
  {
  }

  /** A row passes WHERE when there is none or its condition is true; false and NULL reject it,
      and anything else is an error. */
  lemma {:induction false} WhereMeans(e: Expr, row: Tuple, schema: Schema)
    ensures EvalWhere(None, row, schema) == Some(true)
    ensures EvalWhere(Some(e), row, schema) == Some(true) <==> Eval.Eval(e, row, schema) == Some(Bool(true))
    ensures EvalWhere(Some(e), row, schema) == Some(false) <==>
              var v := Eval.Eval(e, row, schema); v.Some? && (v.value.Null? || v.value == Bool(false))
  {
  }
}
