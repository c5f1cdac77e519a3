/** Expression evaluation with three-valued logic.  None stands for an evaluation error. */
module Eval {
  import opened Core

  type Tuple = seq<Value>

  /** int64 addition wraps around. */
  function Wrap(x: int): Int64 {
    (x + 0x8000_0000_0000_0000) % 0x1_0000_0000_0000_0000 - 0x8000_0000_0000_0000
  }

  function Eval(e: Expr, row: Tuple, schema: Schema): (v: Option<Value>) {
    match e
    case Literal(v) => Some(v)
    case ColumnRef(_, name) =>
      var i := ColumnIndex(schema, name);
      if i < 0 || i >= |row| then None else Some(row[i])
    case Binary(op, left, right) =>
      var l := Eval(left, row, schema);
      if l.None? then None
      else
        var r := Eval(right, row, schema);
        if r.None? then None else EvalBinary(op, l.value, r.value)
    case Star => None
  }

  function EvalBinary(op: BinOp, l: Value, r: Value): (v: Option<Value>) {
    if l.Null? || r.Null? then
      match op
      case OpAnd => Some(if l == Bool(false) || r == Bool(false) then Bool(false) else Null(TypeBool))
      case OpOr => Some(if l == Bool(true) || r == Bool(true) then Bool(true) else Null(TypeBool))
      case _ => Some(Null(TypeBool))
    else
      match op
      case OpAnd => if l.Bool? && r.Bool? then Some(Bool(l.b && r.b)) else None
      case OpOr => if l.Bool? && r.Bool? then Some(Bool(l.b || r.b)) else None
      case OpAdd => if l.Int? && r.Int? then Some(Int(Wrap(l.i + r.i))) else None
      case OpSub => if l.Int? && r.Int? then Some(Int(Wrap(l.i - r.i))) else None
      case _ =>
        var c := Compare(l, r);
        if c.None? then None else Some(Bool(Holds(op, c.value)))
  }

  /** Whether a comparison operator holds for the outcome of Compare. */
  function Holds(op: BinOp, c: int): bool {
    match op
    case OpEq => c == 0
    case OpNe => c != 0
    case OpLt => c < 0
    case OpLe => c <= 0
    case OpGt => c > 0
    case _ => c >= 0
  }

  /** evalWhere: no predicate accepts every row, NULL rejects, a non-boolean is an error. */
  function EvalWhere(e: Option<Expr>, row: Tuple, schema: Schema): (ok: Option<bool>) {
    if e.None? then Some(true)
    else
      var v := Eval(e.value, row, schema);
      if v.None? then None
      else if v.value.Null? then Some(false)
      else if v.value.Bool? then Some(v.value.b)
      else None
  }

  /** The predicate evaluates without error to a boolean or NULL. */
  predicate Clean(e: Expr, row: Tuple, schema: Schema) {
    var v := Eval(e, row, schema);
    v.Some? && (v.value.Null? || v.value.Bool?)
  }

  predicate True(e: Expr, row: Tuple, schema: Schema) {
    Eval(e, row, schema) == Some(Bool(true))
  }

  lemma {:induction false} WhereIsTrue(e: Expr, row: Tuple, schema: Schema)
    requires Clean(e, row, schema)
    ensures EvalWhere(Some(e), row, schema) == Some(True(e, row, schema))
  {
  }

  // ---------------------------------------------------------------------
  // Conjunctions
  // ---------------------------------------------------------------------

  /** splitAndTerms */
  function Split(e: Expr): (terms: seq<Expr>)
    ensures |terms| >= 1
  {
    if e.Binary? && e.op == OpAnd then Split(e.left) + Split(e.right) else [e]
  }

  /** combineAndTerms: left-associated conjunction, nothing for no terms. */
  function Combine(terms: seq<Expr>): (e: Option<Expr>)
    ensures e.None? <==> terms == []
  {
    if terms == [] then None
    else if |terms| == 1 then Some(terms[0])
    else Some(Binary(OpAnd, Combine(terms[..|terms| - 1]).value, terms[|terms| - 1]))
  }

  /** The loop of combineAndTerms. */
  method CombineAndTerms(terms: seq<Expr>) returns (e: Option<Expr>)
    ensures e == Combine(terms)
  {
    if |terms| == 0 {
      return None;
    }
    var combined := terms[0];
    for i := 1 to |terms|
      invariant Combine(terms[..i]) == Some(combined)
    {
      assert terms[..i + 1][..i] == terms[..i];
      combined := Binary(OpAnd, combined, terms[i]);
    }
    assert terms[..|terms|] == terms;
    e := Some(combined);
  }

  ghost predicate AllClean(terms: seq<Expr>, row: Tuple, schema: Schema) {
    forall i :: 0 <= i < |terms| ==> Clean(terms[i], row, schema)
  }

  ghost predicate AllTrue(terms: seq<Expr>, row: Tuple, schema: Schema) {
    forall i :: 0 <= i < |terms| ==> True(terms[i], row, schema)
  }

  lemma {:induction false} AndMeans(l: Expr, r: Expr, row: Tuple, schema: Schema)
    requires Clean(l, row, schema) && Clean(r, row, schema)
    ensures Clean(Binary(OpAnd, l, r), row, schema)
    ensures True(Binary(OpAnd, l, r), row, schema) <==> True(l, row, schema) && True(r, row, schema)
  {
  }

  /** A conjunction whose terms are clean is true exactly when all of them are. */
  lemma {:induction false} SplitMeans(e: Expr, row: Tuple, schema: Schema)
    requires AllClean(Split(e), row, schema)
    ensures Clean(e, row, schema)
    ensures True(e, row, schema) <==> AllTrue(Split(e), row, schema)
  {
    if e.Binary? && e.op == OpAnd {
      var a, b := Split(e.left), Split(e.right);
      assert Split(e) == a + b;
      assert forall i :: 0 <= i < |a| ==> (a + b)[i] == a[i];
      assert forall i :: 0 <= i < |b| ==> (a + b)[|a| + i] == b[i];
      SplitMeans(e.left, row, schema);
      SplitMeans(e.right, row, schema);
      AndMeans(e.left, e.right, row, schema);
      ConcatTrue(a, b, row, schema);
    } else {
      assert Split(e)[0] == e;
    }
  }

  lemma {:induction false} ConcatTrue(a: seq<Expr>, b: seq<Expr>, row: Tuple, schema: Schema)
    ensures AllTrue(a + b, row, schema) <==> AllTrue(a, row, schema) && AllTrue(b, row, schema)
  {
    if AllTrue(a + b, row, schema) {
      forall i | 0 <= i < |a| ensures True(a[i], row, schema) { assert (a + b)[i] == a[i]; }
      forall i | 0 <= i < |b| ensures True(b[i], row, schema) { assert (a + b)[|a| + i] == b[i]; }
    }
  }

  lemma {:induction false} CombineMeans(terms: seq<Expr>, row: Tuple, schema: Schema)
    requires terms != [] && AllClean(terms, row, schema)
    ensures Clean(Combine(terms).value, row, schema)
    ensures True(Combine(terms).value, row, schema) <==> AllTrue(terms, row, schema)
    decreases |terms|
  {
    if |terms| > 1 {
      var init, last := terms[..|terms| - 1], terms[|terms| - 1];
      CombineMeans(init, row, schema);
      AndMeans(Combine(init).value, last, row, schema);
      assert terms == init + [last];
      ConcatTrue(init, [last], row, schema);
      assert AllTrue([last], row, schema) <==> True([last][0], row, schema);
    }
  }

  /** Recombining the terms of a predicate keeps its meaning. */
  lemma {:induction false} CombineSplit(e: Expr, row: Tuple, schema: Schema)
    requires AllClean(Split(e), row, schema)
    ensures EvalWhere(Combine(Split(e)), row, schema) == EvalWhere(Some(e), row, schema)
  {
    SplitMeans(e, row, schema);
    CombineMeans(Split(e), row, schema);
    WhereIsTrue(e, row, schema);
    WhereIsTrue(Combine(Split(e)).value, row, schema);
  }

  /** Taking out term i: the whole is true exactly when that term and the recombined rest are. */
  lemma {:induction false} TakeOut(e: Expr, i: nat, row: Tuple, schema: Schema)
    requires AllClean(Split(e), row, schema) && i < |Split(e)|
    ensures var terms := Split(e);
            var rest := Combine(terms[..i] + terms[i + 1..]);
            EvalWhere(rest, row, schema).Some?
            && EvalWhere(Some(e), row, schema) == Some(True(terms[i], row, schema)
                 && EvalWhere(rest, row, schema).value)
  {
    var terms := Split(e);
    var a, b := terms[..i], terms[i + 1..];
    SplitMeans(e, row, schema);
    WhereIsTrue(e, row, schema);
    assert terms == (a + [terms[i]]) + b;
    ConcatTrue(a + [terms[i]], b, row, schema);
    ConcatTrue(a, [terms[i]], row, schema);
    ConcatTrue(a, b, row, schema);
    assert AllTrue([terms[i]], row, schema) <==> True([terms[i]][0], row, schema);
    if a + b != [] {
      CombineMeans(a + b, row, schema);
      WhereIsTrue(Combine(a + b).value, row, schema);
    }
  }
}
