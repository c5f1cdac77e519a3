/** The vocabulary shared by every layer: values, rows, schemas and expressions
    (package core of the repository). */
module Core {

  datatype Option<+T> = None | Some(value: T)

  type Byte = x: int | 0 <= x < 256
  type Int64 = x: int | -0x8000_0000_0000_0000 <= x < 0x8000_0000_0000_0000
  type UInt64 = x: int | 0 <= x < 0x1_0000_0000_0000_0000

  datatype ColumnType = TypeInt | TypeText | TypeBool

  /** A cell.  The NULL flag of the source becomes a constructor that keeps only
      the type tag, since the other fields of a NULL are ignored there. */
  datatype Value =
    | Null(tag: ColumnType)
    | Int(i: Int64)
    | Text(s: seq<Byte>)
    | Bool(b: bool)
  {
    function Type(): ColumnType {
      match this
      case Null(t) => t
      case Int(_) => TypeInt
      case Text(_) => TypeText
      case Bool(_) => TypeBool
    }
  }

  datatype Row = Row(values: seq<Value>, xmin: UInt64, xmax: UInt64)

  datatype Column = Column(name: string, typ: ColumnType)

  type Schema = seq<Column>

  /** Position of the first column with the given name, or -1. */
  function ColumnIndex(schema: Schema, name: string): (i: int)
    ensures -1 <= i < |schema|
    ensures i >= 0 ==> schema[i].name == name && forall j :: 0 <= j < i ==> schema[j].name != name
    ensures i < 0 ==> forall j :: 0 <= j < |schema| ==> schema[j].name != name
  {
    if schema == [] then -1
    else if schema[0].name == name then 0
    else
      var r := ColumnIndex(schema[1..], name);
      if r < 0 then -1 else r + 1
  }

  /** Byte-wise lexicographic order of Go strings: -1, 0 or 1. */
  function CompareBytes(a: seq<Byte>, b: seq<Byte>): (c: int)
    ensures c == 0 <==> a == b
    ensures -1 <= c <= 1
  {
    if a == [] && b == [] then 0
    else if a == [] then -1
    else if b == [] then 1
    else if a[0] < b[0] then -1
    else if a[0] > b[0] then 1
    else
      assert a == [a[0]] + a[1..] && b == [b[0]] + b[1..];
      CompareBytes(a[1..], b[1..])
  }

  /** Compare: an error (None) for NULLs and for values of different types. */
  function Compare(v: Value, o: Value): (c: Option<int>)
    ensures c.Some? <==> !v.Null? && !o.Null? && v.Type() == o.Type()
    ensures c == Some(0) <==> !v.Null? && v == o
  {
    match (v, o)
    case (Int(x), Int(y)) => Some(if x < y then -1 else if x > y then 1 else 0)
    case (Text(x), Text(y)) => Some(CompareBytes(x, y))
    case (Bool(x), Bool(y)) => Some(if x == y then 0 else if !x then -1 else 1)
    case _ => None
  }

  /** Lexicographic order of byte strings: at the first difference a ends or is smaller. */
  ghost predicate Precedes(a: seq<Byte>, b: seq<Byte>) {
    exists i: nat :: DiffersAt(a, b, i)
  }

  ghost predicate DiffersAt(a: seq<Byte>, b: seq<Byte>, i: nat) {
    i <= |a| && i < |b| && a[..i] == b[..i] && (i < |a| ==> a[i] < b[i])
  }

  lemma {:induction false} CompareBytesOrders(a: seq<Byte>, b: seq<Byte>)
    ensures CompareBytes(a, b) < 0 ==> Precedes(a, b)
    ensures CompareBytes(a, b) > 0 ==> Precedes(b, a)
  {
    if a == [] || b == [] || a[0] != b[0] {
      assert a != [] && b != [] && a[0] < b[0] ==> DiffersAt(a, b, 0);
      assert a != [] && b != [] && b[0] < a[0] ==> DiffersAt(b, a, 0);
      assert a == [] && b != [] ==> DiffersAt(a, b, 0);
      assert b == [] && a != [] ==> DiffersAt(b, a, 0);
    } else {
      CompareBytesOrders(a[1..], b[1..]);
      if CompareBytes(a, b) < 0 {
        LaterDifference(a, b);
      } else if CompareBytes(a, b) > 0 {
        LaterDifference(b, a);
      }
    }
  }

  lemma {:induction false} LaterDifference(a: seq<Byte>, b: seq<Byte>)
    requires a != [] && b != [] && a[0] == b[0] && Precedes(a[1..], b[1..])
    ensures Precedes(a, b)
  {
    var i: nat :| DiffersAt(a[1..], b[1..], i);
    assert a[..i + 1] == [a[0]] + a[1..][..i] && b[..i + 1] == [b[0]] + b[1..][..i];
    assert DiffersAt(a, b, i + 1);
  }

  lemma {:induction false} SamePrefix(a: seq<Byte>, b: seq<Byte>)
    ensures forall j: nat, k: nat :: k < j <= |a| && j <= |b| && a[..j] == b[..j] ==> a[k] == b[k]
  {
    forall j: nat, k: nat | k < j <= |a| && j <= |b| && a[..j] == b[..j] ensures a[k] == b[k] {
      assert a[..j][k] == b[..j][k];
    }
  }

  /** The order is strict. */
  lemma {:induction false} PrecedesIsStrict(a: seq<Byte>, b: seq<Byte>)
    requires Precedes(a, b)
    ensures a != b && !Precedes(b, a)
  {
    var i: nat :| DiffersAt(a, b, i);
    SamePrefix(a, b);
    forall j: nat ensures !DiffersAt(b, a, j) {
    }
  }

  /** Which of two values is the smaller: by number, by bytes, false before true. */
  lemma {:induction false} CompareOrders(v: Value, o: Value)
    ensures Compare(v, o).Some? <==> !v.Null? && !o.Null? && v.Type() == o.Type()
    ensures Compare(v, o) == Some(0) <==> !v.Null? && v == o
    ensures v.Int? && o.Int? ==> (Compare(v, o).value < 0 <==> v.i < o.i)
    ensures v.Text? && o.Text? ==> (Compare(v, o).value < 0 <==> Precedes(v.s, o.s))
    ensures v.Bool? && o.Bool? ==> (Compare(v, o).value < 0 <==> !v.b && o.b)
    ensures Compare(v, o).Some? ==> Compare(o, v).Some? && (Compare(v, o).value < 0 <==> Compare(o, v).value > 0)
  {
    if v.Text? && o.Text? {
      CompareBytesOrders(v.s, o.s);
      CompareBytesOrders(o.s, v.s);
      if Precedes(v.s, o.s) {
        PrecedesIsStrict(v.s, o.s);
      }
      if Precedes(o.s, v.s) {
        PrecedesIsStrict(o.s, v.s);
      }
    }
  }

  datatype BinOp = OpEq | OpNe | OpLt | OpLe | OpGt | OpGe | OpAnd | OpOr | OpAdd | OpSub

  datatype Expr =
    | Star
    | ColumnRef(table: string, name: string)
    | Literal(value: Value)
    | Binary(op: BinOp, left: Expr, right: Expr)

  /** JOIN table [alias] ON on; an absent alias is the empty string. */
  datatype JoinClause = JoinClause(table: string, alias: string, on: Expr)
}
