/** The recursive-descent parser on token streams.  A stream ends where the lexer would
    report EOF; keyword and operator tokens carry no spelling. */
module Parser {
  import opened Core

  datatype Token =
    | Select | From | Where | Join | On | Update | Set | Delete | Explain
    | And | Or | True | False
    | Ident(name: string) | IntLit(digits: string) | TextLit(text: seq<Byte>)
    | Comma | StarTok | Dot | Plus | Minus
    | Eq | Ne | Lt | Le | Gt | Ge
    | Other

  /** strconv.ParseInt on a digit string: an error beyond the int64 range or for other characters. */
  function ParseInt(s: string): (v: Option<Int64>)
    ensures v.Some? ==> v.value >= 0
  {
    var n := Digits(s);
    if n.Some? && s != [] && n.value < 0x8000_0000_0000_0000 then Some(n.value) else None
  }

  function Digits(s: string): (n: Option<nat>) {
    if s == [] then Some(0)
    else
      var c, init := s[|s| - 1], Digits(s[..|s| - 1]);
      if init.Some? && '0' <= c <= '9' then Some(10 * init.value + (c - '0') as nat) else None
  }

  /** The expression read and the tokens after it; None is a parse error. */
  type Parsed = Option<(Expr, seq<Token>)>

  function ParsePrimary(ts: seq<Token>): (p: Parsed)
    ensures p.Some? ==> |p.value.1| < |ts|
  {
    if ts == [] then None
    else match ts[0]
      case Ident(n) =>
        if |ts| > 1 && ts[1].Dot? then
          if |ts| > 2 && ts[2].Ident? then Some((ColumnRef(n, ts[2].name), ts[3..])) else None
        else Some((ColumnRef("", n), ts[1..]))
      case IntLit(d) =>
        var v := ParseInt(d);
        if v.None? then None else Some((Literal(Int(v.value)), ts[1..]))
      case TextLit(s) => Some((Literal(Text(s)), ts[1..]))
      case True => Some((Literal(Bool(true)), ts[1..]))
      case False => Some((Literal(Bool(false)), ts[1..]))
      case _ => None
  }

  /** The loop of parseAdditive with `left` already read. */
  function AddRest(left: Expr, ts: seq<Token>): (p: Parsed)
    ensures p.Some? ==> |p.value.1| <= |ts|
    decreases |ts|
  {
    if ts == [] || !(ts[0].Plus? || ts[0].Minus?) then Some((left, ts))
    else
      var r := ParsePrimary(ts[1..]);
      if r.None? then None
      else AddRest(Binary(if ts[0].Plus? then OpAdd else OpSub, left, r.value.0), r.value.1)
  }

  function ParseAdditive(ts: seq<Token>): (p: Parsed)
    ensures p.Some? ==> |p.value.1| < |ts|
  {
    var l := ParsePrimary(ts);
    if l.None? then None else AddRest(l.value.0, l.value.1)
  }

  function Comparator(t: Token): Option<BinOp> {
    match t
    case Eq => Some(OpEq)
    case Ne => Some(OpNe)
    case Lt => Some(OpLt)
    case Le => Some(OpLe)
    case Gt => Some(OpGt)
    case Ge => Some(OpGe)
    case _ => None
  }

  function ParseComparison(ts: seq<Token>): (p: Parsed)
    ensures p.Some? ==> |p.value.1| < |ts|
  {
    var l := ParseAdditive(ts);
    if l.None? then None else CompareRest(l.value.0, l.value.1)
  }

  /** At most one comparison: they do not chain. */
  function CompareRest(left: Expr, ts: seq<Token>): (p: Parsed)
    ensures p.Some? ==> |p.value.1| <= |ts|
  {
    if ts == [] || Comparator(ts[0]).None? then Some((left, ts))
    else
      var r := ParseAdditive(ts[1..]);
      if r.None? then None else Some((Binary(Comparator(ts[0]).value, left, r.value.0), r.value.1))
  }

  function AndRest(left: Expr, ts: seq<Token>): (p: Parsed)
    ensures p.Some? ==> |p.value.1| <= |ts|
    decreases |ts|
  {
    if ts == [] || !ts[0].And? then Some((left, ts))
    else
      var r := ParseComparison(ts[1..]);
      if r.None? then None else AndRest(Binary(OpAnd, left, r.value.0), r.value.1)
  }

  function ParseAnd(ts: seq<Token>): (p: Parsed)
    ensures p.Some? ==> |p.value.1| < |ts|
  {
    var l := ParseComparison(ts);
    if l.None? then None else AndRest(l.value.0, l.value.1)
  }

  function OrRest(left: Expr, ts: seq<Token>): (p: Parsed)
    ensures p.Some? ==> |p.value.1| <= |ts|
    decreases |ts|
  {
    if ts == [] || !ts[0].Or? then Some((left, ts))
    else
      var r := ParseAnd(ts[1..]);
      if r.None? then None else OrRest(Binary(OpOr, left, r.value.0), r.value.1)
  }

  function ParseExpr(ts: seq<Token>): (p: Parsed)
    ensures p.Some? ==> |p.value.1| < |ts|
  {
    var l := ParseAnd(ts);
    if l.None? then None else OrRest(l.value.0, l.value.1)
  }

  // ---------------------------------------------------------------------
  // Statements
  // ---------------------------------------------------------------------

  datatype Assignment = Assignment(column: string, value: Expr)

  /** An absent alias is the empty string. */
  datatype Stmt =
    | SelectStmt(projection: seq<Expr>, from: string, fromAlias: string, joins: seq<JoinClause>, filter: Option<Expr>)
    | UpdateStmt(table: string, assignments: seq<Assignment>, filter: Option<Expr>)
    | DeleteStmt(table: string, filter: Option<Expr>)
    | ExplainStmt(stmt: Stmt)

  function ParseProjection(ts: seq<Token>): (p: Option<(seq<Expr>, seq<Token>)>)
    ensures p.Some? ==> |p.value.1| < |ts|
  {
    if ts != [] && ts[0].StarTok? then Some(([Star], ts[1..])) else ParseExprList(ts)
  }

  function ParseExprList(ts: seq<Token>): (p: Option<(seq<Expr>, seq<Token>)>)
    ensures p.Some? ==> |p.value.1| < |ts|
    decreases |ts|
  {
    var e := ParseExpr(ts);
    if e.None? then None
    else if e.value.1 != [] && e.value.1[0].Comma? then
      var more := ParseExprList(e.value.1[1..]);
      if more.None? then None else Some(([e.value.0] + more.value.0, more.value.1))
    else Some(([e.value.0], e.value.1))
  }

  /** An optional alias; the reserved spellings are left for the clause that follows. */
  function ParseAlias(ts: seq<Token>, reserved: set<string>): (p: (string, seq<Token>))
    ensures |p.1| <= |ts|
  {
    if ts != [] && ts[0].Ident? && ts[0].name !in reserved then (ts[0].name, ts[1..]) else ("", ts)
  }

  const FROM_RESERVED := {"JOIN", "WHERE"}
  const JOIN_RESERVED := {"ON"}

  function ParseJoin(ts: seq<Token>): (p: Option<(JoinClause, seq<Token>)>)
    requires ts != [] && ts[0].Join?
    ensures p.Some? ==> |p.value.1| < |ts|
  {
    if |ts| < 2 || !ts[1].Ident? then None
    else
      var (alias, us) := ParseAlias(ts[2..], JOIN_RESERVED);
      if us == [] || !us[0].On? then None
      else
        var e := ParseExpr(us[1..]);
        if e.None? then None else Some((JoinClause(ts[1].name, alias, e.value.0), e.value.1))
  }

  function ParseJoins(ts: seq<Token>): (p: Option<(seq<JoinClause>, seq<Token>)>)
    ensures p.Some? ==> |p.value.1| <= |ts|
    decreases |ts|
  {
    if ts == [] || !ts[0].Join? then Some(([], ts))
    else
      var j := ParseJoin(ts);
      if j.None? then None
      else
        var more := ParseJoins(j.value.1);
        if more.None? then None else Some(([j.value.0] + more.value.0, more.value.1))
  }

  /** The optional WHERE at the end of a statement, which must be followed by EOF. */
  function ParseFilter(ts: seq<Token>): (p: Option<Option<Expr>>) {
    if ts == [] then Some(None)
    else if !ts[0].Where? then None
    else
      var e := ParseExpr(ts[1..]);
      if e.None? || e.value.1 != [] then None else Some(Some(e.value.0))
  }

  /** parseSelect after the keyword. */
  function ParseSelect(ts: seq<Token>): (s: Option<Stmt>) {
    var p := ParseProjection(ts);
    if p.None? || |p.value.1| < 2 || !p.value.1[0].From? || !p.value.1[1].Ident? then None
    else
      var (alias, us) := ParseAlias(p.value.1[2..], FROM_RESERVED);
      var j := ParseJoins(us);
      if j.None? then None
      else
        var f := ParseFilter(j.value.1);
        if f.None? then None
        else Some(SelectStmt(p.value.0, p.value.1[1].name, alias, j.value.0, f.value))
  }

  function ParseAssignments(ts: seq<Token>): (p: Option<(seq<Assignment>, seq<Token>)>)
    ensures p.Some? ==> |p.value.1| < |ts|
    decreases |ts|
  {
    if |ts| < 2 || !ts[0].Ident? || !ts[1].Eq? then None
    else
      var e := ParseExpr(ts[2..]);
      if e.None? then None
      else if e.value.1 != [] && e.value.1[0].Comma? then
        var more := ParseAssignments(e.value.1[1..]);
        if more.None? then None
        else Some(([Assignment(ts[0].name, e.value.0)] + more.value.0, more.value.1))
      else Some(([Assignment(ts[0].name, e.value.0)], e.value.1))
  }

  function ParseUpdate(ts: seq<Token>): (s: Option<Stmt>) {
    if |ts| < 2 || !ts[0].Ident? || !ts[1].Set? then None
    else
      var a := ParseAssignments(ts[2..]);
      if a.None? then None
      else
        var f := ParseFilter(a.value.1);
        if f.None? then None else Some(UpdateStmt(ts[0].name, a.value.0, f.value))
  }

  function ParseDelete(ts: seq<Token>): (s: Option<Stmt>) {
    if |ts| < 2 || !ts[0].From? || !ts[1].Ident? then None
    else
      var f := ParseFilter(ts[2..]);
      if f.None? then None else Some(DeleteStmt(ts[1].name, f.value))
  }

  /** parseStatement, for queries, updates, deletes and EXPLAIN of these. */
  function ParseStmt(ts: seq<Token>): (s: Option<Stmt>)
    decreases |ts|
  {
    if ts == [] then None
    else match ts[0]
      case Select => ParseSelect(ts[1..])
      case Update => ParseUpdate(ts[1..])
      case Delete => ParseDelete(ts[1..])
      case Explain =>
        var s := ParseStmt(ts[1..]);
        if s.None? then None else Some(ExplainStmt(s.value))
      case _ => None
  }
}
