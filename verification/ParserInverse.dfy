/** Parsing and printing are inverse: every printed statement parses back to itself, and
    every accepted token stream is the printing of its statement, up to the spelling of
    integer literals. */
module ParserInverse {
  import opened Core
  import opened Sequences
  import opened Parser

  // ---------------------------------------------------------------------
  // Printing
  // ---------------------------------------------------------------------

  function Decimal(n: nat): (s: string)
    ensures s != []
  {
    if n < 10 then [('0' as int + n) as char] else Decimal(n / 10) + [('0' as int + n % 10) as char]
  }

  function OpToken(op: BinOp): Token {
    match op
    case OpEq => Eq
    case OpNe => Ne
    case OpLt => Lt
    case OpLe => Le
    case OpGt => Gt
    case OpGe => Ge
    case OpAnd => And
    case OpOr => Or
    case OpAdd => Plus
    case OpSub => Minus
  }

  function Print(e: Expr): (ts: seq<Token>)
    ensures |ts| >= 1
  {
    match e
    case Star => [StarTok]
    case ColumnRef(t, n) => if t == "" then [Ident(n)] else [Ident(t), Dot, Ident(n)]
    case Literal(Int(i)) => [IntLit(if i >= 0 then Decimal(i) else "")]
    case Literal(Text(s)) => [TextLit(s)]
    case Literal(Bool(b)) => [if b then Token.True else Token.False]
    case Literal(Null(_)) => [Other]
    case Binary(op, l, r) => Print(l) + [OpToken(op)] + Print(r)
  }

  // The shapes the precedence ladder builds.

  predicate IsPrimary(e: Expr) {
    match e
    case ColumnRef(_, n) => n != ""
    case Literal(v) => !v.Null? && (v.Int? ==> v.i >= 0)
    case _ => false
  }

  predicate IsAdd(e: Expr) {
    IsPrimary(e) || (e.Binary? && (e.op == OpAdd || e.op == OpSub) && IsAdd(e.left) && IsPrimary(e.right))
  }

  predicate IsComparator(op: BinOp) {
    op == OpEq || op == OpNe || op == OpLt || op == OpLe || op == OpGt || op == OpGe
  }

  predicate IsCmp(e: Expr) {
    IsAdd(e) || (e.Binary? && IsComparator(e.op) && IsAdd(e.left) && IsAdd(e.right))
  }

  predicate IsAnd(e: Expr) {
    IsCmp(e) || (e.Binary? && e.op == OpAnd && IsAnd(e.left) && IsCmp(e.right))
  }

  predicate IsOr(e: Expr) {
    IsAnd(e) || (e.Binary? && e.op == OpOr && IsOr(e.left) && IsAnd(e.right))
  }

  /** The stream does not start with a token of the given kinds. */
  predicate NoDot(ts: seq<Token>) { ts == [] || !ts[0].Dot? }
  predicate NoAdd(ts: seq<Token>) { NoDot(ts) && (ts == [] || !(ts[0].Plus? || ts[0].Minus?)) }
  predicate NoCmp(ts: seq<Token>) { NoAdd(ts) && (ts == [] || Comparator(ts[0]).None?) }
  predicate NoAnd(ts: seq<Token>) { NoCmp(ts) && (ts == [] || !ts[0].And?) }

  /** The stream does not continue an expression. */
  predicate Ends(ts: seq<Token>) { NoAnd(ts) && (ts == [] || !ts[0].Or?) }

  // ---------------------------------------------------------------------
  // Printed expressions parse back
  // ---------------------------------------------------------------------

  lemma {:induction false} DecimalBack(n: nat)
    ensures Digits(Decimal(n)) == Some(n)
  {
    if n >= 10 {
      DecimalBack(n / 10);
      var s := Decimal(n);
      assert s[..|s| - 1] == Decimal(n / 10);
    } else {
      assert Decimal(n)[..0] == [];
    }
  }

  lemma {:induction false} PrimaryBack(e: Expr, rest: seq<Token>)
    requires IsPrimary(e) && NoDot(rest)
    ensures ParsePrimary(Print(e) + rest) == Some((e, rest))
  {
    var ts := Print(e) + rest;
    if e.ColumnRef? && e.table != "" {
      assert ts[0] == Ident(e.table) && ts[1] == Dot && ts[2] == Ident(e.name);
      assert ts[3..] == rest;
    } else {
      assert ts[1..] == rest;
      assert |ts| > 1 ==> ts[1] == rest[0];
      if e.Literal? && e.value.Int? {
        DecimalBack(e.value.i);
      }
    }
  }

  lemma {:induction false} AddBack(e: Expr, rest: seq<Token>)
    requires IsAdd(e) && NoDot(rest)
    ensures ParseAdditive(Print(e) + rest) == AddRest(e, rest)
  {
    if IsPrimary(e) {
      PrimaryBack(e, rest);
    } else {
      var after := [OpToken(e.op)] + (Print(e.right) + rest);
      Regroup(Print(e.left), OpToken(e.op), Print(e.right), rest);
      AddBack(e.left, after);
      assert after[1..] == Print(e.right) + rest;
      PrimaryBack(e.right, rest);
    }
  }

  lemma {:induction false} Regroup(a: seq<Token>, op: Token, b: seq<Token>, rest: seq<Token>)
    ensures a + [op] + b + rest == a + ([op] + (b + rest))
  {
  }

  lemma {:induction false} AddStops(left: Expr, ts: seq<Token>)
    requires ts == [] || !(ts[0].Plus? || ts[0].Minus?)
    ensures AddRest(left, ts) == Some((left, ts))
  {
  }

  lemma {:induction false} CmpBack(e: Expr, rest: seq<Token>)
    requires IsCmp(e) && NoAdd(rest)
    ensures ParseComparison(Print(e) + rest) == if IsAdd(e) then CompareRest(e, rest) else Some((e, rest))
  {
    hide ParseAdditive, AddRest, IsAdd;
    if IsAdd(e) {
      AddBack(e, rest);
      AddStops(e, rest);
    } else {
      var after := [OpToken(e.op)] + (Print(e.right) + rest);
      Regroup(Print(e.left), OpToken(e.op), Print(e.right), rest);
      AddBack(e.left, after);
      AddStops(e.left, after);
      assert after[1..] == Print(e.right) + rest;
      AddBack(e.right, rest);
      AddStops(e.right, rest);
    }
  }

  lemma {:induction false} AndBack(e: Expr, rest: seq<Token>)
    requires IsAnd(e) && NoCmp(rest)
    ensures ParseAnd(Print(e) + rest) == AndRest(e, rest)
  {
    if IsCmp(e) {
      CmpBack(e, rest);
    } else {
      var after := [OpToken(e.op)] + (Print(e.right) + rest);
      Regroup(Print(e.left), OpToken(e.op), Print(e.right), rest);
      AndBack(e.left, after);
      assert after[1..] == Print(e.right) + rest;
      CmpBack(e.right, rest);
    }
  }

  lemma {:induction false} OrBack(e: Expr, rest: seq<Token>)
    requires IsOr(e) && NoAnd(rest)
    ensures ParseExpr(Print(e) + rest) == OrRest(e, rest)
  {
    if IsAnd(e) {
      AndBack(e, rest);
    } else {
      var after := [OpToken(e.op)] + (Print(e.right) + rest);
      Regroup(Print(e.left), OpToken(e.op), Print(e.right), rest);
      OrBack(e.left, after);
      assert after[1..] == Print(e.right) + rest;
      AndBack(e.right, rest);
    }
  }

  /** Every expression of the ladder's shape, printed and followed by a token that does not
      continue it, parses back to itself and leaves the rest. */
  lemma {:induction false} ExprBack(e: Expr, rest: seq<Token>)
    requires IsOr(e) && Ends(rest)
    ensures ParseExpr(Print(e) + rest) == Some((e, rest))
  {
    OrBack(e, rest);
  }

  // ---------------------------------------------------------------------
  // Accepted streams are printings
  // ---------------------------------------------------------------------

  /** Equal tokens, or integer literals of the same value. */
  predicate Same(t: Token, u: Token) {
    t == u || (t.IntLit? && u.IntLit? && ParseInt(t.digits).Some? && ParseInt(t.digits) == ParseInt(u.digits))
  }

  ghost predicate SameAll(a: seq<Token>, b: seq<Token>) {
    |a| == |b| && forall i :: 0 <= i < |a| ==> Same(a[i], b[i])
  }

  /** The lexer never produces an empty identifier. */
  ghost predicate WellLexed(ts: seq<Token>) {
    forall i :: 0 <= i < |ts| && ts[i].Ident? ==> ts[i].name != ""
  }

  /** ts is a printing of p followed by rest. */
  ghost predicate Consumed(ts: seq<Token>, rest: seq<Token>, p: seq<Token>) {
    |rest| <= |ts| && ts[|ts| - |rest|..] == rest && SameAll(ts[..|ts| - |rest|], p)
  }

  lemma {:induction false} SameConcat(a: seq<Token>, b: seq<Token>, c: seq<Token>, d: seq<Token>)
    requires SameAll(a, c) && SameAll(b, d)
    ensures SameAll(a + b, c + d)
  {
  }

  /** What was consumed, as a sequence. */
  lemma {:induction false} Split(ts: seq<Token>, rest: seq<Token>, p: seq<Token>) returns (c: seq<Token>)
    requires Consumed(ts, rest, p) && WellLexed(ts)
    ensures ts == c + rest && SameAll(c, p) && WellLexed(rest)
  {
    c := ts[..|ts| - |rest|];
    assert forall i :: 0 <= i < |rest| ==> rest[i] == ts[|ts| - |rest| + i];
  }

  lemma {:induction false} Gather(ts: seq<Token>, c: seq<Token>, rest: seq<Token>, p: seq<Token>)
    requires ts == c + rest && SameAll(c, p)
    ensures Consumed(ts, rest, p)
  {
    assert ts[..|ts| - |rest|] == c;
  }

  lemma {:induction false} TailLexed(ts: seq<Token>, n: nat)
    requires WellLexed(ts) && n <= |ts|
    ensures WellLexed(ts[n..])
  {
    forall i | 0 <= i < |ts[n..]| && ts[n..][i].Ident? ensures ts[n..][i].name != "" {
      assert ts[n..][i] == ts[n + i];
    }
  }

  lemma {:induction false} PrimarySound(ts: seq<Token>)
    requires WellLexed(ts) && ParsePrimary(ts).Some?
    ensures var (e, rest) := ParsePrimary(ts).value; IsPrimary(e) && Consumed(ts, rest, Print(e))
  {
    var (e, rest) := ParsePrimary(ts).value;
    if e.ColumnRef? && |rest| + 3 == |ts| {
      assert ts[0].name != "" && ts[2].name != "";
      assert ts[..3] == Print(e);
    } else {
      assert ts[..1] == [ts[0]];
      if ts[0].IntLit? {
        DecimalBack(ParseInt(ts[0].digits).value);
      } else if ts[0].Ident? {
        assert ts[0].name != "";
      }
    }
  }

  /** One more operand on the right: `pre` printed the left operand so far. */
  lemma {:induction false} Extend(left: Expr, pre: seq<Token>, ts: seq<Token>, op: BinOp, right: Expr, c: seq<Token>,
                                  rest: seq<Token>)
    requires SameAll(pre, Print(left)) && ts != [] && ts[0] == OpToken(op) && ts[1..] == c + rest
             && SameAll(c, Print(right))
    ensures SameAll(pre + [ts[0]] + c, Print(Binary(op, left, right))) && pre + ts == (pre + [ts[0]] + c) + rest
  {
    SameConcat(pre, [ts[0]], Print(left), [OpToken(op)]);
    SameConcat(pre + [ts[0]], c, Print(left) + [OpToken(op)], Print(right));
    assert ts == [ts[0]] + (c + rest);
  }

  lemma {:induction false} AddRestSound(left: Expr, pre: seq<Token>, ts: seq<Token>)
    requires IsAdd(left) && SameAll(pre, Print(left)) && WellLexed(ts) && AddRest(left, ts).Some?
    ensures var (e, rest) := AddRest(left, ts).value; IsAdd(e) && Consumed(pre + ts, rest, Print(e))
    decreases |ts|
  {
    if ts == [] || !(ts[0].Plus? || ts[0].Minus?) {
      Gather(pre + ts, pre, ts, Print(left));
    } else {
      hide ParsePrimary, Print, Consumed, SameAll, Same;
      var op := if ts[0].Plus? then OpAdd else OpSub;
      TailLexed(ts, 1);
      PrimarySound(ts[1..]);
      var (r, us) := ParsePrimary(ts[1..]).value;
      var c := Split(ts[1..], us, Print(r));
      Extend(left, pre, ts, op, r, c, us);
      AddRestSound(Binary(op, left, r), pre + [ts[0]] + c, us);
    }
  }

  lemma {:induction false} AddSound(ts: seq<Token>)
    requires WellLexed(ts) && ParseAdditive(ts).Some?
    ensures var (e, rest) := ParseAdditive(ts).value; IsAdd(e) && Consumed(ts, rest, Print(e))
  {
    PrimarySound(ts);
    var (l, us) := ParsePrimary(ts).value;
    var c := Split(ts, us, Print(l));
    AddRestSound(l, c, us);
  }

  lemma {:induction false} CmpSound(ts: seq<Token>)
    requires WellLexed(ts) && ParseComparison(ts).Some?
    ensures var (e, rest) := ParseComparison(ts).value; IsCmp(e) && Consumed(ts, rest, Print(e))
  {
    hide ParseAdditive, Print, Consumed, SameAll, Same, IsAdd;
    AddSound(ts);
    var (l, us) := ParseAdditive(ts).value;
    var c := Split(ts, us, Print(l));
    if us != [] && Comparator(us[0]).Some? {
      TailLexed(us, 1);
      AddSound(us[1..]);
      var (r, vs) := ParseAdditive(us[1..]).value;
      var d := Split(us[1..], vs, Print(r));
      var op := Comparator(us[0]).value;
      Extend(l, c, us, op, r, d, vs);
      Gather(ts, c + [us[0]] + d, vs, Print(Binary(op, l, r)));
    }
  }

  lemma {:induction false} AndRestSound(left: Expr, pre: seq<Token>, ts: seq<Token>)
    requires IsAnd(left) && SameAll(pre, Print(left)) && WellLexed(ts) && AndRest(left, ts).Some?
    ensures var (e, rest) := AndRest(left, ts).value; IsAnd(e) && Consumed(pre + ts, rest, Print(e))
    decreases |ts|
  {
    if ts == [] || !ts[0].And? {
      Gather(pre + ts, pre, ts, Print(left));
    } else {
      hide ParseComparison, Print, Consumed, SameAll, Same;
      TailLexed(ts, 1);
      CmpSound(ts[1..]);
      var (r, us) := ParseComparison(ts[1..]).value;
      var c := Split(ts[1..], us, Print(r));
      Extend(left, pre, ts, OpAnd, r, c, us);
      AndRestSound(Binary(OpAnd, left, r), pre + [ts[0]] + c, us);
    }
  }

  lemma {:induction false} AndSound(ts: seq<Token>)
    requires WellLexed(ts) && ParseAnd(ts).Some?
    ensures var (e, rest) := ParseAnd(ts).value; IsAnd(e) && Consumed(ts, rest, Print(e))
  {
    CmpSound(ts);
    var (l, us) := ParseComparison(ts).value;
    var c := Split(ts, us, Print(l));
    AndRestSound(l, c, us);
  }

  lemma {:induction false} OrRestSound(left: Expr, pre: seq<Token>, ts: seq<Token>)
    requires IsOr(left) && SameAll(pre, Print(left)) && WellLexed(ts) && OrRest(left, ts).Some?
    ensures var (e, rest) := OrRest(left, ts).value; IsOr(e) && Consumed(pre + ts, rest, Print(e))
    decreases |ts|
  {
    if ts == [] || !ts[0].Or? {
      Gather(pre + ts, pre, ts, Print(left));
    } else {
      hide ParseAnd, Print, Consumed, SameAll, Same;
      TailLexed(ts, 1);
      AndSound(ts[1..]);
      var (r, us) := ParseAnd(ts[1..]).value;
      var c := Split(ts[1..], us, Print(r));
      Extend(left, pre, ts, OpOr, r, c, us);
      OrRestSound(Binary(OpOr, left, r), pre + [ts[0]] + c, us);
    }
  }

  /** Whatever the expression parser accepts has the ladder's shape and was its printing. */
  lemma {:induction false} ExprSound(ts: seq<Token>)
    requires WellLexed(ts) && ParseExpr(ts).Some?
    ensures var (e, rest) := ParseExpr(ts).value; IsOr(e) && Consumed(ts, rest, Print(e))
  {
    AndSound(ts);
    var (l, us) := ParseAnd(ts).value;
    var c := Split(ts, us, Print(l));
    OrRestSound(l, c, us);
  }

  // ---------------------------------------------------------------------
  // Statements
  // ---------------------------------------------------------------------

  function PrintList(es: seq<Expr>): (ts: seq<Token>)
    requires es != []
  {
    if |es| == 1 then Print(es[0]) else Print(es[0]) + [Comma] + PrintList(es[1..])
  }

  function PrintAlias(alias: string): seq<Token> {
    if alias == "" then [] else [Ident(alias)]
  }

  function PrintJoin(j: JoinClause): seq<Token> {
    [Join, Ident(j.table)] + PrintAlias(j.alias) + [On] + Print(j.on)
  }

  function PrintJoins(js: seq<JoinClause>): (ts: seq<Token>) {
    if js == [] then [] else PrintJoin(js[0]) + PrintJoins(js[1..])
  }

  function PrintFilter(f: Option<Expr>): (ts: seq<Token>) {
    if f.None? then [] else [Where] + Print(f.value)
  }

  function PrintAssignments(xs: seq<Assignment>): (ts: seq<Token>)
    requires xs != []
  {
    var first := [Ident(xs[0].column), Eq] + Print(xs[0].value);
    if |xs| == 1 then first else first + [Comma] + PrintAssignments(xs[1..])
  }

  function PrintStmt(s: Stmt): (ts: seq<Token>)
    requires WellFormed(s)
  {
    match s
    case SelectStmt(p, from, alias, js, f) =>
      [Select] + PrintList(p) + [From, Ident(from)] + PrintAlias(alias) + PrintJoins(js) + PrintFilter(f)
    case UpdateStmt(t, xs, f) => [Update, Ident(t), Set] + PrintAssignments(xs) + PrintFilter(f)
    case DeleteStmt(t, f) => [Delete, From, Ident(t)] + PrintFilter(f)
    case ExplainStmt(s) => [Explain] + PrintStmt(s)
  }

  predicate AllOr(es: seq<Expr>) {
    forall i :: 0 <= i < |es| ==> IsOr(es[i])
  }

  predicate JoinOk(j: JoinClause) {
    j.table != "" && j.alias != "ON" && IsOr(j.on)
  }

  predicate JoinsOk(js: seq<JoinClause>) {
    forall i :: 0 <= i < |js| ==> JoinOk(js[i])
  }

  predicate AssignmentsOk(xs: seq<Assignment>) {
    xs != [] && forall i :: 0 <= i < |xs| ==> xs[i].column != "" && IsOr(xs[i].value)
  }

  /** The statements the parser can build. */
  predicate WellFormed(s: Stmt) {
    match s
    case SelectStmt(p, from, alias, js, f) =>
      && p != [] && (p == [Star] || AllOr(p)) && from != "" && alias !in FROM_RESERVED
      && JoinsOk(js) && (f.Some? ==> IsOr(f.value))
    case UpdateStmt(t, xs, f) => t != "" && AssignmentsOk(xs) && (f.Some? ==> IsOr(f.value))
    case DeleteStmt(t, f) => t != "" && (f.Some? ==> IsOr(f.value))
    case ExplainStmt(s) => WellFormed(s)
  }

  // ----- printed statements parse back -----

  lemma {:induction false} ListBack(es: seq<Expr>, rest: seq<Token>)
    requires es != [] && AllOr(es) && Ends(rest) && (rest == [] || !rest[0].Comma?)
    ensures ParseExprList(PrintList(es) + rest) == Some((es, rest))
    decreases |es|
  {
    hide ParseExpr, Print, IsOr;
    if |es| == 1 {
      ExprBack(es[0], rest);
      assert es == [es[0]];
    } else {
      var more := PrintList(es[1..]) + rest;
      Regroup(Print(es[0]), Comma, PrintList(es[1..]), rest);
      ExprBack(es[0], [Comma] + more);
      assert ([Comma] + more)[1..] == more;
      ListBack(es[1..], rest);
      assert es == [es[0]] + es[1..];
    }
  }

  lemma {:induction false} AliasBack(alias: string, reserved: set<string>, rest: seq<Token>)
    requires alias !in reserved && (rest == [] || !rest[0].Ident?)
    ensures ParseAlias(PrintAlias(alias) + rest, reserved) == (alias, rest)
  {
    if alias == "" {
      assert PrintAlias(alias) + rest == rest;
    } else {
      assert (PrintAlias(alias) + rest)[1..] == rest;
    }
  }

  lemma {:induction false} JoinBack(j: JoinClause, rest: seq<Token>)
    requires j.alias != "ON" && IsOr(j.on) && Ends(rest)
    ensures ParseJoin(PrintJoin(j) + rest) == Some((j, rest))
  {
    hide ParseExpr, Print, IsOr;
    var ts := PrintJoin(j) + rest;
    var us := [On] + (Print(j.on) + rest);
    assert ts[2..] == PrintAlias(j.alias) + us;
    AliasBack(j.alias, JOIN_RESERVED, us);
    assert us[1..] == Print(j.on) + rest;
    ExprBack(j.on, rest);
  }

  lemma {:induction false} JoinsBack(js: seq<JoinClause>, rest: seq<Token>)
    requires JoinsOk(js) && Ends(rest) && (rest == [] || !rest[0].Join?)
    ensures ParseJoins(PrintJoins(js) + rest) == Some((js, rest))
    decreases |js|
  {
    hide PrintJoin, ParseJoin, IsOr, Ends;
    if js == [] {
      assert PrintJoins(js) + rest == rest;
    } else {
      var more := PrintJoins(js[1..]) + rest;
      Assoc(PrintJoin(js[0]), PrintJoins(js[1..]), rest);
      hide ParseJoins;
      assert JoinOk(js[0]);
      JoinsStart(js[1..], rest);
      StartsWithJoin(js[0], more);
      JoinBack(js[0], more);
      JoinsBack(js[1..], rest);
      OneMoreJoin(js[0], more, js[1..], rest);
      assert js == [js[0]] + js[1..];
    }
  }

  lemma {:induction false} OneMoreJoin(j: JoinClause, more: seq<Token>, js: seq<JoinClause>, rest: seq<Token>)
    requires ParseJoins(more) == Some((js, rest))
    requires var ts := PrintJoin(j) + more; ts != [] && ts[0].Join? && ParseJoin(ts) == Some((j, more))
    ensures ParseJoins(PrintJoin(j) + more) == Some(([j] + js, rest))
  {
    hide PrintJoin, ParseJoin;
  }

  lemma {:induction false} StartsWithJoin(j: JoinClause, rest: seq<Token>)
    ensures var ts := PrintJoin(j) + rest; ts != [] && ts[0] == Join
  {
  }

  lemma {:induction false} JoinsStart(js: seq<JoinClause>, rest: seq<Token>)
    requires Ends(rest)
    ensures Ends(PrintJoins(js) + rest)
  {
    if js == [] {
      assert PrintJoins(js) + rest == rest;
    } else {
      assert (PrintJoins(js) + rest)[0] == Token.Join;
    }
  }

  lemma {:induction false} FilterBack(f: Option<Expr>)
    requires f.Some? ==> IsOr(f.value)
    ensures ParseFilter(PrintFilter(f)) == Some(f)
    ensures Ends(PrintFilter(f)) && (PrintFilter(f) == [] || PrintFilter(f)[0] == Where)
  {
    if f.Some? {
      var ts := PrintFilter(f);
      assert ts[1..] == Print(f.value) + [];
      ExprBack(f.value, []);
    }
  }

  lemma {:induction false} AssignmentsBack(xs: seq<Assignment>, rest: seq<Token>)
    requires AssignmentsOk(xs) && Ends(rest) && (rest == [] || !rest[0].Comma?)
    ensures ParseAssignments(PrintAssignments(xs) + rest) == Some((xs, rest))
    decreases |xs|
  {
    hide ParseExpr, Print, IsOr;
    var x, ts := xs[0], PrintAssignments(xs) + rest;
    if |xs| == 1 {
      assert ts[2..] == Print(x.value) + rest;
      ExprBack(x.value, rest);
      assert xs == [x];
    } else {
      var more := PrintAssignments(xs[1..]) + rest;
      assert ts[2..] == Print(x.value) + ([Comma] + more);
      ExprBack(x.value, [Comma] + more);
      assert ([Comma] + more)[1..] == more;
      AssignmentsBack(xs[1..], rest);
      assert xs == [x] + xs[1..];
    }
  }

  lemma {:induction false} ProjectionBack(p: seq<Expr>, rest: seq<Token>)
    requires p != [] && (p == [Star] || AllOr(p)) && Ends(rest) && (rest == [] || !rest[0].Comma?)
    ensures ParseProjection(PrintList(p) + rest) == Some((p, rest))
  {
    if p == [Star] {
      assert (PrintList(p) + rest)[1..] == rest;
    } else {
      ListBack(p, rest);
      NotStar(p[0], p);
    }
  }

  /** A printed expression of the ladder does not start with a star. */
  lemma {:induction false} NotStar(e: Expr, es: seq<Expr>)
    requires IsOr(e) && es != [] && es[0] == e
    ensures !Print(e)[0].StarTok? && PrintList(es)[0] == Print(e)[0]
  {
    FirstToken(e);
  }

  lemma {:induction false} FirstToken(e: Expr)
    requires IsOr(e)
    ensures !Print(e)[0].StarTok?
  {
    if e.Binary? {
      assert IsOr(e.left);
      FirstToken(e.left);
    }
  }

  lemma {:induction false} SelectBack(s: Stmt)
    requires s.SelectStmt? && WellFormed(s)
    ensures ParseSelect(PrintStmt(s)[1..]) == Some(s)
  {
    hide ParseProjection, ParseJoins, ParseFilter, PrintList, PrintJoins, PrintFilter, IsOr, AllOr, JoinsOk;
    var f := PrintFilter(s.filter);
    var js := PrintJoins(s.joins) + f;
    var al := PrintAlias(s.fromAlias) + js;
    var tail := [From, Ident(s.from)] + al;
    assert PrintStmt(s)[1..] == PrintList(s.projection) + tail;
    FilterBack(s.filter);
    JoinsStart(s.joins, f);
    ProjectionBack(s.projection, tail);
    assert tail[2..] == al;
    NoIdentNext(s.joins, s.filter);
    AliasBack(s.fromAlias, FROM_RESERVED, js);
    JoinsBack(s.joins, f);
  }

  lemma {:induction false} NoIdentNext(js: seq<JoinClause>, f: Option<Expr>)
    ensures var ts := PrintJoins(js) + PrintFilter(f); ts == [] || !ts[0].Ident?
  {
    if js != [] {
      assert (PrintJoins(js) + PrintFilter(f))[0] == Token.Join;
    } else {
      assert PrintJoins(js) + PrintFilter(f) == PrintFilter(f);
    }
  }

  /** Every statement the parser can build parses back from its printing. */
  lemma {:induction false} StmtBack(s: Stmt)
    requires WellFormed(s)
    ensures ParseStmt(PrintStmt(s)) == Some(s)
  {
    hide ParseSelect, ParseFilter, ParseAssignments, PrintAssignments, PrintFilter, PrintList, PrintJoins, IsOr;
    var ts := PrintStmt(s);
    match s
    case SelectStmt(_, _, _, _, _) =>
      SelectBack(s);
      assert ts[0] == Token.Select;
    case UpdateStmt(t, xs, f) =>
      assert ts[0] == Token.Update && ts[1..][0] == Ident(t) && ts[1..][1] == Token.Set;
      assert ts[1..][2..] == PrintAssignments(xs) + PrintFilter(f);
      FilterBack(f);
      AssignmentsBack(xs, PrintFilter(f));
    case DeleteStmt(t, f) =>
      assert ts[0] == Token.Delete && ts[1..][0] == Token.From && ts[1..][1] == Ident(t);
      assert ts[1..][2..] == PrintFilter(f);
      FilterBack(f);
    case ExplainStmt(sub) =>
      assert ts[0] == Token.Explain && ts[1..] == PrintStmt(sub);
      StmtBack(sub);
  }

  // ----- accepted statements are printings -----

  lemma {:induction false} ListSound(ts: seq<Token>)
    requires WellLexed(ts) && ParseExprList(ts).Some?
    ensures var (es, rest) := ParseExprList(ts).value; es != [] && AllOr(es) && Consumed(ts, rest, PrintList(es))
    decreases |ts|
  {
    hide ParseExpr, Print, IsOr, Consumed, SameAll, Same, PrintList;
    ExprSound(ts);
    var (e, us) := ParseExpr(ts).value;
    var c := Split(ts, us, Print(e));
    if us != [] && us[0].Comma? {
      TailLexed(us, 1);
      ListSound(us[1..]);
      var (more, vs) := ParseExprList(us[1..]).value;
      var d := Split(us[1..], vs, PrintList(more));
      MoreInList(ts, e, c, us, more, d, vs);
    } else {
      assert PrintList([e]) == Print(e) by { OnePrinted(e); }
      Gather(ts, c, us, Print(e));
    }
  }

  lemma {:induction false} OnePrinted(e: Expr)
    ensures PrintList([e]) == Print(e)
  {
  }

  lemma {:induction false} MoreInList(ts: seq<Token>, e: Expr, c: seq<Token>, us: seq<Token>, more: seq<Expr>,
                                      d: seq<Token>, vs: seq<Token>)
    requires ts == c + us && SameAll(c, Print(e)) && more != []
    requires us != [] && us[0] == Comma && us[1..] == d + vs && SameAll(d, PrintList(more))
    ensures Consumed(ts, vs, PrintList([e] + more))
  {
    hide Print, Consumed, SameAll, Same;
    var es := [e] + more;
    assert es[1..] == more;
    Reflexive([Comma]);
    SameConcat(c, [Comma], Print(e), [Comma]);
    SameConcat(c + [Comma], d, Print(e) + [Comma], PrintList(more));
    assert us == [Comma] + (d + vs);
    Assoc(c, [Comma], d + vs);
    Assoc(c + [Comma], d, vs);
    Gather(ts, c + [Comma] + d, vs, PrintList(es));
  }

  lemma {:induction false} AliasSound(ts: seq<Token>, reserved: set<string>)
    requires WellLexed(ts)
    ensures var (alias, rest) := ParseAlias(ts, reserved);
            Consumed(ts, rest, PrintAlias(alias)) && (alias == "" || alias !in reserved)
  {
    hide Consumed;
    if ts != [] && ts[0].Ident? && ts[0].name !in reserved {
      OneIdent(ts);
    } else {
      Gather(ts, [], ts, []);
    }
  }

  lemma {:induction false} OneIdent(ts: seq<Token>)
    requires WellLexed(ts) && ts != [] && ts[0].Ident?
    ensures Consumed(ts, ts[1..], PrintAlias(ts[0].name))
  {
    assert ts == [ts[0]] + ts[1..];
    Gather(ts, [ts[0]], ts[1..], [ts[0]]);
  }

  lemma {:induction false} JoinSound(ts: seq<Token>)
    requires WellLexed(ts) && ts != [] && ts[0].Join? && ParseJoin(ts).Some?
    ensures var (j, rest) := ParseJoin(ts).value; JoinOk(j) && Consumed(ts, rest, PrintJoin(j))
  {
    hide ParseExpr, Print, IsOr, Consumed, SameAll, PrintAlias, PrintJoin, ParseAlias, Same;
    var (j, rest) := ParseJoin(ts).value;
    assert ts[1].name != "";
    TailLexed(ts, 2);
    AliasSound(ts[2..], JOIN_RESERVED);
    var (alias, us) := ParseAlias(ts[2..], JOIN_RESERVED);
    var a := Split(ts[2..], us, PrintAlias(alias));
    TailLexed(us, 1);
    ExprSound(us[1..]);
    var c := Split(us[1..], rest, Print(j.on));
    NotOn(alias);
    JoinTokens(ts, a, us, c, rest, j);
  }

  lemma {:induction false} NotOn(alias: string)
    requires alias == "" || alias !in JOIN_RESERVED
    ensures alias != "ON"
  {
    assert "ON" in JOIN_RESERVED;
  }

  lemma {:induction false} JoinTokens(ts: seq<Token>, a: seq<Token>, us: seq<Token>, c: seq<Token>, rest: seq<Token>,
                                      j: JoinClause)
    requires |ts| >= 2 && ts[0] == Join && ts[1] == Ident(j.table) && ts[2..] == a + us
             && SameAll(a, PrintAlias(j.alias))
    requires us != [] && us[0] == On && us[1..] == c + rest && SameAll(c, Print(j.on))
    ensures Consumed(ts, rest, PrintJoin(j))
  {
    hide Print, Consumed, SameAll, PrintAlias, Same;
    var head := [ts[0], ts[1]];
    assert SameAll(head, head) && SameAll([On], [On]) by { Reflexive(head); Reflexive([On]); }
    SameConcat(head, a, head, PrintAlias(j.alias));
    SameConcat(head + a, [On], head + PrintAlias(j.alias), [On]);
    SameConcat(head + a + [On], c, head + PrintAlias(j.alias) + [On], Print(j.on));
    Chain(ts, head, a, us, On, c, rest);
    Gather(ts, head + a + [On] + c, rest, PrintJoin(j));
  }

  lemma {:induction false} Reflexive(a: seq<Token>)
    ensures SameAll(a, a)
  {
  }

  /** Two leading tokens, a part, a separator, a part and the rest. */
  lemma {:induction false} Chain(ts: seq<Token>, head: seq<Token>, a: seq<Token>, us: seq<Token>, sep: Token,
                                 c: seq<Token>, rest: seq<Token>)
    requires |ts| >= 2 && head == [ts[0], ts[1]] && ts[2..] == a + us && us != [] && us[0] == sep && us[1..] == c + rest
    ensures ts == (head + a + [sep] + c) + rest
  {
    assert ts == head + (a + us);
    assert us == [sep] + (c + rest);
    Assoc(head, a, us);
    Assoc(head + a, [sep], c + rest);
    Assoc(head + a + [sep], c, rest);
  }

  lemma {:induction false} JoinsSound(ts: seq<Token>)
    requires WellLexed(ts) && ParseJoins(ts).Some?
    ensures var (js, rest) := ParseJoins(ts).value; JoinsOk(js) && Consumed(ts, rest, PrintJoins(js))
    decreases |ts|
  {
    hide ParseJoin, PrintJoin, Consumed, SameAll, Same, JoinOk;
    if ts == [] || !ts[0].Join? {
      Reflexive([]);
      Gather(ts, [], ts, []);
    } else {
      JoinSound(ts);
      var (j, us) := ParseJoin(ts).value;
      var c := Split(ts, us, PrintJoin(j));
      JoinsSound(us);
      var (more, vs) := ParseJoins(us).value;
      var d := Split(us, vs, PrintJoins(more));
      var js := [j] + more;
      assert js[1..] == more && js[0] == j;
      SameConcat(c, d, PrintJoin(j), PrintJoins(more));
      Assoc(c, d, vs);
      Gather(ts, c + d, vs, PrintJoins(js));
    }
  }

  lemma {:induction false} FilterSound(ts: seq<Token>)
    requires WellLexed(ts) && ParseFilter(ts).Some?
    ensures var f := ParseFilter(ts).value; (f.Some? ==> IsOr(f.value)) && SameAll(ts, PrintFilter(f))
  {
    hide ParseExpr, Print, IsOr;
    if ts != [] {
      TailLexed(ts, 1);
      ExprSound(ts[1..]);
      var (e, _) := ParseExpr(ts[1..]).value;
      var c := Split(ts[1..], [], Print(e));
      assert ts == [ts[0]] + c;
      SameConcat([ts[0]], c, [Where], Print(e));
    }
  }

  lemma {:induction false} AssignmentsSound(ts: seq<Token>)
    requires WellLexed(ts) && ParseAssignments(ts).Some?
    ensures var (xs, rest) := ParseAssignments(ts).value; AssignmentsOk(xs) && Consumed(ts, rest, PrintAssignments(xs))
    decreases |ts|
  {
    hide ParseExpr, Print, IsOr, Consumed, SameAll, Same, PrintAssignments;
    TailLexed(ts, 2);
    ExprSound(ts[2..]);
    var (e, us) := ParseExpr(ts[2..]).value;
    var c := Split(ts[2..], us, Print(e));
    var x := Assignment(ts[0].name, e);
    if us != [] && us[0].Comma? {
      TailLexed(us, 1);
      AssignmentsSound(us[1..]);
      var (more, vs) := ParseAssignments(us[1..]).value;
      var d := Split(us[1..], vs, PrintAssignments(more));
      MoreAssignments(ts, x, c, us, more, d, vs);
    } else {
      LastAssignment(ts, x, c, us);
    }
  }

  lemma {:induction false} LastAssignment(ts: seq<Token>, x: Assignment, c: seq<Token>, us: seq<Token>)
    requires |ts| >= 2 && ts[0] == Ident(x.column) && ts[1] == Eq && ts[2..] == c + us && SameAll(c, Print(x.value))
    ensures Consumed(ts, us, PrintAssignments([x]))
  {
    hide Print, Consumed, SameAll, Same;
    var head := [ts[0], ts[1]];
    Reflexive(head);
    SameConcat(head, c, head, Print(x.value));
    assert ts == head + (c + us);
    Assoc(head, c, us);
    Gather(ts, head + c, us, PrintAssignments([x]));
  }

  lemma {:induction false} MoreAssignments(ts: seq<Token>, x: Assignment, c: seq<Token>, us: seq<Token>,
                                           more: seq<Assignment>, d: seq<Token>, vs: seq<Token>)
    requires |ts| >= 2 && ts[0] == Ident(x.column) && ts[1] == Eq && ts[2..] == c + us && SameAll(c, Print(x.value))
    requires us != [] && us[0] == Comma && us[1..] == d + vs && more != [] && SameAll(d, PrintAssignments(more))
    ensures Consumed(ts, vs, PrintAssignments([x] + more))
  {
    hide Print, Consumed, SameAll, Same;
    var head, xs := [ts[0], ts[1]], [x] + more;
    assert xs[1..] == more;
    Reflexive(head);
    Reflexive([Comma]);
    SameConcat(head, c, head, Print(x.value));
    SameConcat(head + c, [Comma], head + Print(x.value), [Comma]);
    SameConcat(head + c + [Comma], d, head + Print(x.value) + [Comma], PrintAssignments(more));
    Chain(ts, head, c, us, Comma, d, vs);
    Gather(ts, head + c + [Comma] + d, vs, PrintAssignments(xs));
  }

  lemma {:induction false} ProjectionSound(ts: seq<Token>)
    requires WellLexed(ts) && ParseProjection(ts).Some?
    ensures var (p, rest) := ParseProjection(ts).value;
            p != [] && (p == [Star] || AllOr(p)) && Consumed(ts, rest, PrintList(p))
  {
    if ts != [] && ts[0].StarTok? {
      assert ts[..1] == [ts[0]];
    } else {
      ListSound(ts);
    }
  }

  lemma {:induction false} SelectSound(ts: seq<Token>)
    requires WellLexed(ts) && ParseSelect(ts).Some?
    ensures var s := ParseSelect(ts).value; s.SelectStmt? && WellFormed(s) && SameAll([Select] + ts, PrintStmt(s))
  {
    hide ParseProjection, ParseAlias, ParseJoins, ParseFilter;
    hide PrintList, PrintJoins, PrintFilter, PrintAlias, PrintStmt;
    hide IsOr, AllOr, JoinsOk, Consumed, SameAll, Same;
    var s := ParseSelect(ts).value;
    ProjectionSound(ts);
    var (p, us) := ParseProjection(ts).value;
    var a := Split(ts, us, PrintList(p));
    assert us[1].name != "";
    TailLexed(us, 2);
    AliasSound(us[2..], FROM_RESERVED);
    var (alias, vs) := ParseAlias(us[2..], FROM_RESERVED);
    var b := Split(us[2..], vs, PrintAlias(alias));
    JoinsSound(vs);
    var (js, ws) := ParseJoins(vs).value;
    var c := Split(vs, ws, PrintJoins(js));
    FilterSound(ws);
    NotReserved(alias);
    SelectTokens(a, us[0], us[1], b, c, ws, s);
    SelectChain(ts, a, us, b, vs, c, ws);
  }

  lemma {:induction false} NotReserved(alias: string)
    requires alias == "" || alias !in FROM_RESERVED
    ensures alias !in FROM_RESERVED
  {
    if alias == "" {
      assert |alias| == 0 && |"JOIN"| == 4 && |"WHERE"| == 5;
    }
  }

  lemma {:induction false} SelectChain(ts: seq<Token>, a: seq<Token>, us: seq<Token>, b: seq<Token>, vs: seq<Token>,
                                       c: seq<Token>, ws: seq<Token>)
    requires ts == a + us && |us| >= 2 && us[2..] == b + vs && vs == c + ws
    ensures [Select] + ts == [Select] + a + [us[0], us[1]] + b + c + ws
  {
    var fr := [us[0], us[1]];
    assert us == fr + (b + vs);
    Assoc([Select], a, us);
    Assoc([Select] + a, fr, b + vs);
    Assoc([Select] + a + fr, b, vs);
    Assoc([Select] + a + fr + b, c, ws);
  }

  lemma {:induction false} SelectTokens(a: seq<Token>, x: Token, y: Token, b: seq<Token>, c: seq<Token>, d: seq<Token>,
                                        s: Stmt)
    requires s.SelectStmt? && WellFormed(s) && SameAll(a, PrintList(s.projection)) && x == From && y == Ident(s.from)
    requires SameAll(b, PrintAlias(s.fromAlias)) && SameAll(c, PrintJoins(s.joins)) && SameAll(d, PrintFilter(s.filter))
    ensures SameAll([Select] + a + [x, y] + b + c + d, PrintStmt(s))
  {
    hide PrintList, PrintJoins, PrintFilter, PrintAlias, JoinsOk, AllOr, IsOr, SameAll, Same;
    var p1 := [Select] + PrintList(s.projection);
    var p2 := p1 + [x, y];
    var p3 := p2 + PrintAlias(s.fromAlias);
    Reflexive([Select]);
    Reflexive([x, y]);
    SameConcat([Select], a, [Select], PrintList(s.projection));
    SameConcat([Select] + a, [x, y], p1, [x, y]);
    SameConcat([Select] + a + [x, y], b, p2, PrintAlias(s.fromAlias));
    SameConcat([Select] + a + [x, y] + b, c, p3, PrintJoins(s.joins));
    SameConcat([Select] + a + [x, y] + b + c, d, p3 + PrintJoins(s.joins), PrintFilter(s.filter));
  }

  lemma {:induction false} UpdateSound(ts: seq<Token>)
    requires WellLexed(ts) && ParseUpdate(ts).Some?
    ensures var s := ParseUpdate(ts).value; s.UpdateStmt? && WellFormed(s) && SameAll([Update] + ts, PrintStmt(s))
  {
    hide ParseAssignments, ParseFilter, PrintAssignments, PrintFilter, IsOr;
    var s := ParseUpdate(ts).value;
    TailLexed(ts, 2);
    AssignmentsSound(ts[2..]);
    var (xs, us) := ParseAssignments(ts[2..]).value;
    var a := Split(ts[2..], us, PrintAssignments(xs));
    FilterSound(us);
    var head := [Update, ts[0], ts[1]];
    SameConcat(head, a, [Update, Ident(s.table), Set], PrintAssignments(xs));
    SameConcat(head + a, us, [Update, Ident(s.table), Set] + PrintAssignments(xs), PrintFilter(s.filter));
    assert [Update] + ts == head + a + us;
  }

  lemma {:induction false} DeleteSound(ts: seq<Token>)
    requires WellLexed(ts) && ParseDelete(ts).Some?
    ensures var s := ParseDelete(ts).value; s.DeleteStmt? && WellFormed(s) && SameAll([Delete] + ts, PrintStmt(s))
  {
    hide ParseFilter, PrintFilter, IsOr;
    var s := ParseDelete(ts).value;
    TailLexed(ts, 2);
    FilterSound(ts[2..]);
    var head := [Delete, ts[0], ts[1]];
    SameConcat(head, ts[2..], [Delete, From, Ident(s.table)], PrintFilter(s.filter));
    assert [Delete] + ts == head + ts[2..];
  }

  /** Every accepted stream is, up to the spelling of integers, the printing of its
      statement, consumed to the end. */
  lemma {:induction false} StmtSound(ts: seq<Token>)
    requires WellLexed(ts) && ParseStmt(ts).Some?
    ensures WellFormed(ParseStmt(ts).value) && SameAll(ts, PrintStmt(ParseStmt(ts).value))
    decreases |ts|
  {
    hide ParseSelect, ParseUpdate, ParseDelete;
    TailLexed(ts, 1);
    assert ts == [ts[0]] + ts[1..];
    match ts[0]
    case Select => SelectSound(ts[1..]);
    case Update => UpdateSound(ts[1..]);
    case Delete => DeleteSound(ts[1..]);
    case Explain =>
      StmtSound(ts[1..]);
      SameConcat([ts[0]], ts[1..], [Explain], PrintStmt(ParseStmt(ts[1..]).value));
  }
}
