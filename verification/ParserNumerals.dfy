/** What integer literals are worth, and that their spelling makes no difference to the parser:
    a stream is accepted as a statement exactly if it prints it up to that spelling. */
module ParserNumerals {
  import opened Core
  import opened Parser
  import opened ParserInverse

  // ---------------------------------------------------------------------
  // The value of a literal
  // ---------------------------------------------------------------------

  function Zeros(k: nat): (s: string) { seq(k, i => '0') }

  lemma {:induction false} OneMoreDigit(k: nat, m: nat, d: nat) returns (j: nat)
    requires d < 10
    ensures Zeros(k) + Decimal(m) + Decimal(d) == Zeros(j) + Decimal(10 * m + d)
  {
    if m == 0 {
      j := k + 1;
      assert Zeros(k) + Decimal(0) == Zeros(k + 1);
    } else {
      j := k;
      assert (10 * m + d) / 10 == m && (10 * m + d) % 10 == d;
      assert Decimal(10 * m + d) == Decimal(m) + Decimal(d);
    }
  }

  lemma {:induction false} DigitsAreDecimal(s: string) returns (k: nat)
    requires s != "" && Digits(s).Some?
    ensures s == Zeros(k) + Decimal(Digits(s).value)
  {
    var init, c := s[..|s| - 1], s[|s| - 1];
    var d := (c - '0') as nat;
    assert Decimal(d) == [c] && s == init + Decimal(d);
    if init == "" {
      k := 0;
      assert Digits(init) == Some(0) && Digits(s) == Some(d);
    } else {
      var m := Digits(init).value;
      assert Digits(s) == Some(10 * m + d);
      var j := DigitsAreDecimal(init);
      hide Digits, Decimal, Zeros;
      k := OneMoreDigit(j, m, d);
    }
  }

  lemma {:induction false} LeadingZeros(k: nat, n: nat)
    ensures Digits(Zeros(k) + Decimal(n)) == Some(n)
    decreases n
  {
    var s := Zeros(k) + Decimal(n);
    if n < 10 {
      assert s[..|s| - 1] == Zeros(k);
      OnlyZeros(k);
    } else {
      assert s[..|s| - 1] == Zeros(k) + Decimal(n / 10);
      LeadingZeros(k, n / 10);
    }
  }

  lemma {:induction false} OnlyZeros(k: nat)
    ensures Digits(Zeros(k)) == Some(0)
  {
    if k > 0 {
      assert Zeros(k)[..k - 1] == Zeros(k - 1);
      OnlyZeros(k - 1);
    }
  }

  /** A literal is worth v exactly if it is the decimal numeral of v behind any number of zeros
      and v fits 64 bits; every other spelling is an error. */
  lemma {:induction false} ParseIntIff(s: string, v: nat)
    requires v < 0x8000_0000_0000_0000
    ensures ParseInt(s) == Some(v) <==> exists k: nat :: s == Zeros(k) + Decimal(v)
  {
    if ParseInt(s) == Some(v) {
      var k := DigitsAreDecimal(s);
    }
    if k: nat :| s == Zeros(k) + Decimal(v) {
      LeadingZeros(k, v);
    }
  }

  // ---------------------------------------------------------------------
  // The spelling makes no difference
  // ---------------------------------------------------------------------

  /** The same result, and the same tokens left over up to the spelling of integers. */
  ghost predicate Alike<T(!new)>(p: Option<(T, seq<Token>)>, q: Option<(T, seq<Token>)>) {
    (p.Some? <==> q.Some?) && (p.Some? ==> p.value.0 == q.value.0 && SameAll(p.value.1, q.value.1))
  }

  lemma {:induction false} SameTail(ts: seq<Token>, us: seq<Token>, n: nat)
    requires SameAll(ts, us) && n <= |ts|
    ensures SameAll(ts[n..], us[n..])
  {
  }

  lemma {:induction false} PrimaryAlike(ts: seq<Token>, us: seq<Token>)
    requires SameAll(ts, us)
    ensures Alike(ParsePrimary(ts), ParsePrimary(us))
  {
    if ts != [] {
      assert Same(ts[0], us[0]);
      SameTail(ts, us, 1);
      if |ts| > 2 {
        SameTail(ts, us, 3);
      }
    }
  }

  lemma {:induction false} AddRestAlike(left: Expr, ts: seq<Token>, us: seq<Token>)
    requires SameAll(ts, us)
    ensures Alike(AddRest(left, ts), AddRest(left, us))
    decreases |ts|
  {
    hide ParsePrimary;
    if ts != [] && (ts[0].Plus? || ts[0].Minus?) {
      SameTail(ts, us, 1);
      PrimaryAlike(ts[1..], us[1..]);
      var p, q := ParsePrimary(ts[1..]), ParsePrimary(us[1..]);
      if p.Some? {
        AddRestAlike(Binary(if ts[0].Plus? then OpAdd else OpSub, left, p.value.0), p.value.1, q.value.1);
      }
    }
  }

  lemma {:induction false} AddAlike(ts: seq<Token>, us: seq<Token>)
    requires SameAll(ts, us)
    ensures Alike(ParseAdditive(ts), ParseAdditive(us))
  {
    hide ParsePrimary, AddRest, SameAll;
    PrimaryAlike(ts, us);
    var p, q := ParsePrimary(ts), ParsePrimary(us);
    if p.Some? {
      AddRestAlike(p.value.0, p.value.1, q.value.1);
    }
  }

  lemma {:induction false} CmpAlike(ts: seq<Token>, us: seq<Token>)
    requires SameAll(ts, us)
    ensures Alike(ParseComparison(ts), ParseComparison(us))
  {
    hide ParseAdditive;
    AddAlike(ts, us);
    var p, q := ParseAdditive(ts), ParseAdditive(us);
    if p.Some? && p.value.1 != [] {
      SameTail(p.value.1, q.value.1, 1);
      AddAlike(p.value.1[1..], q.value.1[1..]);
    }
  }

  lemma {:induction false} AndRestAlike(left: Expr, ts: seq<Token>, us: seq<Token>)
    requires SameAll(ts, us)
    ensures Alike(AndRest(left, ts), AndRest(left, us))
    decreases |ts|
  {
    hide ParseComparison;
    if ts != [] && ts[0].And? {
      SameTail(ts, us, 1);
      CmpAlike(ts[1..], us[1..]);
      var p, q := ParseComparison(ts[1..]), ParseComparison(us[1..]);
      if p.Some? {
        AndRestAlike(Binary(OpAnd, left, p.value.0), p.value.1, q.value.1);
      }
    }
  }

  lemma {:induction false} AndAlike(ts: seq<Token>, us: seq<Token>)
    requires SameAll(ts, us)
    ensures Alike(ParseAnd(ts), ParseAnd(us))
  {
    hide ParseComparison, AndRest, SameAll;
    CmpAlike(ts, us);
    var p, q := ParseComparison(ts), ParseComparison(us);
    if p.Some? {
      AndRestAlike(p.value.0, p.value.1, q.value.1);
    }
  }

  lemma {:induction false} OrRestAlike(left: Expr, ts: seq<Token>, us: seq<Token>)
    requires SameAll(ts, us)
    ensures Alike(OrRest(left, ts), OrRest(left, us))
    decreases |ts|
  {
    hide ParseAnd;
    if ts != [] && ts[0].Or? {
      SameTail(ts, us, 1);
      AndAlike(ts[1..], us[1..]);
      var p, q := ParseAnd(ts[1..]), ParseAnd(us[1..]);
      if p.Some? {
        OrRestAlike(Binary(OpOr, left, p.value.0), p.value.1, q.value.1);
      }
    }
  }

  lemma {:induction false} ExprAlike(ts: seq<Token>, us: seq<Token>)
    requires SameAll(ts, us)
    ensures Alike(ParseExpr(ts), ParseExpr(us))
  {
    hide ParseAnd, OrRest, SameAll;
    AndAlike(ts, us);
    var p, q := ParseAnd(ts), ParseAnd(us);
    if p.Some? {
      OrRestAlike(p.value.0, p.value.1, q.value.1);
    }
  }

  lemma {:induction false} ListAlike(ts: seq<Token>, us: seq<Token>)
    requires SameAll(ts, us)
    ensures Alike(ParseExprList(ts), ParseExprList(us))
    decreases |ts|
  {
    hide ParseExpr;
    ExprAlike(ts, us);
    var p, q := ParseExpr(ts), ParseExpr(us);
    if p.Some? && p.value.1 != [] && p.value.1[0].Comma? {
      SameTail(p.value.1, q.value.1, 1);
      ListAlike(p.value.1[1..], q.value.1[1..]);
    }
  }

  lemma {:induction false} ProjectionAlike(ts: seq<Token>, us: seq<Token>)
    requires SameAll(ts, us)
    ensures Alike(ParseProjection(ts), ParseProjection(us))
  {
    hide ParseExprList;
    ListAlike(ts, us);
    if ts != [] {
      SameTail(ts, us, 1);
    }
  }

  lemma {:induction false} AliasAlike(ts: seq<Token>, us: seq<Token>, reserved: set<string>)
    requires SameAll(ts, us)
    ensures Alike(Some(ParseAlias(ts, reserved)), Some(ParseAlias(us, reserved)))
  {
    if ts != [] {
      SameTail(ts, us, 1);
    }
  }

  lemma {:induction false} JoinAlike(ts: seq<Token>, us: seq<Token>)
    requires SameAll(ts, us) && ts != [] && ts[0].Join?
    ensures Alike(ParseJoin(ts), ParseJoin(us))
  {
    hide ParseExpr, ParseAlias;
    if |ts| >= 2 && ts[1].Ident? {
      SameTail(ts, us, 2);
      AliasAlike(ts[2..], us[2..], JOIN_RESERVED);
      var vs, ws := ParseAlias(ts[2..], JOIN_RESERVED).1, ParseAlias(us[2..], JOIN_RESERVED).1;
      if vs != [] {
        SameTail(vs, ws, 1);
        ExprAlike(vs[1..], ws[1..]);
      }
    }
  }

  lemma {:induction false} JoinsAlike(ts: seq<Token>, us: seq<Token>)
    requires SameAll(ts, us)
    ensures Alike(ParseJoins(ts), ParseJoins(us))
    decreases |ts|
  {
    hide ParseJoin;
    if ts != [] && ts[0].Join? {
      JoinAlike(ts, us);
      var p, q := ParseJoin(ts), ParseJoin(us);
      if p.Some? {
        JoinsAlike(p.value.1, q.value.1);
      }
    }
  }

  lemma {:induction false} FilterAlike(ts: seq<Token>, us: seq<Token>)
    requires SameAll(ts, us)
    ensures ParseFilter(ts) == ParseFilter(us)
  {
    hide ParseExpr;
    if ts != [] {
      SameTail(ts, us, 1);
      ExprAlike(ts[1..], us[1..]);
    }
  }

  lemma {:induction false} SelectAlike(ts: seq<Token>, us: seq<Token>)
    requires SameAll(ts, us)
    ensures ParseSelect(ts) == ParseSelect(us)
  {
    hide ParseProjection, ParseAlias, ParseJoins, ParseFilter;
    ProjectionAlike(ts, us);
    var p, q := ParseProjection(ts), ParseProjection(us);
    if p.Some? && |p.value.1| >= 2 {
      var vs, ws := p.value.1[2..], q.value.1[2..];
      SameTail(p.value.1, q.value.1, 2);
      AliasAlike(vs, ws, FROM_RESERVED);
      var xs, ys := ParseAlias(vs, FROM_RESERVED).1, ParseAlias(ws, FROM_RESERVED).1;
      JoinsAlike(xs, ys);
      var j, k := ParseJoins(xs), ParseJoins(ys);
      if j.Some? {
        FilterAlike(j.value.1, k.value.1);
      }
    }
  }

  lemma {:induction false} AssignmentsAlike(ts: seq<Token>, us: seq<Token>)
    requires SameAll(ts, us)
    ensures Alike(ParseAssignments(ts), ParseAssignments(us))
    decreases |ts|
  {
    hide ParseExpr;
    if |ts| >= 2 {
      SameTail(ts, us, 2);
      ExprAlike(ts[2..], us[2..]);
      var p, q := ParseExpr(ts[2..]), ParseExpr(us[2..]);
      if p.Some? && p.value.1 != [] && p.value.1[0].Comma? {
        SameTail(p.value.1, q.value.1, 1);
        AssignmentsAlike(p.value.1[1..], q.value.1[1..]);
      }
    }
  }

  lemma {:induction false} UpdateAlike(ts: seq<Token>, us: seq<Token>)
    requires SameAll(ts, us)
    ensures ParseUpdate(ts) == ParseUpdate(us)
  {
    hide ParseAssignments, ParseFilter;
    if |ts| >= 2 {
      SameTail(ts, us, 2);
      AssignmentsAlike(ts[2..], us[2..]);
      var p, q := ParseAssignments(ts[2..]), ParseAssignments(us[2..]);
      if p.Some? {
        FilterAlike(p.value.1, q.value.1);
      }
    }
  }

  lemma {:induction false} DeleteAlike(ts: seq<Token>, us: seq<Token>)
    requires SameAll(ts, us)
    ensures ParseDelete(ts) == ParseDelete(us)
  {
    hide ParseFilter;
    if |ts| >= 2 {
      SameTail(ts, us, 2);
      FilterAlike(ts[2..], us[2..]);
    }
  }

  /** Streams that differ only in the spelling of integers parse to the same statement. */
  lemma {:induction false} StmtAlike(ts: seq<Token>, us: seq<Token>)
    requires SameAll(ts, us)
    ensures ParseStmt(ts) == ParseStmt(us)
    decreases |ts|
  {
    hide ParseSelect, ParseUpdate, ParseDelete;
    if ts != [] {
      SameTail(ts, us, 1);
      SelectAlike(ts[1..], us[1..]);
      UpdateAlike(ts[1..], us[1..]);
      DeleteAlike(ts[1..], us[1..]);
      StmtAlike(ts[1..], us[1..]);
    }
  }

  /** A token stream is accepted as a statement if and only if the statement has a shape the
      grammar allows and the stream is its printing, up to the spelling of integers. */
  lemma {:induction false} ParseIff(ts: seq<Token>, s: Stmt)
    requires WellLexed(ts)
    ensures ParseStmt(ts) == Some(s) <==> WellFormed(s) && SameAll(ts, PrintStmt(s))
  {
    hide ParseStmt, WellFormed, SameAll, PrintStmt;
    if ParseStmt(ts).Some? {
      StmtSound(ts);
    }
    if WellFormed(s) && SameAll(ts, PrintStmt(s)) {
      StmtAlike(ts, PrintStmt(s));
      StmtBack(s);
    }
  }
}
