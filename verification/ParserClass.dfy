/** The parser object: a cursor over the token stream, advanced by loops. */
module ParserClass {
  import opened Core
  import opened Parser
  import Sequences

  class TokenParser {
    var toks: seq<Token>

    constructor (toks: seq<Token>)
      ensures this.toks == toks
    {
      this.toks := toks;
    }

    method NextToken()
      modifies this
      ensures toks == if old(toks) == [] then [] else old(toks)[1..]
    {
      if toks != [] {
        toks := toks[1..];
      }
    }

    /** The result and the remaining tokens are those of the specification. */
    ghost predicate Read(e: Option<Expr>, p: Parsed)
      reads this
    {
      (e.None? <==> p.None?) && (e.Some? ==> p == Some((e.value, toks)))
    }

    method ParsePrimaryExpr() returns (e: Option<Expr>)
      modifies this
      ensures Read(e, ParsePrimary(old(toks)))
    {
      if toks == [] {
        return None;
      }
      var t := toks[0];
      match t {
        case Ident(n) =>
          NextToken();
          if toks != [] && toks[0].Dot? {
            NextToken();
            if toks == [] || !toks[0].Ident? {
              return None;
            }
            var column := toks[0].name;
            NextToken();
            return Some(ColumnRef(n, column));
          }
          e := Some(ColumnRef("", n));
        case IntLit(d) =>
          var v := ParseInt(d);
          if v.None? {
            return None;
          }
          NextToken();
          e := Some(Literal(Int(v.value)));
        case TextLit(s) =>
          NextToken();
          e := Some(Literal(Text(s)));
        case True =>
          NextToken();
          e := Some(Literal(Bool(true)));
        case False =>
          NextToken();
          e := Some(Literal(Bool(false)));
        case _ => e := None;
      }
    }

    method ParseAdditiveExpr() returns (e: Option<Expr>)
      modifies this
      ensures Read(e, ParseAdditive(old(toks)))
    {
      e := ParsePrimaryExpr();
      if e.None? {
        return;
      }
      var left := e.value;
      while toks != [] && (toks[0].Plus? || toks[0].Minus?)
        invariant AddRest(left, toks) == ParseAdditive(old(toks))
        decreases |toks|
      {
        var op := if toks[0].Plus? then OpAdd else OpSub;
        ghost var ts := toks[1..];
        NextToken();
        var right := ParsePrimaryExpr();
        if right.None? {
          return None;
        }
        left := Binary(op, left, right.value);
      }
      e := Some(left);
    }

    method ParseComparisonExpr() returns (e: Option<Expr>)
      modifies this
      ensures Read(e, ParseComparison(old(toks)))
    {
      e := ParseAdditiveExpr();
      if e.None? || toks == [] || Comparator(toks[0]).None? {
        return;
      }
      var op := Comparator(toks[0]).value;
      NextToken();
      var right := ParseAdditiveExpr();
      if right.None? {
        return None;
      }
      e := Some(Binary(op, e.value, right.value));
    }

    method ParseAndExpr() returns (e: Option<Expr>)
      modifies this
      ensures Read(e, ParseAnd(old(toks)))
    {
      e := ParseComparisonExpr();
      if e.None? {
        return;
      }
      var left := e.value;
      while toks != [] && toks[0].And?
        invariant AndRest(left, toks) == ParseAnd(old(toks))
        decreases |toks|
      {
        NextToken();
        var right := ParseComparisonExpr();
        if right.None? {
          return None;
        }
        left := Binary(OpAnd, left, right.value);
      }
      e := Some(left);
    }

    method ParseExpression() returns (e: Option<Expr>)
      modifies this
      ensures Read(e, ParseExpr(old(toks)))
    {
      e := ParseAndExpr();
      if e.None? {
        return;
      }
      var left := e.value;
      while toks != [] && toks[0].Or?
        invariant OrRest(left, toks) == ParseExpr(old(toks))
        decreases |toks|
      {
        NextToken();
        var right := ParseAndExpr();
        if right.None? {
          return None;
        }
        left := Binary(OpOr, left, right.value);
      }
      e := Some(left);
    }

    method ParseSelectExpressions() returns (es: Option<seq<Expr>>)
      modifies this
      ensures es.None? <==> ParseProjection(old(toks)).None?
      ensures es.Some? ==> ParseProjection(old(toks)) == Some((es.value, toks))
    {
      if toks != [] && toks[0].StarTok? {
        NextToken();
        return Some([Star]);
      }
      es := ParseCommaList();
    }

    method ParseCommaList() returns (es: Option<seq<Expr>>)
      modifies this
      ensures es.None? <==> ParseExprList(old(toks)).None?
      ensures es.Some? ==> ParseExprList(old(toks)) == Some((es.value, toks))
    {
      var exprs: seq<Expr> := [];
      hide ParseExpr;
      ghost var all := ParseExprList(toks);
      assert all.Some? ==> [] + all.value.0 == all.value.0;
      while true
        invariant var p := ParseExprList(toks);
                  (all.None? <==> p.None?) && (p.Some? ==> all == Some((exprs + p.value.0, p.value.1)))
        decreases |toks|
      {
        var e := ParseExpression();
        if e.None? {
          return None;
        }
        ghost var before := exprs;
        exprs := exprs + [e.value];
        if toks != [] && toks[0].Comma? {
          NextToken();
          ghost var more := ParseExprList(toks);
          if more.Some? {
            Sequences.Assoc(before, [e.value], more.value.0);
          }
        } else {
          break;
        }
      }
      es := Some(exprs);
    }

    method ParseJoinClauses() returns (js: Option<seq<JoinClause>>)
      modifies this
      ensures js.None? <==> ParseJoins(old(toks)).None?
      ensures js.Some? ==> ParseJoins(old(toks)) == Some((js.value, toks))
    {
      var joins: seq<JoinClause> := [];
      hide ParseExpr;
      ghost var all := ParseJoins(toks);
      assert all.Some? ==> [] + all.value.0 == all.value.0;
      while toks != [] && toks[0].Join?
        invariant var p := ParseJoins(toks);
                  (all.None? <==> p.None?) && (p.Some? ==> all == Some((joins + p.value.0, p.value.1)))
        decreases |toks|
      {
        ghost var before := joins;
        var j := ParseOneJoin();
        if j.None? {
          return None;
        }
        joins := joins + [j.value];
        ghost var more := ParseJoins(toks);
        assert more.Some? ==> before + ([j.value] + more.value.0) == joins + more.value.0;
      }
      assert joins + [] == joins;
      js := Some(joins);
    }

    method ParseOneJoin() returns (j: Option<JoinClause>)
      requires toks != [] && toks[0].Join?
      modifies this
      ensures j.None? <==> ParseJoin(old(toks)).None?
      ensures j.Some? ==> ParseJoin(old(toks)) == Some((j.value, toks))
    {
      NextToken();
      if toks == [] || !toks[0].Ident? {
        return None;
      }
      var table := toks[0].name;
      NextToken();
      assert toks == old(toks)[2..];
      var alias := "";
      if toks != [] && toks[0].Ident? && toks[0].name != "ON" {
        alias := toks[0].name;
        NextToken();
      }
      if toks == [] || !toks[0].On? {
        return None;
      }
      NextToken();
      var on := ParseExpression();
      if on.None? {
        return None;
      }
      j := Some(JoinClause(table, alias, on.value));
    }

    /** WHERE and the check for EOF. */
    method ParseWhere() returns (f: Option<Option<Expr>>)
      modifies this
      ensures f == ParseFilter(old(toks))
    {
      var filter: Option<Expr> := None;
      if toks != [] && toks[0].Where? {
        NextToken();
        filter := ParseExpression();
        if filter.None? {
          return None;
        }
      }
      if toks != [] {
        return None;
      }
      f := Some(filter);
    }

    method ParseSelectStmt() returns (s: Option<Stmt>)
      modifies this
      ensures s == ParseSelect(old(toks))
    {
      hide ParseProjection, ParseJoins, ParseFilter;
      var projection := ParseSelectExpressions();
      if projection.None? || toks == [] || !toks[0].From? {
        return None;
      }
      ghost var ts := toks;
      NextToken();
      if toks == [] || !toks[0].Ident? {
        return None;
      }
      var table := toks[0].name;
      NextToken();
      assert toks == ts[2..];
      var alias := "";
      if toks != [] && toks[0].Ident? && toks[0].name != "JOIN" && toks[0].name != "WHERE" {
        alias := toks[0].name;
        NextToken();
      }
      var joins := ParseJoinClauses();
      if joins.None? {
        return None;
      }
      var filter := ParseWhere();
      if filter.None? {
        return None;
      }
      s := Some(SelectStmt(projection.value, table, alias, joins.value, filter.value));
    }

    method ParseSet() returns (a: Option<seq<Assignment>>)
      modifies this
      ensures a.None? <==> ParseAssignments(old(toks)).None?
      ensures a.Some? ==> ParseAssignments(old(toks)) == Some((a.value, toks))
    {
      var assignments: seq<Assignment> := [];
      hide ParseExpr;
      ghost var all := ParseAssignments(toks);
      assert all.Some? ==> [] + all.value.0 == all.value.0;
      while true
        invariant var p := ParseAssignments(toks);
                  (all.None? <==> p.None?) && (p.Some? ==> all == Some((assignments + p.value.0, p.value.1)))
        decreases |toks|
      {
        if toks == [] || !toks[0].Ident? {
          return None;
        }
        ghost var ts := toks;
        var column := toks[0].name;
        NextToken();
        if toks == [] || !toks[0].Eq? {
          return None;
        }
        NextToken();
        assert toks == ts[2..];
        var e := ParseExpression();
        if e.None? {
          return None;
        }
        ghost var before := assignments;
        assignments := assignments + [Assignment(column, e.value)];
        if toks != [] && toks[0].Comma? {
          NextToken();
          ghost var more := ParseAssignments(toks);
          assert more.Some? ==> before + ([Assignment(column, e.value)] + more.value.0) == assignments + more.value.0;
        } else {
          break;
        }
      }
      a := Some(assignments);
    }

    /** parseStatement on the statements that are modelled. */
    method ParseStatement() returns (s: Option<Stmt>)
      modifies this
      ensures s == ParseStmt(old(toks))
      decreases |toks|
    {
      if toks == [] {
        return None;
      }
      var t := toks[0];
      NextToken();
      match t {
        case Select => s := ParseSelectStmt();
        case Update =>
          if |toks| < 2 || !toks[0].Ident? || !toks[1].Set? {
            return None;
          }
          var table := toks[0].name;
          ghost var ts := toks;
          NextToken();
          NextToken();
          assert toks == ts[2..];
          var a := ParseSet();
          if a.None? {
            return None;
          }
          var f := ParseWhere();
          s := if f.None? then None else Some(UpdateStmt(table, a.value, f.value));
        case Delete =>
          if |toks| < 2 || !toks[0].From? || !toks[1].Ident? {
            return None;
          }
          var table := toks[1].name;
          ghost var ts := toks;
          NextToken();
          NextToken();
          assert toks == ts[2..];
          var f := ParseWhere();
          s := if f.None? then None else Some(DeleteStmt(table, f.value));
        case Explain =>
          var sub := ParseStatement();
          s := if sub.None? then None else Some(ExplainStmt(sub.value));
        case _ => s := None;
      }
    }
  }
}
