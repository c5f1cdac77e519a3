/** The lexer, and the parser's inverse theorems carried over to SQL text. */
module Lexer {
  import opened Core
  import opened Sequences
  import opened Parser
  import opened ParserInverse

  /** The character classes of the unicode package, and its upper-case mapping. */
  datatype CharClass = CharClass(letter: char -> bool, digit: char -> bool, space: char -> bool, upper: char -> char)

  predicate WordStart(cl: CharClass, c: char) { cl.letter(c) || c == '_' }
  predicate WordChar(cl: CharClass, c: char) { WordStart(cl, c) || cl.digit(c) }

  /** The characters NextToken switches on before it looks at the classes. */
  predicate Punctuation(c: char) {
    c == '(' || c == ')' || c == ',' || c == '*' || c == '.' || c == '+' || c == '-' || c == '=' || c == '<' || c == '>'
    || c == '!' || c == '\''
  }

  /** What the classes promise about ASCII and about each other. */
  ghost predicate Sane(cl: CharClass) {
    && (forall c :: 'A' <= c <= 'Z' ==> cl.letter(c) && cl.upper(c) == c)
    && (forall c :: '0' <= c <= '9' ==> cl.digit(c))
    && cl.space(' ')
    && (forall c :: cl.space(c) || Punctuation(c) ==> !WordChar(cl, c))
    && (forall c :: cl.space(c) ==> !Punctuation(c))
    && (forall c :: cl.digit(c) ==> !WordStart(cl, c))
  }

  // ---------------------------------------------------------------------
  // Scanning
  // ---------------------------------------------------------------------

  /** The length of the longest prefix whose characters pass the test. */
  function Span(p: char -> bool, s: string): (n: nat)
    ensures n <= |s| && (forall i :: 0 <= i < n ==> p(s[i])) && (n < |s| ==> !p(s[n]))
  {
    if s == [] || !p(s[0]) then 0 else 1 + Span(p, s[1..])
  }

  lemma {:induction false} SpanIs(p: char -> bool, s: string, n: nat)
    requires n <= |s| && (forall i :: 0 <= i < n ==> p(s[i])) && (n < |s| ==> !p(s[n]))
    ensures Span(p, s) == n
  {
  }

  /** The bytes of a string. */
  function Utf8(s: string): (b: seq<Byte>) {
    if s == [] then [] else Utf8(s[..|s| - 1]) + Utf8Char(s[|s| - 1] as int)
  }

  function Utf8Char(c: int): seq<Byte>
    requires 0 <= c < 0x11_0000
  {
    if c < 0x80 then [c]
    else if c < 0x800 then [0xC0 + c / 0x40, 0x80 + c % 0x40]
    else if c < 0x1_0000 then [0xE0 + c / 0x1000, 0x80 + c / 0x40 % 0x40, 0x80 + c % 0x40]
    else [0xF0 + c / 0x4_0000, 0x80 + c / 0x1000 % 0x40, 0x80 + c / 0x40 % 0x40, 0x80 + c % 0x40]
  }

  function Upper(cl: CharClass, w: string): (u: string)
    ensures |u| == |w| && forall i :: 0 <= i < |w| ==> u[i] == cl.upper(w[i])
  {
    seq(|w|, i requires 0 <= i < |w| => cl.upper(w[i]))
  }

  /** The keywords; those of statements outside this model are Other. */
  function Keyword(u: string): (t: Option<Token>) {
    if |u| == 2 then
      if u == "ON" then Some(On) else if u == "OR" then Some(Or) else None
    else if |u| == 3 then
      if u == "SET" then Some(Set) else if u == "AND" then Some(And)
      else if u == "INT" || u == "END" then Some(Other) else None
    else if |u| == 4 then
      if u == "FROM" then Some(From) else if u == "JOIN" then Some(Join) else if u == "TRUE" then Some(Token.True)
      else if u == "INTO" || u == "TEXT" || u == "BOOL" then Some(Other) else None
    else if |u| == 5 then
      if u == "WHERE" then Some(Where) else if u == "FALSE" then Some(Token.False)
      else if u == "TABLE" || u == "INDEX" || u == "BEGIN" || u == "START" then Some(Other) else None
    else if |u| == 6 then
      if u == "SELECT" then Some(Select) else if u == "DELETE" then Some(Delete) else if u == "UPDATE" then Some(Update)
      else if u == "CREATE" || u == "INSERT" || u == "VALUES" || u == "COMMIT" then Some(Other) else None
    else if |u| == 7 then
      if u == "EXPLAIN" then Some(Explain) else if u == "ANALYZE" then Some(Other) else None
    else if u == "ROLLBACK" || u == "TRANSACTION" then Some(Other)
    else None
  }

  function Word(cl: CharClass, w: string): (t: Token)
    ensures t.Ident? ==> t.name == w
  {
    var k := Keyword(Upper(cl, w));
    if k.Some? then k.value else Ident(w)
  }

  function Quote(c: char): bool { c != '\'' }

  /** NextToken on a non-empty input without leading space: the token and its length. */
  function LexOne(cl: CharClass, s: string): (r: (Token, nat))
    requires s != []
    ensures 1 <= r.1 <= |s|
    ensures r.0.Ident? ==> r.0.name != ""
  {
    var next := if |s| > 1 then s[1] else ' ';
    match s[0]
    case ',' => (Comma, 1)
    case '*' => (StarTok, 1)
    case '.' => (Dot, 1)
    case '+' => (Plus, 1)
    case '-' => (Minus, 1)
    case '=' => (Eq, 1)
    case '<' => if |s| > 1 && next == '=' then (Le, 2) else if |s| > 1 && next == '>' then (Ne, 2) else (Lt, 1)
    case '>' => if |s| > 1 && next == '=' then (Ge, 2) else (Gt, 1)
    case '!' => if |s| > 1 && next == '=' then (Ne, 2) else (Other, 1)
    case '\'' => LexText(s)
    case _ =>
      if s[0] == '(' || s[0] == ')' then (Other, 1)
      else if cl.digit(s[0]) then
        var n := Span(cl.digit, s);
        (IntLit(s[..n]), n)
      else if WordStart(cl, s[0]) then
        var n := Span((c: char) => WordChar(cl, c), s);
        (Word(cl, s[..n]), n)
      else (Other, 1)
  }

  /** readTextLiteral: an unclosed literal is an error that takes the rest of the input. */
  function LexText(s: string): (r: (Token, nat))
    requires s != [] && s[0] == '\''
    ensures 1 <= r.1 <= |s| && !r.0.Ident?
  {
    var n := Span(Quote, s[1..]);
    if 1 + n >= |s| then (Other, |s|) else (TextLit(Utf8(s[1..1 + n])), n + 2)
  }

  /** The whole token stream. */
  function Lex(cl: CharClass, s: string): (ts: seq<Token>)
    decreases |s|
  {
    if s == [] then []
    else if cl.space(s[0]) then Lex(cl, s[1..])
    else
      var (t, n) := LexOne(cl, s);
      [t] + Lex(cl, s[n..])
  }

  // ---------------------------------------------------------------------
  // The lexer as it runs
  // ---------------------------------------------------------------------

  class Lexer {
    const cl: CharClass
    const input: string
    var pos: nat

    constructor (cl: CharClass, input: string)
      ensures this.cl == cl && this.input == input && pos == 0
    {
      this.cl, this.input, pos := cl, input, 0;
    }

    /** Advances over the characters that pass the test. */
    method SkipWhile(p: char -> bool)
      requires pos <= |input|
      modifies this
      ensures pos == old(pos) + Span(p, input[old(pos)..]) <= |input|
    {
      ghost var start := pos;
      while pos < |input| && p(input[pos])
        invariant start <= pos <= |input| && forall i :: start <= i < pos ==> p(input[i])
      {
        pos := pos + 1;
      }
      SpanIs(p, input[start..], pos - start);
    }

    method ReadTextLiteral() returns (t: Token)
      requires pos < |input| && input[pos] == '\''
      modifies this
      ensures (t, pos - old(pos)) == LexText(input[old(pos)..]) && pos <= |input|
    {
      ghost var s := input[pos..];
      pos := pos + 1;
      var start := pos;
      assert s[1..] == input[pos..];
      SkipWhile(Quote);
      if pos >= |input| {
        return Other;
      }
      assert s[1..1 + (pos - start)] == input[start..pos];
      t := TextLit(Utf8(input[start..pos]));
      pos := pos + 1;
    }

    /** NextToken: None is EOF. */
    method NextToken() returns (t: Option<Token>)
      requires pos <= |input|
      modifies this
      ensures pos <= |input|
      ensures Lex(cl, input[old(pos)..]) == (if t.Some? then [t.value] else []) + Lex(cl, input[pos..])
      ensures t.None? ==> pos == |input|
      ensures t.Some? ==> pos > old(pos)
    {
      hide LexOne, Lex, LexText;
      SkipWhile(cl.space);
      SpacesSkipped(cl, input, old(pos), pos);
      LexStep(cl, input[pos..]);
      if pos >= |input| {
        return None;
      }
      var at := pos;
      var tok := Scan();
      assert input[at..][pos - at..] == input[pos..];
      t := Some(tok);
    }

    /** The switch of NextToken. */
    method Scan() returns (t: Token)
      requires pos < |input|
      modifies this
      ensures (t, pos - old(pos)) == LexOne(cl, input[old(pos)..]) && old(pos) < pos <= |input|
    {
      hide LexText, Word;
      ghost var s := input[pos..];
      var ch, start := input[pos], pos;
      assert s[0] == ch;
      if ch == '\'' {
        t := ReadTextLiteral();
      } else if Punctuation(ch) {
        t := ReadOperator();
      } else if cl.digit(ch) {
        SkipWhile(cl.digit);
        assert s[..pos - start] == input[start..pos];
        t := IntLit(input[start..pos]);
      } else if WordStart(cl, ch) {
        SkipWhile((c: char) => WordChar(cl, c));
        assert s[..pos - start] == input[start..pos];
        t := Word(cl, input[start..pos]);
      } else {
        pos := pos + 1;
        t := Other;
      }
    }

    method ReadOperator() returns (t: Token)
      requires pos < |input| && Punctuation(input[pos]) && input[pos] != '\''
      modifies this
      ensures (t, pos - old(pos)) == LexOne(cl, input[old(pos)..]) && old(pos) < pos <= |input|
    {
      hide LexText, Word;
      var ch := input[pos];
      ghost var s := input[pos..];
      pos := pos + 1;
      var more := pos < |input|;
      assert s[0] == ch && (more ==> s[1] == input[pos]);
      match ch
      case ',' => t := Comma;
      case '*' => t := StarTok;
      case '.' => t := Dot;
      case '+' => t := Plus;
      case '-' => t := Minus;
      case '=' => t := Eq;
      case '<' =>
        t := if more && input[pos] == '=' then Le else if more && input[pos] == '>' then Ne else Lt;
        if !t.Lt? {
          pos := pos + 1;
        }
      case '>' =>
        t := if more && input[pos] == '=' then Ge else Gt;
        if t.Ge? {
          pos := pos + 1;
        }
      case '!' =>
        t := if more && input[pos] == '=' then Ne else Other;
        if t.Ne? {
          pos := pos + 1;
        }
      case _ => t := Other;
    }

    /** The tokens the parser pulls until EOF. */
    method ReadAll() returns (ts: seq<Token>)
      requires pos == 0
      modifies this
      ensures ts == Lex(cl, input)
    {
      hide Lex;
      ts := [];
      assert input[0..] == input;
      while true
        invariant pos <= |input| && ts + Lex(cl, input[pos..]) == Lex(cl, input)
        decreases |input| - pos
      {
        ghost var before := pos;
        var t := NextToken();
        if t.None? {
          AtEnd(cl, input, before, pos);
          return;
        }
        Assoc(ts, [t.value], Lex(cl, input[pos..]));
        ts := ts + [t.value];
      }
    }
  }

  lemma {:induction false} AtEnd(cl: CharClass, input: string, before: nat, pos: nat)
    requires before <= pos == |input| && Lex(cl, input[before..]) == [] + Lex(cl, input[pos..])
    ensures Lex(cl, input[before..]) == []
  {
  }

  lemma {:induction false} LexStep(cl: CharClass, s: string)
    ensures s == [] ==> Lex(cl, s) == []
    ensures s != [] && !cl.space(s[0]) ==> Lex(cl, s) == [LexOne(cl, s).0] + Lex(cl, s[LexOne(cl, s).1..])
  {
  }

  lemma {:induction false} SpacesSkipped(cl: CharClass, input: string, from: nat, to: nat)
    requires from <= to <= |input| && forall i :: from <= i < to ==> cl.space(input[i])
    ensures Lex(cl, input[from..]) == Lex(cl, input[to..])
    decreases |input| - from
  {
    if from < to {
      assert input[from..][1..] == input[from + 1..];
      SpacesSkipped(cl, input, from + 1, to);
    }
  }

  // ---------------------------------------------------------------------
  // Spelling
  // ---------------------------------------------------------------------

  ghost predicate AllChars(p: char -> bool, s: string) {
    forall i :: 0 <= i < |s| ==> p(s[i])
  }

  /** A text that can be written as a literal: there is no way to escape a quote. */
  ghost predicate Quotable(b: seq<Byte>) {
    exists s: string :: AllChars(Quote, s) && Utf8(s) == b
  }

  /** A token that some text is lexed to. */
  ghost predicate Lexical(cl: CharClass, t: Token) {
    match t
    case Ident(n) => n != "" && WordStart(cl, n[0]) && AllChars((c: char) => WordChar(cl, c), n)
      && Keyword(Upper(cl, n)).None?
    case IntLit(d) => d != "" && AllChars(cl.digit, d)
    case TextLit(b) => Quotable(b)
    case Other => false
    case _ => true
  }

  ghost predicate AllLexical(cl: CharClass, ts: seq<Token>) {
    forall i :: 0 <= i < |ts| ==> Lexical(cl, ts[i])
  }

  /** The spelling of a keyword. */
  function KeywordText(t: Token): string {
    match t
    case Select => "SELECT"
    case From => "FROM"
    case Where => "WHERE"
    case Join => "JOIN"
    case On => "ON"
    case Update => "UPDATE"
    case Set => "SET"
    case Delete => "DELETE"
    case Explain => "EXPLAIN"
    case And => "AND"
    case Or => "OR"
    case True => "TRUE"
    case False => "FALSE"
    case _ => ""
  }

  /** The spelling of an operator or a comma. */
  function OperatorText(t: Token): string {
    match t
    case Comma => ","
    case StarTok => "*"
    case Dot => "."
    case Plus => "+"
    case Minus => "-"
    case Eq => "="
    case Ne => "<>"
    case Lt => "<"
    case Le => "<="
    case Gt => ">"
    case Ge => ">="
    case _ => ""
  }

  ghost function Spell(t: Token): (s: string)
    requires t.TextLit? ==> Quotable(t.text)
  {
    match t
    case Ident(n) => n
    case IntLit(d) => d
    case TextLit(b) =>
      var s: string :| AllChars(Quote, s) && Utf8(s) == b;
      "'" + s + "'"
    case _ => if KeywordText(t) != "" then KeywordText(t) else OperatorText(t)
  }

  /** Every token followed by a space. */
  ghost function SpellAll(cl: CharClass, ts: seq<Token>): (s: string)
    requires AllLexical(cl, ts)
  {
    if ts == [] then ""
    else
      assert Lexical(cl, ts[0]);
      Spell(ts[0]) + " " + SpellAll(cl, ts[1..])
  }

  // ---------------------------------------------------------------------
  // Spelled tokens lex back
  // ---------------------------------------------------------------------

  lemma {:induction false} KeywordBack(t: Token)
    requires KeywordText(t) != ""
    ensures Keyword(KeywordText(t)) == Some(t) && AllChars((c: char) => 'A' <= c <= 'Z', KeywordText(t))
  {
  }

  lemma {:induction false} WordBack(cl: CharClass, w: string, rest: string)
    requires Sane(cl) && w != "" && WordStart(cl, w[0]) && AllChars((c: char) => WordChar(cl, c), w)
    ensures LexOne(cl, w + " " + rest) == (Word(cl, w), |w|)
  {
    hide Word;
    var s := w + " " + rest;
    assert s[0] == w[0] && s[|w|] == ' ' && s[..|w|] == w;
    assert WordChar(cl, s[0]);
    forall i | 0 <= i < |w| ensures WordChar(cl, s[i]) {
      assert s[i] == w[i];
    }
    SpanIs((c: char) => WordChar(cl, c), s, |w|);
  }

  lemma {:induction false} IntBack(cl: CharClass, d: string, rest: string)
    requires Sane(cl) && d != "" && AllChars(cl.digit, d)
    ensures LexOne(cl, d + " " + rest) == (IntLit(d), |d|)
  {
    var s := d + " " + rest;
    assert s[0] == d[0] && s[|d|] == ' ' && s[..|d|] == d;
    assert WordChar(cl, s[0]);
    forall i | 0 <= i < |d| ensures cl.digit(s[i]) {
      assert s[i] == d[i];
    }
    assert !WordChar(cl, ' ');
    SpanIs(cl.digit, s, |d|);
  }

  lemma {:induction false} TextBack(cl: CharClass, x: string, rest: string)
    requires AllChars(Quote, x)
    ensures LexOne(cl, "'" + x + "'" + " " + rest) == (TextLit(Utf8(x)), |x| + 2)
  {
    var s := "'" + x + "'" + " " + rest;
    var tail := s[1..];
    assert tail == x + ("'" + " " + rest);
    forall i | 0 <= i < |x| ensures Quote(tail[i]) {
      assert tail[i] == x[i];
    }
    assert tail[|x|] == '\'';
    SpanIs(Quote, tail, |x|);
    assert s[1..1 + |x|] == x;
  }

  lemma {:induction false} OperatorBack(cl: CharClass, t: Token, rest: string)
    requires OperatorText(t) != ""
    ensures LexOne(cl, OperatorText(t) + " " + rest) == (t, |OperatorText(t)|)
  {
    var s := OperatorText(t) + " " + rest;
    assert s[0] == OperatorText(t)[0] && s[1] == if |OperatorText(t)| == 1 then ' ' else OperatorText(t)[1];
  }

  lemma {:induction false} UpperFixed(cl: CharClass, w: string)
    requires Sane(cl) && AllChars((c: char) => 'A' <= c <= 'Z', w)
    ensures Upper(cl, w) == w && AllChars((c: char) => WordChar(cl, c), w)
    ensures w != "" ==> WordStart(cl, w[0])
  {
  }

  /** A spelled token followed by a space lexes back to itself. */
  lemma {:induction false} OneBack(cl: CharClass, t: Token, rest: string)
    requires Sane(cl) && Lexical(cl, t)
    ensures LexOne(cl, Spell(t) + " " + rest) == (t, |Spell(t)|)
  {
    hide LexOne, Keyword, Upper;
    if t.Ident? {
      WordBack(cl, t.name, rest);
    } else if t.IntLit? {
      IntBack(cl, t.digits, rest);
    } else if t.TextLit? {
      var x: string :| AllChars(Quote, x) && Utf8(x) == t.text && Spell(t) == "'" + x + "'";
      TextBack(cl, x, rest);
    } else if KeywordText(t) != "" {
      KeywordBack(t);
      UpperFixed(cl, KeywordText(t));
      WordBack(cl, KeywordText(t), rest);
    } else {
      OperatorBack(cl, t, rest);
    }
  }

  lemma {:induction false} StartsToken(cl: CharClass, t: Token)
    requires Sane(cl) && Lexical(cl, t)
    ensures Spell(t) != "" && !cl.space(Spell(t)[0])
  {
    if t.IntLit? {
      assert WordChar(cl, t.digits[0]);
    } else if t.Ident? {
      assert WordChar(cl, t.name[0]);
    } else if t.TextLit? {
      assert Punctuation(Spell(t)[0]);
    } else if KeywordText(t) != "" {
      KeywordBack(t);
      assert 'A' <= Spell(t)[0] <= 'Z';
      assert WordChar(cl, Spell(t)[0]);
    } else {
      assert Punctuation(Spell(t)[0]);
    }
  }

  /** Lexing undoes spelling. */
  lemma {:induction false} LexBack(cl: CharClass, ts: seq<Token>)
    requires Sane(cl) && AllLexical(cl, ts)
    ensures Lex(cl, SpellAll(cl, ts)) == ts
  {
    hide LexOne, Spell, Sane, Keyword, Upper, Quotable, Lex;
    if ts == [] {
      LexStep(cl, "");
    } else {
      var t := ts[0];
      assert Lexical(cl, t);
      var rest := SpellAll(cl, ts[1..]);
      var s := Spell(t) + " " + rest;
      StartsToken(cl, t);
      OneBack(cl, t, rest);
      LexBack(cl, ts[1..]);
      assert s[|Spell(t)|..] == " " + rest;
      LexStep(cl, s);
      SpaceFirst(cl, rest);
      assert ts == [t] + ts[1..];
    }
  }

  lemma {:induction false} SpaceFirst(cl: CharClass, rest: string)
    requires Sane(cl)
    ensures Lex(cl, " " + rest) == Lex(cl, rest)
  {
    assert (" " + rest)[1..] == rest;
  }

  // ---------------------------------------------------------------------
  // Statements as text
  // ---------------------------------------------------------------------

  lemma {:induction false} LexIsWellLexed(cl: CharClass, s: string)
    ensures WellLexed(Lex(cl, s))
    decreases |s|
  {
    hide LexOne;
    if s != [] {
      if cl.space(s[0]) {
        LexIsWellLexed(cl, s[1..]);
      } else {
        LexIsWellLexed(cl, s[LexOne(cl, s).1..]);
      }
    }
  }

  lemma {:induction false} OneHasNoComma(cl: CharClass, s: string)
    requires Sane(cl) && s != []
    ensures LexOne(cl, s).0.Ident? ==> ',' !in LexOne(cl, s).0.name
  {
    hide Keyword, Upper;
    assert Punctuation(',') && !WordChar(cl, ',');
  }

  /** No name in any statement text contains a comma, so the memo keys of the optimizer
      identify the table sets of every parsed query. */
  lemma {:induction false} NamesAreCommaFree(cl: CharClass, s: string)
    requires Sane(cl)
    ensures forall i :: 0 <= i < |Lex(cl, s)| && Lex(cl, s)[i].Ident? ==> ',' !in Lex(cl, s)[i].name
    decreases |s|
  {
    hide LexOne, Sane;
    if s != [] {
      if cl.space(s[0]) {
        NamesAreCommaFree(cl, s[1..]);
      } else {
        OneHasNoComma(cl, s);
        NamesAreCommaFree(cl, s[LexOne(cl, s).1..]);
      }
    }
  }

  /** Whatever text is accepted, its tokens are the printing of the statement, up to the
      spelling of integers, and the statement is one the parser can print. */
  lemma {:induction false} AcceptedTextIsPrinting(cl: CharClass, s: string)
    requires ParseStmt(Lex(cl, s)).Some?
    ensures var stmt := ParseStmt(Lex(cl, s)).value;
            WellFormed(stmt) && SameAll(Lex(cl, s), PrintStmt(stmt))
  {
    LexIsWellLexed(cl, s);
    StmtSound(Lex(cl, s));
  }

  /** The names and texts of a token list can be written. */
  ghost predicate Writable(cl: CharClass, ts: seq<Token>) {
    forall i :: 0 <= i < |ts| && (ts[i].Ident? || ts[i].TextLit?) ==> Lexical(cl, ts[i])
  }

  /** No token outside the model, and integers are plain digits. */
  ghost predicate Plain(ts: seq<Token>) {
    forall i :: 0 <= i < |ts| ==> !ts[i].Other? && (ts[i].IntLit? ==>
      ts[i].digits != "" && AllChars(IsDigit, ts[i].digits))
  }

  predicate IsDigit(c: char) { '0' <= c <= '9' }

  lemma {:induction false} DecimalDigits(n: nat)
    ensures AllChars(IsDigit, Decimal(n))
  {
    if n >= 10 {
      DecimalDigits(n / 10);
    }
  }

  lemma {:induction false} PlainExpr(e: Expr)
    requires IsOr(e)
    ensures Plain(Print(e))
  {
    hide AllChars;
    if e.Binary? {
      assert IsOr(e.left) && IsOr(e.right);
      PlainExpr(e.left);
      PlainExpr(e.right);
      assert Plain([OpToken(e.op)]);
    } else if e.Literal? && e.value.Int? {
      DecimalDigits(e.value.i);
    }
  }

  lemma {:induction false} PlainList(es: seq<Expr>)
    requires es != [] && AllOr(es)
    ensures Plain(PrintList(es))
    decreases |es|
  {
    hide Print, AllChars, IsOr;
    PlainExpr(es[0]);
    if |es| > 1 {
      PlainList(es[1..]);
    }
  }

  lemma {:induction false} PlainJoins(js: seq<JoinClause>)
    requires JoinsOk(js)
    ensures Plain(PrintJoins(js))
    decreases |js|
  {
    hide Print, AllChars, IsOr;
    if js != [] {
      assert JoinOk(js[0]);
      PlainExpr(js[0].on);
      PlainJoins(js[1..]);
      assert Plain(PrintJoin(js[0]));
    }
  }

  lemma {:induction false} PlainAssignments(xs: seq<Assignment>)
    requires AssignmentsOk(xs)
    ensures Plain(PrintAssignments(xs))
    decreases |xs|
  {
    hide Print, AllChars, IsOr;
    PlainExpr(xs[0].value);
    if |xs| > 1 {
      PlainAssignments(xs[1..]);
    }
  }

  lemma {:induction false} PlainFilter(f: Option<Expr>)
    requires f.Some? ==> IsOr(f.value)
    ensures Plain(PrintFilter(f))
  {
    hide Print, AllChars, IsOr;
    if f.Some? {
      PlainExpr(f.value);
    }
  }

  lemma {:induction false} PlainStmt(s: Stmt)
    requires WellFormed(s)
    ensures Plain(PrintStmt(s))
  {
    hide Print, AllChars, IsOr, PrintList, PrintJoins, PrintAssignments, PrintFilter;
    match s
    case SelectStmt(p, _, _, js, f) =>
      if p == [Star] {
        assert PrintList(p) == [StarTok] by { StarPrinted(); }
      } else {
        PlainList(p);
      }
      PlainJoins(js);
      PlainFilter(f);
    case UpdateStmt(_, xs, f) =>
      PlainAssignments(xs);
      PlainFilter(f);
    case DeleteStmt(_, f) => PlainFilter(f);
    case ExplainStmt(sub) => PlainStmt(sub);
  }

  lemma {:induction false} StarPrinted()
    ensures PrintList([Star]) == [StarTok]
  {
  }

  /** Every statement whose names and texts can be written is parsed back from its text. */
  lemma {:induction false} StatementTextBack(cl: CharClass, s: Stmt)
    requires Sane(cl) && WellFormed(s) && Writable(cl, PrintStmt(s))
    ensures var ts := PrintStmt(s);
            AllLexical(cl, ts) && ParseStmt(Lex(cl, SpellAll(cl, ts))) == Some(s)
  {
    var ts := PrintStmt(s);
    PlainStmt(s);
    hide PrintStmt, WellFormed;
    forall i | 0 <= i < |ts| ensures Lexical(cl, ts[i]) {
      if ts[i].IntLit? {
        assert AllChars(cl.digit, ts[i].digits);
      }
    }
    LexBack(cl, ts);
    StmtBack(s);
  }
}
