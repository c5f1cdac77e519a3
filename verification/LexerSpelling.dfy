/** How texts spell tokens: a table of symbols and keywords, the rule of the longest match, and
    the theorem that lexing is exactly reading such a spelling. */
module LexerSpelling {
  import opened Core
  import opened Parser
  import opened ParserInverse
  import opened Lexer
  import ParserNumerals
  import Sequences

  // ---------------------------------------------------------------------
  // The spellings of one token
  // ---------------------------------------------------------------------

  /** Symbols; parentheses and a lone exclamation mark belong to no statement of this model. */
  predicate SymbolIs(w: string, t: Token) {
    match t
    case Comma => w == ","
    case StarTok => w == "*"
    case Dot => w == "."
    case Plus => w == "+"
    case Minus => w == "-"
    case Eq => w == "="
    case Ne => w == "<>" || w == "!="
    case Lt => w == "<"
    case Le => w == "<="
    case Gt => w == ">"
    case Ge => w == ">="
    case Other => w == "(" || w == ")" || w == "!"
    case _ => false
  }

  /** Keywords in upper case; those of other statements are Other. */
  predicate KeywordIs(u: string, t: Token) {
    match t
    case Select => u == "SELECT"
    case From => u == "FROM"
    case Where => u == "WHERE"
    case Join => u == "JOIN"
    case On => u == "ON"
    case Update => u == "UPDATE"
    case Set => u == "SET"
    case Delete => u == "DELETE"
    case Explain => u == "EXPLAIN"
    case And => u == "AND"
    case Or => u == "OR"
    case True => u == "TRUE"
    case False => u == "FALSE"
    case Other =>
      || u == "CREATE" || u == "TABLE" || u == "INSERT" || u == "INTO" || u == "VALUES" || u == "ANALYZE"
      || u == "INDEX" || u == "INT" || u == "TEXT" || u == "BOOL" || u == "BEGIN" || u == "COMMIT"
      || u == "ROLLBACK" || u == "TRANSACTION" || u == "START" || u == "END"
    case _ => false
  }

  ghost predicate Reserved(u: string) { exists t :: KeywordIs(u, t) }

  ghost predicate IsWord(cl: CharClass, w: string) {
    w != "" && WordStart(cl, w[0]) && forall i :: 0 <= i < |w| ==> WordChar(cl, w[i])
  }

  /** A word is the keyword its upper-case form is, whatever its own case, or else a name. */
  ghost predicate WordIs(cl: CharClass, w: string, t: Token) {
    IsWord(cl, w) && if t.Ident? then t.name == w && !Reserved(Upper(cl, w)) else KeywordIs(Upper(cl, w), t)
  }

  ghost predicate IntIs(cl: CharClass, w: string, t: Token) {
    t == IntLit(w) && w != "" && forall i :: 0 <= i < |w| ==> cl.digit(w[i])
  }

  /** A literal is what stands between two quotes. */
  predicate TextIs(w: string, t: Token) {
    && |w| >= 2 && w[0] == '\'' && w[|w| - 1] == '\'' && '\'' !in w[1..|w| - 1]
    && t == TextLit(Utf8(w[1..|w| - 1]))
  }

  predicate Unclosed(w: string) { w != "" && w[0] == '\'' && '\'' !in w[1..] }

  /** A character that starts nothing. */
  predicate Stray(cl: CharClass, w: string) {
    |w| == 1 && !Punctuation(w[0]) && !cl.digit(w[0]) && !WordStart(cl, w[0]) && !cl.space(w[0])
  }

  ghost predicate TokenIs(cl: CharClass, w: string, t: Token) {
    || SymbolIs(w, t) || WordIs(cl, w, t) || IntIs(cl, w, t) || TextIs(w, t)
    || (t == Other && (Unclosed(w) || Stray(cl, w)))
  }

  /** The longest match: this spelling does not go on in the text that follows it. */
  predicate EndsBefore(cl: CharClass, w: string, rest: string)
    requires w != ""
  {
    rest != "" ==>
      var c := rest[0];
      && !Unclosed(w)
      && (WordStart(cl, w[0]) ==> !WordChar(cl, c))
      && (cl.digit(w[0]) ==> !cl.digit(c))
      && (w == "<" ==> c != '=' && c != '>')
      && (w == ">" || w == "!" ==> c != '=')
  }

  // ---------------------------------------------------------------------
  // One token
  // ---------------------------------------------------------------------

  lemma {:induction false} KeywordTable(u: string, t: Token)
    ensures KeywordIs(u, t) <==> Keyword(u) == Some(t)
  {
  }

  lemma {:induction false} WordMeans(cl: CharClass, w: string, t: Token)
    requires IsWord(cl, w)
    ensures WordIs(cl, w, t) <==> Word(cl, w) == t
  {
    var u := Upper(cl, w);
    KeywordTable(u, t);
    hide Keyword, KeywordIs, Upper;
    var k := Keyword(u);
    if k.Some? {
      KeywordTable(u, k.value);
      NeverName(u, t);
    } else {
      forall x ensures !KeywordIs(u, x) {
        KeywordTable(u, x);
      }
    }
  }

  lemma {:induction false} NeverName(u: string, t: Token)
    ensures t.Ident? ==> !KeywordIs(u, t)
  {
  }

  lemma {:induction false} SymbolSpelled(cl: CharClass, w: string, t: Token, rest: string)
    requires SymbolIs(w, t) && EndsBefore(cl, w, rest)
    ensures LexOne(cl, w + rest) == (t, |w|) && Punctuation(w[0])
  {
    var s := w + rest;
    assert s[0] == w[0];
    if |w| > 1 {
      assert s[1] == w[1];
    } else if rest != "" {
      assert s[1] == rest[0];
    }
  }

  lemma {:induction false} WordSpelled(cl: CharClass, w: string, t: Token, rest: string)
    requires Sane(cl) && WordIs(cl, w, t) && EndsBefore(cl, w, rest)
    ensures LexOne(cl, w + rest) == (t, |w|)
  {
    WordMeans(cl, w, t);
    hide Word, WordIs;
    var s := w + rest;
    assert s[0] == w[0] && s[..|w|] == w && WordChar(cl, s[0]);
    forall i | 0 <= i < |w| ensures WordChar(cl, s[i]) {
      assert s[i] == w[i];
    }
    assert rest != "" ==> s[|w|] == rest[0];
    SpanIs((c: char) => WordChar(cl, c), s, |w|);
  }

  lemma {:induction false} IntSpelled(cl: CharClass, w: string, t: Token, rest: string)
    requires Sane(cl) && IntIs(cl, w, t) && EndsBefore(cl, w, rest)
    ensures LexOne(cl, w + rest) == (t, |w|) && WordChar(cl, w[0])
  {
    var s := w + rest;
    assert s[0] == w[0] && s[..|w|] == w && WordChar(cl, s[0]);
    forall i | 0 <= i < |w| ensures cl.digit(s[i]) {
      assert s[i] == w[i];
    }
    assert rest != "" ==> s[|w|] == rest[0];
    SpanIs(cl.digit, s, |w|);
  }

  lemma {:induction false} TextSpelled(cl: CharClass, w: string, t: Token, rest: string)
    requires TextIs(w, t)
    ensures LexOne(cl, w + rest) == (t, |w|)
  {
    var s, x := w + rest, w[1..|w| - 1];
    var tail := s[1..];
    forall i | 0 <= i < |x| ensures Quote(tail[i]) {
      assert tail[i] == x[i];
    }
    assert tail[|x|] == w[|w| - 1];
    SpanIs(Quote, tail, |x|);
    assert s[0] == '\'' && s[1..1 + |x|] == x;
  }

  lemma {:induction false} UnclosedSpelled(cl: CharClass, w: string)
    requires Unclosed(w)
    ensures LexOne(cl, w) == (Other, |w|)
  {
    var tail := w[1..];
    forall i | 0 <= i < |tail| ensures Quote(tail[i]) {
      assert tail[i] in tail;
    }
    SpanIs(Quote, tail, |tail|);
  }

  /** A spelling that ends where it should is lexed to its token, whatever follows. */
  lemma {:induction false} OneSpelled(cl: CharClass, w: string, t: Token, rest: string)
    requires Sane(cl) && w != "" && TokenIs(cl, w, t) && EndsBefore(cl, w, rest)
    ensures LexOne(cl, w + rest) == (t, |w|) && !cl.space(w[0])
  {
    if SymbolIs(w, t) {
      SymbolSpelled(cl, w, t, rest);
    } else if WordIs(cl, w, t) {
      assert WordChar(cl, w[0]);
      WordSpelled(cl, w, t, rest);
    } else if IntIs(cl, w, t) {
      IntSpelled(cl, w, t, rest);
    } else if TextIs(w, t) {
      assert Punctuation(w[0]);
      TextSpelled(cl, w, t, rest);
    } else if Unclosed(w) {
      assert Punctuation(w[0]);
      assert w + rest == w;
      UnclosedSpelled(cl, w);
    } else {
      assert (w + rest)[0] == w[0];
    }
  }

  /** What LexOne takes is w and what it leaves is rest. */
  ghost predicate Takes(cl: CharClass, s: string, t: Token, w: string, rest: string) {
    s != "" && LexOne(cl, s) == (t, |w|) && s == w + rest
  }

  lemma {:induction false} TakenSymbol(cl: CharClass, s: string, t: Token, w: string, rest: string)
    requires Sane(cl) && Takes(cl, s, t, w, rest) && Punctuation(s[0]) && s[0] != '\''
    ensures SymbolIs(w, t) && EndsBefore(cl, w, rest)
  {
    assert w[0] == s[0] && !WordChar(cl, s[0]);
    if |w| == 1 {
      assert w == [s[0]];
      assert rest != "" ==> s[1] == rest[0];
    } else {
      assert w == [s[0], s[1]];
    }
  }

  lemma {:induction false} TakenText(cl: CharClass, s: string, t: Token, w: string, rest: string)
    requires Sane(cl) && Takes(cl, s, t, w, rest) && s[0] == '\''
    ensures (TextIs(w, t) || (t == Other && Unclosed(w))) && EndsBefore(cl, w, rest)
  {
    assert Punctuation(s[0]) && w[0] == s[0] && !WordChar(cl, s[0]);
    var tail := s[1..];
    var n := Span(Quote, tail);
    assert forall i :: 0 <= i < n ==> tail[i] != '\'';
    if n < |tail| {
      assert s[1..1 + n] == tail[..n] == w[1..|w| - 1] && w[|w| - 1] == tail[n];
      assert w[|w| - 1] in w[1..];
    } else {
      assert w[1..] == tail;
    }
  }

  lemma {:induction false} TakenWord(cl: CharClass, s: string, t: Token, w: string, rest: string)
    requires Sane(cl) && Takes(cl, s, t, w, rest) && !Punctuation(s[0]) && WordStart(cl, s[0])
    ensures WordIs(cl, w, t) && EndsBefore(cl, w, rest)
  {
    assert w == s[..|w|] && w[0] == s[0];
    assert forall i :: 0 <= i < |w| ==> w[i] == s[i];
    assert IsWord(cl, w);
    WordMeans(cl, w, t);
    hide WordIs, Word;
    assert rest != "" ==> s[|w|] == rest[0];
  }

  lemma {:induction false} TakenInt(cl: CharClass, s: string, t: Token, w: string, rest: string)
    requires Sane(cl) && Takes(cl, s, t, w, rest) && !Punctuation(s[0]) && cl.digit(s[0])
    ensures IntIs(cl, w, t) && EndsBefore(cl, w, rest)
  {
    assert w == s[..|w|] && w[0] == s[0];
    assert forall i :: 0 <= i < |w| ==> w[i] == s[i];
    assert rest != "" ==> s[|w|] == rest[0];
  }

  /** Whatever is lexed is a spelling of its token that ends where it should. */
  lemma {:induction false} OneIsSpelled(cl: CharClass, s: string, t: Token, w: string, rest: string)
    requires Sane(cl) && Takes(cl, s, t, w, rest) && !cl.space(s[0])
    ensures w != "" && TokenIs(cl, w, t) && EndsBefore(cl, w, rest)
  {
    assert w[0] == s[0];
    if s[0] == '\'' {
      TakenText(cl, s, t, w, rest);
    } else if Punctuation(s[0]) {
      TakenSymbol(cl, s, t, w, rest);
    } else if cl.digit(s[0]) {
      TakenInt(cl, s, t, w, rest);
    } else if WordStart(cl, s[0]) {
      TakenWord(cl, s, t, w, rest);
    }
  }

  // ---------------------------------------------------------------------
  // Whole texts
  // ---------------------------------------------------------------------

  /** Some space, which may be none, and the spelling of a token. */
  datatype Piece = Piece(gap: string, word: string, token: Token)

  function Text(ps: seq<Piece>, end: string): (s: string) {
    if ps == [] then end else ps[0].gap + ps[0].word + Text(ps[1..], end)
  }

  function Tokens(ps: seq<Piece>): (ts: seq<Token>) {
    if ps == [] then [] else [ps[0].token] + Tokens(ps[1..])
  }

  ghost predicate Blank(cl: CharClass, s: string) {
    forall i :: 0 <= i < |s| ==> cl.space(s[i])
  }

  /** Every piece spells its token and ends before what follows; tokens touch where that allows. */
  ghost predicate Spelled(cl: CharClass, ps: seq<Piece>, end: string) {
    if ps == [] then Blank(cl, end)
    else
      var (p, more) := (ps[0], ps[1..]);
      && Blank(cl, p.gap) && p.word != "" && TokenIs(cl, p.word, p.token)
      && EndsBefore(cl, p.word, Text(more, end)) && Spelled(cl, more, end)
  }

  lemma {:induction false} StartsWith(cl: CharClass, w: string, t: Token, rest: string)
    requires Sane(cl) && w != "" && TokenIs(cl, w, t) && EndsBefore(cl, w, rest)
    ensures Lex(cl, w + rest) == [t] + Lex(cl, rest)
  {
    hide TokenIs, EndsBefore, LexOne, Lex, Sane;
    OneSpelled(cl, w, t, rest);
    var s := w + rest;
    assert s[0] == w[0] && s[|w|..] == rest;
    LexStep(cl, s);
  }

  lemma {:induction false} SkipBlank(cl: CharClass, gap: string, s: string)
    requires Blank(cl, gap)
    ensures Lex(cl, gap + s) == Lex(cl, s)
  {
    SpacesSkipped(cl, gap + s, 0, |gap|);
    assert (gap + s)[0..] == gap + s && (gap + s)[|gap|..] == s;
  }

  lemma {:induction false} SpelledIsLexed(cl: CharClass, ps: seq<Piece>, end: string)
    requires Sane(cl) && Spelled(cl, ps, end)
    ensures Lex(cl, Text(ps, end)) == Tokens(ps)
  {
    hide TokenIs, EndsBefore, LexOne, Lex, Sane;
    if ps == [] {
      SkipBlank(cl, end, "");
      assert end + "" == end;
      LexStep(cl, "");
    } else {
      var p, rest := ps[0], Text(ps[1..], end);
      var s := p.word + rest;
      StartsWith(cl, p.word, p.token, rest);
      SpelledIsLexed(cl, ps[1..], end);
      SkipBlank(cl, p.gap, s);
      assert p.gap + p.word + rest == p.gap + s;
    }
  }

  lemma {:induction false} LexedIsSpelled(cl: CharClass, s: string) returns (ps: seq<Piece>, end: string)
    requires Sane(cl)
    ensures Spelled(cl, ps, end) && Text(ps, end) == s && Tokens(ps) == Lex(cl, s)
    decreases |s|
  {
    hide TokenIs, EndsBefore, LexOne, Sane;
    if s == "" {
      ps, end := [], s;
    } else if cl.space(s[0]) {
      ps, end := LexedIsSpelled(cl, s[1..]);
      if ps == [] {
        end := s;
      } else {
        var p := ps[0].(gap := [s[0]] + ps[0].gap);
        var more := ps[1..];
        ps := [p] + more;
        assert ps[1..] == more;
        assert s == [s[0]] + s[1..];
      }
    } else {
      var (t, n) := LexOne(cl, s);
      var w, rest := s[..n], s[n..];
      assert s == w + rest;
      OneIsSpelled(cl, s, t, w, rest);
      ps, end := LexedIsSpelled(cl, rest);
      var more := ps;
      ps := [Piece("", w, t)] + more;
      assert ps[1..] == more;
    }
  }

  /** Lexing is reading a spelling: the tokens of a text are those of every spelling it is, and
      every text is one. */
  lemma {:induction false} LexIffSpelled(cl: CharClass, s: string, ts: seq<Token>)
    requires Sane(cl)
    ensures Lex(cl, s) == ts <==> exists ps, end :: Spelled(cl, ps, end) && Text(ps, end) == s && Tokens(ps) == ts
  {
    if Lex(cl, s) == ts {
      var ps, end := LexedIsSpelled(cl, s);
    }
    forall ps, end | Spelled(cl, ps, end) && Text(ps, end) == s ensures Lex(cl, s) == Tokens(ps) {
      SpelledIsLexed(cl, ps, end);
    }
  }

  /** A comparison of a name with a number needs no spaces, in any of its spellings. */
  lemma {:induction false} ComparisonsTouch(cl: CharClass, w: string, o: string, t: Token, d: string)
    requires Sane(cl) && WordIs(cl, w, Ident(w)) && IntIs(cl, d, IntLit(d)) && SymbolIs(o, t) && Comparator(t).Some?
    ensures Lex(cl, w + o + d) == [Ident(w), t, IntLit(d)]
  {
    SymbolTouches(cl, w, o, t, d);
    LexStep(cl, "");
    hide *;
    StartsWith(cl, w, Ident(w), o + d);
    StartsWith(cl, o, t, d);
    StartsWith(cl, d, IntLit(d), "");
    Sequences.Assoc(w, o, d);
    NothingBehind(d);
    ThreeTokens(Ident(w), t, IntLit(d));
  }

  lemma {:induction false} NothingBehind(s: string)
    ensures s + "" == s
  {
  }

  lemma {:induction false} ThreeTokens(a: Token, b: Token, c: Token)
    ensures [a] + ([b] + ([c] + [])) == [a, b, c]
  {
  }

  lemma {:induction false} SymbolTouches(cl: CharClass, w: string, o: string, t: Token, d: string)
    requires Sane(cl) && WordIs(cl, w, Ident(w)) && IntIs(cl, d, IntLit(d)) && SymbolIs(o, t) && Comparator(t).Some?
    ensures w != "" && o != "" && d != ""
    ensures TokenIs(cl, w, Ident(w)) && TokenIs(cl, o, t) && TokenIs(cl, d, IntLit(d))
    ensures EndsBefore(cl, w, o + d) && EndsBefore(cl, o, d) && EndsBefore(cl, d, "")
  {
    assert WordChar(cl, d[0]) && (o + d)[0] == o[0] && Punctuation(o[0]);
    assert WordChar(cl, w[0]) && !WordChar(cl, o[0]);
  }

  /** SQL text is parsed as a statement if and only if it spells the tokens of that statement, in
      any spacing, case and spelling the lexer allows and with integers of the same value. */
  lemma {:induction false} TextParsesIff(cl: CharClass, s: string, stmt: Stmt)
    requires Sane(cl)
    ensures ParseStmt(Lex(cl, s)) == Some(stmt) <==>
              && WellFormed(stmt)
              && exists ps, end :: Spelled(cl, ps, end) && Text(ps, end) == s && SameAll(Tokens(ps), PrintStmt(stmt))
  {
    hide ParseStmt, WellFormed, SameAll, PrintStmt;
    LexIsWellLexed(cl, s);
    ParserNumerals.ParseIff(Lex(cl, s), stmt);
    if ParseStmt(Lex(cl, s)) == Some(stmt) {
      LexIffSpelled(cl, s, Lex(cl, s));
    }
    forall ps, end | Spelled(cl, ps, end) && Text(ps, end) == s ensures Lex(cl, s) == Tokens(ps) {
      SpelledIsLexed(cl, ps, end);
    }
  }

  // ---------------------------------------------------------------------
  // The bytes of a text
  // ---------------------------------------------------------------------

  predicate Continues(b: Byte) { 0x80 <= b < 0xC0 }

  /** The character that one to four bytes stand for: a first byte that tells how many there are,
      and six bits in each of the others (RFC 3629, section 3). */
  ghost predicate Encodes(b: seq<Byte>, c: int) {
    && b != []
    && (forall i :: 1 <= i < |b| ==> Continues(b[i]))
    && match |b|
       case 1 => b[0] < 0x80 && c == b[0]
       case 2 => 0xC2 <= b[0] < 0xE0 && c == b[0] as int * 0x40 + b[1] as int - 0x3080
       case 3 => 0xE0 <= b[0] < 0xF0 && c == b[0] as int * 0x1000 + b[1] as int * 0x40 + b[2] as int - 0xE_2080
       case 4 =>
         && 0xF0 <= b[0] < 0xF5
         && c == b[0] as int * 0x4_0000 + b[1] as int * 0x1000 + b[2] as int * 0x40 + b[3] as int - 0x3C8_2080
       case _ => false
  }

  lemma {:induction false} SixBits(c: int)
    requires 0 <= c
    ensures c == c / 0x40 * 0x40 + c % 0x40 && 0 <= c % 0x40 < 0x40
    ensures c / 0x1000 == c / 0x40 / 0x40 && c / 0x4_0000 == c / 0x1000 / 0x40
  {
  }

  lemma {:induction false} CharBytes(c: int)
    requires 0 <= c < 0x11_0000
    ensures Encodes(Utf8Char(c), c)
  {
    SixBits(c);
    SixBits(c / 0x40);
    SixBits(c / 0x1000);
  }

  lemma {:induction false} LastIsSame(a: seq<Byte>, x: int, b: seq<Byte>, y: int)
    requires 0 <= x < 0x11_0000 && 0 <= y < 0x11_0000 && a + Utf8Char(x) == b + Utf8Char(y)
    ensures a == b && x == y
  {
    var all, p, q := a + Utf8Char(x), Utf8Char(x), Utf8Char(y);
    CharBytes(x);
    CharBytes(y);
    hide Utf8Char;
    assert all == b + q;
    assert forall i :: 0 <= i < |p| ==> all[|a| + i] == p[i];
    assert forall i :: 0 <= i < |q| ==> all[|b| + i] == q[i];
    assert !Continues(all[|a|]) && !Continues(all[|b|]);
    assert |p| == |q|;
    assert p == all[|a|..] == q;
    assert a == all[..|a|] == b;
  }

  /** Different texts are different bytes. */
  lemma {:induction false} TextsAreDistinct(a: string, b: string)
    ensures Utf8(a) == Utf8(b) <==> a == b
  {
    hide Utf8Char;
    if a != [] && b != [] {
      var x, y := a[|a| - 1] as int, b[|b| - 1] as int;
      if Utf8(a) == Utf8(b) {
        LastIsSame(Utf8(a[..|a| - 1]), x, Utf8(b[..|b| - 1]), y);
        TextsAreDistinct(a[..|a| - 1], b[..|b| - 1]);
        assert a == a[..|a| - 1] + [a[|a| - 1]];
      }
    } else if a != [] {
      CharBytes(a[|a| - 1] as int);
    } else if b != [] {
      CharBytes(b[|b| - 1] as int);
    }
  }

  /** The bytes of an ASCII text are its characters. */
  lemma {:induction false} AsciiBytes(s: string)
    requires forall i :: 0 <= i < |s| ==> (s[i] as int) < 0x80
    ensures |Utf8(s)| == |s| && forall i :: 0 <= i < |s| ==> Utf8(s)[i] == s[i] as int
  {
    if s != [] {
      AsciiBytes(s[..|s| - 1]);
    }
  }
}
