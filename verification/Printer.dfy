/** Printing expressions, and reading the print back. */
module Printer {
  import opened Values
  import opened Tokens
  import opened LexerLaws
  import opened Ast
  import opened Grammar

  // ---------------------------------------------------------------------- printable

  /** A name that the lexer reads as an identifier. */
  predicate IsPlainName(name: string)
  {
    WellFormed(Token(IDENTIFIER, name))
  }

  predicate IsKeywordColumn(name: string)
  {
    name == "date" || name == "time" || name == "email"
  }

  predicate QuoteFree(s: string)
  {
    SpanString(s) == |s|
  }

  /** An identifier or literal with the fields the parser gives it. */
  predicate PrintableAtom(rules: LiteralRules, e: Expr)
  {
    match e
    case Identifier(table, name) =>
      if table != "" then IsPlainName(table) && IsPlainName(name) else IsPlainName(name) || IsKeywordColumn(name)
    case Literal(text, value, kind) => PrintableLiteral(rules, text, value, kind)
    case _ => false
  }

  predicate PrintableLiteral(rules: LiteralRules, text: string, value: Value, kind: LiteralKind)
  {
    match kind
    case LiteralString => value == Str(text) && QuoteFree(text)
    case LiteralInt => WellFormed(Token(NUMBER, text)) && value.Int? && rules.atoi(text) == Some(value.n)
    case LiteralFloat =>
      && WellFormed(Token(NUMBER, text)) && value.Float?
      && rules.atoi(text).None? && rules.parseFloat(text) == Some(value.r)
    case LiteralBool => (text == "true" && value == Bool(true)) || (text == "false" && value == Bool(false))
    case LiteralDate => value.Str? && QuoteFree(value.s) && rules.date(value.s) && text == "DATE '" + value.s + "'"
    case LiteralTime => value.Str? && QuoteFree(value.s) && rules.time(value.s) && text == "TIME '" + value.s + "'"
    case LiteralEmail => value.Str? && QuoteFree(value.s) && rules.email(value.s) && text == "EMAIL '" + value.s + "'"
  }

  /** The token an operator is read as. */
  function OperatorType(op: string): (t: TokenType)
  {
    if |op| == 1 then Single(op[0]) else if |op| == 2 then Double(op[0], op[1]) else ILLEGAL
  }

  predicate IsLogicalWord(op: string)
  {
    WellFormed(Token(LookupIdent(op), op)) && (LookupIdent(op) == Word(AND) || LookupIdent(op) == Word(OR))
  }

  predicate Printable(rules: LiteralRules, e: Expr)
  {
    match e
    case Binary(l, op, r) => PrintableAtom(rules, l) && PrintableAtom(rules, r) && IsComparison(OperatorType(op))
    case Logical(l, op, r) => Printable(rules, l) && Printable(rules, r) && IsLogicalWord(op)
    case _ => PrintableAtom(rules, e)
  }

  // --------------------------------------------------------------------- token printers

  const OPEN: Token := Token(PAREN_OPEN, "(")
  const CLOSE: Token := Token(PAREN_CLOSE, ")")
  const DOT_TOKEN: Token := Token(DOT, ".")

  function KeywordFor(kind: LiteralKind): (k: Token)
  {
    match kind
    case LiteralTime => Token(Word(TIME), "TIME")
    case LiteralEmail => Token(Word(EMAIL), "EMAIL")
    case _ => Token(Word(DATE), "DATE")
  }

  function AtomTreeOf(e: Expr): (a: AtomTree)
  {
    match e
    case Identifier(table, name) =>
      if table != "" then TwoPart(Token(IDENTIFIER, table), DOT_TOKEN, Token(IDENTIFIER, name))
      else if LookupIdent(name) == IDENTIFIER then Plain(Token(IDENTIFIER, name))
      else KeywordColumn(Token(LookupIdent(name), name))
    case Literal(text, value, kind) =>
      (match kind
       case LiteralString => Constant(Token(STRING, text))
       case LiteralInt => Constant(Token(NUMBER, text))
       case LiteralFloat => Constant(Token(NUMBER, text))
       case LiteralBool => Constant(Token(if value == Bool(true) then Word(TRUE) else Word(FALSE), text))
       case _ => Typed(KeywordFor(kind), Token(STRING, if value.Str? then value.s else text)))
    case _ => Plain(Token(ILLEGAL, ""))
  }

  predicate IsOr(e: Expr)
  {
    e.Logical? && LookupIdent(e.op) == Word(OR)
  }

  function Chain(l: Tree, op: string, r: Tree): (t: Tree)
  {
    var tok := Token(LookupIdent(op), op);
    if tok.typ == Word(OR) then Or(l, tok, r) else And(l, tok, r)
  }

  /** Parentheses around every comparison and every logical operation. */
  function FullTree(e: Expr): (t: Tree)
  {
    match e
    case Binary(l, op, r) => Paren(OPEN, Compare(AtomTreeOf(l), Token(OperatorType(op), op), AtomTreeOf(r)), CLOSE)
    case Logical(l, op, r) => Paren(OPEN, Chain(FullTree(l), op, FullTree(r)), CLOSE)
    case _ => Atom(AtomTreeOf(e))
  }

  /** Parentheses only where precedence or associativity needs them. */
  function MinTree(e: Expr): (t: Tree)
  {
    match e
    case Binary(l, op, r) => Compare(AtomTreeOf(l), Token(OperatorType(op), op), AtomTreeOf(r))
    case Logical(l, op, r) =>
      var lt := if !IsOr(e) && IsOr(l) then Paren(OPEN, MinTree(l), CLOSE) else MinTree(l);
      var rt := if r.Logical? && (!IsOr(e) || IsOr(r)) then Paren(OPEN, MinTree(r), CLOSE) else MinTree(r);
      Chain(lt, op, rt)
    case _ => Atom(AtomTreeOf(e))
  }

  predicate AllWellFormed(ts: seq<Token>)
  {
    forall i :: 0 <= i < |ts| ==> WellFormed(ts[i])
  }

  lemma {:induction false} UpperFixed(word: string)
    requires forall i :: 0 <= i < |word| ==> 'A' <= word[i] <= 'Z'
    ensures Upper(word) == word
  {
    if word != [] {
      UpperFixed(word[1..]);
    }
  }

  lemma UpperKeywords()
    ensures LookupIdent("DATE") == Word(DATE) && LookupIdent("TIME") == Word(TIME) &&
      LookupIdent("EMAIL") == Word(EMAIL)
  {
    hide Upper;
    UpperFixed("DATE");
    UpperFixed("TIME");
    UpperFixed("EMAIL");
    assert KeywordOf("DATE") == Some(DATE);
    assert KeywordOf("TIME") == Some(TIME);
    assert KeywordOf("EMAIL") == Some(EMAIL);
  }

  lemma LowerDate()
    ensures Upper("date") == "DATE" && ToLower("date") == "date"
  {
  }

  lemma LowerTime()
    ensures Upper("time") == "TIME" && ToLower("time") == "time"
  {
  }

  lemma LowerEmail()
    ensures Upper("email") == "EMAIL" && ToLower("email") == "email"
  {
  }

  lemma LowerKeywords()
    ensures LookupIdent("date") == Word(DATE) && LookupIdent("time") == Word(TIME) &&
      LookupIdent("email") == Word(EMAIL)
    ensures ToLower("date") == "date" && ToLower("time") == "time" && ToLower("email") == "email"
  {
    hide Upper, ToLower;
    LowerDate();
    LowerTime();
    LowerEmail();
    assert KeywordOf("DATE") == Some(DATE);
    assert KeywordOf("TIME") == Some(TIME);
    assert KeywordOf("EMAIL") == Some(EMAIL);
  }

  lemma TruthKeywords()
    ensures LookupIdent("true") == Word(TRUE) && LookupIdent("false") == Word(FALSE)
  {
    assert Upper("true") == "TRUE" && Upper("false") == "FALSE";
  }

  lemma LettersWellFormed(word: string)
    requires word != [] && forall i :: 0 <= i < |word| ==> IsLetter(word[i])
    ensures LookupIdent(word).Word? ==> WellFormed(Token(LookupIdent(word), word))
  {
    hide LookupIdent;
    LettersSpan(word);
  }

  lemma {:induction false} LettersSpan(word: string)
    requires forall i :: 0 <= i < |word| ==> IsLetter(word[i])
    ensures SpanWord(word) == |word|
  {
    if word != [] {
      LettersSpan(word[1..]);
    }
  }

  lemma TypedWordPrinted(kind: LiteralKind)
    requires kind == LiteralDate || kind == LiteralTime || kind == LiteralEmail
    ensures WellFormed(KeywordFor(kind))
    ensures KeywordFor(kind).typ ==
      if kind == LiteralDate then Word(DATE) else if kind == LiteralTime then Word(TIME) else Word(EMAIL)
  {
    UpperKeywords();
    hide LookupIdent;
    LettersWellFormed(KeywordFor(kind).literal);
  }

  lemma IdentifierPrinted(rules: LiteralRules, e: Expr)
    requires e.Identifier? && PrintableAtom(rules, e)
    ensures AtomOk(rules, AtomTreeOf(e)) && AtomExpr(rules, AtomTreeOf(e)) == e
    ensures AllWellFormed(AtomTokens(AtomTreeOf(e)))
  {
    hide LookupIdent, ToLower, IsKeywordColumn, SpanWord;
    if e.table == "" {
      if IsKeywordColumn(e.name) {
        KeywordColumnPrinted(e.name);
      }
    } else {
      hide IsPlainName, WellFormed;
      DotWellFormed();
      QualifiedNames(rules, e);
    }
  }

  lemma QualifiedNames(rules: LiteralRules, e: Expr)
    requires e.Identifier? && e.table != "" && PrintableAtom(rules, e)
    ensures WellFormed(Token(IDENTIFIER, e.table)) && WellFormed(Token(IDENTIFIER, e.name))
  {
  }

  lemma DotWellFormed()
    ensures WellFormed(DOT_TOKEN)
  {
  }

  lemma KeywordColumnPrinted(name: string)
    requires IsKeywordColumn(name)
    ensures IsTypedKeyword(LookupIdent(name)) && ToLower(name) == name
    ensures WellFormed(Token(LookupIdent(name), name))
  {
    hide LookupIdent, ToLower;
    LowerKeywords();
    LettersWellFormed(name);
  }

  predicate IsTypedKind(kind: LiteralKind)
  {
    kind == LiteralDate || kind == LiteralTime || kind == LiteralEmail
  }

  lemma TypedPrinted(rules: LiteralRules, e: Expr)
    requires e.Literal? && IsTypedKind(e.kind) && PrintableAtom(rules, e)
    ensures AtomOk(rules, AtomTreeOf(e)) && AtomExpr(rules, AtomTreeOf(e)) == e
    ensures AllWellFormed(AtomTokens(AtomTreeOf(e)))
  {
    hide LookupIdent, KeywordFor, SpanWord, SpanNumber;
    TypedWordPrinted(e.kind);
    assert AtomTreeOf(e) == Typed(KeywordFor(e.kind), Token(STRING, e.value.s));
  }

  lemma ConstantPrinted(rules: LiteralRules, e: Expr)
    requires e.Literal? && !IsTypedKind(e.kind) && PrintableAtom(rules, e)
    ensures AtomOk(rules, AtomTreeOf(e)) && AtomExpr(rules, AtomTreeOf(e)) == e
    ensures AllWellFormed(AtomTokens(AtomTreeOf(e)))
  {
    TruthKeywords();
    hide LookupIdent, SpanWord, SpanString, SpanNumber;
    if e.kind == LiteralBool {
      hide WellFormed;
      LettersWellFormed(e.text);
    }
  }

  /** A printed atom is a grammar atom for the same expression, spelled in well-formed tokens. */
  lemma AtomPrinted(rules: LiteralRules, e: Expr)
    requires PrintableAtom(rules, e)
    ensures AtomOk(rules, AtomTreeOf(e)) && AtomExpr(rules, AtomTreeOf(e)) == e
    ensures AllWellFormed(AtomTokens(AtomTreeOf(e)))
  {
    hide AtomOk, AtomExpr, AtomTreeOf, AtomTokens, AllWellFormed;
    if e.Identifier? {
      IdentifierPrinted(rules, e);
    } else if IsTypedKind(e.kind) {
      TypedPrinted(rules, e);
    } else {
      ConstantPrinted(rules, e);
    }
  }

  lemma OperatorPrinted(op: string)
    requires IsComparison(OperatorType(op))
    ensures WellFormed(Token(OperatorType(op), op))
  {
  }

  /** The fully parenthesised tree derives the expression. */
  lemma {:induction false} FullPrinted(rules: LiteralRules, e: Expr)
    requires Printable(rules, e)
    ensures OrOk(rules, FullTree(e)) && CompareOk(rules, FullTree(e)) && TreeExpr(rules, FullTree(e)) == e
    ensures AllWellFormed(TreeTokens(FullTree(e)))
  {
    hide PrintableAtom, AtomTreeOf, AtomOk, AtomExpr, WellFormed, LookupIdent, OperatorType;
    match e
    case Binary(l, op, r) =>
      AtomPrinted(rules, l);
      AtomPrinted(rules, r);
      OperatorPrinted(op);
      ParensWellFormed();
      var _ := ParenTree(rules, OPEN, FullTree(e).inner, CLOSE);
    case Logical(l, op, r) =>
      FullPrinted(rules, l);
      FullPrinted(rules, r);
      ParensWellFormed();
      ChainPrinted(rules, FullTree(l), op, FullTree(r));
      var _ := ParenTree(rules, OPEN, FullTree(e).inner, CLOSE);
    case _ =>
      AtomPrinted(rules, e);
      assert CompareOk(rules, FullTree(e)) && AndOk(rules, FullTree(e));
  }

  lemma ParensWellFormed()
    ensures WellFormed(OPEN) && WellFormed(CLOSE)
  {
  }

  lemma ChainPrinted(rules: LiteralRules, l: Tree, op: string, r: Tree)
    requires IsLogicalWord(op)
    requires OrOk(rules, l) && OrOk(rules, r)
    requires if LookupIdent(op) == Word(OR) then AndOk(rules, r) else AndOk(rules, l) && CompareOk(rules, r)
    ensures OrOk(rules, Chain(l, op, r))
    ensures LookupIdent(op) != Word(OR) ==> AndOk(rules, Chain(l, op, r))
    ensures TreeExpr(rules, Chain(l, op, r)) == Logical(TreeExpr(rules, l), op, TreeExpr(rules, r))
    ensures TreeTokens(Chain(l, op, r)) == TreeTokens(l) + [Token(LookupIdent(op), op)] + TreeTokens(r)
    ensures WellFormed(Token(LookupIdent(op), op))
  {
    hide LookupIdent, WellFormed;
  }

  /** The minimally parenthesised tree derives the expression too. */
  lemma {:induction false} MinPrinted(rules: LiteralRules, e: Expr)
    requires Printable(rules, e)
    ensures OrOk(rules, MinTree(e)) && TreeExpr(rules, MinTree(e)) == e
    ensures !IsOr(e) ==> AndOk(rules, MinTree(e))
    ensures !e.Logical? ==> CompareOk(rules, MinTree(e))
    ensures AllWellFormed(TreeTokens(MinTree(e)))
  {
    hide PrintableAtom, AtomTreeOf, AtomOk, AtomExpr, WellFormed, LookupIdent, OperatorType;
    match e
    case Binary(l, op, r) =>
      AtomPrinted(rules, l);
      AtomPrinted(rules, r);
      OperatorPrinted(op);
      assert CompareOk(rules, MinTree(e)) && AndOk(rules, MinTree(e));
    case Logical(l, op, r) =>
      MinPrinted(rules, l);
      MinPrinted(rules, r);
      ParensWellFormed();
      var lt, rt := MinOperands(rules, e);
      ChainPrinted(rules, lt, op, rt);
    case _ =>
      AtomPrinted(rules, e);
      assert CompareOk(rules, MinTree(e)) && AndOk(rules, MinTree(e));
  }

  /** The operands, in parentheses where the grammar asks for them. */
  lemma MinOperands(rules: LiteralRules, e: Expr) returns (lt: Tree, rt: Tree)
    requires e.Logical?
    requires OrOk(rules, MinTree(e.left)) && OrOk(rules, MinTree(e.right))
    requires TreeExpr(rules, MinTree(e.left)) == e.left && TreeExpr(rules, MinTree(e.right)) == e.right
    requires !IsOr(e.left) ==> AndOk(rules, MinTree(e.left))
    requires !IsOr(e.right) ==> AndOk(rules, MinTree(e.right))
    requires !e.right.Logical? ==> CompareOk(rules, MinTree(e.right))
    requires AllWellFormed(TreeTokens(MinTree(e.left))) && AllWellFormed(TreeTokens(MinTree(e.right)))
    ensures MinTree(e) == Chain(lt, e.op, rt)
    ensures OrOk(rules, lt) && OrOk(rules, rt) && TreeExpr(rules, lt) == e.left && TreeExpr(rules, rt) == e.right
    ensures if LookupIdent(e.op) == Word(OR) then AndOk(rules, rt) else AndOk(rules, lt) && CompareOk(rules, rt)
    ensures AllWellFormed(TreeTokens(lt)) && AllWellFormed(TreeTokens(rt))
  {
    hide LookupIdent, WellFormed, Chain;
    ParensWellFormed();
    var l, r := e.left, e.right;
    lt, rt := MinTree(l), MinTree(r);
    if !IsOr(e) && IsOr(l) {
      lt := ParenTree(rules, OPEN, MinTree(l), CLOSE);
    }
    if r.Logical? && (!IsOr(e) || IsOr(r)) {
      rt := ParenTree(rules, OPEN, MinTree(r), CLOSE);
    }
  }

  // ------------------------------------------------------------------------ round trips

  /** Parsing the tokens of an expression as the printer parenthesises it, or with as few
      parentheses as possible, gives back the expression and leaves the tokens that follow. */
  lemma PrintedParses(rules: LiteralRules, e: Expr, rest: seq<Token>)
    requires Printable(rules, e) && Closing(Head(rest).typ)
    ensures ParseOr(rules, TreeTokens(FullTree(e)) + rest) == Ok((e, rest))
    ensures ParseOr(rules, TreeTokens(MinTree(e)) + rest) == Ok((e, rest))
  {
    FullPrinted(rules, e);
    MinPrinted(rules, e);
    WordStops(FullTree(e), Head(rest).typ);
    WordStops(MinTree(e), Head(rest).typ);
    OrComplete(rules, FullTree(e), rest);
    OrComplete(rules, MinTree(e), rest);
  }

  /** The same through the lexer, with the tokens written out with single spaces. */
  lemma PrintedTextParses(rules: LiteralRules, e: Expr)
    requires Printable(rules, e)
    ensures var toks := Tokenize(Spaced(TreeTokens(MinTree(e))));
      toks.Some? && ParseOr(rules, toks.value) == Ok((e, []))
  {
    MinPrinted(rules, e);
    SpacedRoundTrip(TreeTokens(MinTree(e)));
    PrintedParses(rules, e, []);
    assert TreeTokens(MinTree(e)) + [] == TreeTokens(MinTree(e));
  }

  lemma {:induction false} ParsedAtomPrintable(rules: LiteralRules, a: AtomTree)
    requires AtomOk(rules, a) && AllWellFormed(AtomTokens(a))
    ensures PrintableAtom(rules, AtomExpr(rules, a))
  {
    hide KeywordOf, Upper;
    match a
    case Plain(w) => assert WellFormed(AtomTokens(a)[0]);
    case TwoPart(t, d, c) => assert WellFormed(AtomTokens(a)[0]) && WellFormed(AtomTokens(a)[2]);
    case KeywordColumn(w) =>
      assert WellFormed(AtomTokens(a)[0]);
      LowerKeyword(w.literal);
    case Typed(w, s) => assert WellFormed(AtomTokens(a)[1]);
    case Constant(t) => assert WellFormed(AtomTokens(a)[0]);
  }

  /** Lower-casing a spelling of DATE, TIME or EMAIL. */
  lemma LowerKeyword(word: string)
    requires IsTypedKeyword(LookupIdent(word))
    ensures IsKeywordColumn(ToLower(word))
  {
    hide KeywordOf, Upper, ToLower;
    KeywordInverse(Upper(word));
    LowerUpper(word);
    LowerCapitals();
  }

  lemma LowerCapitals()
    ensures ToLower("DATE") == "date" && ToLower("TIME") == "time" && ToLower("EMAIL") == "email"
  {
  }

  lemma KeywordInverse(w: string)
    ensures KeywordOf(w) == Some(DATE) ==> w == "DATE"
    ensures KeywordOf(w) == Some(TIME) ==> w == "TIME"
    ensures KeywordOf(w) == Some(EMAIL) ==> w == "EMAIL"
    ensures KeywordOf(w) == Some(AND) ==> w == "AND"
    ensures KeywordOf(w) == Some(OR) ==> w == "OR"
  {
  }

  lemma {:induction false} LowerUpper(s: string)
    ensures ToLower(Upper(s)) == ToLower(s)
  {
    if s != [] {
      LowerUpper(s[1..]);
    }
  }

  /** Every expression the parser makes of lexed tokens is printable, so printing and parsing
      again changes nothing. */
  lemma {:induction false} ParsedPrintable(rules: LiteralRules, t: Tree)
    requires OrOk(rules, t) && AllWellFormed(TreeTokens(t))
    ensures Printable(rules, TreeExpr(rules, t))
  {
    hide WellFormed, AtomOk, AtomExpr, LookupIdent, PrintableAtom;
    var ts := TreeTokens(t);
    assert t.Atom? || t.Compare? || t.Paren? ==> AndOk(rules, t) && CompareOk(rules, t);
    match t
    case Atom(a) =>
      ParsedAtomPrintable(rules, a);
      AtomIsAtom(rules, a);
    case Compare(l, op, r) =>
      SplitWellFormed(AtomTokens(l), op, AtomTokens(r));
      ParsedAtomPrintable(rules, l);
      ParsedAtomPrintable(rules, r);
      ComparisonOperator(op);
    case Paren(o, inner, c) =>
      assert ts == [] + [o] + (TreeTokens(inner) + [c]) && TreeTokens(inner) + [c] == TreeTokens(inner) + [c] + [];
      SplitWellFormed([], o, TreeTokens(inner) + [c]);
      SplitWellFormed(TreeTokens(inner), c, []);
      ParsedPrintable(rules, inner);
    case And(l, op, r) =>
      SplitWellFormed(TreeTokens(l), op, TreeTokens(r));
      assert AndOk(rules, t) && AndOk(rules, r);
      ParsedPrintable(rules, l);
      ParsedPrintable(rules, r);
      LogicalOperator(op);
    case Or(l, op, r) =>
      SplitWellFormed(TreeTokens(l), op, TreeTokens(r));
      ParsedPrintable(rules, l);
      ParsedPrintable(rules, r);
      LogicalOperator(op);
  }

  lemma SplitWellFormed(a: seq<Token>, tok: Token, b: seq<Token>)
    requires AllWellFormed(a + [tok] + b)
    ensures AllWellFormed(a) && WellFormed(tok) && AllWellFormed(b)
  {
    hide WellFormed;
    var s := a + [tok] + b;
    assert forall i :: 0 <= i < |a| ==> a[i] == s[i];
    assert s[|a|] == tok;
    assert forall i :: 0 <= i < |b| ==> b[i] == s[|a| + 1 + i];
  }

  lemma AtomIsAtom(rules: LiteralRules, a: AtomTree)
    requires AtomOk(rules, a)
    ensures AtomExpr(rules, a).Identifier? || AtomExpr(rules, a).Literal?
  {
  }

  lemma ComparisonOperator(op: Token)
    requires WellFormed(op) && IsComparison(op.typ)
    ensures OperatorType(op.literal) == op.typ
  {
  }

  lemma LogicalOperator(op: Token)
    requires WellFormed(op) && (op.typ == Word(AND) || op.typ == Word(OR))
    ensures IsLogicalWord(op.literal) && LookupIdent(op.literal) == op.typ
  {
    hide KeywordOf, Upper;
  }

  /** Whatever text parses to an expression, the print of that expression parses to it again. */
  lemma PrintStable(rules: LiteralRules, text: string, e: Expr, rest: seq<Token>)
    requires Tokenize(text).Some? && ParseOr(rules, Tokenize(text).value) == Ok((e, rest))
    ensures Printable(rules, e)
    ensures Tokenize(Spaced(TreeTokens(MinTree(e)))).Some?
    ensures ParseOr(rules, Tokenize(Spaced(TreeTokens(MinTree(e)))).value) == Ok((e, []))
  {
    var toks := Tokenize(text).value;
    var t := OrSound(rules, toks);
    TokensWellFormed(text);
    assert forall i :: 0 <= i < |TreeTokens(t)| ==> TreeTokens(t)[i] == toks[i];
    ParsedPrintable(rules, t);
    PrintedTextParses(rules, e);
  }

  lemma {:induction false} TokensWellFormed(s: string)
    requires Tokenize(s).Some?
    ensures AllWellFormed(Tokenize(s).value)
    decreases |s|
  {
    hide ScanToken, WellFormed;
    var (tok, rest) := NextToken(s);
    if tok.typ != EOF {
      TokensWellFormed(rest);
      ScanSound(s[SpanSpaces(s)..]);
    }
  }
}
