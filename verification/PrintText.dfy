/** The text that String() prints, and when it parses to the tree it was printed from. */
module PrintText {
  import opened Values
  import opened Tokens
  import opened LexerLaws
  import opened Ast
  import opened Grammar
  import opened Printer

  function Text(e: Expr): (s: string)
  {
    match e
    case Identifier(table, name) => if table != "" then table + "." + name else name
    case Literal(text, _, _) => text
    case Binary(l, op, r) => "(" + Text(l) + " " + op + " " + Text(r) + ")"
    case Logical(l, op, r) => "(" + Text(l) + " " + op + " " + Text(r) + ")"
  }

  /** Literals that the parser takes from a quoted string. */
  function CountStrings(e: Expr): (n: nat)
  {
    match e
    case Literal(_, _, kind) => if kind == LiteralString then 1 else 0
    case Binary(l, _, r) => CountStrings(l) + CountStrings(r)
    case Logical(l, _, r) => CountStrings(l) + CountStrings(r)
    case _ => 0
  }

  function CountTyped(e: Expr): (n: nat)
  {
    match e
    case Literal(_, _, kind) => if IsTypedKind(kind) then 1 else 0
    case Binary(l, _, r) => CountTyped(l) + CountTyped(r)
    case Logical(l, _, r) => CountTyped(l) + CountTyped(r)
    case _ => 0
  }

  // -------------------------------------------------------------- lexing printed text

  /** Text in front of which every token ends. */
  predicate TextEnds(rest: string)
  {
    rest == [] || rest[0] == ' ' || rest[0] == ')' || rest[0] == ',' || rest[0] == ';'
  }

  function Then(ts: seq<Token>, more: Option<seq<Token>>): (r: Option<seq<Token>>)
  {
    if more.None? then None else Some(ts + more.value)
  }

  lemma ThenThen(a: seq<Token>, b: seq<Token>, more: Option<seq<Token>>)
    ensures Then(a, Then(b, more)) == Then(a + b, more)
  {
    if more.Some? {
      assert a + (b + more.value) == a + b + more.value;
    }
  }

  lemma EndsHere(tok: Token, rest: string)
    requires WellFormed(tok) && TextEnds(rest)
    ensures Boundary(tok, rest)
  {
  }

  /** One token of the text, after an optional space. */
  lemma TextStep(gap: string, tok: Token, rest: string)
    requires (gap == "" || gap == " ") && WellFormed(tok) && Boundary(tok, rest)
    ensures Tokenize(gap + Spelling(tok) + rest) == Then([tok], Tokenize(rest))
  {
    hide Tokenize, WellFormed, Boundary, Spelling;
    TokenizeStep(gap, tok, rest);
  }

  /** A single token in front of text that ends it. */
  lemma TokenText(tok: Token, rest: string)
    requires WellFormed(tok) && TextEnds(rest)
    ensures Tokenize(Spelling(tok) + rest) == Then([tok], Tokenize(rest))
  {
    hide Tokenize, WellFormed, Spelling, TextEnds;
    EndsHere(tok, rest);
    assert "" + Spelling(tok) + rest == Spelling(tok) + rest;
    TextStep("", tok, rest);
  }

  lemma DottedText(table: string, name: string, rest: string)
    requires IsPlainName(table) && IsPlainName(name) && TextEnds(rest)
    ensures Tokenize(table + "." + name + rest) ==
      Then([Token(IDENTIFIER, table), DOT_TOKEN, Token(IDENTIFIER, name)], Tokenize(rest))
  {
    var t, n := Token(IDENTIFIER, table), Token(IDENTIFIER, name);
    DotToken(table, name + rest);
    hide Tokenize, WellFormed, Boundary, TextEnds;
    TokenText(n, rest);
    var s2 := "." + (name + rest);
    assert s2 == "" + Spelling(DOT_TOKEN) + (name + rest);
    TextStep("", DOT_TOKEN, name + rest);
    assert table + "." + name + rest == "" + Spelling(t) + s2;
    TextStep("", t, s2);
    ThenThen([DOT_TOKEN], [n], Tokenize(rest));
    ThenThen([t], [DOT_TOKEN] + [n], Tokenize(rest));
    assert [t] + ([DOT_TOKEN] + [n]) == [t, DOT_TOKEN, n];
  }

  lemma DotToken(table: string, after: string)
    ensures WellFormed(DOT_TOKEN) && Boundary(DOT_TOKEN, after)
    ensures Boundary(Token(IDENTIFIER, table), "." + after)
  {
  }

  lemma IdentifierText(rules: LiteralRules, e: Expr, rest: string)
    requires e.Identifier? && PrintableAtom(rules, e) && TextEnds(rest)
    ensures Tokenize(Text(e) + rest) == Then(AtomTokens(AtomTreeOf(e)), Tokenize(rest))
  {
    IdentifierPrinted(rules, e);
    hide Tokenize, LookupIdent, WellFormed, TextEnds;
    if e.table != "" {
      DottedText(e.table, e.name, rest);
    } else {
      var ts := AtomTokens(AtomTreeOf(e));
      assert WellFormed(ts[0]) && ts == [ts[0]];
      TokenText(ts[0], rest);
    }
  }

  lemma TypedText(rules: LiteralRules, e: Expr, rest: string)
    requires e.Literal? && IsTypedKind(e.kind) && PrintableAtom(rules, e)
    ensures Tokenize(Text(e) + rest) == Then(AtomTokens(AtomTreeOf(e)), Tokenize(rest))
  {
    hide LookupIdent, Tokenize, SpanWord, SpanString, SpanNumber;
    TypedWordPrinted(e.kind);
    var word, str := KeywordFor(e.kind), Token(STRING, e.value.s);
    assert e.text == word.literal + " '" + e.value.s + "'";
    assert AtomTokens(AtomTreeOf(e)) == [word, str] && WellFormed(str) && word.typ.Word?;
    WordThenString(word, str, rest);
    assert e.text + rest == word.literal + " '" + str.literal + "'" + rest;
  }

  lemma WordThenString(word: Token, str: Token, rest: string)
    requires WellFormed(word) && word.typ.Word? && WellFormed(str) && str.typ == STRING
    ensures Tokenize(word.literal + " '" + str.literal + "'" + rest) == Then([word, str], Tokenize(rest))
  {
    assert Boundary(str, rest) && Spelling(word) == word.literal && Spelling(str) == "'" + str.literal + "'";
    hide Tokenize, WellFormed, Boundary, Spelling;
    var after := " " + Spelling(str) + rest;
    assert word.literal + " '" + str.literal + "'" + rest == "" + Spelling(word) + after;
    SpaceEnds(word, after);
    TextStep("", word, after);
    TextStep(" ", str, rest);
    ThenThen([word], [str], Tokenize(rest));
    assert [word] + [str] == [word, str];
  }

  lemma ConstantText(rules: LiteralRules, e: Expr, rest: string)
    requires e.Literal? && !IsTypedKind(e.kind) && PrintableAtom(rules, e) && CountStrings(e) == 0 && TextEnds(rest)
    ensures Tokenize(Text(e) + rest) == Then(AtomTokens(AtomTreeOf(e)), Tokenize(rest))
  {
    hide Tokenize, LookupIdent, WellFormed, TextEnds, PrintableAtom;
    hide PrintableLiteral, AtomOk, AtomExpr, AtomTreeOf, AtomTokens;
    ConstantPrinted(rules, e);
    ConstantToken(e);
    var tok := AtomTokens(AtomTreeOf(e))[0];
    assert WellFormed(tok) && AtomTokens(AtomTreeOf(e)) == [tok];
    TokenText(tok, rest);
  }

  lemma ConstantToken(e: Expr)
    requires e.Literal? && !IsTypedKind(e.kind) && CountStrings(e) == 0
    ensures |AtomTokens(AtomTreeOf(e))| == 1 && Spelling(AtomTokens(AtomTreeOf(e))[0]) == e.text
  {
  }

  lemma AtomText(rules: LiteralRules, e: Expr, rest: string)
    requires PrintableAtom(rules, e) && CountStrings(e) == 0 && TextEnds(rest)
    ensures Tokenize(Text(e) + rest) == Then(AtomTokens(AtomTreeOf(e)), Tokenize(rest))
  {
    hide Tokenize, Text, AtomTreeOf, AtomTokens, TextEnds;
    if e.Identifier? {
      IdentifierText(rules, e, rest);
    } else if IsTypedKind(e.kind) {
      TypedText(rules, e, rest);
    } else {
      ConstantText(rules, e, rest);
    }
  }

  /** "(", left operand, operator, right operand, ")" around texts whose tokens are known. */
  lemma InfixText(l: string, lts: seq<Token>, op: Token, r: string, rts: seq<Token>, rest: string)
    requires WellFormed(op) && op.typ != STRING
    requires forall more :: TextEnds(more) ==> Tokenize(l + more) == Then(lts, Tokenize(more))
    requires forall more :: TextEnds(more) ==> Tokenize(r + more) == Then(rts, Tokenize(more))
    requires TextEnds(rest)
    ensures Tokenize("(" + l + " " + op.literal + " " + r + ")" + rest) ==
      Then([OPEN] + (lts + [op] + rts) + [CLOSE], Tokenize(rest))
  {
    hide Tokenize, WellFormed, Then;
    ParensWellFormed();
    var right := " " + op.literal + (" " + (r + (")" + rest)));
    assert "(" + l + " " + op.literal + " " + r + ")" + rest == "" + "(" + (l + right);
    InfixRight(op, r, rts, rest);
    TextStep("", OPEN, l + right);
    ThenFive(lts, op, rts, Tokenize(rest));
  }

  lemma InfixRight(op: Token, r: string, rts: seq<Token>, rest: string)
    requires WellFormed(op) && op.typ != STRING
    requires forall more :: TextEnds(more) ==> Tokenize(r + more) == Then(rts, Tokenize(more))
    requires TextEnds(rest)
    ensures var right := " " + op.literal + (" " + (r + (")" + rest)));
      TextEnds(right) && Tokenize(right) == Then([op], Then(rts, Then([CLOSE], Tokenize(rest))))
  {
    hide Tokenize, WellFormed, Then, Boundary;
    ParensWellFormed();
    var closed := ")" + rest;
    TokenText(CLOSE, rest);
    SpaceEnds(op, " " + (r + closed));
    TextStep(" ", op, " " + (r + closed));
    LeadingSpace(r + closed);
  }

  lemma ThenFive(lts: seq<Token>, op: Token, rts: seq<Token>, more: Option<seq<Token>>)
    ensures Then([OPEN], Then(lts, Then([op], Then(rts, Then([CLOSE], more))))) ==
      Then([OPEN] + (lts + [op] + rts) + [CLOSE], more)
  {
    hide Then;
    ThenThen(rts, [CLOSE], more);
    ThenThen([op], rts + [CLOSE], more);
    ThenThen(lts, [op] + (rts + [CLOSE]), more);
    ThenThen([OPEN], lts + ([op] + (rts + [CLOSE])), more);
    assert [OPEN] + (lts + ([op] + (rts + [CLOSE]))) == [OPEN] + (lts + [op] + rts) + [CLOSE];
  }

  /** The lexer reads the printed text as the tokens of the fully parenthesised tree. */
  lemma {:induction false} TextTokens(rules: LiteralRules, e: Expr, rest: string)
    requires Printable(rules, e) && CountStrings(e) == 0 && TextEnds(rest)
    ensures Tokenize(Text(e) + rest) == Then(TreeTokens(FullTree(e)), Tokenize(rest))
  {
    hide Tokenize, PrintableAtom, AtomTokens, AtomTreeOf, LookupIdent, OperatorType, WellFormed, TextEnds;
    match e
    case Binary(l, op, r) =>
      OperatorPrinted(op);
      forall more | TextEnds(more)
        ensures Tokenize(Text(l) + more) == Then(AtomTokens(AtomTreeOf(l)), Tokenize(more))
        ensures Tokenize(Text(r) + more) == Then(AtomTokens(AtomTreeOf(r)), Tokenize(more))
      {
        AtomText(rules, l, more);
        AtomText(rules, r, more);
      }
      InfixText(Text(l), AtomTokens(AtomTreeOf(l)), Token(OperatorType(op), op),
                Text(r), AtomTokens(AtomTreeOf(r)), rest);
    case Logical(l, op, r) =>
      forall more | TextEnds(more)
        ensures Tokenize(Text(l) + more) == Then(TreeTokens(FullTree(l)), Tokenize(more))
        ensures Tokenize(Text(r) + more) == Then(TreeTokens(FullTree(r)), Tokenize(more))
      {
        TextTokens(rules, l, more);
        TextTokens(rules, r, more);
      }
      InfixText(Text(l), TreeTokens(FullTree(l)), Token(LookupIdent(op), op),
                Text(r), TreeTokens(FullTree(r)), rest);
    case _ =>
      AtomText(rules, e, rest);
  }

  // ------------------------------------------------------------------ counting quotes

  function Quotes(s: string): (n: nat)
  {
    if s == [] then 0 else (if s[0] == '\'' then 1 else 0) + Quotes(s[1..])
  }

  lemma {:induction false} QuotesConcat(a: string, b: string)
    ensures Quotes(a + b) == Quotes(a) + Quotes(b)
  {
    if a == [] {
      assert a + b == b;
    } else {
      assert (a + b)[1..] == a[1..] + b;
      QuotesConcat(a[1..], b);
    }
  }

  lemma {:induction false} QuoteFreeQuotes(s: string)
    requires QuoteFree(s)
    ensures Quotes(s) == 0
  {
    if s != [] {
      QuoteFreeQuotes(s[1..]);
    }
  }

  lemma {:induction false} WordQuotes(s: string)
    requires SpanWord(s) == |s|
    ensures Quotes(s) == 0
  {
    if s != [] {
      WordQuotes(s[1..]);
    }
  }

  lemma {:induction false} DigitQuotes(s: string)
    requires SpanDigits(s) == |s|
    ensures Quotes(s) == 0
  {
    if s != [] {
      DigitQuotes(s[1..]);
    }
  }

  lemma NumberQuotes(s: string)
    requires WellFormed(Token(NUMBER, s))
    ensures Quotes(s) == 0
  {
    var d := SpanDigits(s);
    SpansExact(s);
    DigitQuotes(s[..d]);
    assert s == s[..d] + s[d..];
    QuotesConcat(s[..d], s[d..]);
    if d < |s| {
      assert s[d..][1..] == s[d + 1..];
      DigitQuotes(s[d + 1..]);
    }
  }

  function CountStringTokens(ts: seq<Token>): (n: nat)
  {
    if ts == [] then 0 else (if ts[0].typ == STRING then 1 else 0) + CountStringTokens(ts[1..])
  }

  lemma {:induction false} StringTokensConcat(a: seq<Token>, b: seq<Token>)
    ensures CountStringTokens(a + b) == CountStringTokens(a) + CountStringTokens(b)
  {
    if a == [] {
      assert a + b == b;
    } else {
      assert (a + b)[1..] == a[1..] + b;
      StringTokensConcat(a[1..], b);
    }
  }

  /** Each string token needs two quotes, except that the last may lack one. */
  lemma {:induction false} QuotesBound(s: string)
    requires Tokenize(s).Some?
    ensures 2 * CountStringTokens(Tokenize(s).value) <= Quotes(s) + 1
    decreases |s|
  {
    hide NextToken, Spells;
    var (tok, rest) := NextToken(s);
    if tok.typ != EOF {
      QuotesBound(rest);
      var piece := FirstPiece(s);
      QuotesConcat(piece.gap + piece.text, rest);
      QuotesConcat(piece.gap, piece.text);
      assert Tokenize(s).value[1..] == Tokenize(rest).value;
      if tok.typ == STRING {
        StringPieceQuotes(piece, tok, rest);
      }
    }
  }

  lemma StringPieceQuotes(piece: Piece, tok: Token, rest: string)
    requires tok.typ == STRING && Spells(piece, tok, rest, true) && Tokenize(rest).Some?
    ensures Quotes(piece.text) >= 2 || (Quotes(piece.text) >= 1 && Tokenize(rest) == Some([]))
  {
    QuotesConcat("'", tok.literal);
    QuotesConcat("'" + tok.literal, "'");
    if Unterminated(tok, piece.text, rest) {
      NothingAfterNul(rest);
    }
  }

  /** A grammar tree has one string token for each literal that comes from a quoted string. */
  lemma {:induction false} TreeStrings(rules: LiteralRules, t: Tree)
    requires OrOk(rules, t)
    ensures CountStringTokens(TreeTokens(t)) == CountStrings(TreeExpr(rules, t)) + CountTyped(TreeExpr(rules, t))
  {
    hide AtomOk, AtomExpr, AtomTokens, CountStringTokens;
    assert t.Atom? || t.Compare? || t.Paren? ==> AndOk(rules, t) && CompareOk(rules, t);
    match t
    case Atom(a) =>
      AtomStrings(rules, a);
    case Compare(l, op, r) =>
      AtomStrings(rules, l);
      AtomStrings(rules, r);
      InfixStrings(AtomTokens(l), op, AtomTokens(r));
    case Paren(o, inner, c) =>
      TreeStrings(rules, inner);
      InfixStrings([], o, TreeTokens(inner));
      InfixStrings([] + [o] + TreeTokens(inner), c, []);
      assert TreeTokens(t) == [] + [o] + TreeTokens(inner) + [c] + [];
      NoStringTokens();
    case And(l, op, r) =>
      assert AndOk(rules, t) && AndOk(rules, r);
      TreeStrings(rules, l);
      TreeStrings(rules, r);
      InfixStrings(TreeTokens(l), op, TreeTokens(r));
    case Or(l, op, r) =>
      TreeStrings(rules, l);
      TreeStrings(rules, r);
      InfixStrings(TreeTokens(l), op, TreeTokens(r));
  }

  lemma NoStringTokens()
    ensures CountStringTokens([]) == 0
  {
  }

  lemma InfixStrings(a: seq<Token>, op: Token, b: seq<Token>)
    requires op.typ != STRING
    ensures CountStringTokens(a + [op] + b) == CountStringTokens(a) + CountStringTokens(b)
  {
    StringTokensConcat(a + [op], b);
    StringTokensConcat(a, [op]);
  }

  lemma AtomStrings(rules: LiteralRules, a: AtomTree)
    requires AtomOk(rules, a)
    ensures CountStringTokens(AtomTokens(a)) == CountStrings(AtomExpr(rules, a)) + CountTyped(AtomExpr(rules, a))
  {
    match a
    case Plain(w) => OneToken(w);
    case TwoPart(t, d, c) =>
      OneToken(t);
      OneToken(c);
      InfixStrings([t], d, [c]);
      assert [t] + [d] + [c] == [t, d, c];
    case KeywordColumn(w) => OneToken(w);
    case Typed(w, s) =>
      OneToken(s);
      NoStringTokens();
      InfixStrings([], w, [s]);
      assert [] + [w] + [s] == [w, s];
    case Constant(t) => OneToken(t);
  }

  lemma OneToken(tok: Token)
    ensures CountStringTokens([tok]) == if tok.typ == STRING then 1 else 0
  {
    assert [tok][1..] == [];
  }

  /** The printed text has quotes around typed literals only. */
  lemma {:induction false} TextQuotes(rules: LiteralRules, e: Expr)
    requires Printable(rules, e)
    ensures Quotes(Text(e)) == 2 * CountTyped(e)
  {
    hide PrintableAtom, LookupIdent, OperatorType, Quotes;
    match e
    case Binary(l, op, r) =>
      AtomQuotes(rules, l);
      AtomQuotes(rules, r);
      OperatorPrinted(op);
      OperatorQuotes(Token(OperatorType(op), op));
      InfixQuotes(Text(l), op, Text(r));
    case Logical(l, op, r) =>
      TextQuotes(rules, l);
      TextQuotes(rules, r);
      OperatorQuotes(Token(LookupIdent(op), op));
      InfixQuotes(Text(l), op, Text(r));
    case _ =>
      AtomQuotes(rules, e);
  }

  lemma OperatorQuotes(op: Token)
    requires WellFormed(op) && (op.typ.Word? || IsComparison(op.typ))
    ensures Quotes(op.literal) == 0
  {
    hide LookupIdent;
    if op.typ.Word? {
      WordQuotes(op.literal);
    } else {
      var lit := op.literal;
      assert lit == [lit[0]] + lit[1..];
      QuotesConcat([lit[0]], lit[1..]);
      OneQuote(lit[0]);
      if |lit| == 2 {
        assert lit[1..] == [lit[1]];
        OneQuote(lit[1]);
      }
    }
  }

  lemma OneQuote(ch: char)
    ensures Quotes([ch]) == (if ch == '\'' then 1 else 0) && Quotes([]) == 0
  {
    assert [ch][1..] == [];
  }

  lemma InfixQuotes(l: string, op: string, r: string)
    requires Quotes(op) == 0
    ensures Quotes("(" + l + " " + op + " " + r + ")") == Quotes(l) + Quotes(r)
  {
    QuotesConcat("(" + l + " " + op + " " + r, ")");
    QuotesConcat("(" + l + " " + op + " ", r);
    QuotesConcat("(" + l + " " + op, " ");
    QuotesConcat("(" + l + " ", op);
    QuotesConcat("(" + l, " ");
    QuotesConcat("(", l);
  }

  lemma AtomQuotes(rules: LiteralRules, e: Expr)
    requires PrintableAtom(rules, e)
    ensures Quotes(Text(e)) == 2 * CountTyped(e)
  {
    hide SpanWord, SpanNumber, LookupIdent;
    if e.Identifier? {
      IdentifierQuotes(rules, e);
    } else if IsTypedKind(e.kind) {
      TypedWordPrinted(e.kind);
      var word := KeywordFor(e.kind);
      WordQuotes(word.literal);
      QuoteFreeQuotes(e.value.s);
      assert e.text == word.literal + " '" + e.value.s + "'";
      QuotesConcat(word.literal + " '" + e.value.s, "'");
      QuotesConcat(word.literal + " '", e.value.s);
      QuotesConcat(word.literal, " '");
    } else if e.kind == LiteralString {
      QuoteFreeQuotes(e.text);
    } else if e.kind == LiteralBool {
      LettersSpan(e.text);
      WordQuotes(e.text);
    } else {
      NumberQuotes(e.text);
    }
  }

  lemma IdentifierQuotes(rules: LiteralRules, e: Expr)
    requires e.Identifier? && PrintableAtom(rules, e)
    ensures Quotes(Text(e)) == 0
  {
    hide LookupIdent;
    if e.name == "date" || e.name == "time" || e.name == "email" {
      LettersSpan(e.name);
    }
    WordQuotes(e.name);
    if e.table != "" {
      WordQuotes(e.table);
      QuotesConcat(e.table + ".", e.name);
      QuotesConcat(e.table, ".");
    }
  }

  // ------------------------------------------------------------------------ the law

  /** The text String() prints parses to the tree it was printed from exactly when the tree
      has no string literal, because String() drops the quotes of those. */
  lemma TextRoundTripIff(rules: LiteralRules, e: Expr)
    requires Printable(rules, e)
    ensures (Tokenize(Text(e)).Some? && ParseOr(rules, Tokenize(Text(e)).value) == Ok((e, []))) <==>
      CountStrings(e) == 0
  {
    hide Tokenize, TextEnds;
    if CountStrings(e) == 0 {
      NoMoreText();
      TextTokens(rules, e, "");
      assert Text(e) + "" == Text(e);
      PrintedParses(rules, e, []);
    }
    if Tokenize(Text(e)).Some? && ParseOr(rules, Tokenize(Text(e)).value) == Ok((e, [])) {
      var toks := Tokenize(Text(e)).value;
      var t := OrSound(rules, toks);
      assert toks == TreeTokens(t);
      TreeStrings(rules, t);
      QuotesBound(Text(e));
      TextQuotes(rules, e);
    }
  }

  lemma PlainName()
    ensures IsPlainName("name")
  {
    assert Upper("name") == "NAME" && KeywordOf("NAME").None?;
    LettersSpan("name");
  }

  lemma PlainX()
    ensures IsPlainName("x")
  {
    assert Upper("x") == "X" && KeywordOf("X").None?;
    LettersSpan("x");
  }

  /** `name = 'x'` is printed as `(name = x)`, which compares two columns. */
  lemma LostQuotes(rules: LiteralRules)
    ensures var e := Binary(Identifier("", "name"), "=", Literal("x", Str("x"), LiteralString));
      var read := Binary(Identifier("", "name"), "=", Identifier("", "x"));
      && Printable(rules, e) && Text(e) == "(name = x)"
      && Tokenize(Text(e)).Some? && ParseOr(rules, Tokenize(Text(e)).value) == Ok((read, []))
  {
    hide Tokenize, ParseOr, WellFormed, LookupIdent, IsPlainName;
    var e := Binary(Identifier("", "name"), "=", Literal("x", Str("x"), LiteralString));
    var read := Binary(Identifier("", "name"), "=", Identifier("", "x"));
    PlainName();
    PlainX();
    assert Printable(rules, e) && Printable(rules, read);
    assert Text(e) == Text(read);
    TextRoundTripIff(rules, read);
  }

  lemma NoMoreText()
    ensures Tokenize("") == Some([]) && TextEnds("")
  {
  }
}
