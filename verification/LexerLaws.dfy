/** What the lexer accepts: which text is a token, and where a token must end. */
module LexerLaws {
  import opened Values
  import opened Tokens

  // ------------------------------------------------------------------------ tokens

  /** A token that text can spell. */
  predicate WellFormed(tok: Token)
  {
    var lit := tok.literal;
    match tok.typ
    case ILLEGAL => false
    case EOF => false
    case STRING => SpanString(lit) == |lit|
    case NUMBER => lit != [] && IsDigit(lit[0]) && SpanNumber(lit) == |lit|
    case _ =>
      if tok.typ == IDENTIFIER || tok.typ.Word? then
        lit != [] && IsLetter(lit[0]) && SpanWord(lit) == |lit| && LookupIdent(lit) == tok.typ
      else IsOperator(tok)
  }

  predicate IsOperator(tok: Token)
  {
    var lit := tok.literal;
    || (|lit| == 1 && Single(lit[0]) == tok.typ != ILLEGAL)
    || (|lit| == 2 && Double(lit[0], lit[1]) == tok.typ != ILLEGAL)
  }

  /** The token as it stands in the text. */
  function Spelling(tok: Token): (text: string)
  {
    if tok.typ == STRING then "'" + tok.literal + "'" else tok.literal
  }

  /** The text after the token does not continue it. */
  predicate Boundary(tok: Token, rest: string)
  {
    if tok.typ == STRING then true
    else if tok.typ == NUMBER then
      !IsDigit(At(rest, 0)) && ('.' !in tok.literal ==> !(At(rest, 0) == '.' && IsDigit(At(rest, 1))))
    else if tok.typ == IDENTIFIER || tok.typ.Word? then !IsWord(At(rest, 0))
    else |tok.literal| == 1 ==> Double(tok.literal[0], At(rest, 0)) == ILLEGAL
  }

  predicate AllSpaces(s: string)
  {
    SpanSpaces(s) == |s|
  }

  // ------------------------------------------------------------------ longest spans

  lemma {:induction false} SpanWordAppend(a: string, b: string)
    requires SpanWord(a) == |a| && !IsWord(At(b, 0))
    ensures SpanWord(a + b) == |a|
  {
    if a == [] {
      assert a + b == b;
    } else {
      assert (a + b)[1..] == a[1..] + b;
      SpanWordAppend(a[1..], b);
    }
  }

  lemma {:induction false} SpanStringAppend(a: string, b: string)
    requires SpanString(a) == |a| && (At(b, 0) == '\'' || At(b, 0) == NUL)
    ensures SpanString(a + b) == |a|
  {
    if a == [] {
      assert a + b == b;
    } else {
      assert (a + b)[1..] == a[1..] + b;
      SpanStringAppend(a[1..], b);
    }
  }

  lemma {:induction false} SpanSpacesAppend(a: string, b: string)
    requires AllSpaces(a) && !IsSpace(At(b, 0))
    ensures SpanSpaces(a + b) == |a|
  {
    if a == [] {
      assert a + b == b;
    } else {
      assert (a + b)[1..] == a[1..] + b;
      SpanSpacesAppend(a[1..], b);
    }
  }

  lemma {:induction false} SpanDigitsAppend(a: string, b: string)
    ensures SpanDigits(a + b) == if SpanDigits(a) == |a| then |a| + SpanDigits(b) else SpanDigits(a)
  {
    if a == [] {
      assert a + b == b;
    } else {
      assert (a + b)[1..] == a[1..] + b;
      SpanDigitsAppend(a[1..], b);
    }
  }

  /** The span is a maximal prefix. */
  lemma {:induction false} SpansExact(s: string)
    ensures SpanWord(s[..SpanWord(s)]) == SpanWord(s) && !IsWord(At(s, SpanWord(s)))
    ensures SpanDigits(s[..SpanDigits(s)]) == SpanDigits(s) && !IsDigit(At(s, SpanDigits(s)))
    ensures forall i :: 0 <= i < SpanDigits(s) ==> IsDigit(s[i])
    ensures SpanString(s[..SpanString(s)]) == SpanString(s)
    ensures At(s, SpanString(s)) == '\'' || At(s, SpanString(s)) == NUL
    ensures AllSpaces(s[..SpanSpaces(s)]) && !IsSpace(At(s, SpanSpaces(s)))
  {
    if s != [] {
      SpansExact(s[1..]);
      assert SpanWord(s) > 0 ==> s[..SpanWord(s)][1..] == s[1..][..SpanWord(s[1..])];
      assert SpanDigits(s) > 0 ==> s[..SpanDigits(s)][1..] == s[1..][..SpanDigits(s[1..])];
      assert SpanString(s) > 0 ==> s[..SpanString(s)][1..] == s[1..][..SpanString(s[1..])];
      assert SpanSpaces(s) > 0 ==> s[..SpanSpaces(s)][1..] == s[1..][..SpanSpaces(s[1..])];
    }
  }

  lemma SpanNumberAppend(lit: string, rest: string)
    requires SpanNumber(lit) == |lit| && Boundary(Token(NUMBER, lit), rest)
    ensures SpanNumber(lit + rest) == |lit|
  {
    SpanDigitsAppend(lit, rest);
    if SpanDigits(lit) == |lit| {
      NoDotInDigits(lit);
      assert At(lit + rest, |lit|) == At(rest, 0) && At(lit + rest, |lit| + 1) == At(rest, 1);
    } else {
      FractionAppend(lit, rest);
    }
  }

  lemma {:induction false} NoDotInDigits(s: string)
    requires SpanDigits(s) == |s|
    ensures '.' !in s
  {
    if s != [] {
      NoDotInDigits(s[1..]);
      assert s == [s[0]] + s[1..];
    }
  }

  lemma FractionAppend(lit: string, rest: string)
    requires SpanDigits(lit) < |lit| == SpanNumber(lit) && !IsDigit(At(rest, 0))
    requires SpanDigits(lit + rest) == SpanDigits(lit)
    ensures SpanNumber(lit + rest) == |lit|
  {
    var d := SpanDigits(lit);
    hide SpanDigits;
    assert (lit + rest)[d + 1..] == lit[d + 1..] + rest;
    SpanDigitsAppend(lit[d + 1..], rest);
    NoDigits(rest);
  }

  lemma NoDigits(s: string)
    requires !IsDigit(At(s, 0))
    ensures SpanDigits(s) == 0
  {
  }

  lemma WholeNumberExact(s: string)
    requires s != [] && IsDigit(s[0]) && SpanNumber(s) == SpanDigits(s)
    ensures var d := SpanDigits(s); WellFormed(Token(NUMBER, s[..d])) && Boundary(Token(NUMBER, s[..d]), s[d..])
  {
    var d := SpanDigits(s);
    SpansExact(s);
    NoDotInDigits(s[..d]);
    assert At(s[d..], 0) == At(s, d) && At(s[d..], 1) == At(s, d + 1);
  }

  lemma DottedParts(whole: string, fraction: string)
    requires whole != [] && fraction != []
    ensures var lit := whole + "." + fraction;
      && lit[|whole| + 1..] == fraction && lit[|whole|] == '.' && '.' in lit
      && lit[0] == whole[0] && At(lit, |whole| + 1) == fraction[0] && At(lit, |whole|) == '.'
      && lit == whole + ("." + fraction)
  {
    var lit := whole + "." + fraction;
    assert lit[|whole|] == '.';
  }

  /** Digits, a dot and more digits form one number. */
  lemma FractionForm(whole: string, fraction: string)
    requires whole != [] && SpanDigits(whole) == |whole|
    requires fraction != [] && SpanDigits(fraction) == |fraction|
    ensures var lit := whole + "." + fraction; SpanNumber(lit) == |lit| && IsDigit(lit[0]) && '.' in lit
  {
    DottedParts(whole, fraction);
    SpanDigitsAppend(whole, "." + fraction);
    NoDigits("." + fraction);
    FirstDigit(whole);
    FirstDigit(fraction);
    hide SpanDigits;
  }

  lemma FirstDigit(s: string)
    requires s != [] && SpanDigits(s) == |s|
    ensures IsDigit(s[0])
  {
  }

  lemma FractionExact(s: string)
    requires s != [] && IsDigit(s[0]) && SpanNumber(s) != SpanDigits(s)
    ensures var n := SpanNumber(s); WellFormed(Token(NUMBER, s[..n])) && Boundary(Token(NUMBER, s[..n]), s[n..])
  {
    hide SpanNumber, SpanDigits;
    var whole, fraction := FractionCut(s);
    FractionForm(whole, fraction);
  }

  lemma FractionCut(s: string) returns (whole: string, fraction: string)
    requires s != [] && IsDigit(s[0]) && SpanNumber(s) != SpanDigits(s)
    ensures whole != [] && SpanDigits(whole) == |whole| && fraction != [] && SpanDigits(fraction) == |fraction|
    ensures s[..SpanNumber(s)] == whole + "." + fraction && !IsDigit(At(s[SpanNumber(s)..], 0))
  {
    var d := SpanDigits(s);
    FractionStart(s);
    SpansExact(s);
    SpansExact(s[d + 1..]);
    hide SpanDigits, SpanWord, SpanString, SpanSpaces, SpanNumber;
    whole, fraction := CutAt(s, d, SpanDigits(s[d + 1..]));
  }

  lemma FractionStart(s: string)
    requires s != [] && IsDigit(s[0]) && SpanNumber(s) != SpanDigits(s)
    ensures var d := SpanDigits(s);
      0 < d < |s| && s[d] == '.' && SpanDigits(s[d + 1..]) > 0 && SpanNumber(s) == d + 1 + SpanDigits(s[d + 1..])
  {
    var d := SpanDigits(s);
    DigitStarts(s);
    DigitStarts(s[d + 1..]);
    hide SpanDigits;
  }

  lemma DigitStarts(s: string)
    requires s != [] && IsDigit(s[0])
    ensures SpanDigits(s) > 0
  {
  }

  lemma CutAt(s: string, d: nat, k: nat) returns (whole: string, fraction: string)
    requires d + 1 + k <= |s| && s[d] == '.'
    ensures whole == s[..d] && fraction == s[d + 1..][..k]
    ensures s[..d + 1 + k] == whole + "." + fraction
    ensures At(s[d + 1 + k..], 0) == At(s[d + 1..], k)
  {
    whole, fraction := s[..d], s[d + 1..][..k];
  }

  lemma SpanNumberExact(s: string)
    requires s != [] && IsDigit(s[0])
    ensures var n := SpanNumber(s); WellFormed(Token(NUMBER, s[..n])) && Boundary(Token(NUMBER, s[..n]), s[n..])
  {
    hide WellFormed, Boundary;
    if SpanNumber(s) == SpanDigits(s) {
      WholeNumberExact(s);
    } else {
      FractionExact(s);
    }
  }

  // ------------------------------------------------------------- one token, exactly

  /** A well-formed token in front of text that does not continue it is read back whole. */
  lemma ScanComplete(tok: Token, rest: string)
    requires WellFormed(tok) && Boundary(tok, rest)
    ensures ScanToken(Spelling(tok) + rest) == (tok, |Spelling(tok)|)
    ensures Spelling(tok) != [] && !IsSpace(Spelling(tok)[0])
  {
    hide KeywordOf, Upper, SpanWord, SpanNumber, SpanString;
    var lit := tok.literal;
    var s := Spelling(tok) + rest;
    if tok.typ == STRING {
      assert s[1..] == lit + ("'" + rest);
      SpanStringAppend(lit, "'" + rest);
      assert s[1..|lit| + 1] == lit;
    } else {
      assert s[..|lit|] == lit;
      if tok.typ == NUMBER {
        SpanNumberAppend(lit, rest);
      } else if tok.typ == IDENTIFIER || tok.typ.Word? {
        SpanWordAppend(lit, rest);
      } else {
        assert |lit| == 1 ==> At(s, 1) == At(rest, 0);
      }
    }
  }

  /** An unterminated string runs to the end of the text. */
  predicate Unterminated(tok: Token, text: string, rest: string)
  {
    tok.typ == STRING && text == "'" + tok.literal && At(rest, 0) == NUL
  }

  /** What a scan owes its caller: the token is well-formed, the consumed text spells it, and
      the text after it does not continue it. */
  predicate Scanned(s: string, tok: Token, n: nat)
  {
    && n <= |s| && WellFormed(tok) && Boundary(tok, s[n..])
    && (s[..n] == Spelling(tok) || Unterminated(tok, s[..n], s[n..]))
  }

  lemma ScanOperatorSound(s: string)
    requires s != [] && (Double(s[0], At(s, 1)) != ILLEGAL || Single(s[0]) != ILLEGAL)
    ensures Scanned(s, ScanToken(s).0, ScanToken(s).1)
  {
    if Double(s[0], At(s, 1)) != ILLEGAL {
      assert s[..2] == [s[0], s[1]];
    } else {
      assert s[..1] == [s[0]] && At(s[1..], 0) == At(s, 1);
    }
  }

  lemma ScanStringSound(s: string)
    requires s != [] && s[0] == '\''
    ensures Scanned(s, ScanToken(s).0, ScanToken(s).1)
  {
    hide SpanString, SpanWord, SpanNumber, SpanDigits, SpanSpaces, KeywordOf, Upper;
    var n := SpanString(s[1..]);
    SpansExact(s[1..]);
    QuotedParts(s, n);
  }

  lemma QuotedParts(s: string, n: nat)
    requires n + 1 <= |s| && s[0] == '\''
    ensures s[1..n + 1] == s[1..][..n]
    ensures At(s[1..], n) == At(s, n + 1) == At(s[n + 1..], 0)
    ensures s[..n + 1] == "'" + s[1..n + 1]
    ensures n + 1 < |s| && s[n + 1] == '\'' ==> s[..n + 2] == "'" + s[1..n + 1] + "'"
  {
  }

  lemma ScanWordSound(s: string)
    requires s != [] && IsLetter(s[0])
    ensures Scanned(s, ScanToken(s).0, ScanToken(s).1)
  {
    hide KeywordOf, Upper;
    SpansExact(s);
  }

  lemma ScanNumberSound(s: string)
    requires s != [] && IsDigit(s[0])
    ensures Scanned(s, ScanToken(s).0, ScanToken(s).1)
  {
    SpanNumberExact(s);
  }

  /** Every token the lexer returns is one it had to return: maximal and spelled out. */
  lemma ScanSound(s: string)
    requires ScanToken(s).0.typ != EOF && ScanToken(s).0.typ != ILLEGAL
    ensures Scanned(s, ScanToken(s).0, ScanToken(s).1)
  {
    hide Scanned, KeywordOf, Upper;
    if Double(At(s, 0), At(s, 1)) != ILLEGAL || Single(At(s, 0)) != ILLEGAL {
      ScanOperatorSound(s);
    } else if At(s, 0) == '\'' {
      ScanStringSound(s);
    } else if IsLetter(At(s, 0)) {
      ScanWordSound(s);
    } else {
      ScanNumberSound(s);
    }
  }

  // ------------------------------------------------------------------- whole texts

  /** One step of Tokenize over a gap and a token. */
  lemma TokenizeStep(gap: string, tok: Token, rest: string)
    requires AllSpaces(gap) && WellFormed(tok) && Boundary(tok, rest)
    ensures NextToken(gap + Spelling(tok) + rest) == (tok, rest)
    ensures Tokenize(gap + Spelling(tok) + rest) ==
      if Tokenize(rest).None? then None else Some([tok] + Tokenize(rest).value)
  {
    hide ScanToken, Boundary, WellFormed, Spelling;
    var text := Spelling(tok) + rest;
    ScanComplete(tok, rest);
    SpanSpacesAppend(gap, text);
    assert gap + Spelling(tok) + rest == gap + text;
    assert (gap + text)[|gap|..] == text;
    assert text[|Spelling(tok)|..] == rest;
    assert tok.typ != EOF && tok.typ != ILLEGAL by { NotSpecial(tok); }
  }

  lemma NotSpecial(tok: Token)
    requires WellFormed(tok)
    ensures tok.typ != EOF && tok.typ != ILLEGAL
  {
  }

  /** The tokens separated by single spaces. */
  function Spaced(toks: seq<Token>): (text: string)
  {
    if toks == [] then ""
    else if |toks| == 1 then Spelling(toks[0])
    else Spelling(toks[0]) + " " + Spaced(toks[1..])
  }

  lemma EmptyText()
    ensures Tokenize("") == Some([])
  {
  }

  lemma SpaceEnds(tok: Token, rest: string)
    requires WellFormed(tok) && (rest == [] || rest[0] == ' ')
    ensures Boundary(tok, rest)
  {
  }

  lemma LeadingSpace(s: string)
    ensures NextToken(" " + s) == NextToken(s)
    ensures Tokenize(" " + s) == Tokenize(s)
  {
    assert (" " + s)[1..] == s;
    assert (" " + s)[SpanSpaces(" " + s)..] == s[SpanSpaces(s)..];
  }

  /** Any list of well-formed tokens, written with single spaces between them, is read back
      with the same types and literals. */
  lemma {:induction false} SpacedRoundTrip(toks: seq<Token>)
    requires forall i :: 0 <= i < |toks| ==> WellFormed(toks[i])
    ensures Tokenize(Spaced(toks)) == Some(toks)
  {
    hide WellFormed, Boundary, Tokenize, Spelling, NextToken;
    if toks == [] {
      EmptyText();
    } else {
      var rest := if |toks| == 1 then "" else " " + Spaced(toks[1..]);
      assert Spaced(toks) == "" + Spelling(toks[0]) + rest;
      SpaceEnds(toks[0], rest);
      TokenizeStep("", toks[0], rest);
      SpacedRoundTrip(toks[1..]);
      LeadingSpace(Spaced(toks[1..]));
      assert toks == [toks[0]] + toks[1..];
    }
  }

  /** White space, then the characters of one token. */
  datatype Piece = Piece(gap: string, text: string)

  function Concat(pieces: seq<Piece>): (s: string)
  {
    if pieces == [] then "" else pieces[0].gap + pieces[0].text + Concat(pieces[1..])
  }

  /** The piece spells the token; only a last string may lack its closing quote. */
  predicate Spells(piece: Piece, tok: Token, tail: string, last: bool)
  {
    && WellFormed(tok) && AllSpaces(piece.gap)
    && (piece.text == Spelling(tok) || (last && Unterminated(tok, piece.text, tail)))
  }

  lemma ConcatCons(first: Piece, more: seq<Piece>, tail: string)
    ensures Concat([first] + more) + tail == first.gap + first.text + (Concat(more) + tail)
    ensures Concat([]) + tail == tail
  {
    assert ([first] + more)[1..] == more;
  }

  /** Each piece spells its token. */
  predicate Covers(pieces: seq<Piece>, toks: seq<Token>, tail: string)
  {
    && |pieces| == |toks|
    && (toks != [] ==> Spells(pieces[0], toks[0], tail, |toks| == 1) && Covers(pieces[1..], toks[1..], tail))
  }

  /** The text of an accepted input is its tokens in order, each spelled out, with nothing but
      white space between them, up to white space and the end or a NUL. */
  lemma {:induction false} TokensCover(s: string) returns (pieces: seq<Piece>, tail: string)
    requires Tokenize(s).Some?
    ensures s == Concat(pieces) + tail
    ensures At(tail, SpanSpaces(tail)) == NUL
    ensures Covers(pieces, Tokenize(s).value, tail)
    ensures Tokenize(s) == Some([]) ==> tail == s
    decreases |s|
  {
    hide NextToken, Spells, Concat;
    var (tok, rest) := NextToken(s);
    if tok.typ == EOF {
      pieces, tail := [], s;
      EndOfText(s);
      ConcatCons(Piece("", ""), [], s);
    } else {
      var more, t := TokensCover(rest);
      var first := FirstPiece(s);
      LastPiece(first, tok, rest, t);
      pieces, tail := [first] + more, t;
      ConcatCons(first, more, t);
      assert ([tok] + Tokenize(rest).value)[1..] == Tokenize(rest).value && pieces[1..] == more;
    }
  }

  lemma EndOfText(s: string)
    requires NextToken(s).0.typ == EOF
    ensures At(s, SpanSpaces(s)) == NUL
  {
    assert At(s[SpanSpaces(s)..], 0) == At(s, SpanSpaces(s));
  }

  /** The gap and the text that the first token takes from the input. */
  lemma FirstPiece(s: string) returns (piece: Piece)
    requires NextToken(s).0.typ != EOF && NextToken(s).0.typ != ILLEGAL
    ensures s == piece.gap + piece.text + NextToken(s).1
    ensures Spells(piece, NextToken(s).0, NextToken(s).1, true)
  {
    hide ScanToken, Spelling, Boundary, WellFormed, Unterminated;
    var k := SpanSpaces(s);
    var n := ScanToken(s[k..]).1;
    SpansExact(s);
    ScanSound(s[k..]);
    piece := Piece(s[..k], s[k..][..n]);
  }

  /** An unterminated string is the last token. */
  lemma LastPiece(piece: Piece, tok: Token, rest: string, tail: string)
    requires Spells(piece, tok, rest, true) && Tokenize(rest).Some?
    requires Tokenize(rest) == Some([]) ==> tail == rest
    ensures Spells(piece, tok, tail, Tokenize(rest) == Some([]))
  {
    hide WellFormed, Spelling;
    if Unterminated(tok, piece.text, rest) {
      NothingAfterNul(rest);
    }
  }

  lemma NothingAfterNul(s: string)
    requires At(s, 0) == NUL
    ensures Tokenize(s) == Some([])
  {
  }
}
