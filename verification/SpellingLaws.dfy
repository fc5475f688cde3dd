/** Which characters, words and symbols the lexer knows, spelled out. */
module SpellingLaws {
  import opened Values
  import opened Comparison
  import opened ComparisonLaws
  import opened Tokens
  import opened LexerLaws
  import opened Ast
  import opened Printer

  const LOWER: string := "abcdefghijklmnopqrstuvwxyz"
  const UPPER: string := "ABCDEFGHIJKLMNOPQRSTUVWXYZ"
  const DIGITS: string := "0123456789"
  const SPACES: string := " \t\n\r"

  lemma InOrder()
    ensures |LOWER| == |UPPER| == 26 && |DIGITS| == 10
    ensures forall i :: 0 <= i < 26 ==> LOWER[i] == 'a' + i as char && UPPER[i] == 'A' + i as char
    ensures forall i :: 0 <= i < 10 ==> DIGITS[i] == '0' + i as char
  {
  }

  lemma LowerExact(ch: char)
    ensures 'a' <= ch <= 'z' <==> ch in LOWER
  {
    InOrder();
    if 'a' <= ch <= 'z' {
      assert LOWER[(ch - 'a') as int] == ch;
    }
  }

  lemma UpperExact(ch: char)
    ensures 'A' <= ch <= 'Z' <==> ch in UPPER
  {
    InOrder();
    if 'A' <= ch <= 'Z' {
      assert UPPER[(ch - 'A') as int] == ch;
    }
  }

  lemma DigitExact(ch: char)
    ensures IsDigit(ch) <==> ch in DIGITS
  {
    InOrder();
    if '0' <= ch <= '9' {
      assert DIGITS[(ch - '0') as int] == ch;
    }
  }

  /** The characters of words. */
  predicate InWords(ch: char)
  {
    ch in LOWER || ch in UPPER || ch == '_' || ch in DIGITS
  }

  /** Words begin with a letter or underscore and go on with letters, underscores and digits. */
  lemma CharactersExact(ch: char)
    ensures IsLetter(ch) <==> ch in LOWER || ch in UPPER || ch == '_'
    ensures IsWord(ch) <==> InWords(ch)
    ensures IsDigit(ch) <==> ch in DIGITS
    ensures IsSpace(ch) <==> ch in SPACES
  {
    LowerExact(ch);
    UpperExact(ch);
    DigitExact(ch);
  }

  // --------------------------------------------------------------------------- cases

  /** The two letters are the same but for their case. */
  ghost predicate CasePair(lower: char, upper: char)
  {
    exists i :: 0 <= i < 26 && LOWER[i] == lower && UPPER[i] == upper
  }

  lemma CaseExact(ch: char)
    ensures UpperChar(ch) != ch ==> CasePair(ch, UpperChar(ch))
    ensures ch in LOWER <==> UpperChar(ch) != ch
    ensures LowerChar(ch) != ch ==> CasePair(LowerChar(ch), ch)
    ensures ch in UPPER <==> LowerChar(ch) != ch
  {
    InOrder();
    LowerExact(ch);
    UpperExact(ch);
    if 'a' <= ch <= 'z' {
      var i := (ch - 'a') as int;
      assert LOWER[i] == ch && UPPER[i] == UpperChar(ch);
    }
    if 'A' <= ch <= 'Z' {
      var i := (ch - 'A') as int;
      assert UPPER[i] == ch && LOWER[i] == LowerChar(ch);
    }
  }

  /** Changing the case of a text changes each letter and nothing else. */
  lemma {:induction false} TextCase(s: string)
    ensures |Upper(s)| == |ToLower(s)| == |s|
    ensures forall i :: 0 <= i < |s| ==> Upper(s)[i] == UpperChar(s[i]) && ToLower(s)[i] == LowerChar(s[i])
  {
    if s != [] {
      TextCase(s[1..]);
    }
  }

  // ------------------------------------------------------------------------ keywords

  function KeywordText(k: Keyword): (text: string)
  {
    match k
    case SELECT => "SELECT"
    case FROM => "FROM"
    case WHERE => "WHERE"
    case INSERT => "INSERT"
    case INTO => "INTO"
    case VALUES => "VALUES"
    case UPDATE => "UPDATE"
    case SET => "SET"
    case DELETE => "DELETE"
    case AND => "AND"
    case OR => "OR"
    case TRUE => "TRUE"
    case FALSE => "FALSE"
    case JOIN => "JOIN"
    case INNER => "INNER"
    case LEFT => "LEFT"
    case RIGHT => "RIGHT"
    case FULL => "FULL"
    case OUTER => "OUTER"
    case ON => "ON"
    case DATE => "DATE"
    case TIME => "TIME"
    case EMAIL => "EMAIL"
    case CREATE => "CREATE"
    case DROP => "DROP"
    case ALTER => "ALTER"
    case DATABASE => "DATABASE"
    case USE => "USE"
    case RENAME => "RENAME"
    case TO => "TO"
  }

  /** The word is the keyword in some mixture of cases. */
  ghost predicate Spells(s: string, k: Keyword)
  {
    var text := KeywordText(k);
    |s| == |text| && forall i :: 0 <= i < |s| ==> s[i] == text[i] || CasePair(s[i], text[i])
  }

  // The keywords in six groups, to keep each proof short.

  predicate QueryWord(k: Keyword)
  {
    k.SELECT? || k.FROM? || k.WHERE? || k.INSERT? || k.INTO? || k.VALUES?
  }

  predicate ChangeWord(k: Keyword)
  {
    k.UPDATE? || k.SET? || k.DELETE? || k.AND? || k.OR? || k.TRUE? || k.FALSE?
  }

  predicate JoiningWord(k: Keyword)
  {
    k.JOIN? || k.INNER? || k.LEFT? || k.RIGHT? || k.FULL? || k.OUTER?
  }

  predicate TypedWord(k: Keyword)
  {
    k.ON? || k.DATE? || k.TIME? || k.EMAIL? || k.CREATE?
  }

  predicate DatabaseWord(k: Keyword)
  {
    k.DROP? || k.ALTER? || k.DATABASE?
  }

  predicate LastWord(k: Keyword)
  {
    k.USE? || k.RENAME? || k.TO?
  }

  lemma QueryWords(word: string, k: Keyword)
    requires QueryWord(k)
    ensures KeywordOf(word) == Some(k) ==> word == KeywordText(k)
  {
  }

  lemma QueryTexts(k: Keyword)
    requires QueryWord(k)
    ensures KeywordOf(KeywordText(k)) == Some(k)
  {
  }

  lemma ChangeWords(word: string, k: Keyword)
    requires ChangeWord(k)
    ensures KeywordOf(word) == Some(k) ==> word == KeywordText(k)
  {
  }

  lemma ChangeTexts(k: Keyword)
    requires ChangeWord(k)
    ensures KeywordOf(KeywordText(k)) == Some(k)
  {
  }

  lemma JoiningWords(word: string, k: Keyword)
    requires JoiningWord(k)
    ensures KeywordOf(word) == Some(k) ==> word == KeywordText(k)
  {
  }

  lemma JoiningTexts(k: Keyword)
    requires JoiningWord(k)
    ensures KeywordOf(KeywordText(k)) == Some(k)
  {
  }

  lemma TypedWords(word: string, k: Keyword)
    requires TypedWord(k)
    ensures KeywordOf(word) == Some(k) ==> word == KeywordText(k)
  {
  }

  lemma TypedTexts(k: Keyword)
    requires TypedWord(k)
    ensures KeywordOf(KeywordText(k)) == Some(k)
  {
  }

  lemma DatabaseWords(word: string, k: Keyword)
    requires DatabaseWord(k)
    ensures KeywordOf(word) == Some(k) ==> word == KeywordText(k)
  {
  }

  lemma DatabaseTexts(k: Keyword)
    requires DatabaseWord(k)
    ensures KeywordOf(KeywordText(k)) == Some(k)
  {
  }

  lemma LastWords(word: string, k: Keyword)
    requires LastWord(k)
    ensures KeywordOf(word) == Some(k) ==> word == KeywordText(k)
  {
  }

  lemma LastTexts(k: Keyword)
    requires LastWord(k)
    ensures KeywordOf(KeywordText(k)) == Some(k)
  {
  }

  lemma KeywordOfExact(word: string, k: Keyword)
    ensures KeywordOf(word) == Some(k) <==> word == KeywordText(k)
  {
    hide KeywordOf, KeywordText;
    if QueryWord(k) {
      QueryWords(word, k);
      QueryTexts(k);
    } else if ChangeWord(k) {
      ChangeWords(word, k);
      ChangeTexts(k);
    } else if JoiningWord(k) {
      JoiningWords(word, k);
      JoiningTexts(k);
    } else if TypedWord(k) {
      TypedWords(word, k);
      TypedTexts(k);
    } else if DatabaseWord(k) {
      DatabaseWords(word, k);
      DatabaseTexts(k);
    } else {
      LastWords(word, k);
      LastTexts(k);
    }
  }

  /** A word in any mixture of cases is the keyword it spells, and every other word is a name. */
  lemma KeywordsExact(s: string, k: Keyword)
    ensures LookupIdent(s) == Word(k) <==> Spells(s, k)
    ensures LookupIdent(s) == IDENTIFIER <==> forall j :: !Spells(s, j)
  {
    hide KeywordOf, KeywordText, Upper;
    forall j ensures KeywordOf(Upper(s)) == Some(j) <==> Spells(s, j) {
      KeywordOfExact(Upper(s), j);
      SpellsUpper(s, j);
    }
  }

  lemma SpellsUpper(s: string, k: Keyword)
    ensures Spells(s, k) <==> Upper(s) == KeywordText(k)
  {
    hide KeywordText, Upper, UpperChar, CasePair;
    var text := KeywordText(k);
    TextCase(s);
    KeywordUpper(k);
    if |s| == |text| {
      forall i | 0 <= i < |s| ensures (s[i] == text[i] || CasePair(s[i], text[i])) <==> Upper(s)[i] == text[i] {
        UpperMeets(s[i], text[i]);
      }
    }
  }

  lemma KeywordUpper(k: Keyword)
    ensures forall i :: 0 <= i < |KeywordText(k)| ==> KeywordText(k)[i] in UPPER
  {
  }

  lemma UpperMeets(ch: char, upper: char)
    requires upper in UPPER
    ensures ch == upper || CasePair(ch, upper) <==> UpperChar(ch) == upper
  {
    InOrder();
    CaseExact(ch);
    UpperExact(upper);
  }

  /** The keywords that may be column names, or stand before the text of a literal. */
  lemma TypedKeywordsExact(s: string)
    ensures IsTypedKeyword(LookupIdent(s)) <==> Spells(s, DATE) || Spells(s, TIME) || Spells(s, EMAIL)
  {
    hide LookupIdent, Spells;
    KeywordsExact(s, DATE);
    KeywordsExact(s, TIME);
    KeywordsExact(s, EMAIL);
  }

  // ------------------------------------------------------------------------- symbols

  /** The texts of a symbol. */
  function SymbolTexts(t: TokenType): (texts: set<string>)
  {
    match t
    case ASTERISK => {"*"}
    case COMMA => {","}
    case PAREN_OPEN => {"("}
    case PAREN_CLOSE => {")"}
    case DOT => {"."}
    case SEMICOLON => {";"}
    case EQUALS => {"="}
    case LESS_THAN => {"<"}
    case GREATER_THAN => {">"}
    case LESS_EQUAL => {"<="}
    case GREATER_EQUAL => {">="}
    case NOT_EQUAL => {"!=", "<>"}
    case _ => {}
  }

  lemma SymbolsExact(tok: Token)
    ensures IsOperator(tok) <==> tok.literal in SymbolTexts(tok.typ)
  {
    var lit := tok.literal;
    if |lit| == 1 {
      assert lit == [lit[0]];
    } else if |lit| == 2 {
      assert lit == [lit[0], lit[1]];
    }
  }

  /** The parser reads as comparisons exactly the texts that WHERE knows as operators. */
  lemma ComparisonsExact(op: string)
    ensures IsComparison(OperatorType(op)) <==> op in OPERATORS
  {
    if |op| == 1 {
      assert op == [op[0]];
    } else if |op| == 2 {
      assert op == [op[0], op[1]];
    }
    assert OPERATORS[0] == "=" && OPERATORS[1] == "!=" && OPERATORS[2] == "<>" && OPERATORS[3] == "<";
    assert OPERATORS[4] == ">" && OPERATORS[5] == "<=" && OPERATORS[6] == ">=";
  }

  // -------------------------------------------------------------------------- tokens

  ghost predicate WordShape(s: string)
  {
    s != [] && s[0] !in DIGITS && forall i :: 0 <= i < |s| ==> InWords(s[i])
  }

  ghost predicate AllDigits(s: string)
  {
    s != [] && forall i :: 0 <= i < |s| ==> s[i] in DIGITS
  }

  /** Digits, or digits, a dot and digits. */
  ghost predicate NumberShape(s: string)
  {
    AllDigits(s) || exists i :: 0 < i < |s| && s[i] == '.' && AllDigits(s[..i]) && AllDigits(s[i + 1..])
  }

  lemma {:induction false} SpanWordExact(s: string)
    ensures SpanWord(s) == |s| <==> forall i :: 0 <= i < |s| ==> IsWord(s[i])
  {
    if s != [] {
      SpanWordExact(s[1..]);
      assert forall i :: 0 < i < |s| ==> s[i] == s[1..][i - 1];
    }
  }

  lemma {:induction false} SpanDigitsExact(s: string)
    ensures forall i :: 0 <= i < SpanDigits(s) ==> IsDigit(s[i])
    ensures SpanDigits(s) < |s| ==> !IsDigit(s[SpanDigits(s)])
  {
    if s != [] {
      SpanDigitsExact(s[1..]);
    }
  }

  lemma {:induction false} SpanStringExact(s: string)
    ensures SpanString(s) == |s| <==> '\'' !in s && NUL !in s
  {
    if s != [] {
      SpanStringExact(s[1..]);
      assert s == [s[0]] + s[1..];
    }
  }

  lemma DigitsExact(s: string)
    ensures AllDigits(s) <==> s != [] && SpanDigits(s) == |s|
  {
    SpanDigitsExact(s);
    forall ch ensures IsDigit(ch) <==> ch in DIGITS {
      DigitExact(ch);
    }
  }

  lemma {:induction false} SpanDigitsPrefix(s: string, i: nat)
    requires i < |s| && SpanDigits(s[..i]) == i && !IsDigit(s[i])
    ensures SpanDigits(s) == i
  {
    if i > 0 {
      assert s[..i][1..] == s[1..][..i - 1];
      SpanDigitsPrefix(s[1..], i - 1);
    }
  }

  lemma {:induction false} SpanDigitsOf(s: string)
    ensures SpanDigits(s[..SpanDigits(s)]) == SpanDigits(s)
  {
    var d := SpanDigits(s);
    if d > 0 {
      SpanDigitsOf(s[1..]);
      assert s[..d][1..] == s[1..][..d - 1];
    }
  }

  lemma NumbersExact(s: string)
    ensures s != [] && IsDigit(s[0]) && SpanNumber(s) == |s| <==> NumberShape(s)
  {
    var d := SpanDigits(s);
    DigitsExact(s);
    if s != [] && IsDigit(s[0]) && SpanNumber(s) == |s| && d < |s| {
      SpanDigitsOf(s);
      DigitsExact(s[..d]);
      DigitsExact(s[d + 1..]);
      assert 0 < d && s[d] == '.' && AllDigits(s[..d]) && AllDigits(s[d + 1..]);
    }
    if i :| 0 < i < |s| && s[i] == '.' && AllDigits(s[..i]) && AllDigits(s[i + 1..]) {
      DigitsExact(s[..i]);
      DigitsExact(s[i + 1..]);
      SpanDigitsPrefix(s, i);
    }
  }

  /** The token's text is a word, a number, a text without quotes, or a symbol. */
  ghost predicate Spelled(tok: Token)
  {
    var text := tok.literal;
    match tok.typ
    case IDENTIFIER => WordShape(text) && forall k :: !Spells(text, k)
    case Word(k) => WordShape(text) && Spells(text, k)
    case NUMBER => NumberShape(text)
    case STRING => '\'' !in text && NUL !in text
    case _ => text in SymbolTexts(tok.typ)
  }

  /** The tokens that the lexer reads, see ScanSound and ScanComplete, are these. */
  lemma WellFormedExact(tok: Token)
    ensures WellFormed(tok) <==> Spelled(tok)
  {
    hide Spells, LookupIdent, NumberShape, SpanNumber, IsLetter, IsDigit, IsWord, IsOperator;
    var text := tok.literal;
    SpanWordExact(text);
    SpanStringExact(text);
    NumbersExact(text);
    SymbolsExact(tok);
    ShapeExact(text);
    if tok.typ.Word? {
      KeywordsExact(text, tok.typ.keyword);
    } else {
      KeywordsExact(text, SELECT);
    }
  }

  lemma ShapeExact(s: string)
    ensures WordShape(s) <==> s != [] && IsLetter(s[0]) && SpanWord(s) == |s|
  {
    hide IsLetter, IsDigit, IsWord, InWords, SpanWord;
    AllInWords(s);
    if s != [] {
      FirstLetter(s[0]);
    }
  }

  lemma AllInWords(s: string)
    ensures (forall i :: 0 <= i < |s| ==> InWords(s[i])) <==> SpanWord(s) == |s|
  {
    hide IsLetter, IsDigit, IsWord, InWords;
    SpanWordExact(s);
    forall i | 0 <= i < |s| ensures IsWord(s[i]) <==> InWords(s[i]) {
      CharactersExact(s[i]);
    }
  }

  lemma FirstLetter(ch: char)
    ensures IsLetter(ch) <==> InWords(ch) && ch !in DIGITS
  {
    CharactersExact(ch);
    DigitExact(ch);
  }
}
