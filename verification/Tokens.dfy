/** Tokens, and the lexer as a function of the remaining text. */
module Tokens {
  import opened Values

  datatype Keyword =
    | SELECT | FROM | WHERE | INSERT | INTO | VALUES | UPDATE | SET | DELETE
    | AND | OR | TRUE | FALSE
    | JOIN | INNER | LEFT | RIGHT | FULL | OUTER | ON
    | DATE | TIME | EMAIL
    | CREATE | DROP | ALTER | DATABASE | USE | RENAME | TO

  datatype TokenType =
    | ILLEGAL | EOF
    | IDENTIFIER | STRING | NUMBER
    | Word(keyword: Keyword)
    | ASTERISK | COMMA | PAREN_OPEN | PAREN_CLOSE
    | EQUALS | LESS_THAN | GREATER_THAN | LESS_EQUAL | GREATER_EQUAL | NOT_EQUAL
    | DOT | SEMICOLON

  datatype Token = Token(typ: TokenType, literal: string)

  // -------------------------------------------------------------------- characters

  predicate IsLetter(ch: char)
  {
    'a' <= ch <= 'z' || 'A' <= ch <= 'Z' || ch == '_'
  }

  predicate IsDigit(ch: char)
  {
    '0' <= ch <= '9'
  }

  predicate IsWord(ch: char)
  {
    IsLetter(ch) || IsDigit(ch)
  }

  predicate IsSpace(ch: char)
  {
    ch == ' ' || ch == '\t' || ch == '\n' || ch == '\r'
  }

  const NUL: char := '\0'

  /** The character at a position, NUL past the end. */
  function At(s: string, i: nat): (ch: char)
  {
    if i < |s| then s[i] else NUL
  }

  // ---------------------------------------------------------------------- keywords

  function UpperChar(ch: char): (u: char)
  {
    if 'a' <= ch <= 'z' then ch - 'a' + 'A' else ch
  }

  function Upper(s: string): (u: string)
    ensures |u| == |s|
  {
    if s == [] then [] else [UpperChar(s[0])] + Upper(s[1..])
  }

  /** The keyword that an upper-case word is. */
  function KeywordOf(word: string): (k: Option<Keyword>)
  {
    if word == "SELECT" then Some(SELECT)
    else if word == "FROM" then Some(FROM)
    else if word == "WHERE" then Some(WHERE)
    else if word == "INSERT" then Some(INSERT)
    else if word == "INTO" then Some(INTO)
    else if word == "VALUES" then Some(VALUES)
    else if word == "UPDATE" then Some(UPDATE)
    else if word == "SET" then Some(SET)
    else if word == "DELETE" then Some(DELETE)
    else if word == "AND" then Some(AND)
    else if word == "OR" then Some(OR)
    else if word == "TRUE" then Some(TRUE)
    else if word == "FALSE" then Some(FALSE)
    else if word == "JOIN" then Some(JOIN)
    else if word == "INNER" then Some(INNER)
    else if word == "LEFT" then Some(LEFT)
    else if word == "RIGHT" then Some(RIGHT)
    else if word == "FULL" then Some(FULL)
    else if word == "OUTER" then Some(OUTER)
    else if word == "ON" then Some(ON)
    else if word == "DATE" then Some(DATE)
    else if word == "TIME" then Some(TIME)
    else if word == "EMAIL" then Some(EMAIL)
    else if word == "CREATE" then Some(CREATE)
    else if word == "DROP" then Some(DROP)
    else if word == "ALTER" then Some(ALTER)
    else if word == "DATABASE" then Some(DATABASE)
    else if word == "USE" then Some(USE)
    else if word == "RENAME" then Some(RENAME)
    else if word == "TO" then Some(TO)
    else None
  }

  function LookupIdent(ident: string): (t: TokenType)
  {
    var k := KeywordOf(Upper(ident));
    if k.Some? then Word(k.value) else IDENTIFIER
  }

  // --------------------------------------------------------------- longest prefixes

  function SpanSpaces(s: string): (n: nat)
    ensures n <= |s|
  {
    if s == [] || !IsSpace(s[0]) then 0 else 1 + SpanSpaces(s[1..])
  }

  function SpanWord(s: string): (n: nat)
    ensures n <= |s|
  {
    if s == [] || !IsWord(s[0]) then 0 else 1 + SpanWord(s[1..])
  }

  function SpanDigits(s: string): (n: nat)
    ensures n <= |s|
  {
    if s == [] || !IsDigit(s[0]) then 0 else 1 + SpanDigits(s[1..])
  }

  /** Digits, and a fraction when a dot is followed by a digit. */
  function SpanNumber(s: string): (n: nat)
    ensures SpanDigits(s) <= n <= |s|
  {
    var d := SpanDigits(s);
    if At(s, d) == '.' && IsDigit(At(s, d + 1)) then d + 1 + SpanDigits(s[d + 1..]) else d
  }

  /** Everything up to a quote, a NUL or the end. */
  function SpanString(s: string): (n: nat)
    ensures n <= |s|
  {
    if s == [] || s[0] == '\'' || s[0] == NUL then 0 else 1 + SpanString(s[1..])
  }

  // --------------------------------------------------------------------- the lexer

  function Single(ch: char): (t: TokenType)
  {
    match ch
    case '*' => ASTERISK
    case ',' => COMMA
    case '(' => PAREN_OPEN
    case ')' => PAREN_CLOSE
    case '=' => EQUALS
    case '<' => LESS_THAN
    case '>' => GREATER_THAN
    case '.' => DOT
    case ';' => SEMICOLON
    case _ => ILLEGAL
  }

  /** Two characters that form one operator. */
  function Double(a: char, b: char): (t: TokenType)
  {
    if a == '<' && b == '=' then LESS_EQUAL
    else if a == '<' && b == '>' then NOT_EQUAL
    else if a == '>' && b == '=' then GREATER_EQUAL
    else if a == '!' && b == '=' then NOT_EQUAL
    else ILLEGAL
  }

  /** The token at the start of text that does not begin with white space, and the number of
      characters consumed. */
  function ScanToken(s: string): (r: (Token, nat))
    ensures r.1 <= |s|
    ensures s != [] ==> r.1 > 0
    ensures r.0.typ == EOF <==> At(s, 0) == NUL
  {
    var ch := At(s, 0);
    if Double(ch, At(s, 1)) != ILLEGAL then (Token(Double(ch, At(s, 1)), s[..2]), 2)
    else if Single(ch) != ILLEGAL then (Token(Single(ch), s[..1]), 1)
    else if ch == '\'' then
      var n := SpanString(s[1..]);
      (Token(STRING, s[1..n + 1]), if At(s, n + 1) == '\'' then n + 2 else n + 1)
    else if ch == NUL then (Token(EOF, ""), if s == [] then 0 else 1)
    else if IsLetter(ch) then
      (Token(LookupIdent(s[..SpanWord(s)]), s[..SpanWord(s)]), SpanWord(s))
    else if IsDigit(ch) then (Token(NUMBER, s[..SpanNumber(s)]), SpanNumber(s))
    else (Token(ILLEGAL, s[..1]), 1)
  }

  /** The next token and the text after it. */
  function NextToken(s: string): (r: (Token, string))
    ensures |r.1| <= |s|
    ensures r.0.typ != EOF ==> |r.1| < |s|
  {
    var t := s[SpanSpaces(s)..];
    var (tok, n) := ScanToken(t);
    (tok, t[n..])
  }

  /** All tokens, or nothing when a character is illegal. */
  function Tokenize(s: string): (r: Option<seq<Token>>)
    decreases |s|
  {
    var (tok, rest) := NextToken(s);
    if tok.typ == EOF then Some([])
    else if tok.typ == ILLEGAL then None
    else
      var more := Tokenize(rest);
      if more.None? then None else Some([tok] + more.value)
  }
}
