/** Syntax trees and what the parser makes of a token list. */
module Ast {
  import opened Values
  import opened Tokens

  datatype LiteralKind =
    | LiteralString
    | LiteralInt
    | LiteralFloat
    | LiteralBool
    | LiteralDate
    | LiteralTime
    | LiteralEmail

  /** `text` is what the printer writes for a literal. */
  datatype Expr =
    | Identifier(table: string, name: string)
    | Literal(text: string, value: Value, kind: LiteralKind)
    | Binary(left: Expr, op: string, right: Expr)
    | Logical(left: Expr, op: string, right: Expr)

  datatype JoinClause = JoinClause(joinType: string, rightTable: Expr, onCondition: Expr)

  datatype SelectStatement = SelectStatement(
    fields: seq<Expr>,
    tableName: Expr,
    joins: seq<JoinClause>,
    where: Option<Expr>)

  datatype SyntaxError = Expected(what: string, got: string) | BadLiteral(text: string)

  /** The checks and conversions that the parser takes from Go's libraries. */
  datatype LiteralRules = LiteralRules(
    date: string -> bool,
    time: string -> bool,
    email: string -> bool,
    atoi: string -> Option<i64>,
    parseFloat: string -> Option<real>)

  type Parsed<T> = Result<(T, seq<Token>), SyntaxError>

  // ------------------------------------------------------------------------ cursor

  const EOF_TOKEN: Token := Token(EOF, "")

  function Head(ts: seq<Token>): (tok: Token)
  {
    if ts == [] then EOF_TOKEN else ts[0]
  }

  function Tail(ts: seq<Token>): (rest: seq<Token>)
  {
    if ts == [] then [] else ts[1..]
  }

  // ------------------------------------------------------------------- token classes

  predicate IsComparison(t: TokenType)
  {
    t == EQUALS || t == LESS_THAN || t == GREATER_THAN || t == LESS_EQUAL || t == GREATER_EQUAL || t == NOT_EQUAL
  }

  /** Keywords that may also be column names. */
  predicate IsTypedKeyword(t: TokenType)
  {
    t == Word(DATE) || t == Word(TIME) || t == Word(EMAIL)
  }

  predicate IsJoinKeyword(t: TokenType)
  {
    t == Word(INNER) || t == Word(LEFT) || t == Word(RIGHT) || t == Word(FULL) || t == Word(JOIN)
  }

  function LowerChar(ch: char): (l: char)
  {
    if 'A' <= ch <= 'Z' then ch - 'A' + 'a' else ch
  }

  function ToLower(s: string): (l: string)
  {
    if s == [] then [] else [LowerChar(s[0])] + ToLower(s[1..])
  }

  // ------------------------------------------------------------------------- atoms

  /** A typed literal such as DATE '2024-01-13'. */
  function TypedLiteral(rules: LiteralRules, t: TokenType, value: string): (r: Result<Expr, SyntaxError>)
  {
    if t == Word(DATE) then
      if rules.date(value) then Ok(Literal("DATE '" + value + "'", Str(value), LiteralDate)) else Err(BadLiteral(value))
    else if t == Word(TIME) then
      if rules.time(value) then Ok(Literal("TIME '" + value + "'", Str(value), LiteralTime)) else Err(BadLiteral(value))
    else
      if rules.email(value) then Ok(Literal("EMAIL '" + value + "'", Str(value), LiteralEmail))
      else Err(BadLiteral(value))
  }

  function NumberLiteral(rules: LiteralRules, text: string): (r: Result<Expr, SyntaxError>)
  {
    if rules.atoi(text).Some? then Ok(Literal(text, Int(rules.atoi(text).value), LiteralInt))
    else if rules.parseFloat(text).Some? then Ok(Literal(text, Float(rules.parseFloat(text).value), LiteralFloat))
    else Err(BadLiteral(text))
  }

  function ParseAtom(rules: LiteralRules, ts: seq<Token>): (r: Parsed<Expr>)
    ensures r.Ok? ==> |r.value.1| < |ts|
  {
    var tok, rest := Head(ts), Tail(ts);
    if tok.typ == IDENTIFIER then
      if Head(rest).typ == DOT then
        var col := Head(Tail(rest));
        if col.typ != IDENTIFIER then Err(Expected("column name", col.literal))
        else Ok((Identifier(tok.literal, col.literal), Tail(Tail(rest))))
      else Ok((Identifier("", tok.literal), rest))
    else if IsTypedKeyword(tok.typ) then
      if Head(rest).typ == STRING then
        var lit :- TypedLiteral(rules, tok.typ, Head(rest).literal);
        Ok((lit, Tail(rest)))
      else Ok((Identifier("", ToLower(tok.literal)), rest))
    else if tok.typ == STRING then Ok((Literal(tok.literal, Str(tok.literal), LiteralString), rest))
    else if tok.typ == NUMBER then
      var lit :- NumberLiteral(rules, tok.literal);
      Ok((lit, rest))
    else if tok.typ == Word(TRUE) then Ok((Literal("true", Bool(true), LiteralBool), rest))
    else if tok.typ == Word(FALSE) then Ok((Literal("false", Bool(false), LiteralBool), rest))
    else Err(Expected("expression", tok.literal))
  }

  // ------------------------------------------------------------------- expressions

  function ParseOr(rules: LiteralRules, ts: seq<Token>): (r: Parsed<Expr>)
    ensures r.Ok? ==> |r.value.1| < |ts|
    decreases |ts|, 3
  {
    var (left, rest) :- ParseAnd(rules, ts);
    OrLoop(rules, left, rest)
  }

  /** More operands of a chain of ORs. */
  function OrLoop(rules: LiteralRules, left: Expr, ts: seq<Token>): (r: Parsed<Expr>)
    ensures r.Ok? ==> |r.value.1| <= |ts|
    decreases |ts|, 4
  {
    if Head(ts).typ == Word(OR) then
      var (right, rest) :- ParseAnd(rules, Tail(ts));
      OrLoop(rules, Logical(left, Head(ts).literal, right), rest)
    else Ok((left, ts))
  }

  function ParseAnd(rules: LiteralRules, ts: seq<Token>): (r: Parsed<Expr>)
    ensures r.Ok? ==> |r.value.1| < |ts|
    decreases |ts|, 1
  {
    var (left, rest) :- ParseComparison(rules, ts);
    AndLoop(rules, left, rest)
  }

  function AndLoop(rules: LiteralRules, left: Expr, ts: seq<Token>): (r: Parsed<Expr>)
    ensures r.Ok? ==> |r.value.1| <= |ts|
    decreases |ts|, 2
  {
    if Head(ts).typ == Word(AND) then
      var (right, rest) :- ParseComparison(rules, Tail(ts));
      AndLoop(rules, Logical(left, Head(ts).literal, right), rest)
    else Ok((left, ts))
  }

  function ParseComparison(rules: LiteralRules, ts: seq<Token>): (r: Parsed<Expr>)
    ensures r.Ok? ==> |r.value.1| < |ts|
    decreases |ts|, 0
  {
    if Head(ts).typ == PAREN_OPEN then
      var (inner, rest) :- ParseOr(rules, Tail(ts));
      if Head(rest).typ != PAREN_CLOSE then Err(Expected(")", Head(rest).literal))
      else Ok((inner, Tail(rest)))
    else
      var (left, rest) :- ParseAtom(rules, ts);
      if IsComparison(Head(rest).typ) then
        var (right, rest') :- ParseAtom(rules, Tail(rest));
        Ok((Binary(left, Head(rest).literal, right), rest'))
      else Ok((left, rest))
  }

  // -------------------------------------------------------------------- statements

  /** A select list item: a name, possibly qualified, folded to lower case. */
  function ParseQualified(ts: seq<Token>): (r: Parsed<Expr>)
    ensures r.Ok? ==> |r.value.1| < |ts|
  {
    var tok, rest := Head(ts), Tail(ts);
    if !IsName(tok.typ) then Err(Expected("identifier", tok.literal))
    else if Head(rest).typ == DOT then
      var col := Head(Tail(rest));
      if !IsName(col.typ) then Err(Expected("column name", col.literal))
      else Ok((Identifier(ToLower(tok.literal), ToLower(col.literal)), Tail(Tail(rest))))
    else Ok((Identifier("", ToLower(tok.literal)), rest))
  }

  predicate IsName(t: TokenType)
  {
    t == IDENTIFIER || IsTypedKeyword(t)
  }

  /** The select list; one parenthesis on either side is accepted. */
  function ParseFields(ts: seq<Token>): (r: Parsed<seq<Expr>>)
    ensures r.Ok? ==> |r.value.1| < |ts|
  {
    if Head(ts).typ == ASTERISK then Ok(([Identifier("", "*")], Tail(ts)))
    else
      var ts1 := if Head(ts).typ == PAREN_OPEN then Tail(ts) else ts;
      var (first, rest) :- ParseQualified(ts1);
      var (fields, rest') :- FieldLoop([first], rest);
      Ok((fields, if Head(rest').typ == PAREN_CLOSE then Tail(rest') else rest'))
  }

  function FieldLoop(fields: seq<Expr>, ts: seq<Token>): (r: Parsed<seq<Expr>>)
    ensures r.Ok? ==> |r.value.1| <= |ts|
    decreases |ts|
  {
    if Head(ts).typ == COMMA then
      var (field, rest) :- ParseQualified(Tail(ts));
      FieldLoop(fields + [field], rest)
    else Ok((fields, ts))
  }

  function JoinTypeOf(t: TokenType): (s: string)
  {
    if t == Word(LEFT) then "LEFT"
    else if t == Word(RIGHT) then "RIGHT"
    else if t == Word(FULL) then "FULL"
    else "INNER"
  }

  function ParseJoin(rules: LiteralRules, ts: seq<Token>): (r: Parsed<JoinClause>)
    ensures r.Ok? ==> |r.value.1| < |ts|
  {
    var t := Head(ts).typ;
    if !IsJoinKeyword(t) then Err(Expected("JOIN keyword", Head(ts).literal))
    else
      var ts1 := if t == Word(JOIN) then ts else Tail(ts);
      var ts2 := if Head(ts1).typ == Word(OUTER) then Tail(ts1) else ts1;
      if Head(ts2).typ != Word(JOIN) then Err(Expected("JOIN", Head(ts2).literal))
      else
        var ts3 := Tail(ts2);
        if Head(ts3).typ != IDENTIFIER then Err(Expected("table name", Head(ts3).literal))
        else
          var ts4 := Tail(ts3);
          if Head(ts4).typ != Word(ON) then Err(Expected("ON", Head(ts4).literal))
          else
            var (condition, rest) :- ParseOr(rules, Tail(ts4));
            Ok((JoinClause(JoinTypeOf(t), Identifier("", Head(ts3).literal), condition), rest))
  }

  function JoinLoop(rules: LiteralRules, joins: seq<JoinClause>, ts: seq<Token>): (r: Parsed<seq<JoinClause>>)
    ensures r.Ok? ==> |r.value.1| <= |ts|
    decreases |ts|
  {
    if IsJoinKeyword(Head(ts).typ) then
      var (clause, rest) :- ParseJoin(rules, ts);
      JoinLoop(rules, joins + [clause], rest)
    else Ok((joins, ts))
  }

  function ParseWhere(rules: LiteralRules, ts: seq<Token>): (r: Parsed<Option<Expr>>)
    ensures r.Ok? ==> |r.value.1| <= |ts|
  {
    if Head(ts).typ == Word(WHERE) then
      var (condition, rest) :- ParseOr(rules, Tail(ts));
      Ok((Some(condition), rest))
    else Ok((None, ts))
  }

  /** A SELECT statement and the tokens after it; the keyword itself is not looked at. */
  function ParseSelect(rules: LiteralRules, ts: seq<Token>): (r: Parsed<SelectStatement>)
    ensures r.Ok? ==> |r.value.1| < |ts|
  {
    var (fields, ts1) :- ParseFields(Tail(ts));
    if Head(ts1).typ != Word(FROM) then Err(Expected("FROM", Head(ts1).literal))
    else
      var ts2 := Tail(ts1);
      if Head(ts2).typ != IDENTIFIER then Err(Expected("table name", Head(ts2).literal))
      else
        var (joins, ts3) :- JoinLoop(rules, [], Tail(ts2));
        var (where, ts4) :- ParseWhere(rules, ts3);
        var rest := if Head(ts4).typ == SEMICOLON then Tail(ts4) else ts4;
        Ok((SelectStatement(fields, Identifier("", Head(ts2).literal), joins, where), rest))
  }
}
