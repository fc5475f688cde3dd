/** The parser object: a cursor with one token of lookahead over a token list. */
module Parsers {
  import opened Values
  import opened Tokens
  import opened Ast

  class Parser {
    const tokens: seq<Token>
    const rules: LiteralRules
    var curPos: nat
    var curTok: Token
    var peekTok: Token
    /** How many tokens lie before the current one. */
    ghost var done: nat

    ghost predicate Valid()
      reads this
    {
      && done <= |tokens|
      && curTok == Head(tokens[done..])
      && peekTok == Head(Tail(tokens[done..]))
      && curPos == if done + 2 <= |tokens| then done + 2 else |tokens|
    }

    /** The tokens from the current one on. */
    ghost function Rest(): (ts: seq<Token>)
      requires Valid()
      reads this
    {
      tokens[done..]
    }

    constructor (tokens: seq<Token>, rules: LiteralRules)
      ensures Valid() && Rest() == tokens && this.tokens == tokens && this.rules == rules
    {
      this.tokens, this.rules, this.curPos := tokens, rules, 0;
      this.curTok, this.peekTok := Token(ILLEGAL, ""), Token(ILLEGAL, "");
      this.done := 0;
      new;
      Advance();
      Advance();
    }

    /** The bare step of nextToken, also used to fill the two token fields. */
    method Advance()
      requires curPos <= |tokens|
      modifies this`curTok, this`peekTok, this`curPos
      ensures curTok == old(peekTok)
      ensures peekTok == Head(tokens[old(curPos)..])
      ensures curPos == if old(curPos) < |tokens| then old(curPos) + 1 else old(curPos)
    {
      curTok := peekTok;
      if curPos < |tokens| {
        peekTok := tokens[curPos];
        curPos := curPos + 1;
      } else {
        peekTok := EOF_TOKEN;
      }
    }

    method NextToken()
      requires Valid()
      modifies this
      ensures Valid() && Rest() == Tail(old(Rest()))
    {
      Advance();
      if done < |tokens| {
        done := done + 1;
      }
    }

    /** What a parsing method reports, with the tokens it left. */
    ghost function Outcome<T>(r: Result<T, SyntaxError>): (p: Parsed<T>)
      requires Valid()
      reads this
    {
      if r.Ok? then Ok((r.value, Rest())) else Err(r.error)
    }

    // ------------------------------------------------------------------- expressions

    method ParseExpression() returns (r: Result<Expr, SyntaxError>)
      requires Valid()
      modifies this
      ensures Valid() && Outcome(r) == ParseOr(rules, old(Rest()))
      decreases |Rest()|, 3
    {
      r := ParseOrExpression();
    }

    method ParseOrExpression() returns (r: Result<Expr, SyntaxError>)
      requires Valid()
      modifies this
      ensures Valid() && Outcome(r) == ParseOr(rules, old(Rest()))
      decreases |Rest()|, 2
    {
      ghost var start := Rest();
      var left :- ParseAndExpression();
      while curTok.typ == Word(OR)
        invariant Valid() && |Rest()| < |start|
        invariant ParseOr(rules, start) == OrLoop(rules, left, Rest())
        decreases |Rest()|
      {
        var op := curTok.literal;
        NextToken();
        var right :- ParseAndExpression();
        left := Logical(left, op, right);
      }
      return Ok(left);
    }

    method ParseAndExpression() returns (r: Result<Expr, SyntaxError>)
      requires Valid()
      modifies this
      ensures Valid() && Outcome(r) == ParseAnd(rules, old(Rest()))
      decreases |Rest()|, 1
    {
      ghost var start := Rest();
      var left :- ParseComparisonExpression();
      while curTok.typ == Word(AND)
        invariant Valid() && |Rest()| < |start|
        invariant ParseAnd(rules, start) == AndLoop(rules, left, Rest())
        decreases |Rest()|
      {
        var op := curTok.literal;
        NextToken();
        var right :- ParseComparisonExpression();
        left := Logical(left, op, right);
      }
      return Ok(left);
    }

    method ParseComparisonExpression() returns (r: Result<Expr, SyntaxError>)
      requires Valid()
      modifies this
      ensures Valid() && Outcome(r) == ParseComparison(rules, old(Rest()))
      decreases |Rest()|, 0
    {
      if curTok.typ == PAREN_OPEN {
        NextToken();
        var inner :- ParseExpression();
        if curTok.typ != PAREN_CLOSE {
          return Err(Expected(")", curTok.literal));
        }
        NextToken();
        return Ok(inner);
      }
      var left :- ParseAtom();
      if IsComparison(curTok.typ) {
        var op := curTok.literal;
        NextToken();
        var right :- ParseAtom();
        return Ok(Binary(left, op, right));
      }
      return Ok(left);
    }

    method ParseAtom() returns (r: Result<Expr, SyntaxError>)
      requires Valid()
      modifies this
      ensures Valid() && Outcome(r) == Ast.ParseAtom(rules, old(Rest()))
    {
      var tok := curTok;
      if tok.typ == IDENTIFIER {
        NextToken();
        if curTok.typ == DOT {
          NextToken();
          if curTok.typ != IDENTIFIER {
            return Err(Expected("column name", curTok.literal));
          }
          var colName := curTok.literal;
          NextToken();
          return Ok(Identifier(tok.literal, colName));
        }
        return Ok(Identifier("", tok.literal));
      } else if IsTypedKeyword(tok.typ) {
        NextToken();
        if curTok.typ == STRING {
          var lit :- TypedLiteral(rules, tok.typ, curTok.literal);
          NextToken();
          return Ok(lit);
        }
        return Ok(Identifier("", ToLower(tok.literal)));
      } else if tok.typ == STRING {
        NextToken();
        return Ok(Literal(tok.literal, Str(tok.literal), LiteralString));
      } else if tok.typ == NUMBER {
        NextToken();
        var lit :- NumberLiteral(rules, tok.literal);
        return Ok(lit);
      } else if tok.typ == Word(TRUE) {
        NextToken();
        return Ok(Literal("true", Bool(true), LiteralBool));
      } else if tok.typ == Word(FALSE) {
        NextToken();
        return Ok(Literal("false", Bool(false), LiteralBool));
      }
      return Err(Expected("expression", tok.literal));
    }

    // -------------------------------------------------------------------- statements

    method ParseQualifiedIdentifier() returns (r: Result<Expr, SyntaxError>)
      requires Valid()
      modifies this
      ensures Valid() && Outcome(r) == ParseQualified(old(Rest()))
    {
      if !IsName(curTok.typ) {
        return Err(Expected("identifier", curTok.literal));
      }
      var firstPart := ToLower(curTok.literal);
      NextToken();
      if curTok.typ == DOT {
        NextToken();
        if !IsName(curTok.typ) {
          return Err(Expected("column name", curTok.literal));
        }
        var colName := ToLower(curTok.literal);
        NextToken();
        return Ok(Identifier(firstPart, colName));
      }
      return Ok(Identifier("", firstPart));
    }

    method ParseIdentifierList() returns (r: Result<seq<Expr>, SyntaxError>)
      requires Valid()
      modifies this
      ensures Valid() && Outcome(r) == ParseFields(old(Rest()))
    {
      ghost var start := Rest();
      if curTok.typ == ASTERISK {
        NextToken();
        return Ok([Identifier("", "*")]);
      }
      if curTok.typ == PAREN_OPEN {
        NextToken();
      }
      var first :- ParseQualifiedIdentifier();
      var identifiers := [first];
      ghost var listed := FieldLoop([first], Rest());
      while curTok.typ == COMMA
        invariant Valid()
        invariant listed == FieldLoop(identifiers, Rest())
        decreases |Rest()|
      {
        NextToken();
        var ident :- ParseQualifiedIdentifier();
        identifiers := identifiers + [ident];
      }
      if curTok.typ == PAREN_CLOSE {
        NextToken();
      }
      return Ok(identifiers);
    }

    method ParseJoin() returns (r: Result<JoinClause, SyntaxError>)
      requires Valid()
      modifies this
      ensures Valid() && Outcome(r) == Ast.ParseJoin(rules, old(Rest()))
    {
      if !IsJoinKeyword(curTok.typ) {
        return Err(Expected("JOIN keyword", curTok.literal));
      }
      var joinType := JoinTypeOf(curTok.typ);
      if curTok.typ != Word(JOIN) {
        NextToken();
      }
      if curTok.typ == Word(OUTER) {
        NextToken();
      }
      if curTok.typ != Word(JOIN) {
        return Err(Expected("JOIN", curTok.literal));
      }
      NextToken();
      if curTok.typ != IDENTIFIER {
        return Err(Expected("table name", curTok.literal));
      }
      var rightTable := Identifier("", curTok.literal);
      NextToken();
      if curTok.typ != Word(ON) {
        return Err(Expected("ON", curTok.literal));
      }
      NextToken();
      var condition :- ParseExpression();
      return Ok(JoinClause(joinType, rightTable, condition));
    }

    method ParseSelect() returns (r: Result<SelectStatement, SyntaxError>)
      requires Valid()
      modifies this
      ensures Valid() && Outcome(r) == Ast.ParseSelect(rules, old(Rest()))
    {
      NextToken();
      var fields :- ParseIdentifierList();
      if curTok.typ != Word(FROM) {
        return Err(Expected("FROM", curTok.literal));
      }
      NextToken();
      if curTok.typ != IDENTIFIER {
        return Err(Expected("table name", curTok.literal));
      }
      var tableName := Identifier("", curTok.literal);
      NextToken();
      var joins: seq<JoinClause> := [];
      ghost var listed := JoinLoop(rules, [], Rest());
      while IsJoinKeyword(curTok.typ)
        invariant Valid()
        invariant listed == JoinLoop(rules, joins, Rest())
        decreases |Rest()|
      {
        var clause :- ParseJoin();
        joins := joins + [clause];
      }
      var where: Option<Expr> := None;
      if curTok.typ == Word(WHERE) {
        NextToken();
        var condition :- ParseExpression();
        where := Some(condition);
      }
      if curTok.typ == SEMICOLON {
        NextToken();
      }
      return Ok(SelectStatement(fields, tableName, joins, where));
    }
  }
}
