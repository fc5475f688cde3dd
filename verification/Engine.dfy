/** From SQL text to rows, for SELECT. */
module Engine {
  import opened Values
  import opened Tables
  import opened Tokens
  import opened Ast
  import Lexers
  import Parsers
  import opened Predicates
  import opened Printer
  import opened PrintText
  import opened PrintSelect
  import opened Planner
  import opened Executor
  import opened QueryLaws

  datatype EngineError =
    | LexerError
    | NotASelect
    | ParseError(cause: SyntaxError)
    | QueryFailed(reason: QueryError)

  // --------------------------------------------------- what the parser hands over

  predicate AllNames(fields: seq<Expr>)
  {
    forall f :: f in fields ==> f.Identifier?
  }

  predicate Joined(joins: seq<JoinClause>)
  {
    forall j :: j in joins ==> j.rightTable.Identifier? && IsJoinType(j.joinType)
  }

  lemma {:induction false} FieldLoopNames(fields: seq<Expr>, ts: seq<Token>)
    requires AllNames(fields)
    ensures FieldLoop(fields, ts).Ok? ==> AllNames(FieldLoop(fields, ts).value.0)
    decreases |ts|
  {
    if Head(ts).typ == COMMA {
      var field := ParseQualified(Tail(ts));
      if field.Ok? {
        FieldLoopNames(fields + [field.value.0], field.value.1);
      }
    }
  }

  lemma {:induction false} JoinLoopJoined(rules: LiteralRules, joins: seq<JoinClause>, ts: seq<Token>)
    requires Joined(joins)
    ensures JoinLoop(rules, joins, ts).Ok? ==> Joined(JoinLoop(rules, joins, ts).value.0)
    decreases |ts|
  {
    if IsJoinKeyword(Head(ts).typ) {
      var clause := ParseJoin(rules, ts);
      if clause.Ok? {
        JoinLoopJoined(rules, joins + [clause.value.0], clause.value.1);
      }
    }
  }

  /** A parsed SELECT has names where names belong, and only the four kinds of join. */
  lemma ParsedNamed(rules: LiteralRules, ts: seq<Token>)
    requires ParseSelect(rules, ts).Ok?
    ensures Named(ParseSelect(rules, ts).value.0) && Joined(ParseSelect(rules, ts).value.0.joins)
  {
    hide FieldLoop, JoinLoop, ParseWhere, ParseQualified, IsJoinType;
    var fields := ParseFields(Tail(ts));
    FieldsNames(Tail(ts));
    JoinLoopJoined(rules, [], Tail(Tail(fields.value.1)));
  }

  lemma FieldsNames(ts: seq<Token>)
    ensures ParseFields(ts).Ok? ==> AllNames(ParseFields(ts).value.0)
  {
    hide FieldLoop;
    var ts1 := if Head(ts).typ == PAREN_OPEN then Tail(ts) else ts;
    var first := ParseQualified(ts1);
    if first.Ok? {
      FieldLoopNames([first.value.0], first.value.1);
    }
  }

  // ---------------------------------------------------------------------- execution

  /** The result for a statement. */
  ghost predicate Answered(s: SelectStatement, data: Data, labels: Labels, r: Result<seq<Row>, EngineError>)
    requires Mergeable(data)
  {
    && Named(s)
    && (r.Err? ==> r.error.QueryFailed?)
    && Answer(s, data, labels, if r.Ok? then Ok(r.value) else Err(r.error.reason))
  }

  /** Lexing and parsing: the statement, or the error of the stage that fails. */
  function Parsing(sql: string, rules: LiteralRules): (r: Result<SelectStatement, EngineError>)
  {
    var tokens := Tokenize(sql);
    if tokens.None? then Err(LexerError)
    else if Head(tokens.value).typ != Word(SELECT) then Err(NotASelect)
    else
      var parsed := ParseSelect(rules, tokens.value);
      if parsed.Err? then Err(ParseError(parsed.error)) else Ok(parsed.value.0)
  }

  lemma ParsingNamed(sql: string, rules: LiteralRules)
    ensures Parsing(sql, rules).Ok? ==> Named(Parsing(sql, rules).value)
  {
    hide Tokenize, ParseSelect, Named;
    if Parsing(sql, rules).Ok? {
      ParsedNamed(rules, Tokenize(sql).value);
    }
  }

  method ParseText(sql: string, rules: LiteralRules) returns (r: Result<SelectStatement, EngineError>)
    ensures r == Parsing(sql, rules)
  {
    hide Tokenize, ParseSelect;
    var tokens := Lexers.Tokenize(sql);
    if tokens.None? {
      return Err(LexerError);
    }
    var p := new Parsers.Parser(tokens.value, rules);
    if p.curTok.typ != Word(SELECT) {
      return Err(NotASelect);
    }
    var s := p.ParseSelect();
    if s.Err? {
      return Err(ParseError(s.error));
    }
    return Ok(s.value);
  }

  /** The result for a text. */
  ghost predicate Executed(sql: string, rules: LiteralRules, data: Data, joinNames: Plan -> string,
                           r: Result<seq<Row>, EngineError>)
    requires Mergeable(data)
  {
    var s := Parsing(sql, rules);
    if s.Err? then r == Err(s.error)
    else Named(s.value) && Answered(s.value, data, LabelsOf(s.value.tableName.name, joinNames), r)
  }

  method Execute(sql: string, rules: LiteralRules, db: map<string, Table>, ghost data: Data, joinNames: Plan -> string)
    returns (r: Result<seq<Row>, EngineError>)
    requires data == Snapshot(db) && Mergeable(data)
    ensures Executed(sql, rules, data, joinNames, r)
  {
    hide Mergeable, Snapshot, Answer, Parsing, LabelsOf;
    ParsingNamed(sql, rules);
    var s := ParseText(sql, rules);
    if s.Err? {
      return Err(s.error);
    }
    var rows := RunSelect(s.value, db, data, joinNames);
    return if rows.Ok? then Ok(rows.value) else Err(QueryFailed(rows.error));
  }

  /** Running the print of a SELECT without string literals answers that very SELECT. */
  lemma PrintedAnswered(rules: LiteralRules, s: SelectStatement, data: Data, joinNames: Plan -> string,
                        r: Result<seq<Row>, EngineError>)
    requires PrintableSelect(rules, s) && NoStringLiterals(s) && Mergeable(data)
    requires Executed(SelectText(s), rules, data, joinNames, r)
    ensures Named(s) && Answered(s, data, LabelsOf(s.tableName.name, joinNames), r)
  {
    hide Tokenize, ParseSelect, PrintableSelect, NoStringLiterals, Mergeable, SelectText, Answered;
    SelectTextParses(rules, s);
    assert Head(SelectTokens(s)).typ == Word(SELECT);
  }

  // ------------------------------------------------------------ logical words in lower case

  /** `a = true and a = true`, with the word as it is spelled. */
  function Conjunction(word: string): (e: Expr)
  {
    var test := Binary(Identifier("", "a"), "=", Literal("true", Bool(true), LiteralBool));
    Logical(test, word, test)
  }

  /** The parser reads both spellings of the condition; the predicate builder refuses one. */
  lemma LowerCaseAnd(rules: LiteralRules)
    ensures forall word :: word in ["and", "AND"] ==>
      && Tokenize(Text(Conjunction(word))).Some?
      && ParseOr(rules, Tokenize(Text(Conjunction(word))).value) == Ok((Conjunction(word), []))
    ensures Build(Conjunction("and")) == Err(UnsupportedOperator("and"))
    ensures Build(Conjunction("AND")).Ok?
  {
    hide Tokenize, ParseOr, Text;
    BuildMeaning(Conjunction("AND"));
    forall word | word in ["and", "AND"]
      ensures Tokenize(Text(Conjunction(word))).Some?
      ensures ParseOr(rules, Tokenize(Text(Conjunction(word))).value) == Ok((Conjunction(word), []))
    {
      ConjunctionPrintable(rules, word);
      TextRoundTripIff(rules, Conjunction(word));
    }
  }

  lemma ConjunctionPrintable(rules: LiteralRules, word: string)
    requires word == "and" || word == "AND"
    ensures Printable(rules, Conjunction(word)) && CountStrings(Conjunction(word)) == 0
  {
    hide IsPlainName, IsLogicalWord;
    AndWord(word);
    PlainA();
  }

  lemma AndWord(word: string)
    requires word == "and" || word == "AND"
    ensures IsLogicalWord(word)
  {
    assert Upper("and") == "AND" && Upper("AND") == "AND";
    hide Upper;
    LettersWellFormed(word);
  }

  lemma PlainA()
    ensures IsPlainName("a")
  {
    assert Upper("a") == "A" && KeywordOf("A").None?;
    LettersSpan("a");
  }
}
