/** A SELECT from its text to its answer. */
module TextLaws {
  import opened Values
  import opened JoinSpec
  import opened Tokens
  import opened LexerLaws
  import opened Ast
  import opened Predicates
  import opened Printer
  import opened PrintSelect
  import opened SelectLaws
  import opened Planner
  import opened Executor
  import opened QueryLaws
  import opened JoinChains
  import opened AnswerLaws
  import SelectGrammar
  import opened Engine

  /** A text is a SELECT statement exactly when its tokens begin with those of a tree of the grammar
      that begins with the word SELECT. */
  lemma ParsingIff(sql: string, rules: LiteralRules, s: SelectStatement)
    ensures Parsing(sql, rules) == Ok(s) <==>
      && Tokenize(sql).Some? && Head(Tokenize(sql).value).typ == Word(SELECT)
      && exists t, rest :: SelectGrammar.SelectDerives(rules, t, Tokenize(sql).value, s, rest)
  {
    hide Tokenize, ParseSelect, SelectGrammar.SelectDerives;
    if Tokenize(sql).Some? {
      var ts := Tokenize(sql).value;
      if ParseSelect(rules, ts).Ok? {
        SelectGrammar.SelectIsGrammar(rules, ts, ParseSelect(rules, ts).value.0, ParseSelect(rules, ts).value.1);
      }
      if t, rest :| SelectGrammar.SelectDerives(rules, t, ts, s, rest) {
        SelectGrammar.SelectIsGrammar(rules, ts, s, rest);
      }
    }
  }

  /** A SELECT from one table answers from the rows of that table. */
  lemma TextTable(sql: string, rules: LiteralRules, s: SelectStatement, data: Data, joinNames: Plan -> string,
                  r: Result<seq<Row>, EngineError>)
    requires Mergeable(data) && Executed(sql, rules, data, joinNames, r)
    requires Parsing(sql, rules) == Ok(s) && Named(s) && s.joins == [] && s.tableName.name in data
    requires s.where.Some? ==> Supported(s.where.value)
    ensures r.Ok? && RowsAnswered(s, data[s.tableName.name].rows, r.value)
  {
    hide Parsing, Supported, Answer, RowsAnswered, Mergeable, LabelsOf;
    TableAnswerExact(s, data, LabelsOf(s.tableName.name, joinNames),
                     if r.Ok? then Ok(r.value) else Err(r.error.reason));
  }

  lemma {:induction false} WordUndotted(s: string)
    requires SpanWord(s) == |s|
    ensures !Dotted(s)
  {
    if s != [] {
      WordUndotted(s[1..]);
    }
  }

  lemma NameUndotted(rules: LiteralRules, e: Expr)
    requires e.Identifier? && PrintableAtom(rules, e)
    ensures !Dotted(e.name)
  {
    hide SpanWord, Dotted, LookupIdent;
    if IsPlainName(e.name) {
      WordUndotted(e.name);
    } else {
      KeywordsUndotted();
    }
  }

  lemma KeywordsUndotted()
    ensures !Dotted("date") && !Dotted("time") && !Dotted("email")
  {
  }

  lemma ClauseUndotted(rules: LiteralRules, j: JoinClause, tables: set<string>)
    requires PrintableJoin(rules, j) && j.rightTable.Identifier? && ClauseOf(j, tables).Ok?
    ensures !Dotted(ClauseOf(j, tables).value.leftColumn)
  {
    hide PrintableAtom, IsComparison, IsJoinType, PrintableTable, Dotted;
    NameUndotted(rules, j.onCondition.left);
  }

  /** A SELECT that passes the planner, with its join clauses. */
  ghost predicate Planned(s: SelectStatement, cs: seq<Clause>, data: Data)
  {
    && Named(s) && s.joins != [] && s.tableName.name in data && ClausesOf(s.joins, data.Keys) == Ok(cs)
    && (s.where.Some? ==> Supported(s.where.value))
  }

  /** The joins fail, or each from the second on keeps its meaning. */
  ghost predicate JoinsAsMeant(name: string, cs: seq<Clause>, data: Data)
    requires PlainData(data) && PlainClauses(name, cs, data)
  {
    || Relational(name, cs, data).Err?
    || forall m :: 2 <= m <= |cs| ==> KeepsMeaning(name, cs[..m], data)
  }

  /** The answer from the rows of the joins by table-qualified names, or their error. */
  ghost predicate RelationalAnswer(s: SelectStatement, cs: seq<Clause>, data: Data, r: Result<seq<Row>, EngineError>)
    requires PlainData(data) && Planned(s, cs, data) && PlainClauses(s.tableName.name, cs, data)
  {
    var relational := Relational(s.tableName.name, cs, data);
    if relational.Err? then r == Err(QueryFailed(relational.error))
    else r.Ok? && RowsAnswered(s, relational.value, r.value)
  }

  /** Joins that are as they are meant are answered as they are meant. */
  ghost predicate MeantAnswer(s: SelectStatement, cs: seq<Clause>, data: Data, r: Result<seq<Row>, EngineError>)
  {
    && PlainData(data) && Planned(s, cs, data) && PlainClauses(s.tableName.name, cs, data)
    && (JoinsAsMeant(s.tableName.name, cs, data) ==> RelationalAnswer(s, cs, data, r))
  }

  /** No column name in the ON conditions of a parsed SELECT holds a dot. */
  lemma ParsedPlain(sql: string, rules: LiteralRules, s: SelectStatement, cs: seq<Clause>, data: Data)
    requires Parsing(sql, rules) == Ok(s) && Planned(s, cs, data)
    ensures PlainClauses(s.tableName.name, cs, data)
  {
    hide Tokenize, ParseSelect, PrintableJoin, ClauseOf, ClausesOf, PrintableFields, PrintableTable, Printable, Dotted;
    TokensWellFormed(sql);
    SelectLeaves(rules, Tokenize(sql).value);
    forall k | 0 <= k < |cs| ensures cs[k].table in data && !Dotted(cs[k].leftColumn) {
      assert PrintableJoin(rules, s.joins[k]) && ClauseOf(s.joins[k], data.Keys) == Ok(cs[k]);
      ClauseUndotted(rules, s.joins[k], data.Keys);
    }
  }

  /** A planned SELECT whose joins keep their meaning is answered by the joins by table-qualified
      names; where those fail it fails as they do. */
  lemma AnswerRelational(s: SelectStatement, cs: seq<Clause>, data: Data, labels: Labels,
                         r: Result<seq<Row>, EngineError>)
    requires PlainData(data) && Planned(s, cs, data) && PlainClauses(s.tableName.name, cs, data)
    requires Mergeable(data) && Answered(s, data, labels, r)
    ensures MeantAnswer(s, cs, data, r)
  {
    hide Relational, KeepsMeaning, ClausesOf, PlainData, Mergeable, From, Supported, Answer, RowsAnswered;
    SelectRelational(s, cs, data, labels);
    AnswerExact(s, data, labels, if r.Ok? then Ok(r.value) else Err(r.error.reason));
  }

  /** The same from the text of the statement. */
  lemma TextRelational(sql: string, rules: LiteralRules, s: SelectStatement, cs: seq<Clause>, data: Data,
                       joinNames: Plan -> string, r: Result<seq<Row>, EngineError>)
    requires PlainData(data) && Mergeable(data) && Executed(sql, rules, data, joinNames, r)
    requires Parsing(sql, rules) == Ok(s) && Planned(s, cs, data)
    ensures MeantAnswer(s, cs, data, r)
  {
    hide Parsing, PlainClauses, ClausesOf, PlainData, Mergeable, Answer, LabelsOf, MeantAnswer;
    ParsedPlain(sql, rules, s, cs, data);
    AnswerRelational(s, cs, data, LabelsOf(s.tableName.name, joinNames), r);
  }
}
