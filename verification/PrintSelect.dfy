/** Printing SELECT statements, and reading the print back. */
module PrintSelect {
  import opened Values
  import opened Tokens
  import opened LexerLaws
  import opened Ast
  import opened Grammar
  import opened Printer
  import opened PrintText

  // ---------------------------------------------------------------------- printable

  /** A lower-case name the select list accepts. */
  predicate IsFieldName(name: string)
  {
    IsName(LookupIdent(name)) && WellFormed(Token(LookupIdent(name), name)) && ToLower(name) == name
  }

  predicate PrintableField(e: Expr)
  {
    e.Identifier? && IsFieldName(e.name) && (e.table != "" ==> IsFieldName(e.table))
  }

  const ALL_FIELDS: seq<Expr> := [Identifier("", "*")]

  predicate PrintableFields(fields: seq<Expr>)
  {
    fields == ALL_FIELDS || (fields != [] && forall i :: 0 <= i < |fields| ==> PrintableField(fields[i]))
  }

  predicate PrintableTable(e: Expr)
  {
    e.Identifier? && e.table == "" && IsPlainName(e.name)
  }

  predicate IsJoinType(s: string)
  {
    s == "INNER" || s == "LEFT" || s == "RIGHT" || s == "FULL"
  }

  predicate PrintableJoin(rules: LiteralRules, j: JoinClause)
  {
    IsJoinType(j.joinType) && PrintableTable(j.rightTable) && Printable(rules, j.onCondition)
  }

  predicate PrintableSelect(rules: LiteralRules, s: SelectStatement)
  {
    && PrintableFields(s.fields)
    && PrintableTable(s.tableName)
    && (forall i :: 0 <= i < |s.joins| ==> PrintableJoin(rules, s.joins[i]))
    && (s.where.Some? ==> Printable(rules, s.where.value))
  }

  // ------------------------------------------------------------------------- tokens

  const SELECT_TOKEN: Token := Token(Word(SELECT), "SELECT")
  const FROM_TOKEN: Token := Token(Word(FROM), "FROM")
  const WHERE_TOKEN: Token := Token(Word(WHERE), "WHERE")
  const JOIN_TOKEN: Token := Token(Word(JOIN), "JOIN")
  const ON_TOKEN: Token := Token(Word(ON), "ON")
  const COMMA_TOKEN: Token := Token(COMMA, ",")
  const STAR_TOKEN: Token := Token(ASTERISK, "*")
  const SEMICOLON_TOKEN: Token := Token(SEMICOLON, ";")

  function NameToken(name: string): (tok: Token)
  {
    Token(LookupIdent(name), name)
  }

  function FieldTokens(e: Expr): (ts: seq<Token>)
  {
    match e
    case Identifier(table, name) =>
      if table != "" then [NameToken(table), DOT_TOKEN, NameToken(name)] else [NameToken(name)]
    case _ => []
  }

  function MoreFieldTokens(fields: seq<Expr>): (ts: seq<Token>)
  {
    if fields == [] then [] else [COMMA_TOKEN] + FieldTokens(fields[0]) + MoreFieldTokens(fields[1..])
  }

  function FieldListTokens(fields: seq<Expr>): (ts: seq<Token>)
  {
    if fields == [] then []
    else if fields == ALL_FIELDS then [STAR_TOKEN]
    else FieldTokens(fields[0]) + MoreFieldTokens(fields[1..])
  }

  function JoinToken(joinType: string): (tok: Token)
  {
    Token(LookupIdent(joinType), joinType)
  }

  function TableToken(e: Expr): (tok: Token)
  {
    Token(IDENTIFIER, if e.Identifier? then e.name else "")
  }

  function JoinTokens(j: JoinClause): (ts: seq<Token>)
  {
    [JoinToken(j.joinType), JOIN_TOKEN, TableToken(j.rightTable), ON_TOKEN] + TreeTokens(FullTree(j.onCondition))
  }

  function JoinsTokens(joins: seq<JoinClause>): (ts: seq<Token>)
  {
    if joins == [] then [] else JoinTokens(joins[0]) + JoinsTokens(joins[1..])
  }

  function WhereTokens(where: Option<Expr>): (ts: seq<Token>)
  {
    if where.None? then [] else [WHERE_TOKEN] + TreeTokens(FullTree(where.value))
  }

  function SelectTokens(s: SelectStatement): (ts: seq<Token>)
  {
    [SELECT_TOKEN] + FieldListTokens(s.fields) + [FROM_TOKEN, TableToken(s.tableName)]
    + JoinsTokens(s.joins) + WhereTokens(s.where)
  }

  // -------------------------------------------------------------- parsing the tokens

  lemma FieldParses(e: Expr, rest: seq<Token>)
    requires PrintableField(e) && Head(rest).typ != DOT
    ensures ParseQualified(FieldTokens(e) + rest) == Ok((e, rest))
  {
    hide WellFormed, LookupIdent, ToLower;
    var ts := FieldTokens(e) + rest;
    if e.table != "" {
      assert ts[1..][1..][1..] == rest;
    } else {
      assert ts[1..] == rest;
    }
  }

  lemma FieldHead(e: Expr, rest: seq<Token>)
    requires PrintableField(e)
    ensures IsName(Head(FieldTokens(e) + rest).typ)
  {
    hide WellFormed, LookupIdent, ToLower;
  }

  lemma {:induction false} FieldLoopParses(before: seq<Expr>, fields: seq<Expr>, rest: seq<Token>)
    requires forall i :: 0 <= i < |fields| ==> PrintableField(fields[i])
    requires Head(rest).typ != DOT && Head(rest).typ != COMMA
    ensures FieldLoop(before, MoreFieldTokens(fields) + rest) == Ok((before + fields, rest))
    decreases fields
  {
    hide PrintableField, FieldTokens, ParseQualified;
    if fields == [] {
      assert MoreFieldTokens(fields) + rest == rest && before + fields == before;
    } else {
      assert forall i :: 0 <= i < |fields[1..]| ==> fields[1..][i] == fields[i + 1];
      var after := MoreFieldTokens(fields[1..]) + rest;
      var ts := MoreFieldTokens(fields) + rest;
      assert ts[1..] == FieldTokens(fields[0]) + after;
      FieldParses(fields[0], after);
      FieldLoopParses(before + [fields[0]], fields[1..], rest);
      assert before + [fields[0]] + fields[1..] == before + fields;
    }
  }

  lemma FieldsParse(fields: seq<Expr>, rest: seq<Token>)
    requires PrintableFields(fields) && Head(rest).typ == Word(FROM)
    ensures ParseFields(FieldListTokens(fields) + rest) == Ok((fields, rest))
  {
    hide WellFormed, LookupIdent, ParseQualified, FieldLoop, ToLower, PrintableField, FieldTokens;
    var ts := FieldListTokens(fields) + rest;
    if fields == ALL_FIELDS {
      assert ts[1..] == rest;
    } else {
      var after := MoreFieldTokens(fields[1..]) + rest;
      assert ts == FieldTokens(fields[0]) + after;
      FieldHead(fields[0], after);
      FieldParses(fields[0], after);
      FieldLoopParses([fields[0]], fields[1..], rest);
      assert [fields[0]] + fields[1..] == fields;
    }
  }

  lemma JoinTypeTokens(joinType: string)
    requires IsJoinType(joinType)
    ensures IsJoinKeyword(JoinToken(joinType).typ) && JoinToken(joinType).typ != Word(JOIN)
    ensures JoinTypeOf(JoinToken(joinType).typ) == joinType
    ensures WellFormed(JoinToken(joinType))
  {
    UpperFixed(joinType);
    assert KeywordOf(joinType).Some?;
    LettersWellFormed(joinType);
  }

  lemma JoinParses(rules: LiteralRules, j: JoinClause, rest: seq<Token>)
    requires PrintableJoin(rules, j) && Closing(Head(rest).typ)
    ensures Ast.ParseJoin(rules, JoinTokens(j) + rest) == Ok((j, rest))
  {
    hide LookupIdent, WellFormed, ParseOr, TreeTokens, FullTree, JoinTypeOf, IsJoinType, Head, Tail, Printable, Closing;
    JoinTypeTokens(j.joinType);
    PrintedParses(rules, j.onCondition, rest);
    var ts4 := TreeTokens(FullTree(j.onCondition)) + rest;
    var ts3 := [ON_TOKEN] + ts4;
    var ts2 := [TableToken(j.rightTable)] + ts3;
    var ts1 := [JOIN_TOKEN] + ts2;
    assert JoinTokens(j) + rest == [JoinToken(j.joinType)] + ts1;
    Cons(JoinToken(j.joinType), ts1);
    Cons(JOIN_TOKEN, ts2);
    Cons(TableToken(j.rightTable), ts3);
    Cons(ON_TOKEN, ts4);
  }

  lemma Cons(tok: Token, rest: seq<Token>)
    ensures Head([tok] + rest) == tok && Tail([tok] + rest) == rest
  {
  }

  /** The token that begins what follows the joins. */
  predicate AfterJoins(next: TokenType)
  {
    next == Word(WHERE) || next == SEMICOLON || next == EOF
  }

  lemma EndsJoins(next: TokenType)
    ensures AfterJoins(next) ==> !IsJoinKeyword(next)
  {
  }

  lemma JoinHead(j: JoinClause, more: seq<Token>)
    ensures Head(JoinTokens(j) + more) == JoinToken(j.joinType)
  {
    hide TreeTokens, FullTree, LookupIdent;
  }

  lemma KeywordsClose(t: TokenType)
    ensures IsJoinKeyword(t) || AfterJoins(t) ==> Closing(t)
  {
  }

  lemma JoinsHead(joins: seq<JoinClause>, rest: seq<Token>)
    requires joins != [] ==> IsJoinType(joins[0].joinType)
    requires AfterJoins(Head(rest).typ)
    ensures Closing(Head(JoinsTokens(joins) + rest).typ)
    ensures joins != [] ==> IsJoinKeyword(Head(JoinsTokens(joins) + rest).typ)
    ensures joins == [] ==> JoinsTokens(joins) + rest == rest
  {
    hide JoinTokens, JoinToken, JoinTypeOf, IsJoinType, Head, IsJoinKeyword, AfterJoins, Closing, WellFormed;
    KeywordsClose(Head(JoinsTokens(joins) + rest).typ);
    if joins != [] {
      JoinTypeTokens(joins[0].joinType);
      JoinHead(joins[0], JoinsTokens(joins[1..]) + rest);
      assert JoinsTokens(joins) + rest == JoinTokens(joins[0]) + (JoinsTokens(joins[1..]) + rest);
    } else {
      assert JoinsTokens(joins) + rest == rest;
    }
  }

  lemma {:induction false} JoinLoopParses(rules: LiteralRules, before: seq<JoinClause>, joins: seq<JoinClause>,
                                          rest: seq<Token>)
    requires forall i :: 0 <= i < |joins| ==> PrintableJoin(rules, joins[i])
    requires AfterJoins(Head(rest).typ)
    ensures JoinLoop(rules, before, JoinsTokens(joins) + rest) == Ok((before + joins, rest))
    decreases joins
  {
    hide Printable, PrintableTable, JoinTokens, Ast.ParseJoin, IsJoinType, Closing, Head, IsJoinKeyword, AfterJoins;
    EndsJoins(Head(rest).typ);
    JoinsHead(joins, rest);
    if joins == [] {
      assert before + joins == before;
    } else {
      var after := JoinsTokens(joins[1..]) + rest;
      assert JoinsTokens(joins) + rest == JoinTokens(joins[0]) + after;
      JoinsHead(joins[1..], rest);
      JoinParses(rules, joins[0], after);
      JoinLoopParses(rules, before + [joins[0]], joins[1..], rest);
      assert before + [joins[0]] + joins[1..] == before + joins;
    }
  }

  lemma WhereParses(rules: LiteralRules, where: Option<Expr>, rest: seq<Token>)
    requires where.Some? ==> Printable(rules, where.value)
    requires Head(rest).typ == SEMICOLON || Head(rest).typ == EOF
    ensures ParseWhere(rules, WhereTokens(where) + rest) == Ok((where, rest))
    ensures AfterJoins(Head(WhereTokens(where) + rest).typ)
  {
    hide ParseOr, TreeTokens, FullTree, Printable;
    if where.None? {
      assert WhereTokens(where) + rest == rest;
    } else {
      PrintedParses(rules, where.value, rest);
      assert (WhereTokens(where) + rest)[1..] == TreeTokens(FullTree(where.value)) + rest;
    }
  }

  /** Parsing the tokens of a printed SELECT, with or without a semicolon, gives it back. */
  lemma SelectParses(rules: LiteralRules, s: SelectStatement, semicolon: bool)
    requires PrintableSelect(rules, s)
    ensures ParseSelect(rules, SelectTokens(s) + if semicolon then [SEMICOLON_TOKEN] else []) == Ok((s, []))
  {
    hide ParseFields, JoinLoop, ParseWhere, FieldListTokens, JoinsTokens;
    hide WhereTokens, PrintableFields, PrintableJoin, Printable, WellFormed;
    var rest := if semicolon then [SEMICOLON_TOKEN] else [];
    var ts4 := WhereTokens(s.where) + rest;
    var ts3 := JoinsTokens(s.joins) + ts4;
    var table := TableToken(s.tableName);
    var ts1 := [FROM_TOKEN] + ([table] + ts3);
    var ts := SelectTokens(s) + rest;
    assert ts == [SELECT_TOKEN] + (FieldListTokens(s.fields) + ts1);
    assert ts[1..] == FieldListTokens(s.fields) + ts1;
    FieldsParse(s.fields, ts1);
    assert ts1[1..] == [table] + ts3 && ts1[1..][1..] == ts3;
    WhereParses(rules, s.where, rest);
    JoinLoopParses(rules, [], s.joins, ts4);
    assert [] + s.joins == s.joins;
  }

  // --------------------------------------------------------------------------- text

  function FieldListText(fields: seq<Expr>): (s: string)
  {
    if fields == [] then ""
    else if |fields| == 1 then Text(fields[0])
    else Text(fields[0]) + ", " + FieldListText(fields[1..])
  }

  function JoinText(j: JoinClause): (s: string)
  {
    j.joinType + " JOIN " + Text(j.rightTable) + " ON " + Text(j.onCondition)
  }

  function JoinsText(joins: seq<JoinClause>): (s: string)
  {
    if joins == [] then "" else " " + JoinText(joins[0]) + JoinsText(joins[1..])
  }

  function WhereText(where: Option<Expr>): (s: string)
  {
    if where.None? then "" else " WHERE " + Text(where.value)
  }

  /** What String() prints for a SELECT. */
  function SelectText(s: SelectStatement): (text: string)
  {
    "SELECT " + FieldListText(s.fields) + " FROM " + Text(s.tableName) + JoinsText(s.joins) + WhereText(s.where)
  }

  predicate NoStringLiterals(s: SelectStatement)
  {
    && (forall i :: 0 <= i < |s.joins| ==> CountStrings(s.joins[i].onCondition) == 0)
    && (s.where.Some? ==> CountStrings(s.where.value) == 0)
  }

  lemma KeywordWellFormed(tok: Token)
    requires tok.typ.Word? && KeywordOf(tok.literal) == Some(tok.typ.keyword) && tok.literal != []
    requires forall i :: 0 <= i < |tok.literal| ==> 'A' <= tok.literal[i] <= 'Z'
    ensures WellFormed(tok)
  {
    hide KeywordOf;
    UpperFixed(tok.literal);
    LettersWellFormed(tok.literal);
  }

  lemma KeywordsWellFormed()
    ensures WellFormed(SELECT_TOKEN) && WellFormed(FROM_TOKEN) && WellFormed(WHERE_TOKEN)
    ensures WellFormed(JOIN_TOKEN) && WellFormed(ON_TOKEN)
  {
    hide WellFormed;
    KeywordWellFormed(SELECT_TOKEN);
    KeywordWellFormed(FROM_TOKEN);
    KeywordWellFormed(WHERE_TOKEN);
    KeywordWellFormed(JOIN_TOKEN);
    KeywordWellFormed(ON_TOKEN);
  }

  /** A word after a space. */
  function Spaced1(word: string, more: string): (s: string)
  {
    " " + word + more
  }

  lemma WordRead(tok: Token, more: string)
    requires WellFormed(tok) && tok.typ != STRING && TextEnds(more)
    ensures Tokenize(Spaced1(tok.literal, more)) == Then([tok], Tokenize(more))
    ensures TextEnds(Spaced1(tok.literal, more))
  {
    EndsHere(tok, more);
    assert TextEnds(Spaced1(tok.literal, more));
    hide Tokenize, WellFormed, TextEnds, Boundary;
    TextStep(" ", tok, more);
  }

  /** A last space may be dropped. */
  lemma SpaceRead(text: string)
    ensures Tokenize(" " + text) == Tokenize(text) && TextEnds(" " + text)
  {
    hide Tokenize, NextToken;
    LeadingSpace(text);
  }

  lemma FieldText(e: Expr, rest: string)
    requires PrintableField(e) && TextEnds(rest)
    ensures Tokenize(Text(e) + rest) == Then(FieldTokens(e), Tokenize(rest))
  {
    hide Tokenize, LookupIdent, WellFormed, TextEnds, ToLower;
    if e.table != "" {
      var t, n := NameToken(e.table), NameToken(e.name);
      NameDot(t, e.name + rest);
      TokenText(n, rest);
      var s2 := "." + (e.name + rest);
      assert s2 == "" + "." + (e.name + rest);
      TextStep("", DOT_TOKEN, e.name + rest);
      assert Text(e) + rest == "" + e.table + s2;
      TextStep("", t, s2);
      ThenThen([DOT_TOKEN], [n], Tokenize(rest));
      ThenThen([t], [DOT_TOKEN] + [n], Tokenize(rest));
      assert [t] + ([DOT_TOKEN] + [n]) == [t, DOT_TOKEN, n];
    } else {
      TokenText(NameToken(e.name), rest);
    }
  }

  lemma NameDot(t: Token, after: string)
    requires IsName(t.typ)
    ensures Boundary(t, "." + after) && WellFormed(DOT_TOKEN) && Boundary(DOT_TOKEN, after)
  {
  }

  lemma CommaText(rest: string)
    ensures Tokenize(", " + rest) == Then([COMMA_TOKEN], Tokenize(rest))
  {
    assert WellFormed(COMMA_TOKEN) && Boundary(COMMA_TOKEN, " " + rest) && Spelling(COMMA_TOKEN) == ",";
    hide Tokenize, WellFormed, Boundary;
    TextStep("", COMMA_TOKEN, " " + rest);
    LeadingSpace(rest);
    assert ", " + rest == "" + "," + (" " + rest);
  }

  lemma {:induction false} FieldListRead(fields: seq<Expr>, rest: string)
    requires fields != [] && TextEnds(rest)
    requires forall i :: 0 <= i < |fields| ==> PrintableField(fields[i])
    ensures Tokenize(FieldListText(fields) + rest) ==
      Then(FieldTokens(fields[0]) + MoreFieldTokens(fields[1..]), Tokenize(rest))
  {
    hide Tokenize, PrintableField, FieldTokens, Text, Then;
    var first, others := fields[0], fields[1..];
    if |fields| == 1 {
      FieldText(first, rest);
      assert FieldTokens(first) + MoreFieldTokens(others) == FieldTokens(first);
    } else {
      var tail := FieldListText(others) + rest;
      assert FieldListText(fields) + rest == Text(first) + (", " + tail);
      FieldText(first, ", " + tail);
      CommaText(tail);
      assert forall i :: 0 <= i < |others| ==> others[i] == fields[i + 1];
      FieldListRead(others, rest);
      var otherTokens := FieldTokens(others[0]) + MoreFieldTokens(others[1..]);
      ThenThen([COMMA_TOKEN], otherTokens, Tokenize(rest));
      ThenThen(FieldTokens(first), [COMMA_TOKEN] + otherTokens, Tokenize(rest));
      assert MoreFieldTokens(others) == [COMMA_TOKEN] + otherTokens;
    }
  }

  lemma FieldsRead(fields: seq<Expr>, rest: string)
    requires PrintableFields(fields) && TextEnds(rest)
    ensures Tokenize(FieldListText(fields) + rest) == Then(FieldListTokens(fields), Tokenize(rest))
  {
    if fields == ALL_FIELDS {
      assert WellFormed(STAR_TOKEN) && Text(fields[0]) == "*";
      hide Tokenize, WellFormed, TextEnds;
      TokenText(STAR_TOKEN, rest);
    } else {
      hide Tokenize, PrintableField, TextEnds;
      FieldListRead(fields, rest);
    }
  }

  lemma SpacesEnd(s: string)
    ensures TextEnds(" " + s) && TextEnds("")
  {
  }

  lemma JoinRead(rules: LiteralRules, j: JoinClause, rest: string)
    requires PrintableJoin(rules, j) && CountStrings(j.onCondition) == 0 && TextEnds(rest)
    ensures Tokenize(" " + JoinText(j) + rest) == Then(JoinTokens(j), Tokenize(rest))
  {
    JoinTypeTokens(j.joinType);
    KeywordsWellFormed();
    hide Tokenize, WellFormed, LookupIdent, TextEnds, Then;
    hide FullTree, TreeTokens, JoinTokens, Spaced1, IsJoinType, Printable;
    var text := Text(j.onCondition) + rest;
    var name := TableToken(j.rightTable);
    var s3 := Spaced1("ON", " " + text);
    var s2 := Spaced1(name.literal, s3);
    TextTokens(rules, j.onCondition, rest);
    SpaceRead(text);
    WordRead(ON_TOKEN, " " + text);
    WordRead(name, s3);
    WordRead(JOIN_TOKEN, s2);
    WordRead(JoinToken(j.joinType), Spaced1("JOIN", s2));
    JoinThens(j, Tokenize(rest));
    JoinLayout(j.joinType, name.literal, Text(j.onCondition), rest);
  }

  lemma JoinLayout(joinType: string, table: string, condition: string, rest: string)
    ensures " " + (joinType + " JOIN " + table + " ON " + condition) + rest ==
      Spaced1(joinType, Spaced1("JOIN", Spaced1(table, Spaced1("ON", " " + (condition + rest)))))
  {
    var on := Spaced1("ON", " " + (condition + rest));
    assert " ON " + condition + rest == on;
    assert table + " ON " + condition + rest == table + on;
    assert " JOIN " + table + " ON " + condition + rest == Spaced1("JOIN", Spaced1(table, on));
  }

  lemma JoinThens(j: JoinClause, more: Option<seq<Token>>)
    ensures var condition := TreeTokens(FullTree(j.onCondition));
      Then([JoinToken(j.joinType)],
        Then([JOIN_TOKEN], Then([TableToken(j.rightTable)], Then([ON_TOKEN], Then(condition, more)))))
      == Then(JoinTokens(j), more)
  {
    hide Then, TreeTokens, FullTree;
    var condition, name := TreeTokens(FullTree(j.onCondition)), TableToken(j.rightTable);
    ThenThen([ON_TOKEN], condition, more);
    ThenThen([name], [ON_TOKEN] + condition, more);
    ThenThen([JOIN_TOKEN], [name] + ([ON_TOKEN] + condition), more);
    ThenThen([JoinToken(j.joinType)], [JOIN_TOKEN] + ([name] + ([ON_TOKEN] + condition)), more);
    assert [JoinToken(j.joinType)] + ([JOIN_TOKEN] + ([name] + ([ON_TOKEN] + condition))) == JoinTokens(j);
  }

  lemma {:induction false} JoinsRead(rules: LiteralRules, joins: seq<JoinClause>, rest: string)
    requires forall i :: 0 <= i < |joins| ==> PrintableJoin(rules, joins[i]) && CountStrings(joins[i].onCondition) == 0
    requires TextEnds(rest)
    ensures Tokenize(JoinsText(joins) + rest) == Then(JoinsTokens(joins), Tokenize(rest))
    ensures TextEnds(JoinsText(joins) + rest)
  {
    hide Tokenize, PrintableJoin, JoinTokens, JoinText, CountStrings;
    if joins == [] {
      assert JoinsText(joins) + rest == rest;
      NothingFirst(Tokenize(rest));
    } else {
      hide TextEnds, Then;
      var tail := JoinsText(joins[1..]) + rest;
      JoinsRead(rules, joins[1..], rest);
      JoinRead(rules, joins[0], tail);
      assert JoinsText(joins) + rest == " " + JoinText(joins[0]) + tail;
      SpacesEnd(JoinText(joins[0]) + tail);
      assert " " + JoinText(joins[0]) + tail == " " + (JoinText(joins[0]) + tail);
      ThenThen(JoinTokens(joins[0]), JoinsTokens(joins[1..]), Tokenize(rest));
    }
  }

  lemma NothingFirst(more: Option<seq<Token>>)
    ensures Then([], more) == more
  {
    if more.Some? {
      assert [] + more.value == more.value;
    }
  }

  lemma WhereRead(rules: LiteralRules, where: Option<Expr>)
    requires where.Some? ==> Printable(rules, where.value) && CountStrings(where.value) == 0
    ensures Tokenize(WhereText(where)) == Some(WhereTokens(where)) && TextEnds(WhereText(where))
  {
    hide Tokenize, WellFormed, FullTree, TreeTokens, Printable, Text, CountStrings, TextEnds, Spaced1;
    NoMoreText();
    if where.Some? {
      var text := Text(where.value);
      KeywordsWellFormed();
      TextTokens(rules, where.value, "");
      assert text + "" == text;
      SpaceRead(text);
      WordRead(WHERE_TOKEN, " " + text);
      WhereLayout(text);
      NothingLast(TreeTokens(FullTree(where.value)));
      NothingLast([WHERE_TOKEN]);
    }
  }

  lemma WhereLayout(text: string)
    ensures " WHERE " + text == Spaced1("WHERE", " " + text)
  {
  }

  lemma NothingLast(ts: seq<Token>)
    ensures Then(ts, Some([])) == Some(ts)
  {
    assert ts + [] == ts;
  }

  /** The text String() prints for a SELECT without string literals is lexed to its tokens and
      parsed to the statement. */
  lemma SelectTextParses(rules: LiteralRules, s: SelectStatement)
    requires PrintableSelect(rules, s) && NoStringLiterals(s)
    ensures Tokenize(SelectText(s)) == Some(SelectTokens(s))
    ensures ParseSelect(rules, Tokenize(SelectText(s)).value) == Ok((s, []))
  {
    KeywordsWellFormed();
    hide Tokenize, WellFormed, TextEnds, Then, PrintableFields, PrintableJoin, Printable, Spaced1;
    hide FieldListTokens, JoinsTokens, WhereTokens, ParseSelect, FieldListText, JoinsText, WhereText;
    var table := TableToken(s.tableName);
    var tail := JoinsText(s.joins) + WhereText(s.where);
    var from := Spaced1("FROM", Spaced1(table.literal, tail));
    var fields := FieldListText(s.fields) + from;
    WhereRead(rules, s.where);
    JoinsRead(rules, s.joins, WhereText(s.where));
    WordRead(table, tail);
    WordRead(FROM_TOKEN, Spaced1(table.literal, tail));
    FieldsRead(s.fields, from);
    SpaceRead(fields);
    TokenText(SELECT_TOKEN, " " + fields);
    SelectLayout(FieldListText(s.fields), table.literal, JoinsText(s.joins), WhereText(s.where));
    SelectThens(FieldListTokens(s.fields), table, JoinsTokens(s.joins), WhereTokens(s.where));
    SelectParses(rules, s, false);
    assert SelectTokens(s) + [] == SelectTokens(s);
  }

  lemma SelectLayout(fields: string, table: string, joins: string, where: string)
    ensures "SELECT " + fields + " FROM " + table + joins + where ==
      "SELECT" + (" " + (fields + Spaced1("FROM", Spaced1(table, joins + where))))
  {
    var tail := Spaced1(table, joins + where);
    assert " FROM " + table + joins + where == Spaced1("FROM", tail);
  }

  lemma SelectThens(fields: seq<Token>, table: Token, joins: seq<Token>, where: seq<Token>)
    ensures Then([SELECT_TOKEN], Then(fields, Then([FROM_TOKEN], Then([table], Then(joins, Some(where)))))) ==
      Some([SELECT_TOKEN] + fields + [FROM_TOKEN, table] + joins + where)
  {
    assert [SELECT_TOKEN] + (fields + ([FROM_TOKEN] + ([table] + (joins + where)))) ==
           [SELECT_TOKEN] + fields + [FROM_TOKEN, table] + joins + where;
  }
}
