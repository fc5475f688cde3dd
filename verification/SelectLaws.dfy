/** Which SELECT statements survive printing, and that parsed ones can be printed. */
module SelectLaws {
  import opened Values
  import opened Tokens
  import opened LexerLaws
  import opened Ast
  import opened Grammar
  import opened Printer
  import opened PrintText
  import opened PrintSelect

  // ------------------------------------------------------------------- what a parser leaves

  /** `rest` is what remains of `ts` after at least `n` string tokens. */
  ghost predicate Remains(ts: seq<Token>, rest: seq<Token>, n: nat)
  {
    AllWellFormed(rest) && CountStringTokens(ts) >= n + CountStringTokens(rest)
  }

  lemma TailRemains(ts: seq<Token>)
    requires AllWellFormed(ts)
    ensures Remains(ts, Tail(ts), 0) && (ts != [] ==> WellFormed(Head(ts)))
  {
    hide WellFormed;
    if ts != [] {
      assert forall i :: 0 <= i < |ts[1..]| ==> ts[1..][i] == ts[i + 1];
      assert ts[0] == Head(ts);
    }
  }

  /** A name in lower case is a name of the same kind. */
  lemma LowerName(tok: Token)
    requires WellFormed(tok) && IsName(tok.typ)
    ensures IsFieldName(ToLower(tok.literal))
  {
    hide KeywordOf;
    UpperLower(tok.literal);
    LowerTwice(tok.literal);
    LowerSpan(tok.literal);
  }

  lemma {:induction false} UpperLower(s: string)
    ensures Upper(ToLower(s)) == Upper(s)
  {
    if s != [] {
      UpperLower(s[1..]);
    }
  }

  lemma {:induction false} LowerTwice(s: string)
    ensures ToLower(ToLower(s)) == ToLower(s)
  {
    if s != [] {
      LowerTwice(s[1..]);
    }
  }

  lemma {:induction false} LowerSpan(s: string)
    ensures |ToLower(s)| == |s| && (SpanWord(s) == |s| ==> SpanWord(ToLower(s)) == |s|)
    ensures s != [] && IsLetter(s[0]) ==> IsLetter(ToLower(s)[0])
  {
    if s != [] {
      LowerSpan(s[1..]);
    }
  }

  lemma QualifiedLeaves(ts: seq<Token>)
    requires AllWellFormed(ts) && ParseQualified(ts).Ok?
    ensures var (e, rest) := ParseQualified(ts).value; PrintableField(e) && Remains(ts, rest, 0)
  {
    hide WellFormed, ToLower, IsFieldName, CountStringTokens, AllWellFormed, IsName;
    NoNameAtEnd();
    var ts1 := Tail(ts);
    TailRemains(ts);
    LowerName(Head(ts));
    if Head(ts1).typ == DOT {
      TailRemains(ts1);
      TailRemains(Tail(ts1));
      LowerName(Head(Tail(ts1)));
    }
  }

  lemma NoNameAtEnd()
    ensures !IsName(Head([]).typ)
  {
  }

  lemma {:induction false} FieldLoopLeaves(fields: seq<Expr>, ts: seq<Token>)
    requires AllWellFormed(ts) && FieldLoop(fields, ts).Ok?
    requires fields != [] && forall i :: 0 <= i < |fields| ==> PrintableField(fields[i])
    ensures var (all, rest) := FieldLoop(fields, ts).value;
      && all != [] && (forall i :: 0 <= i < |all| ==> PrintableField(all[i]))
      && Remains(ts, rest, 0)
    decreases |ts|
  {
    hide AllWellFormed, CountStringTokens, PrintableField, ParseQualified;
    if Head(ts).typ == COMMA {
      TailRemains(ts);
      QualifiedLeaves(Tail(ts));
      var (field, rest) := ParseQualified(Tail(ts)).value;
      FieldLoopLeaves(fields + [field], rest);
    }
  }

  lemma FieldsLeave(ts: seq<Token>)
    requires AllWellFormed(ts) && ParseFields(ts).Ok?
    ensures var (fields, rest) := ParseFields(ts).value; PrintableFields(fields) && Remains(ts, rest, 0)
  {
    hide AllWellFormed, CountStringTokens, PrintableField, ParseQualified, FieldLoop;
    TailRemains(ts);
    if Head(ts).typ != ASTERISK {
      var ts1 := if Head(ts).typ == PAREN_OPEN then Tail(ts) else ts;
      QualifiedLeaves(ts1);
      var (first, rest) := ParseQualified(ts1).value;
      FieldLoopLeaves([first], rest);
      TailRemains(FieldLoop([first], rest).value.1);
    }
  }

  /** An expression of lexed tokens can be printed, and takes as many string tokens as it has
      literals that are quoted in the text. */
  lemma ExpressionLeaves(rules: LiteralRules, ts: seq<Token>)
    requires AllWellFormed(ts) && ParseOr(rules, ts).Ok?
    ensures var (e, rest) := ParseOr(rules, ts).value;
      Printable(rules, e) && Remains(ts, rest, CountStrings(e) + CountTyped(e))
  {
    hide WellFormed, CountStringTokens, Printable, ParseOr, OrOk;
    var t := OrSound(rules, ts);
    var rest := ParseOr(rules, ts).value.1;
    assert forall i :: 0 <= i < |TreeTokens(t)| ==> TreeTokens(t)[i] == ts[i];
    assert forall i :: 0 <= i < |rest| ==> rest[i] == ts[|TreeTokens(t)| + i];
    ParsedPrintable(rules, t);
    TreeStrings(rules, t);
    StringTokensConcat(TreeTokens(t), rest);
  }

  function JoinLiterals(joins: seq<JoinClause>): (n: nat)
  {
    if joins == [] then 0
    else
      var on := joins[|joins| - 1].onCondition;
      JoinLiterals(joins[..|joins| - 1]) + CountStrings(on) + CountTyped(on)
  }

  function WhereLiterals(where: Option<Expr>): (n: nat)
  {
    if where.None? then 0 else CountStrings(where.value) + CountTyped(where.value)
  }

  lemma TableName(ts: seq<Token>)
    requires AllWellFormed(ts) && Head(ts).typ == IDENTIFIER
    ensures PrintableTable(Identifier("", Head(ts).literal))
  {
    hide LookupIdent, SpanWord;
    assert ts != [] && WellFormed(ts[0]);
  }

  lemma JoinLeaves(rules: LiteralRules, ts: seq<Token>)
    requires AllWellFormed(ts) && ParseJoin(rules, ts).Ok?
    ensures var (j, rest) := ParseJoin(rules, ts).value;
      PrintableJoin(rules, j) && Remains(ts, rest, CountStrings(j.onCondition) + CountTyped(j.onCondition))
  {
    hide AllWellFormed, CountStringTokens, Printable, ParseOr, WellFormed, PrintableTable;
    var ts1 := if Head(ts).typ == Word(JOIN) then ts else Tail(ts);
    var ts2 := if Head(ts1).typ == Word(OUTER) then Tail(ts1) else ts1;
    TailRemains(ts);
    TailRemains(ts1);
    TailRemains(ts2);
    var ts3 := Tail(ts2);
    TableName(ts3);
    TailRemains(ts3);
    TailRemains(Tail(ts3));
    ExpressionLeaves(rules, Tail(Tail(ts3)));
  }

  lemma {:induction false} JoinLoopLeaves(rules: LiteralRules, joins: seq<JoinClause>, ts: seq<Token>)
    requires AllWellFormed(ts) && JoinLoop(rules, joins, ts).Ok?
    requires forall i :: 0 <= i < |joins| ==> PrintableJoin(rules, joins[i])
    ensures var (all, rest) := JoinLoop(rules, joins, ts).value;
      && (forall i :: 0 <= i < |all| ==> PrintableJoin(rules, all[i]))
      && JoinLiterals(joins) <= JoinLiterals(all) && Remains(ts, rest, JoinLiterals(all) - JoinLiterals(joins))
    decreases |ts|
  {
    hide AllWellFormed, CountStringTokens, PrintableJoin, ParseJoin, CountStrings, CountTyped, IsJoinKeyword;
    if IsJoinKeyword(Head(ts).typ) {
      JoinLeaves(rules, ts);
      var (clause, rest) := ParseJoin(rules, ts).value;
      assert (joins + [clause])[..|joins|] == joins;
      JoinLoopLeaves(rules, joins + [clause], rest);
    }
  }

  lemma NoLiteralsYet()
    ensures JoinLiterals([]) == 0
  {
  }

  lemma WhereLeaves(rules: LiteralRules, ts: seq<Token>)
    requires AllWellFormed(ts) && ParseWhere(rules, ts).Ok?
    ensures var (where, rest) := ParseWhere(rules, ts).value;
      (where.Some? ==> Printable(rules, where.value)) && Remains(ts, rest, WhereLiterals(where))
  {
    hide AllWellFormed, CountStringTokens, Printable, ParseOr, CountStrings, CountTyped;
    TailRemains(ts);
    if Head(ts).typ == Word(WHERE) {
      ExpressionLeaves(rules, Tail(ts));
    }
  }

  /** A SELECT parsed from lexed tokens can be printed, and all its literals that are quoted in
      the text took a string token. */
  lemma SelectLeaves(rules: LiteralRules, ts: seq<Token>)
    requires AllWellFormed(ts) && ParseSelect(rules, ts).Ok?
    ensures var (s, rest) := ParseSelect(rules, ts).value;
      PrintableSelect(rules, s) && CountStringTokens(ts) >= JoinLiterals(s.joins) + WhereLiterals(s.where)
  {
    hide AllWellFormed, CountStringTokens, PrintableJoin, PrintableFields, PrintableTable, Printable;
    hide ParseFields, JoinLoop, ParseWhere, WhereLiterals, JoinLiterals, Tail;
    NoLiteralsYet();
    TailRemains(ts);
    FieldsLeave(Tail(ts));
    var ts1 := ParseFields(Tail(ts)).value.1;
    TailRemains(ts1);
    TableName(Tail(ts1));
    TailRemains(Tail(ts1));
    var ts2 := Tail(Tail(ts1));
    JoinLoopLeaves(rules, [], ts2);
    WhereLeaves(rules, JoinLoop(rules, [], ts2).value.1);
  }

  /** Whatever text parses to a SELECT, the print of that SELECT parses to it again. */
  lemma SelectPrintStable(rules: LiteralRules, text: string, s: SelectStatement, rest: seq<Token>)
    requires Tokenize(text).Some? && ParseSelect(rules, Tokenize(text).value) == Ok((s, rest))
    ensures PrintableSelect(rules, s)
    ensures ParseSelect(rules, SelectTokens(s)) == Ok((s, []))
  {
    hide Tokenize, ParseSelect, PrintableSelect, AllWellFormed;
    TokensWellFormed(text);
    SelectLeaves(rules, Tokenize(text).value);
    SelectParses(rules, s, false);
    assert SelectTokens(s) + [] == SelectTokens(s);
  }

  // -------------------------------------------------------------------- quotes in the print

  lemma NameQuotes(name: string)
    requires WellFormed(Token(LookupIdent(name), name))
    ensures Quotes(name) == 0
  {
    hide KeywordOf, Upper;
    WordQuotes(name);
  }

  lemma FieldQuotes(e: Expr)
    requires PrintableField(e) || e == Identifier("", "*")
    ensures Quotes(Text(e)) == 0
  {
    hide WellFormed, LookupIdent, ToLower;
    if e != Identifier("", "*") {
      NameQuotes(e.name);
      if e.table != "" {
        NameQuotes(e.table);
        QuotesConcat(e.table + ".", e.name);
        QuotesConcat(e.table, ".");
      }
    }
  }

  lemma {:induction false} FieldListQuotes(fields: seq<Expr>)
    requires forall i :: 0 <= i < |fields| ==> PrintableField(fields[i]) || fields[i] == Identifier("", "*")
    ensures Quotes(FieldListText(fields)) == 0
  {
    hide PrintableField, Text;
    if fields != [] {
      FieldQuotes(fields[0]);
      if |fields| > 1 {
        FieldListQuotes(fields[1..]);
        QuotesConcat(Text(fields[0]) + ", ", FieldListText(fields[1..]));
        QuotesConcat(Text(fields[0]), ", ");
        CommaQuotes();
      }
    }
  }

  lemma CommaQuotes()
    ensures Quotes(", ") == 0
  {
    assert ", "[1..] == " ";
  }

  function JoinTyped(joins: seq<JoinClause>): (n: nat)
  {
    if joins == [] then 0 else CountTyped(joins[0].onCondition) + JoinTyped(joins[1..])
  }

  function JoinStrings(joins: seq<JoinClause>): (n: nat)
  {
    if joins == [] then 0 else CountStrings(joins[0].onCondition) + JoinStrings(joins[1..])
  }

  lemma TableQuotes(e: Expr)
    requires PrintableTable(e)
    ensures Quotes(Text(e)) == 0
  {
    hide LookupIdent;
    WordQuotes(e.name);
  }

  /** Quote-free words around a printed part. */
  lemma JoinQuotes(rules: LiteralRules, j: JoinClause)
    requires PrintableJoin(rules, j)
    ensures Quotes(JoinText(j)) == 2 * CountTyped(j.onCondition)
  {
    WordsQuotes(j.joinType);
    hide Quotes, Text, Printable, PrintableTable;
    var head := j.joinType + " JOIN " + Text(j.rightTable);
    TableQuotes(j.rightTable);
    TextQuotes(rules, j.onCondition);
    QuotesConcat(head + " ON ", Text(j.onCondition));
    QuotesConcat(head, " ON ");
    QuotesConcat(j.joinType + " JOIN ", Text(j.rightTable));
    QuotesConcat(j.joinType, " JOIN ");
  }

  lemma WordsQuotes(joinType: string)
    ensures IsJoinType(joinType) ==> Quotes(joinType) == 0
    ensures Quotes(" JOIN ") == 0 && Quotes(" ON ") == 0 && Quotes(" WHERE ") == 0
    ensures Quotes("SELECT ") == 0 && Quotes(" FROM ") == 0 && Quotes(" ") == 0
  {
    hide Quotes;
    if IsJoinType(joinType) {
      NoQuoteQuotes(joinType);
    }
    NoQuoteQuotes(" JOIN ");
    NoQuoteQuotes(" ON ");
    NoQuoteQuotes(" WHERE ");
    NoQuoteQuotes("SELECT ");
    NoQuoteQuotes(" FROM ");
    NoQuoteQuotes(" ");
  }

  lemma {:induction false} NoQuoteQuotes(s: string)
    requires forall i :: 0 <= i < |s| ==> s[i] != '\''
    ensures Quotes(s) == 0
  {
    if s != [] {
      NoQuoteQuotes(s[1..]);
    }
  }

  lemma {:induction false} JoinsQuotes(rules: LiteralRules, joins: seq<JoinClause>)
    requires forall i :: 0 <= i < |joins| ==> PrintableJoin(rules, joins[i])
    ensures Quotes(JoinsText(joins)) == 2 * JoinTyped(joins)
  {
    hide PrintableJoin, JoinText, CountTyped;
    if joins != [] {
      JoinQuotes(rules, joins[0]);
      JoinsQuotes(rules, joins[1..]);
      WordsQuotes("");
      QuotesConcat(" " + JoinText(joins[0]), JoinsText(joins[1..]));
      QuotesConcat(" ", JoinText(joins[0]));
    }
  }

  lemma SelectQuotes(rules: LiteralRules, s: SelectStatement)
    requires PrintableSelect(rules, s)
    ensures Quotes(SelectText(s)) == 2 * (JoinTyped(s.joins) + if s.where.Some? then CountTyped(s.where.value) else 0)
  {
    hide Quotes, Text, Printable, PrintableTable, PrintableJoin, FieldListText, JoinsText, PrintableField;
    WordsQuotes("");
    FieldListQuotes(s.fields);
    TableQuotes(s.tableName);
    JoinsQuotes(rules, s.joins);
    var head := "SELECT " + FieldListText(s.fields) + " FROM ";
    QuotesConcat(head + Text(s.tableName) + JoinsText(s.joins), WhereText(s.where));
    QuotesConcat(head + Text(s.tableName), JoinsText(s.joins));
    QuotesConcat(head, Text(s.tableName));
    QuotesConcat("SELECT " + FieldListText(s.fields), " FROM ");
    QuotesConcat("SELECT ", FieldListText(s.fields));
    if s.where.Some? {
      TextQuotes(rules, s.where.value);
      QuotesConcat(" WHERE ", Text(s.where.value));
    } else {
      NoQuotes();
    }
  }

  lemma NoQuotes()
    ensures Quotes("") == 0
  {
  }

  lemma {:induction false} JoinLiteralsSplit(joins: seq<JoinClause>)
    ensures JoinLiterals(joins) == JoinStrings(joins) + JoinTyped(joins)
    ensures JoinStrings(joins) == 0 <==> forall i :: 0 <= i < |joins| ==> CountStrings(joins[i].onCondition) == 0
  {
    hide CountStrings, CountTyped;
    if joins != [] {
      var n := |joins| - 1;
      JoinLiteralsSplit(joins[..n]);
      JoinSums(joins);
      assert forall i :: 0 <= i < n ==> joins[..n][i] == joins[i];
    }
  }

  /** Both sums may also be taken from the end. */
  lemma {:induction false} JoinSums(joins: seq<JoinClause>)
    requires joins != []
    ensures var n := |joins| - 1;
      && JoinStrings(joins) == JoinStrings(joins[..n]) + CountStrings(joins[n].onCondition)
      && JoinTyped(joins) == JoinTyped(joins[..n]) + CountTyped(joins[n].onCondition)
  {
    hide CountStrings, CountTyped;
    var n := |joins| - 1;
    if n > 0 {
      JoinSums(joins[1..]);
      assert joins[1..][..n - 1] == joins[..n][1..];
    }
  }

  /** The text String() prints for a SELECT parses to it if and only if it has no string literal. */
  lemma SelectTextIff(rules: LiteralRules, s: SelectStatement)
    requires PrintableSelect(rules, s)
    ensures (Tokenize(SelectText(s)).Some? && ParseSelect(rules, Tokenize(SelectText(s)).value) == Ok((s, []))) <==>
      NoStringLiterals(s)
  {
    hide Tokenize, ParseSelect, PrintableSelect, SelectText, AllWellFormed, Quotes, CountStrings, CountTyped;
    if NoStringLiterals(s) {
      SelectTextParses(rules, s);
    }
    if Tokenize(SelectText(s)).Some? && ParseSelect(rules, Tokenize(SelectText(s)).value) == Ok((s, [])) {
      TokensWellFormed(SelectText(s));
      SelectLeaves(rules, Tokenize(SelectText(s)).value);
      QuotesBound(SelectText(s));
      SelectQuotes(rules, s);
      JoinLiteralsSplit(s.joins);
    }
  }
}
