/** The grammar of SELECT statements as trees over tokens, and the proof that the parser accepts
    exactly these trees:

      select := SELECT fields FROM name join* [WHERE or] [;]
      fields := * | [(] item (, item)* [)]              item := column | table . column
      join := [kind [OUTER]] JOIN name ON or            kind := INNER | LEFT | RIGHT | FULL */
module SelectGrammar {
  import opened Values
  import opened Tokens
  import opened Ast
  import opened Grammar

  datatype ItemTree = Column(word: Token) | TableColumn(table: Token, dot: Token, column: Token)

  /** Each parenthesis around the items may be there or not. */
  datatype FieldsTree =
    | Star(star: Token)
    | Items(open: Option<Token>, first: ItemTree, more: seq<(Token, ItemTree)>, close: Option<Token>)

  datatype JoinTree = JoinTree(
    kind: Option<Token>,
    outer: Option<Token>,
    join: Token,
    table: Token,
    on: Token,
    condition: Tree)

  datatype SelectTree = SelectTree(
    select: Token,
    fields: FieldsTree,
    from: Token,
    table: Token,
    joins: seq<JoinTree>,
    where: Option<(Token, Tree)>,
    semicolon: Option<Token>)

  // ------------------------------------------------------------------ well-formedness

  predicate NameOk(t: TokenType)
  {
    t == IDENTIFIER || t == Word(DATE) || t == Word(TIME) || t == Word(EMAIL)
  }

  predicate ItemOk(i: ItemTree)
  {
    match i
    case Column(w) => NameOk(w.typ)
    case TableColumn(t, d, c) => NameOk(t.typ) && d.typ == DOT && NameOk(c.typ)
  }

  predicate MoreOk(more: seq<(Token, ItemTree)>)
  {
    forall k :: 0 <= k < |more| ==> more[k].0.typ == COMMA && ItemOk(more[k].1)
  }

  predicate FieldsOk(f: FieldsTree)
  {
    match f
    case Star(s) => s.typ == ASTERISK
    case Items(open, first, more, close) =>
      && (open.Some? ==> open.value.typ == PAREN_OPEN) && ItemOk(first) && MoreOk(more)
      && (close.Some? ==> close.value.typ == PAREN_CLOSE)
  }

  predicate KindOk(t: TokenType)
  {
    t == Word(INNER) || t == Word(LEFT) || t == Word(RIGHT) || t == Word(FULL)
  }

  /** OUTER stands after a kind only, but after any kind. */
  predicate JoinOk(rules: LiteralRules, j: JoinTree)
  {
    && (j.kind.Some? ==> KindOk(j.kind.value.typ))
    && (j.outer.Some? ==> j.kind.Some? && j.outer.value.typ == Word(OUTER))
    && j.join.typ == Word(JOIN) && j.table.typ == IDENTIFIER && j.on.typ == Word(ON) && OrOk(rules, j.condition)
  }

  predicate SelectOk(rules: LiteralRules, s: SelectTree)
  {
    && FieldsOk(s.fields) && s.from.typ == Word(FROM) && s.table.typ == IDENTIFIER
    && (forall k :: 0 <= k < |s.joins| ==> JoinOk(rules, s.joins[k]))
    && (s.where.Some? ==> s.where.value.0.typ == Word(WHERE) && OrOk(rules, s.where.value.1))
    && (s.semicolon.Some? ==> s.semicolon.value.typ == SEMICOLON)
  }

  // --------------------------------------------------------------------------- tokens

  function Maybe(tok: Option<Token>): (ts: seq<Token>)
  {
    if tok.Some? then [tok.value] else []
  }

  function ItemTokens(i: ItemTree): (ts: seq<Token>)
  {
    match i
    case Column(w) => [w]
    case TableColumn(t, d, c) => [t, d, c]
  }

  function MoreTokens(more: seq<(Token, ItemTree)>): (ts: seq<Token>)
  {
    if more == [] then [] else [more[0].0] + ItemTokens(more[0].1) + MoreTokens(more[1..])
  }

  function FieldsTokens(f: FieldsTree): (ts: seq<Token>)
  {
    match f
    case Star(s) => [s]
    case Items(open, first, more, close) => Maybe(open) + ItemTokens(first) + MoreTokens(more) + Maybe(close)
  }

  function JoinTreeTokens(j: JoinTree): (ts: seq<Token>)
  {
    Maybe(j.kind) + Maybe(j.outer) + [j.join, j.table, j.on] + TreeTokens(j.condition)
  }

  function JoinsTokens(joins: seq<JoinTree>): (ts: seq<Token>)
  {
    if joins == [] then [] else JoinTreeTokens(joins[0]) + JoinsTokens(joins[1..])
  }

  function WhereTokens(where: Option<(Token, Tree)>): (ts: seq<Token>)
  {
    if where.Some? then [where.value.0] + TreeTokens(where.value.1) else []
  }

  function SelectTreeTokens(s: SelectTree): (ts: seq<Token>)
  {
    [s.select] + FieldsTokens(s.fields) + [s.from, s.table]
    + JoinsTokens(s.joins) + WhereTokens(s.where) + Maybe(s.semicolon)
  }

  // -------------------------------------------------------------------------- meaning

  /** Names in the select list are folded to lower case. */
  function ItemExpr(i: ItemTree): (e: Expr)
  {
    match i
    case Column(w) => Identifier("", ToLower(w.literal))
    case TableColumn(t, d, c) => Identifier(ToLower(t.literal), ToLower(c.literal))
  }

  function MoreExprs(more: seq<(Token, ItemTree)>): (es: seq<Expr>)
  {
    seq(|more|, k requires 0 <= k < |more| => ItemExpr(more[k].1))
  }

  function FieldsExprs(f: FieldsTree): (es: seq<Expr>)
  {
    match f
    case Star(_) => [Identifier("", "*")]
    case Items(_, first, more, _) => [ItemExpr(first)] + MoreExprs(more)
  }

  /** A join without a kind is an inner join; OUTER changes nothing. */
  function KindText(kind: Option<Token>): (text: string)
  {
    match kind
    case None => "INNER"
    case Some(tok) =>
      match tok.typ
      case Word(LEFT) => "LEFT"
      case Word(RIGHT) => "RIGHT"
      case Word(FULL) => "FULL"
      case _ => "INNER"
  }

  function JoinClauseOf(rules: LiteralRules, j: JoinTree): (c: JoinClause)
    requires JoinOk(rules, j)
  {
    JoinClause(KindText(j.kind), Identifier("", j.table.literal), TreeExpr(rules, j.condition))
  }

  function JoinClausesOf(rules: LiteralRules, joins: seq<JoinTree>): (cs: seq<JoinClause>)
    requires forall k :: 0 <= k < |joins| ==> JoinOk(rules, joins[k])
  {
    seq(|joins|, k requires 0 <= k < |joins| => JoinClauseOf(rules, joins[k]))
  }

  function StatementOf(rules: LiteralRules, s: SelectTree): (stmt: SelectStatement)
    requires SelectOk(rules, s)
  {
    SelectStatement(
      FieldsExprs(s.fields),
      Identifier("", s.table.literal),
      JoinClausesOf(rules, s.joins),
      if s.where.Some? then Some(TreeExpr(rules, s.where.value.1)) else None)
  }

  // --------------------------------------------------------------------- what may follow

  /** The token after the last join, or after the table when there is none. */
  predicate JoinsStop(joins: seq<JoinTree>, next: TokenType)
  {
    && !KindOk(next) && next != Word(JOIN)
    && (joins != [] ==> Ends(joins[|joins| - 1].condition, next))
  }

  /** The token after a whole statement does not extend it. */
  predicate SelectStops(s: SelectTree, next: TokenType)
  {
    s.semicolon.Some? ||
    (&& next != SEMICOLON
     && if s.where.Some? then Ends(s.where.value.1, next) else next != Word(WHERE) && JoinsStop(s.joins, next))
  }

  /** The tree derives the statement from the tokens in front of `rest`. */
  ghost predicate SelectDerives(rules: LiteralRules, t: SelectTree, ts: seq<Token>, s: SelectStatement,
                                rest: seq<Token>)
  {
    && SelectOk(rules, t) && StatementOf(rules, t) == s
    && ts == SelectTreeTokens(t) + rest && SelectStops(t, Head(rest).typ)
  }

  // -------------------------------------------------------------------- completeness

  lemma ItemComplete(i: ItemTree, rest: seq<Token>)
    requires ItemOk(i) && (i.Column? ==> Head(rest).typ != DOT)
    ensures ParseQualified(ItemTokens(i) + rest) == Ok((ItemExpr(i), rest))
  {
    var ts := ItemTokens(i) + rest;
    if i.Column? {
      assert ts[1..] == rest;
    } else {
      assert ts[1..][1..][1..] == rest;
    }
  }

  lemma {:induction false} FieldLoopComplete(fields: seq<Expr>, more: seq<(Token, ItemTree)>, rest: seq<Token>)
    requires MoreOk(more) && Head(rest).typ != COMMA && Head(rest).typ != DOT
    ensures FieldLoop(fields, MoreTokens(more) + rest) == Ok((fields + MoreExprs(more), rest))
    decreases |more|
  {
    hide ParseQualified, ItemTokens, ItemExpr, ItemOk;
    var ts := MoreTokens(more) + rest;
    if more == [] {
      assert ts == rest && fields + MoreExprs(more) == fields;
    } else {
      var (comma, item) := more[0];
      var after := MoreTokens(more[1..]) + rest;
      assert ts == [comma] + (ItemTokens(item) + after);
      assert Tail(ts) == ItemTokens(item) + after;
      assert more[1..] != [] ==> more[1..][0] == more[1];
      ItemComplete(item, after);
      FieldLoopComplete(fields + [ItemExpr(item)], more[1..], rest);
      assert MoreExprs(more) == [ItemExpr(item)] + MoreExprs(more[1..]);
      assert fields + [ItemExpr(item)] + MoreExprs(more[1..]) == fields + MoreExprs(more);
    }
  }

  lemma ItemHead(i: ItemTree)
    requires ItemOk(i)
    ensures ItemTokens(i) != [] && ItemTokens(i)[0].typ != PAREN_OPEN && ItemTokens(i)[0].typ != ASTERISK
  {
  }

  lemma FieldsComplete(f: FieldsTree, rest: seq<Token>)
    requires FieldsOk(f) && Head(rest).typ == Word(FROM)
    ensures ParseFields(FieldsTokens(f) + rest) == Ok((FieldsExprs(f), rest))
  {
    hide ItemTokens, ItemExpr, ItemOk, MoreTokens, MoreExprs, FieldsTokens, ParseFields, MoreOk;
    if f.Star? {
      StarComplete(f.star, rest);
    } else {
      var last := Maybe(f.close) + rest;
      var after := MoreTokens(f.more) + last;
      FieldsParts(f, rest);
      MaybeHead(f.open, ItemTokens(f.first) + after);
      MaybeHead(f.close, rest);
      ItemHead(f.first);
      MoreHead(f.more, last);
      ItemComplete(f.first, after);
      FieldLoopComplete([ItemExpr(f.first)], f.more, last);
      assert Head(ItemTokens(f.first) + after) == ItemTokens(f.first)[0];
      hide Maybe, ParseQualified, FieldLoop;
      ItemsParse(FieldsTokens(f) + rest, f.open.Some?, ItemTokens(f.first) + after, ItemExpr(f.first), after,
                 FieldsExprs(f), last, rest);
    }
  }

  lemma StarComplete(star: Token, rest: seq<Token>)
    requires star.typ == ASTERISK
    ensures ParseFields(FieldsTokens(Star(star)) + rest) == Ok(([Identifier("", "*")], rest))
  {
    assert Tail([star] + rest) == rest;
  }

  lemma FieldsParts(f: FieldsTree, rest: seq<Token>)
    requires f.Items?
    ensures FieldsTokens(f) + rest ==
      Maybe(f.open) + (ItemTokens(f.first) + (MoreTokens(f.more) + (Maybe(f.close) + rest)))
  {
    hide ItemTokens, MoreTokens, Maybe;
  }

  /** The select list from its parts. */
  lemma ItemsParse(ts: seq<Token>, open: bool, ts1: seq<Token>, first: Expr, after: seq<Token>, fields: seq<Expr>,
                   last: seq<Token>, rest: seq<Token>)
    requires if open then Head(ts).typ == PAREN_OPEN && Tail(ts) == ts1 else ts == ts1 && Head(ts).typ != PAREN_OPEN
    requires Head(ts).typ != ASTERISK
    requires ParseQualified(ts1) == Ok((first, after)) && FieldLoop([first], after) == Ok((fields, last))
    requires if Head(last).typ == PAREN_CLOSE then Tail(last) == rest else last == rest
    ensures ParseFields(ts) == Ok((fields, rest))
  {
    hide ParseQualified, FieldLoop;
  }

  lemma MoreHead(more: seq<(Token, ItemTree)>, rest: seq<Token>)
    requires MoreOk(more) && Head(rest).typ != DOT
    ensures Head(MoreTokens(more) + rest).typ != DOT
  {
    assert more == [] ==> MoreTokens(more) + rest == rest;
  }

  lemma JoinComplete(rules: LiteralRules, j: JoinTree, rest: seq<Token>)
    requires JoinOk(rules, j) && Ends(j.condition, Head(rest).typ)
    ensures ParseJoin(rules, JoinTreeTokens(j) + rest) == Ok((JoinClauseOf(rules, j), rest))
    ensures IsJoinKeyword(Head(JoinTreeTokens(j) + rest).typ)
  {
    hide ParseOr, OrOk, TreeExpr, TreeTokens, Ends, JoinTreeTokens, ParseJoin, Maybe;
    var last := TreeTokens(j.condition) + rest;
    var ts2 := [j.join] + ([j.table] + ([j.on] + last));
    JoinParts(j, rest);
    MaybeHead(j.kind, Maybe(j.outer) + ts2);
    MaybeHead(j.outer, ts2);
    assert Tail(ts2) == [j.table] + ([j.on] + last) && Tail([j.table] + ([j.on] + last)) == [j.on] + last;
    assert Tail([j.on] + last) == last;
    OrComplete(rules, j.condition, rest);
    JoinParse(rules, JoinTreeTokens(j) + rest, j.kind, Maybe(j.outer) + ts2, ts2, TreeExpr(rules, j.condition), rest);
  }

  /** The join clause from its parts. */
  lemma JoinParse(rules: LiteralRules, ts: seq<Token>, kind: Option<Token>, ts1: seq<Token>, ts2: seq<Token>,
                  condition: Expr, rest: seq<Token>)
    requires kind.Some? ==> KindOk(kind.value.typ) && Head(ts) == kind.value && Tail(ts) == ts1
    requires kind.None? ==> ts == ts1 == ts2
    requires if Head(ts1).typ == Word(OUTER) then Tail(ts1) == ts2 else ts1 == ts2
    requires Head(ts2).typ == Word(JOIN) && Head(Tail(ts2)).typ == IDENTIFIER && Head(Tail(Tail(ts2))).typ == Word(ON)
    requires ParseOr(rules, Tail(Tail(Tail(ts2)))) == Ok((condition, rest))
    ensures ParseJoin(rules, ts) ==
      Ok((JoinClause(KindText(kind), Identifier("", Head(Tail(ts2)).literal), condition), rest))
  {
    hide ParseOr;
  }

  lemma JoinParts(j: JoinTree, rest: seq<Token>)
    ensures JoinTreeTokens(j) + rest ==
      Maybe(j.kind) + (Maybe(j.outer) + ([j.join] + ([j.table] + ([j.on] + (TreeTokens(j.condition) + rest)))))
  {
    hide TreeTokens, Maybe;
  }

  lemma MaybeHead(tok: Option<Token>, rest: seq<Token>)
    ensures var ts := Maybe(tok) + rest;
      if tok.Some? then Head(ts) == tok.value && Tail(ts) == rest else ts == rest
  {
  }

  /** What a condition is followed by ends it. */
  lemma KeywordEnds(t: Tree, next: TokenType)
    requires KindOk(next) || next == Word(JOIN) || next == Word(WHERE) || next == SEMICOLON
    ensures Ends(t, next)
  {
    WordStops(t, next);
  }

  lemma {:induction false} JoinLoopComplete(rules: LiteralRules, before: seq<JoinClause>, joins: seq<JoinTree>,
                                            rest: seq<Token>)
    requires forall k :: 0 <= k < |joins| ==> JoinOk(rules, joins[k])
    requires JoinsStop(joins, Head(rest).typ)
    ensures JoinLoop(rules, before, JoinsTokens(joins) + rest) == Ok((before + JoinClausesOf(rules, joins), rest))
    decreases |joins|
  {
    hide ParseJoin, JoinOk, JoinTreeTokens, JoinClauseOf, Ends;
    var ts := JoinsTokens(joins) + rest;
    if joins == [] {
      assert ts == rest && before + JoinClausesOf(rules, joins) == before;
    } else {
      var after := JoinsTokens(joins[1..]) + rest;
      assert ts == JoinTreeTokens(joins[0]) + after;
      if joins[1..] == [] {
        assert after == rest;
      } else {
        assert joins[1..][0] == joins[1];
        JoinHead(rules, joins[1]);
        KeywordEnds(joins[0].condition, Head(after).typ);
      }
      JoinComplete(rules, joins[0], after);
      JoinLoopComplete(rules, before + [JoinClauseOf(rules, joins[0])], joins[1..], rest);
      assert JoinClausesOf(rules, joins) == [JoinClauseOf(rules, joins[0])] + JoinClausesOf(rules, joins[1..]);
      assert before + [JoinClauseOf(rules, joins[0])] + JoinClausesOf(rules, joins[1..]) ==
        before + JoinClausesOf(rules, joins);
    }
  }

  lemma JoinHead(rules: LiteralRules, j: JoinTree)
    requires JoinOk(rules, j)
    ensures JoinTreeTokens(j) != []
    ensures KindOk(JoinTreeTokens(j)[0].typ) || JoinTreeTokens(j)[0].typ == Word(JOIN)
  {
    hide OrOk, TreeTokens;
  }

  lemma WhereComplete(rules: LiteralRules, where: Option<(Token, Tree)>, rest: seq<Token>)
    requires where.Some? ==> where.value.0.typ == Word(WHERE) && OrOk(rules, where.value.1)
    requires if where.Some? then Ends(where.value.1, Head(rest).typ) else Head(rest).typ != Word(WHERE)
    ensures ParseWhere(rules, WhereTokens(where) + rest) ==
      Ok((if where.Some? then Some(TreeExpr(rules, where.value.1)) else None, rest))
  {
    hide ParseOr, OrOk, TreeExpr, TreeTokens, Ends;
    var ts := WhereTokens(where) + rest;
    if where.Some? {
      assert Tail(ts) == TreeTokens(where.value.1) + rest;
      OrComplete(rules, where.value.1, rest);
    } else {
      assert ts == rest;
    }
  }

  /** A tree's tokens are parsed to the tree's statement, leaving exactly the tokens that
      follow. */
  lemma SelectComplete(rules: LiteralRules, t: SelectTree, rest: seq<Token>)
    requires SelectOk(rules, t) && SelectStops(t, Head(rest).typ)
    ensures ParseSelect(rules, SelectTreeTokens(t) + rest) == Ok((StatementOf(rules, t), rest))
  {
    hide FieldsOk, FieldsTokens, FieldsExprs, ParseFields, JoinOk, JoinsTokens, JoinClausesOf, JoinLoop, OrOk, TreeExpr;
    hide ParseWhere, WhereTokens, Ends, Maybe, SelectTreeTokens;
    var ts4 := Maybe(t.semicolon) + rest;
    var ts3 := WhereTokens(t.where) + ts4;
    var ts2 := JoinsTokens(t.joins) + ts3;
    var ts1 := [t.from] + ([t.table] + ts2);
    var ts := SelectTreeTokens(t) + rest;
    SelectParts(t, rest);
    assert Tail(ts) == FieldsTokens(t.fields) + ts1;
    assert Tail(ts1) == [t.table] + ts2 && Tail([t.table] + ts2) == ts2;
    MaybeHead(t.semicolon, rest);
    FieldsComplete(t.fields, ts1);
    LastEnds(t, rest);
    JoinLoopComplete(rules, [], t.joins, ts3);
    WhereComplete(rules, t.where, ts4);
    assert [] + JoinClausesOf(rules, t.joins) == JoinClausesOf(rules, t.joins);
  }

  lemma LastEnds(t: SelectTree, rest: seq<Token>)
    requires SelectStops(t, Head(rest).typ)
    requires t.where.Some? ==> t.where.value.0.typ == Word(WHERE)
    requires t.semicolon.Some? ==> t.semicolon.value.typ == SEMICOLON
    ensures var ts4 := Maybe(t.semicolon) + rest;
      && JoinsStop(t.joins, Head(WhereTokens(t.where) + ts4).typ)
      && if t.where.Some? then Ends(t.where.value.1, Head(ts4).typ) else Head(ts4).typ != Word(WHERE)
  {
    hide Ends;
    var ts4 := Maybe(t.semicolon) + rest;
    assert t.semicolon.None? ==> ts4 == rest;
    var next := Head(WhereTokens(t.where) + ts4).typ;
    assert t.where.None? ==> WhereTokens(t.where) + ts4 == ts4;
    if t.joins != [] && (t.where.Some? || t.semicolon.Some?) {
      KeywordEnds(t.joins[|t.joins| - 1].condition, next);
    }
    if t.where.Some? && t.semicolon.Some? {
      KeywordEnds(t.where.value.1, SEMICOLON);
    }
  }

  // ----------------------------------------------------------------------- soundness

  lemma ItemSound(ts: seq<Token>) returns (i: ItemTree)
    requires ParseQualified(ts).Ok?
    ensures var (e, rest) := ParseQualified(ts).value;
      ItemOk(i) && ItemExpr(i) == e && ts == ItemTokens(i) + rest && (i.Column? ==> Head(rest).typ != DOT)
  {
    i := if Head(Tail(ts)).typ == DOT then TableColumn(ts[0], ts[1], ts[2]) else Column(ts[0]);
  }

  lemma {:induction false} MoreSound(fields: seq<Expr>, ts: seq<Token>) returns (more: seq<(Token, ItemTree)>)
    requires FieldLoop(fields, ts).Ok?
    ensures var (es, rest) := FieldLoop(fields, ts).value;
      MoreOk(more) && es == fields + MoreExprs(more) && ts == MoreTokens(more) + rest
    decreases |ts|
  {
    hide ParseQualified, ItemTokens, ItemExpr, ItemOk, MoreExprs, MoreTokens, MoreOk;
    more := [];
    MoreNone();
    if Head(ts).typ == COMMA {
      var item := ItemSound(Tail(ts));
      var (e, rest) := ParseQualified(Tail(ts)).value;
      var others := MoreSound(fields + [e], rest);
      more := [(ts[0], item)] + others;
      MoreNext(ts[0], item, others);
      assert ts == [ts[0]] + Tail(ts);
      assert (fields + [e]) + MoreExprs(others) == fields + ([e] + MoreExprs(others));
    } else {
      assert fields + [] == fields && [] + ts == ts;
    }
  }

  lemma MoreNone()
    ensures MoreOk([]) && MoreExprs([]) == [] && MoreTokens([]) == []
  {
  }

  lemma MoreNext(comma: Token, item: ItemTree, others: seq<(Token, ItemTree)>)
    requires comma.typ == COMMA && ItemOk(item) && MoreOk(others)
    ensures var more := [(comma, item)] + others;
      && MoreOk(more) && MoreExprs(more) == [ItemExpr(item)] + MoreExprs(others)
      && MoreTokens(more) == [comma] + ItemTokens(item) + MoreTokens(others)
  {
    hide ItemTokens, ItemExpr, ItemOk;
    var more := [(comma, item)] + others;
    assert more[1..] == others;
    assert forall k :: 0 < k < |more| ==> more[k] == others[k - 1];
  }

  lemma FieldsSound(ts: seq<Token>) returns (f: FieldsTree)
    requires ParseFields(ts).Ok?
    ensures var (es, rest) := ParseFields(ts).value;
      FieldsOk(f) && FieldsExprs(f) == es && ts == FieldsTokens(f) + rest
  {
    hide ParseQualified, ItemTokens, ItemExpr, ItemOk, MoreTokens, MoreExprs, FieldLoop, MoreOk, FieldsTokens;
    if Head(ts).typ == ASTERISK {
      f := Star(ts[0]);
      StarTokens(ts);
    } else {
      var open := if Head(ts).typ == PAREN_OPEN then Some(ts[0]) else None;
      var ts1 := if open.Some? then Tail(ts) else ts;
      var first := ItemSound(ts1);
      var (e, after) := ParseQualified(ts1).value;
      var more := MoreSound([e], after);
      var last := FieldLoop([e], after).value.1;
      var close := if Head(last).typ == PAREN_CLOSE then Some(last[0]) else None;
      f := Items(open, first, more, close);
      var rest := ParseFields(ts).value.1;
      assert last == Maybe(close) + rest && ts == Maybe(open) + ts1;
      FieldsParts(f, rest);
    }
  }

  lemma StarTokens(ts: seq<Token>)
    requires Head(ts).typ == ASTERISK
    ensures ts == FieldsTokens(Star(ts[0])) + Tail(ts)
  {
  }

  /** The parts of a join clause that was parsed. */
  lemma JoinSteps(rules: LiteralRules, ts: seq<Token>)
    requires ParseJoin(rules, ts).Ok?
    ensures ts != [] && (KindOk(ts[0].typ) || ts[0].typ == Word(JOIN))
    ensures var kind := if ts[0].typ == Word(JOIN) then None else Some(ts[0]);
      var ts1 := if kind.Some? then Tail(ts) else ts;
      var ts2 := if Head(ts1).typ == Word(OUTER) then Tail(ts1) else ts1;
      var condition := ParseOr(rules, Tail(Tail(Tail(ts2))));
      && Head(ts2).typ == Word(JOIN) && Head(Tail(ts2)).typ == IDENTIFIER && Head(Tail(Tail(ts2))).typ == Word(ON)
      && condition.Ok?
      && ParseJoin(rules, ts).value ==
         (JoinClause(KindText(kind), Identifier("", Head(Tail(ts2)).literal), condition.value.0), condition.value.1)
  {
    hide ParseOr;
  }

  lemma JoinSound(rules: LiteralRules, ts: seq<Token>) returns (j: JoinTree)
    requires ParseJoin(rules, ts).Ok?
    ensures var (c, rest) := ParseJoin(rules, ts).value;
      && JoinOk(rules, j) && JoinClauseOf(rules, j) == c
      && ts == JoinTreeTokens(j) + rest && Ends(j.condition, Head(rest).typ)
  {
    hide ParseOr, OrOk, TreeExpr, TreeTokens, Ends, JoinTreeTokens, ParseJoin, KindText, Maybe;
    JoinSteps(rules, ts);
    var kind := if ts[0].typ == Word(JOIN) then None else Some(ts[0]);
    var ts1 := if kind.Some? then Tail(ts) else ts;
    var outer := if Head(ts1).typ == Word(OUTER) then Some(ts1[0]) else None;
    var ts2 := if outer.Some? then Tail(ts1) else ts1;
    var last := Tail(Tail(Tail(ts2)));
    var condition := OrSound(rules, last);
    var rest := ParseOr(rules, last).value.1;
    j := JoinTree(kind, outer, ts2[0], ts2[1], ts2[2], condition);
    MaybeFirst(ts1, outer);
    MaybeFirst(ts, kind);
    JoinTokens(j, ts, ts1, ts2, rest);
  }

  lemma JoinTokens(j: JoinTree, ts: seq<Token>, ts1: seq<Token>, ts2: seq<Token>, rest: seq<Token>)
    requires ts == Maybe(j.kind) + ts1 && ts1 == Maybe(j.outer) + ts2
    requires |ts2| >= 3 && j.join == ts2[0] && j.table == ts2[1] && j.on == ts2[2]
    requires Tail(Tail(Tail(ts2))) == TreeTokens(j.condition) + rest
    ensures ts == JoinTreeTokens(j) + rest
  {
    hide TreeTokens, Maybe, JoinTreeTokens;
    JoinParts(j, rest);
    assert ts2 == [ts2[0]] + ([ts2[1]] + ([ts2[2]] + Tail(Tail(Tail(ts2)))));
  }

  lemma MaybeFirst(ts: seq<Token>, tok: Option<Token>)
    requires tok.Some? ==> ts != [] && tok.value == ts[0]
    ensures ts == Maybe(tok) + if tok.Some? then Tail(ts) else ts
  {
  }

  lemma {:induction false} JoinsSound(rules: LiteralRules, before: seq<JoinClause>, ts: seq<Token>)
    returns (joins: seq<JoinTree>)
    requires JoinLoop(rules, before, ts).Ok?
    ensures var (cs, rest) := JoinLoop(rules, before, ts).value;
      && (forall k :: 0 <= k < |joins| ==> JoinOk(rules, joins[k])) && cs == before + JoinClausesOf(rules, joins)
      && ts == JoinsTokens(joins) + rest && JoinsStop(joins, Head(rest).typ)
    decreases |ts|
  {
    hide ParseJoin, JoinOk, JoinTreeTokens, JoinClauseOf, Ends;
    joins := [];
    if IsJoinKeyword(Head(ts).typ) {
      var first := JoinSound(rules, ts);
      var (c, rest) := ParseJoin(rules, ts).value;
      var others := JoinsSound(rules, before + [c], rest);
      joins := [first] + others;
      assert joins[1..] == others;
      assert JoinClausesOf(rules, joins) == [c] + JoinClausesOf(rules, others);
      var last := JoinLoop(rules, before, ts).value.1;
      assert others == [] ==> JoinsTokens(others) + last == last;
    }
  }

  lemma WhereSound(rules: LiteralRules, ts: seq<Token>) returns (where: Option<(Token, Tree)>)
    requires ParseWhere(rules, ts).Ok?
    ensures var (w, rest) := ParseWhere(rules, ts).value;
      && (where.Some? ==> where.value.0.typ == Word(WHERE) && OrOk(rules, where.value.1))
      && w == (if where.Some? then Some(TreeExpr(rules, where.value.1)) else None)
      && ts == WhereTokens(where) + rest
      && if where.Some? then Ends(where.value.1, Head(rest).typ) else Head(rest).typ != Word(WHERE)
  {
    hide ParseOr, OrOk, TreeExpr, TreeTokens, Ends;
    where := None;
    if Head(ts).typ == Word(WHERE) {
      var condition := OrSound(rules, Tail(ts));
      where := Some((ts[0], condition));
      assert ts == [ts[0]] + Tail(ts);
    }
  }

  /** The parts of a statement that was parsed. */
  lemma SelectSteps(rules: LiteralRules, ts: seq<Token>)
    requires ParseSelect(rules, ts).Ok?
    ensures ParseFields(Tail(ts)).Ok?
    ensures var (fields, ts1) := ParseFields(Tail(ts)).value;
      && Head(ts1).typ == Word(FROM) && Head(Tail(ts1)).typ == IDENTIFIER
      && var joined := JoinLoop(rules, [], Tail(Tail(ts1)));
      && joined.Ok? && ParseWhere(rules, joined.value.1).Ok?
      && var (where, ts4) := ParseWhere(rules, joined.value.1).value;
         ParseSelect(rules, ts).value ==
         (SelectStatement(fields, Identifier("", Head(Tail(ts1)).literal), joined.value.0, where),
          if Head(ts4).typ == SEMICOLON then Tail(ts4) else ts4)
  {
    hide ParseFields, JoinLoop, ParseWhere;
  }

  lemma SelectParts(t: SelectTree, rest: seq<Token>)
    ensures SelectTreeTokens(t) + rest ==
      [t.select] + (FieldsTokens(t.fields) + ([t.from] + ([t.table]
      + (JoinsTokens(t.joins) + (WhereTokens(t.where) + (Maybe(t.semicolon) + rest))))))
  {
    hide FieldsTokens, JoinsTokens, WhereTokens, Maybe;
  }

  /** Whatever the parser accepts is the token list of a tree with that statement. */
  lemma SelectSound(rules: LiteralRules, ts: seq<Token>) returns (t: SelectTree)
    requires ParseSelect(rules, ts).Ok?
    ensures var (s, rest) := ParseSelect(rules, ts).value; SelectDerives(rules, t, ts, s, rest)
  {
    hide FieldsOk, FieldsTokens, FieldsExprs, ParseFields, JoinOk, JoinsTokens, JoinClausesOf, JoinLoop, OrOk, TreeExpr;
    hide ParseWhere, WhereTokens, Ends, JoinsStop, ParseSelect;
    hide SelectTreeTokens, Maybe, SelectOk, StatementOf, SelectStops;
    SelectSteps(rules, ts);
    NothingParsed();
    var fields := FieldsSound(Tail(ts));
    var ts1 := ParseFields(Tail(ts)).value.1;
    var ts2 := Tail(Tail(ts1));
    var joins := JoinsSound(rules, [], ts2);
    var ts3 := JoinLoop(rules, [], ts2).value.1;
    var where := WhereSound(rules, ts3);
    var ts4 := ParseWhere(rules, ts3).value.1;
    var rest := ParseSelect(rules, ts).value.1;
    var semicolon := if Head(ts4).typ == SEMICOLON then Some(ts4[0]) else None;
    t := SelectTree(ts[0], fields, ts1[0], ts1[1], joins, where, semicolon);
    MaybeFirst(ts4, semicolon);
    SelectTokens(t, ts, ts1, ts3, ts4, rest);
    assert [] + JoinClausesOf(rules, joins) == JoinClausesOf(rules, joins);
    NoWhere(where, ts4);
    SelectBuilt(rules, t);
    SelectEnds(t, ts4, rest);
  }

  lemma SelectBuilt(rules: LiteralRules, t: SelectTree)
    requires FieldsOk(t.fields) && t.from.typ == Word(FROM) && t.table.typ == IDENTIFIER
    requires forall k :: 0 <= k < |t.joins| ==> JoinOk(rules, t.joins[k])
    requires t.where.Some? ==> t.where.value.0.typ == Word(WHERE) && OrOk(rules, t.where.value.1)
    requires t.semicolon.Some? ==> t.semicolon.value.typ == SEMICOLON
    ensures SelectOk(rules, t)
    ensures StatementOf(rules, t) == SelectStatement(
      FieldsExprs(t.fields), Identifier("", t.table.literal), JoinClausesOf(rules, t.joins),
      if t.where.Some? then Some(TreeExpr(rules, t.where.value.1)) else None)
  {
    hide FieldsOk, FieldsExprs, JoinOk, JoinClausesOf, OrOk, TreeExpr;
  }

  /** `ts` is what follows WHERE: the semicolon, if there is one, and the rest. */
  lemma SelectEnds(t: SelectTree, ts: seq<Token>, rest: seq<Token>)
    requires t.semicolon.Some? <==> Head(ts).typ == SEMICOLON
    requires t.semicolon.None? ==> ts == rest
    requires JoinsStop(t.joins, Head(WhereTokens(t.where) + ts).typ)
    requires if t.where.Some? then Ends(t.where.value.1, Head(ts).typ) else Head(ts).typ != Word(WHERE)
    ensures SelectStops(t, Head(rest).typ)
  {
    hide JoinsStop, Ends;
    NoWhere(t.where, ts);
  }

  lemma SelectTokens(t: SelectTree, ts: seq<Token>, ts1: seq<Token>, ts3: seq<Token>, ts4: seq<Token>, rest: seq<Token>)
    requires ts != [] && t.select == ts[0] && Tail(ts) == FieldsTokens(t.fields) + ts1
    requires |ts1| >= 2 && t.from == ts1[0] && t.table == ts1[1] && Tail(Tail(ts1)) == JoinsTokens(t.joins) + ts3
    requires ts3 == WhereTokens(t.where) + ts4 && ts4 == Maybe(t.semicolon) + rest
    ensures ts == SelectTreeTokens(t) + rest
  {
    hide FieldsTokens, JoinsTokens, WhereTokens, Maybe, SelectTreeTokens;
    SelectParts(t, rest);
    assert ts == [ts[0]] + Tail(ts);
    assert ts1 == [ts1[0]] + ([ts1[1]] + Tail(Tail(ts1)));
  }

  lemma NoWhere(where: Option<(Token, Tree)>, ts: seq<Token>)
    ensures where.None? ==> WhereTokens(where) + ts == ts
  {
  }

  lemma NothingParsed()
    ensures ParseFields([]).Err?
  {
  }

  /** The parser returns a statement and the tokens after it exactly when the grammar derives the
      statement from the tokens before them. */
  lemma SelectIsGrammar(rules: LiteralRules, ts: seq<Token>, s: SelectStatement, rest: seq<Token>)
    ensures ParseSelect(rules, ts) == Ok((s, rest)) <==> exists t :: SelectDerives(rules, t, ts, s, rest)
  {
    hide ParseSelect;
    if ParseSelect(rules, ts) == Ok((s, rest)) {
      var t := SelectSound(rules, ts);
      assert SelectDerives(rules, t, ts, s, rest);
    }
    if t :| SelectDerives(rules, t, ts, s, rest) {
      SelectComplete(rules, t, rest);
    }
  }
}
