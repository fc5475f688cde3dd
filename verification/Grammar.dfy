/** The expression grammar as trees over tokens, and the proof that the parser accepts exactly
    these trees:

      or := and (OR and)*     and := cmp (AND cmp)*     cmp := ( or ) | atom [op atom]

    Both chains associate to the left, AND binds tighter than OR. */
module Grammar {
  import opened Values
  import opened Tokens
  import opened Ast

  datatype AtomTree =
    | Plain(word: Token)
    | TwoPart(table: Token, dot: Token, column: Token)
    | KeywordColumn(word: Token)
    | Typed(word: Token, text: Token)
    | Constant(tok: Token)

  datatype Tree =
    | Atom(atom: AtomTree)
    | Compare(l: AtomTree, op: Token, r: AtomTree)
    | Paren(open: Token, inner: Tree, close: Token)
    | And(left: Tree, op: Token, right: Tree)
    | Or(left: Tree, op: Token, right: Tree)

  // ------------------------------------------------------------------ well-formedness

  predicate AtomOk(rules: LiteralRules, a: AtomTree)
  {
    match a
    case Plain(w) => w.typ == IDENTIFIER
    case TwoPart(t, d, c) => t.typ == IDENTIFIER && d.typ == DOT && c.typ == IDENTIFIER
    case KeywordColumn(w) => IsTypedKeyword(w.typ)
    case Typed(w, s) => IsTypedKeyword(w.typ) && s.typ == STRING && TypedLiteral(rules, w.typ, s.literal).Ok?
    case Constant(t) =>
      || t.typ == STRING || t.typ == Word(TRUE) || t.typ == Word(FALSE)
      || (t.typ == NUMBER && NumberLiteral(rules, t.literal).Ok?)
  }

  predicate OrOk(rules: LiteralRules, t: Tree)
    decreases t, 2
  {
    if t.Or? then OrOk(rules, t.left) && t.op.typ == Word(OR) && AndOk(rules, t.right) else AndOk(rules, t)
  }

  predicate AndOk(rules: LiteralRules, t: Tree)
    ensures AndOk(rules, t) ==> !t.Or?
    decreases t, 1
  {
    if t.And? then AndOk(rules, t.left) && t.op.typ == Word(AND) && CompareOk(rules, t.right) else CompareOk(rules, t)
  }

  predicate CompareOk(rules: LiteralRules, t: Tree)
    ensures CompareOk(rules, t) ==> !t.Or? && !t.And?
    decreases t, 0
  {
    match t
    case Atom(a) => AtomOk(rules, a)
    case Compare(l, op, r) => AtomOk(rules, l) && IsComparison(op.typ) && AtomOk(rules, r)
    case Paren(o, inner, c) => o.typ == PAREN_OPEN && OrOk(rules, inner) && c.typ == PAREN_CLOSE
    case _ => false
  }

  // ------------------------------------------------------------------ tokens and meaning

  function AtomTokens(a: AtomTree): (ts: seq<Token>)
  {
    match a
    case Plain(w) => [w]
    case TwoPart(t, d, c) => [t, d, c]
    case KeywordColumn(w) => [w]
    case Typed(w, s) => [w, s]
    case Constant(t) => [t]
  }

  function TreeTokens(t: Tree): (ts: seq<Token>)
  {
    match t
    case Atom(a) => AtomTokens(a)
    case Compare(l, op, r) => AtomTokens(l) + [op] + AtomTokens(r)
    case Paren(o, inner, c) => [o] + TreeTokens(inner) + [c]
    case And(l, op, r) => TreeTokens(l) + [op] + TreeTokens(r)
    case Or(l, op, r) => TreeTokens(l) + [op] + TreeTokens(r)
  }

  function AtomExpr(rules: LiteralRules, a: AtomTree): (e: Expr)
    requires AtomOk(rules, a)
  {
    match a
    case Plain(w) => Identifier("", w.literal)
    case TwoPart(t, d, c) => Identifier(t.literal, c.literal)
    case KeywordColumn(w) => Identifier("", ToLower(w.literal))
    case Typed(w, s) => TypedLiteral(rules, w.typ, s.literal).value
    case Constant(t) =>
      if t.typ == STRING then Literal(t.literal, Str(t.literal), LiteralString)
      else if t.typ == Word(TRUE) then Literal("true", Bool(true), LiteralBool)
      else if t.typ == Word(FALSE) then Literal("false", Bool(false), LiteralBool)
      else NumberLiteral(rules, t.literal).value
  }

  function TreeExpr(rules: LiteralRules, t: Tree): (e: Expr)
    requires OrOk(rules, t)
  {
    assert !t.Or? ==> AndOk(rules, t);
    assert !t.Or? && !t.And? ==> CompareOk(rules, t);
    match t
    case Atom(a) => AtomExpr(rules, a)
    case Compare(l, op, r) => Binary(AtomExpr(rules, l), op.literal, AtomExpr(rules, r))
    case Paren(o, inner, c) => TreeExpr(rules, inner)
    case And(l, op, r) => Logical(TreeExpr(rules, l), op.literal, TreeExpr(rules, r))
    case Or(l, op, r) => Logical(TreeExpr(rules, l), op.literal, TreeExpr(rules, r))
  }

  // -------------------------------------------------------------------- what may follow

  /** The token after an atom does not extend it. */
  predicate AtomStops(a: AtomTree, next: TokenType)
  {
    match a
    case Plain(_) => next != DOT
    case KeywordColumn(_) => next != STRING
    case _ => true
  }

  /** The token after a tree does not extend its last comparison. */
  predicate Stops(t: Tree, next: TokenType)
  {
    match t
    case Atom(a) => AtomStops(a, next) && !IsComparison(next)
    case Compare(l, op, r) => AtomStops(r, next)
    case Paren(o, inner, c) => true
    case And(l, op, r) => Stops(r, next)
    case Or(l, op, r) => Stops(r, next)
  }

  /** The token after a whole expression. */
  predicate Ends(t: Tree, next: TokenType)
  {
    Stops(t, next) && next != Word(AND) && next != Word(OR)
  }

  /** A token that no expression can go on with. */
  predicate Closing(next: TokenType)
  {
    next != DOT && next != STRING && !IsComparison(next) && next != Word(AND) && next != Word(OR)
  }

  lemma {:induction false} WordStops(t: Tree, next: TokenType)
    requires next != DOT && next != STRING && !IsComparison(next)
    ensures Stops(t, next)
  {
    match t
    case And(l, op, r) => WordStops(r, next);
    case Or(l, op, r) => WordStops(r, next);
    case _ =>
  }

  // -------------------------------------------------------------------- completeness

  lemma AtomComplete(rules: LiteralRules, a: AtomTree, rest: seq<Token>)
    requires AtomOk(rules, a) && AtomStops(a, Head(rest).typ)
    ensures ParseAtom(rules, AtomTokens(a) + rest) == Ok((AtomExpr(rules, a), rest))
  {
    var ts := AtomTokens(a) + rest;
    assert ts[1..] == AtomTokens(a)[1..] + rest;
    if a.TwoPart? {
      assert ts[1..][1..][1..] == rest;
    } else if a.Typed? {
      assert ts[1..][1..] == rest;
    } else {
      assert ts[1..] == rest;
    }
  }

  lemma AtomHead(rules: LiteralRules, a: AtomTree)
    requires AtomOk(rules, a)
    ensures AtomTokens(a) != [] && AtomTokens(a)[0].typ != PAREN_OPEN
  {
  }

  lemma {:induction false} CompareComplete(rules: LiteralRules, t: Tree, rest: seq<Token>)
    requires CompareOk(rules, t) && Stops(t, Head(rest).typ)
    ensures ParseComparison(rules, TreeTokens(t) + rest) == Ok((TreeExpr(rules, t), rest))
    decreases t, 0
  {
    hide ParseAtom, AtomOk, AtomExpr, AtomTokens;
    var ts := TreeTokens(t) + rest;
    match t
    case Atom(a) =>
      AtomHead(rules, a);
      AtomComplete(rules, a, rest);
    case Compare(l, op, r) =>
      AtomHead(rules, l);
      var after := [op] + (AtomTokens(r) + rest);
      assert ts == AtomTokens(l) + after;
      AtomComplete(rules, l, after);
      assert Tail(after) == AtomTokens(r) + rest;
      AtomComplete(rules, r, rest);
    case Paren(o, inner, c) =>
      assert ts[1..] == TreeTokens(inner) + ([c] + rest);
      WordStops(inner, PAREN_CLOSE);
      OrComplete(rules, inner, [c] + rest);
      assert Tail([c] + rest) == rest;
  }

  lemma {:induction false} AndComplete(rules: LiteralRules, t: Tree, rest: seq<Token>)
    requires AndOk(rules, t) && Stops(t, Head(rest).typ)
    ensures ParseAnd(rules, TreeTokens(t) + rest) == AndLoop(rules, TreeExpr(rules, t), rest)
    decreases t, 1
  {
    if t.And? {
      var after := [t.op] + (TreeTokens(t.right) + rest);
      assert TreeTokens(t) + rest == TreeTokens(t.left) + after;
      assert Tail(after) == TreeTokens(t.right) + rest;
      WordStops(t.left, t.op.typ);
      AndComplete(rules, t.left, after);
      CompareComplete(rules, t.right, rest);
    } else {
      CompareComplete(rules, t, rest);
    }
  }

  lemma OrParts(rules: LiteralRules, t: Tree, next: TokenType)
    requires OrOk(rules, t) && Stops(t, next)
    ensures t.Or? ==> Stops(t.right, next) && !IsComparison(Word(OR))
  {
  }

  lemma {:induction false} OrChain(rules: LiteralRules, t: Tree, rest: seq<Token>)
    requires OrOk(rules, t) && Stops(t, Head(rest).typ) && Head(rest).typ != Word(AND)
    ensures ParseOr(rules, TreeTokens(t) + rest) == OrLoop(rules, TreeExpr(rules, t), rest)
    decreases t, 2
  {
    hide CompareOk, ParseComparison, Stops, IsComparison;
    OrParts(rules, t, Head(rest).typ);
    if t.Or? {
      var after := [t.op] + (TreeTokens(t.right) + rest);
      assert TreeTokens(t) + rest == TreeTokens(t.left) + after;
      assert Tail(after) == TreeTokens(t.right) + rest;
      WordStops(t.left, t.op.typ);
      OrChain(rules, t.left, after);
      AndComplete(rules, t.right, rest);
    } else {
      AndComplete(rules, t, rest);
    }
  }

  /** A grammar tree's tokens are parsed to the tree's expression, leaving exactly the tokens
      that follow. */
  lemma OrComplete(rules: LiteralRules, t: Tree, rest: seq<Token>)
    requires OrOk(rules, t) && Ends(t, Head(rest).typ)
    ensures ParseOr(rules, TreeTokens(t) + rest) == Ok((TreeExpr(rules, t), rest))
    decreases t, 3
  {
    OrChain(rules, t, rest);
  }

  // ----------------------------------------------------------------------- soundness

  lemma AtomSound(rules: LiteralRules, ts: seq<Token>) returns (a: AtomTree)
    requires ParseAtom(rules, ts).Ok?
    ensures var (e, rest) := ParseAtom(rules, ts).value;
      AtomOk(rules, a) && AtomExpr(rules, a) == e && ts == AtomTokens(a) + rest && AtomStops(a, Head(rest).typ)
  {
    var tok := ts[0];
    if tok.typ == IDENTIFIER {
      a := if Head(ts[1..]).typ == DOT then TwoPart(tok, ts[1], ts[2]) else Plain(tok);
    } else if IsTypedKeyword(tok.typ) {
      a := if Head(ts[1..]).typ == STRING then Typed(tok, ts[1]) else KeywordColumn(tok);
    } else {
      a := Constant(tok);
    }
  }

  lemma {:induction false} CompareSound(rules: LiteralRules, ts: seq<Token>) returns (t: Tree)
    requires ParseComparison(rules, ts).Ok?
    ensures var (e, rest) := ParseComparison(rules, ts).value;
      CompareOk(rules, t) && TreeExpr(rules, t) == e && ts == TreeTokens(t) + rest && Stops(t, Head(rest).typ)
    decreases |ts|, 1
  {
    hide ParseAtom, AtomOk, AtomExpr, AtomTokens, AtomStops;
    if Head(ts).typ == PAREN_OPEN {
      t := ParenSound(rules, ts);
    } else {
      var l := AtomSound(rules, ts);
      var rest := ParseAtom(rules, ts).value.1;
      if IsComparison(Head(rest).typ) {
        var r := AtomSound(rules, Tail(rest));
        t := Compare(l, rest[0], r);
        assert rest == [rest[0]] + Tail(rest);
      } else {
        t := Atom(l);
      }
    }
  }

  lemma {:induction false} ParenSound(rules: LiteralRules, ts: seq<Token>) returns (t: Tree)
    requires ParseComparison(rules, ts).Ok? && Head(ts).typ == PAREN_OPEN
    ensures var (e, rest) := ParseComparison(rules, ts).value;
      CompareOk(rules, t) && TreeExpr(rules, t) == e && ts == TreeTokens(t) + rest && Stops(t, Head(rest).typ)
    decreases |ts|, 0
  {
    hide ParseAtom, AtomOk, OrOk, AndOk, CompareOk, TreeExpr, TreeTokens, ParseOr, Ends, IsComparison;
    var inner := OrSound(rules, Tail(ts));
    var rest := ParseOr(rules, Tail(ts)).value.1;
    t := ParenTree(rules, ts[0], inner, rest[0]);
    assert ts == [ts[0]] + Tail(ts) && rest == [rest[0]] + Tail(rest);
  }

  lemma ParenTree(rules: LiteralRules, open: Token, inner: Tree, close: Token) returns (t: Tree)
    requires open.typ == PAREN_OPEN && close.typ == PAREN_CLOSE && OrOk(rules, inner)
    ensures CompareOk(rules, t) && AndOk(rules, t) && OrOk(rules, t)
    ensures TreeExpr(rules, t) == TreeExpr(rules, inner)
    ensures TreeTokens(t) == [open] + TreeTokens(inner) + [close]
    ensures t == Paren(open, inner, close)
  {
    t := Paren(open, inner, close);
  }

  /** A chain of ANDs with one more operand. */
  lemma AndGrows(rules: LiteralRules, left: Tree, op: Token, right: Tree, next: TokenType)
    requires AndOk(rules, left) && op.typ == Word(AND) && CompareOk(rules, right)
    ensures OrOk(rules, left) && OrOk(rules, right)
    ensures AndOk(rules, And(left, op, right)) && OrOk(rules, And(left, op, right))
    ensures TreeExpr(rules, And(left, op, right)) == Logical(TreeExpr(rules, left), op.literal, TreeExpr(rules, right))
    ensures TreeTokens(And(left, op, right)) == TreeTokens(left) + [op] + TreeTokens(right)
    ensures Stops(And(left, op, right), next) == Stops(right, next)
  {
    hide AtomOk, AtomExpr, AtomTokens;
    assert AndOk(rules, right);
  }

  lemma OrGrows(rules: LiteralRules, left: Tree, op: Token, right: Tree, next: TokenType)
    requires OrOk(rules, left) && op.typ == Word(OR) && AndOk(rules, right)
    ensures OrOk(rules, right) && OrOk(rules, Or(left, op, right))
    ensures TreeExpr(rules, Or(left, op, right)) == Logical(TreeExpr(rules, left), op.literal, TreeExpr(rules, right))
    ensures TreeTokens(Or(left, op, right)) == TreeTokens(left) + [op] + TreeTokens(right)
    ensures Stops(Or(left, op, right), next) == Stops(right, next)
  {
    hide AtomOk, AtomExpr, AtomTokens;
  }

  /** The AND loop extends the tree parsed so far. */
  lemma {:induction false} AndLoopSound(rules: LiteralRules, left: Tree, ts: seq<Token>) returns (t: Tree)
    requires AndOk(rules, left) && Stops(left, Head(ts).typ)
    requires AndLoop(rules, TreeExpr(rules, left), ts).Ok?
    ensures var (e, rest) := AndLoop(rules, TreeExpr(rules, left), ts).value;
      && AndOk(rules, t) && TreeExpr(rules, t) == e && TreeTokens(left) + ts == TreeTokens(t) + rest
      && Stops(t, Head(rest).typ) && Head(rest).typ != Word(AND)
    decreases |ts|, 2
  {
    hide ParseComparison, CompareOk, AndOk, OrOk, TreeExpr, TreeTokens, Stops, IsComparison;
    if Head(ts).typ == Word(AND) {
      var right := CompareSound(rules, Tail(ts));
      var rest := ParseComparison(rules, Tail(ts)).value.1;
      AndGrows(rules, left, ts[0], right, Head(rest).typ);
      assert ts == [ts[0]] + Tail(ts);
      assert TreeTokens(left) + ts == TreeTokens(And(left, ts[0], right)) + rest;
      t := AndLoopSound(rules, And(left, ts[0], right), rest);
    } else {
      t := left;
    }
  }

  lemma {:induction false} AndSound(rules: LiteralRules, ts: seq<Token>) returns (t: Tree)
    requires ParseAnd(rules, ts).Ok?
    ensures var (e, rest) := ParseAnd(rules, ts).value;
      && AndOk(rules, t) && TreeExpr(rules, t) == e && ts == TreeTokens(t) + rest
      && Stops(t, Head(rest).typ) && Head(rest).typ != Word(AND)
    decreases |ts|, 2
  {
    var first := CompareSound(rules, ts);
    t := AndLoopSound(rules, first, ParseComparison(rules, ts).value.1);
  }

  lemma {:induction false} OrLoopSound(rules: LiteralRules, left: Tree, ts: seq<Token>) returns (t: Tree)
    requires OrOk(rules, left) && Stops(left, Head(ts).typ) && Head(ts).typ != Word(AND)
    requires OrLoop(rules, TreeExpr(rules, left), ts).Ok?
    ensures var (e, rest) := OrLoop(rules, TreeExpr(rules, left), ts).value;
      && OrOk(rules, t) && TreeExpr(rules, t) == e && TreeTokens(left) + ts == TreeTokens(t) + rest
      && Ends(t, Head(rest).typ)
    decreases |ts|, 3
  {
    hide ParseAnd, AndOk, OrOk, TreeExpr, TreeTokens, Stops, IsComparison;
    if Head(ts).typ == Word(OR) {
      var right := AndSound(rules, Tail(ts));
      var rest := ParseAnd(rules, Tail(ts)).value.1;
      OrGrows(rules, left, ts[0], right, Head(rest).typ);
      assert ts == [ts[0]] + Tail(ts);
      assert TreeTokens(left) + ts == TreeTokens(Or(left, ts[0], right)) + rest;
      t := OrLoopSound(rules, Or(left, ts[0], right), rest);
    } else {
      t := left;
    }
  }

  /** Whatever the parser accepts is the token list of a grammar tree with that expression. */
  lemma {:induction false} OrSound(rules: LiteralRules, ts: seq<Token>) returns (t: Tree)
    requires ParseOr(rules, ts).Ok?
    ensures var (e, rest) := ParseOr(rules, ts).value;
      OrOk(rules, t) && TreeExpr(rules, t) == e && ts == TreeTokens(t) + rest && Ends(t, Head(rest).typ)
    decreases |ts|, 3
  {
    var first := AndSound(rules, ts);
    t := OrLoopSound(rules, first, ParseAnd(rules, ts).value.1);
  }

  /** The tree derives the expression from the tokens in front of `rest`. */
  ghost predicate Derives(rules: LiteralRules, t: Tree, ts: seq<Token>, e: Expr, rest: seq<Token>)
  {
    OrOk(rules, t) && TreeExpr(rules, t) == e && ts == TreeTokens(t) + rest && Ends(t, Head(rest).typ)
  }

  /** The parser returns an expression exactly when the grammar derives it. */
  lemma ParserIsGrammar(rules: LiteralRules, ts: seq<Token>, e: Expr, rest: seq<Token>)
    ensures ParseOr(rules, ts) == Ok((e, rest)) <==> exists t :: Derives(rules, t, ts, e, rest)
  {
    if ParseOr(rules, ts) == Ok((e, rest)) {
      var t := OrSound(rules, ts);
      assert Derives(rules, t, ts, e, rest);
    }
    if t :| Derives(rules, t, ts, e, rest) {
      OrComplete(rules, t, rest);
    }
  }
}
