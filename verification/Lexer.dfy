/** The lexer object, which walks over its input one character at a time. */
module Lexers {
  import opened Values
  import opened Tokens

  class Lexer {
    const input: string
    var position: nat
    var readPosition: nat
    var ch: char

    ghost predicate Valid()
      reads this
    {
      readPosition == position + 1 && ch == At(input, position)
    }

    /** The text from the current character on. */
    ghost function Rest(): (s: string)
      reads this
    {
      if position <= |input| then input[position..] else []
    }

    constructor (input: string)
      ensures Valid() && Rest() == input && this.input == input
    {
      this.input := input;
      this.position, this.readPosition, this.ch := 0, 0, NUL;
      new;
      ReadChar();
    }

    method ReadChar()
      modifies this
      ensures position == old(readPosition) && Valid()
    {
      ch := if readPosition >= |input| then NUL else input[readPosition];
      position := readPosition;
      readPosition := readPosition + 1;
    }

    function PeekChar(): (c: char)
      reads this
      ensures Valid() ==> c == At(Rest(), 1)
    {
      if readPosition >= |input| then NUL else input[readPosition]
    }

    /** The next token; the text after it is what remains. */
    method NextToken() returns (tok: Token)
      requires Valid()
      modifies this
      ensures Valid()
      ensures (tok, Rest()) == Tokens.NextToken(old(Rest()))
    {
      hide ScanToken, SpanSpaces;
      SkipWhitespace();
      tok := ReadToken();
    }

    /** The token at the current character, which is not white space. */
    method ReadToken() returns (tok: Token)
      requires Valid()
      modifies this
      ensures Valid()
      ensures tok == ScanToken(old(Rest())).0 && Rest() == old(Rest())[ScanToken(old(Rest())).1..]
    {
      hide KeywordOf, Upper, SpanWord, SpanNumber, SpanString;
      ghost var s := Rest();
      if ch == '<' && PeekChar() == '=' {
        tok := ReadDouble(LESS_EQUAL);
      } else if ch == '<' && PeekChar() == '>' {
        tok := ReadDouble(NOT_EQUAL);
      } else if ch == '>' && PeekChar() == '=' {
        tok := ReadDouble(GREATER_EQUAL);
      } else if ch == '!' && PeekChar() == '=' {
        tok := ReadDouble(NOT_EQUAL);
      } else if ch == '\'' {
        var lit := ReadString();
        tok := Token(STRING, lit);
      } else if ch == NUL {
        tok := Token(EOF, "");
        ReadChar();
      } else if IsLetter(ch) {
        var lit := ReadIdentifier();
        tok := Token(LookupIdent(lit), lit);
      } else if IsDigit(ch) {
        var lit := ReadNumber();
        tok := Token(NUMBER, lit);
      } else {
        tok := Token(Single(ch), [ch]);
        assert s[..1] == [ch];
        ReadChar();
      }
    }

    /** Consumes a two-character operator. */
    method ReadDouble(typ: TokenType) returns (tok: Token)
      requires Valid() && |Rest()| >= 2
      modifies this
      ensures Valid() && tok == Token(typ, old(Rest())[..2]) && Rest() == old(Rest())[2..]
    {
      var first := ch;
      ReadChar();
      tok := Token(typ, [first] + [ch]);
      ReadChar();
    }

    method SkipWhitespace()
      requires Valid()
      modifies this
      ensures Valid() && Rest() == old(Rest())[SpanSpaces(old(Rest()))..]
    {
      ghost var s := Rest();
      while ch == ' ' || ch == '\t' || ch == '\n' || ch == '\r'
        invariant Valid() && position <= old(position) + |s|
        invariant old(position) + |s| == if old(position) <= |input| then |input| else old(position)
        invariant s[SpanSpaces(s)..] == Rest()[SpanSpaces(Rest())..]
        decreases |input| - position
      {
        ghost var r := Rest();
        ReadChar();
        assert Rest() == r[1..];
      }
    }

    method ReadIdentifier() returns (lit: string)
      requires Valid() && position < |input|
      modifies this
      ensures Valid()
      ensures var s := old(Rest()); lit == s[..SpanWord(s)] && Rest() == s[SpanWord(s)..]
    {
      ghost var s := Rest();
      var start := position;
      while IsLetter(ch) || IsDigit(ch) || ch == '_'
        invariant Valid() && start <= position <= |input|
        invariant position - start + SpanWord(Rest()) == SpanWord(s)
        decreases |input| - position
      {
        ghost var r := Rest();
        ReadChar();
        assert Rest() == r[1..];
      }
      return input[start..position];
    }

    method SkipDigits()
      requires Valid() && position <= |input|
      modifies this
      ensures Valid() && position == old(position) + SpanDigits(old(Rest())) <= |input|
    {
      ghost var s := Rest();
      while IsDigit(ch)
        invariant Valid() && old(position) <= position <= |input|
        invariant position - old(position) + SpanDigits(Rest()) == SpanDigits(s)
        decreases |input| - position
      {
        ghost var r := Rest();
        ReadChar();
        assert Rest() == r[1..];
      }
    }

    method ReadNumber() returns (lit: string)
      requires Valid() && position < |input|
      modifies this
      ensures Valid()
      ensures var s := old(Rest()); lit == s[..SpanNumber(s)] && Rest() == s[SpanNumber(s)..]
    {
      hide SpanDigits;
      ghost var s := Rest();
      var start := position;
      SkipDigits();
      assert At(Rest(), 1) == At(s, SpanDigits(s) + 1);
      if ch == '.' && IsDigit(PeekChar()) {
        ReadChar();
        assert Rest() == s[SpanDigits(s) + 1..];
        SkipDigits();
      }
      return input[start..position];
    }

    /** The text up to the closing quote, which is consumed; a NUL or the end closes too. */
    method ReadString() returns (lit: string)
      requires Valid() && position < |input|
      modifies this
      ensures Valid()
      ensures var s := old(Rest()); var n := SpanString(s[1..]);
        && lit == s[1..n + 1]
        && Rest() == s[if At(s, n + 1) == '\'' then n + 2 else n + 1..]
    {
      ghost var s := Rest();
      var start := position + 1;
      ReadChar();
      assert Rest() == s[1..];
      while ch != '\'' && ch != NUL
        invariant Valid() && start <= position <= |input|
        invariant position - start + SpanString(Rest()) == SpanString(s[1..])
        decreases |input| - position
      {
        ghost var r := Rest();
        ReadChar();
        assert Rest() == r[1..];
      }
      lit := input[start..position];
      assert SpanString(Rest()) == 0;
      hide SpanString;
      assert lit == s[1..SpanString(s[1..]) + 1];
      assert ch == At(s, SpanString(s[1..]) + 1);
      if ch == '\'' {
        ReadChar();
      }
    }
  }

  /** The tokens read so far and those still to come. */
  ghost function After(tokens: seq<Token>, more: Option<seq<Token>>): (r: Option<seq<Token>>)
  {
    if more.None? then None else Some(tokens + more.value)
  }

  lemma AfterEnds(tokens: seq<Token>, more: Option<seq<Token>>)
    ensures After([], more) == more
    ensures After(tokens, Some([])) == Some(tokens)
  {
    if more.Some? {
      assert [] + more.value == more.value;
    }
    assert tokens + [] == tokens;
  }

  lemma AfterStep(tokens: seq<Token>, tok: Token, more: Option<seq<Token>>)
    ensures After(tokens, if more.None? then None else Some([tok] + more.value)) == After(tokens + [tok], more)
  {
    if more.Some? {
      assert tokens + ([tok] + more.value) == tokens + [tok] + more.value;
    }
  }

  /** All tokens of the input, or nothing when a character is illegal. */
  method Tokenize(input: string) returns (r: Option<seq<Token>>)
    ensures r == Tokens.Tokenize(input)
  {
    hide KeywordOf, Upper, Tokens.NextToken;
    var l := new Lexer(input);
    var tokens: seq<Token> := [];
    var more := true;
    AfterEnds([], Tokens.Tokenize(input));
    while more
      invariant l.Valid() && fresh(l)
      invariant more ==> Tokens.Tokenize(input) == After(tokens, Tokens.Tokenize(l.Rest()))
      invariant !more ==> Tokens.Tokenize(input) == Some(tokens)
      decreases more, |l.Rest()|
    {
      var tok := l.NextToken();
      if tok.typ == EOF {
        AfterEnds(tokens, None);
        more := false;
      } else if tok.typ == ILLEGAL {
        return None;
      } else {
        AfterStep(tokens, tok, Tokens.Tokenize(l.Rest()));
        tokens := tokens + [tok];
      }
    }
    return Some(tokens);
  }
}
