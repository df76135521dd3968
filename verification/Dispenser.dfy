/**
 The token dispenser (framework/config/lexer/dispenser.go): a cursor over the tokens that moves to
 the next argument on the same line, or to the first token of the next line.
 */
module Dispenser {
  import opened L = Lexer

  /** Both questions are about the token behind the cursor; before the first token both are granted. */
  predicate ArgFollows(tokens: seq<Token>, cursor: int) {
    || cursor < 0
    || (cursor < |tokens| - 1 && tokens[cursor].file == tokens[cursor + 1].file
        && tokens[cursor].line + Breaks(tokens[cursor].text) == tokens[cursor + 1].line)
  }

  predicate LineFollows(tokens: seq<Token>, cursor: int) {
    || cursor < 0
    || (cursor < |tokens| - 1 && (tokens[cursor].file != tokens[cursor + 1].file
        || tokens[cursor].line + Breaks(tokens[cursor].text) < tokens[cursor + 1].line))
  }

  /**
   On the tokens of any text, from every token but the last exactly one of the two moves is possible,
   and it is to the next argument exactly when no line break lies between the two tokens.
   */
  lemma {:induction false} ExactlyOneMove(s: Text, k: nat)
    requires k + 1 < |Tokens(s)|
    ensures ArgFollows(Tokens(s), k) <==> !LineFollows(Tokens(s), k)
    ensures |Lexemes(s, Begin(s))| == |Tokens(s)|
    ensures var x, y := Lexemes(s, Begin(s))[k], Lexemes(s, Begin(s))[k + 1];
            x.stop <= y.start <= |s| && (ArgFollows(Tokens(s), k) <==> '\n' !in s[x.stop..y.start])
  {
    TokensInOrder(s, k);
    TokensAre(s, Begin(s), k);
    TokensAre(s, Begin(s), k + 1);
    SameLineIff(s, Begin(s), k);
  }

  class Dispenser {
    const tokens: seq<Token>
    var cursor: int

    /** An error of the lexer is not passed on. */
    constructor (input: Text)
      ensures tokens == Tokens(input) && cursor == -1
    {
      var ts, _ := AllTokens(input);
      tokens := ts;
      cursor := -1;
    }

    constructor FromTokens(tokens: seq<Token>)
      ensures this.tokens == tokens && cursor == -1
    {
      this.tokens := tokens;
      cursor := -1;
    }

    function Val(): Text
      reads this
    {
      if 0 <= cursor < |tokens| then tokens[cursor].text else ""
    }

    method Next() returns (ok: bool)
      modifies this
      ensures ok <==> old(cursor) < |tokens| - 1
      ensures cursor == if ok then old(cursor) + 1 else old(cursor)
    {
      if cursor < |tokens| - 1 {
        cursor := cursor + 1;
        return true;
      }
      return false;
    }

    static method NumLineBreaks(text: Text) returns (n: nat)
      ensures n == Breaks(text)
    {
      n := 0;
      for i := 0 to |text|
        invariant n == Breaks(text[..i])
      {
        assert text[..i + 1][..i] == text[..i];
        if text[i] == '\n' {
          n := n + 1;
        }
      }
      assert text[..|text|] == text;
    }

    method NextArg() returns (ok: bool)
      modifies this
      ensures ok <==> ArgFollows(tokens, old(cursor))
      ensures cursor == if ok then old(cursor) + 1 else old(cursor)
    {
      if cursor < 0 {
        cursor := cursor + 1;
        return true;
      }
      if cursor >= |tokens| {
        return false;
      }
      var breaks := NumLineBreaks(tokens[cursor].text);
      if cursor < |tokens| - 1 && tokens[cursor].file == tokens[cursor + 1].file
         && tokens[cursor].line + breaks == tokens[cursor + 1].line {
        cursor := cursor + 1;
        return true;
      }
      return false;
    }

    method NextLine() returns (ok: bool)
      modifies this
      ensures ok <==> LineFollows(tokens, old(cursor))
      ensures cursor == if ok then old(cursor) + 1 else old(cursor)
    {
      if cursor < 0 {
        cursor := cursor + 1;
        return true;
      }
      if cursor >= |tokens| {
        return false;
      }
      var breaks := NumLineBreaks(tokens[cursor].text);
      if cursor < |tokens| - 1 && (tokens[cursor].file != tokens[cursor + 1].file
         || tokens[cursor].line + breaks < tokens[cursor + 1].line) {
        cursor := cursor + 1;
        return true;
      }
      return false;
    }
  }
}
