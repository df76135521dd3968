/**
 The lexer of the configuration language (framework/config/lexer/lexer.go): words, quoted strings
 that may span lines, comments. Tokens carry the line they start on, from which the dispenser later
 tells where lines end.
 */
module Lexer {
  import opened Uids

  type Text = seq<char>

  datatype Token = Token(file: string, line: nat, text: Text)

  const BYTE_ORDER_MARK := '\U{FEFF}'

  /** unicode.IsSpace */
  predicate IsSpace(c: char) {
    || '\t' <= c <= '\r' || c == ' ' || c == '\U{85}' || c == '\U{A0}'
    || c == '\U{1680}' || '\U{2000}' <= c <= '\U{200A}'
    || c == '\U{2028}' || c == '\U{2029}' || c == '\U{202F}' || c == '\U{205F}' || c == '\U{3000}'
  }

  /** How many line breaks a text holds. */
  function Breaks(s: Text): nat {
    if s == [] then 0 else Breaks(s[..|s| - 1]) + if s[|s| - 1] == '\n' then 1 else 0
  }

  lemma {:induction false} BreaksConcat(a: Text, b: Text)
    ensures Breaks(a + b) == Breaks(a) + Breaks(b)
    decreases |b|
  {
    if b == [] {
      assert a + b == a;
    } else {
      assert (a + b)[..|a + b| - 1] == a + b[..|b| - 1];
      BreaksConcat(a, b[..|b| - 1]);
    }
  }

  lemma {:induction false} BreaksCons(c: char, t: Text)
    ensures Breaks([c] + t) == Breaks(t) + if c == '\n' then 1 else 0
  {
    assert [c][..0] == [];
    BreaksConcat([c], t);
  }

  // ---- What a token is ----

  /** The text of a quoted string whose inside starts at `i`: only the quotes can be escaped. */
  function QuotedText(s: Text, i: nat): Text
    requires i <= |s|
    decreases |s| - i
  {
    if i == |s| || s[i] == '"' then ""
    else if s[i] != '\\' then [s[i]] + QuotedText(s, i + 1)
    else if i + 1 == |s| then ""
    else if s[i + 1] == '"' then ['"'] + QuotedText(s, i + 2)
    else ['\\', s[i + 1]] + QuotedText(s, i + 2)
  }

  /** Where it ends: behind the closing quotes, or at the end of the input. */
  function QuotedEnd(s: Text, i: nat): (j: nat)
    requires i <= |s|
    ensures i <= j <= |s|
    decreases |s| - i
  {
    if i == |s| then i
    else if s[i] == '"' then i + 1
    else if s[i] != '\\' then QuotedEnd(s, i + 1)
    else if i + 1 == |s| then i + 1
    else QuotedEnd(s, i + 2)
  }

  predicate Closed(s: Text, i: nat)
    requires i <= |s|
    decreases |s| - i
  {
    i < |s| && (s[i] == '"' || (if s[i] != '\\' then Closed(s, i + 1) else i + 1 < |s| && Closed(s, i + 2)))
  }

  predicate EndsWord(c: char) {
    IsSpace(c) && c != '\r'
  }

  /** The rest of a word from `i` on: carriage returns are dropped, and everything after a hash. */
  function WordText(s: Text, i: nat, comment: bool): Text
    requires i <= |s|
    decreases |s| - i
  {
    if i == |s| || EndsWord(s[i]) then ""
    else if s[i] == '\r' then WordText(s, i + 1, comment)
    else if comment || s[i] == '#' then WordText(s, i + 1, true)
    else [s[i]] + WordText(s, i + 1, false)
  }

  function WordEnd(s: Text, i: nat): (j: nat)
    requires i <= |s|
    ensures i <= j <= |s| && (j < |s| ==> EndsWord(s[j])) && forall k :: i <= k < j ==> !EndsWord(s[k])
    decreases |s| - i
  {
    if i == |s| || EndsWord(s[i]) then i else WordEnd(s, i + 1)
  }

  /** Where the next token starts: behind blanks and comments. */
  function Start(s: Text, i: nat, comment: bool): (j: nat)
    requires i <= |s|
    ensures i <= j <= |s| && (j < |s| ==> !IsSpace(s[j]) && s[j] != '#')
    decreases |s| - i
  {
    if i == |s| then i
    else if IsSpace(s[i]) then Start(s, i + 1, comment && s[i] != '\n')
    else if comment || s[i] == '#' then Start(s, i + 1, true)
    else i
  }

  /** A token in the input: it occupies start to stop, and reading goes on at next. */
  datatype Lexeme = Lexeme(start: nat, stop: nat, next: nat, text: Text)

  function LexemeAt(s: Text, start: nat): Option<Lexeme>
    requires start < |s|
  {
    if s[start] == '"' then
      var stop, text := QuotedEnd(s, start + 1), QuotedText(s, start + 1);
      if text == "" && !Closed(s, start + 1) then None else Some(Lexeme(start, stop, stop, text))
    else
      var stop, text := WordEnd(s, start + 1), [s[start]] + WordText(s, start + 1, false);
      Some(Lexeme(start, stop, if stop < |s| then stop + 1 else stop, text))
  }

  /** The first token from `i` on. */
  function FirstLexeme(s: Text, i: nat, comment: bool): (r: Option<Lexeme>)
    requires i <= |s|
    ensures r.Some? ==> i <= r.value.start < r.value.stop <= r.value.next <= |s|
  {
    var start := Start(s, i, comment);
    if start == |s| then None else LexemeAt(s, start)
  }

  function Lexemes(s: Text, i: nat): seq<Lexeme>
    requires i <= |s|
    decreases |s| - i
  {
    var first := FirstLexeme(s, i, false);
    if first.None? then [] else [first.value] + Lexemes(s, first.value.next)
  }

  function LineAt(s: Text, i: nat): nat
    requires i <= |s|
  {
    1 + Breaks(s[..i])
  }

  function AsToken(s: Text, x: Lexeme): Token
    requires x.start <= |s|
  {
    Token("", LineAt(s, x.start), x.text)
  }

  // ---- Line breaks in tokens ----

  lemma NextBreak(s: Text, i: nat)
    requires i < |s|
    ensures LineAt(s, i + 1) == LineAt(s, i) + if s[i] == '\n' then 1 else 0
  {
    assert s[..i + 1][..i] == s[..i];
  }

  /** The text of a quoted string holds exactly the line breaks of its source. */
  lemma {:induction false} QuotedBreaks(s: Text, i: nat)
    requires i <= |s|
    ensures LineAt(s, i) + Breaks(QuotedText(s, i)) == LineAt(s, QuotedEnd(s, i))
    decreases |s| - i
  {
    if i == |s| {
    } else {
      NextBreak(s, i);
      if s[i] != '"' {
        if s[i] != '\\' {
          QuotedBreaks(s, i + 1);
          BreaksCons(s[i], QuotedText(s, i + 1));
        } else if i + 1 < |s| {
          NextBreak(s, i + 1);
          QuotedBreaks(s, i + 2);
          if s[i + 1] == '"' {
            BreaksCons('"', QuotedText(s, i + 2));
          } else {
            var rest := [s[i + 1]] + QuotedText(s, i + 2);
            assert ['\\', s[i + 1]] + QuotedText(s, i + 2) == ['\\'] + rest;
            BreaksCons('\\', rest);
            BreaksCons(s[i + 1], QuotedText(s, i + 2));
          }
        }
      }
    }
  }

  /** A word holds none. */
  lemma {:induction false} WordBreaks(s: Text, i: nat, comment: bool)
    requires i <= |s|
    ensures Breaks(WordText(s, i, comment)) == 0 && LineAt(s, WordEnd(s, i)) == LineAt(s, i)
    decreases |s| - i
  {
    if i < |s| && !EndsWord(s[i]) {
      NextBreak(s, i);
      WordBreaks(s, i + 1, comment || s[i] == '#');
      WordBreaks(s, i + 1, comment);
      BreaksCons(s[i], WordText(s, i + 1, false));
    }
  }

  lemma LexemeBreaks(s: Text, start: nat)
    requires start < |s| && !IsSpace(s[start]) && LexemeAt(s, start).Some?
    ensures var x := LexemeAt(s, start).value;
            LineAt(s, x.start) + Breaks(x.text) == LineAt(s, x.stop)
  {
    NextBreak(s, start);
    if s[start] == '"' {
      QuotedBreaks(s, start + 1);
    } else {
      WordBreaks(s, start + 1, false);
      BreaksCons(s[start], WordText(s, start + 1, false));
    }
  }

  lemma {:induction false} LinesAscend(s: Text, i: nat, j: nat)
    requires i <= j <= |s|
    ensures LineAt(s, i) <= LineAt(s, j)
    ensures LineAt(s, j) == LineAt(s, i) + Breaks(s[i..j])
    decreases j
  {
    assert s[..j] == s[..i] + s[i..j];
    BreaksConcat(s[..i], s[i..j]);
  }

  // ---- Tokens of a text ----

  /** Tokens follow each other in the input. */
  ghost predicate Follow(s: Text, x: Lexeme, y: Lexeme) {
    && x.start < x.stop <= y.start < y.stop <= |s|
    && LineAt(s, x.start) + Breaks(x.text) == LineAt(s, x.stop)
  }

  lemma {:induction false} LexemesFollow(s: Text, i: nat, k: nat)
    requires i <= |s| && k < |Lexemes(s, i)|
    ensures i <= Lexemes(s, i)[k].start <= |s|
    ensures k + 1 < |Lexemes(s, i)| ==> Follow(s, Lexemes(s, i)[k], Lexemes(s, i)[k + 1])
    decreases k, |s| - i
  {
    var first := FirstLexeme(s, i, false).value;
    var rest := Lexemes(s, first.next);
    if k > 0 {
      LexemesFollow(s, first.next, k - 1);
    } else if rest != [] {
      LexemesFollow(s, first.next, 0);
      LexemeBreaks(s, first.start);
    }
  }

  /** The line on which a token ends is that of the next one if and only if no line break lies between. */
  lemma {:induction false} SameLineIff(s: Text, i: nat, k: nat)
    requires i <= |s| && k + 1 < |Lexemes(s, i)|
    ensures var x, y := Lexemes(s, i)[k], Lexemes(s, i)[k + 1];
            && x.start <= x.stop <= y.start <= |s|
            && LineAt(s, x.start) + Breaks(x.text) <= LineAt(s, y.start)
            && (LineAt(s, x.start) + Breaks(x.text) == LineAt(s, y.start) <==> '\n' !in s[x.stop..y.start])
  {
    LexemesFollow(s, i, k);
    var x, y := Lexemes(s, i)[k], Lexemes(s, i)[k + 1];
    LinesAscend(s, x.stop, y.start);
    NoBreaks(s[x.stop..y.start]);
  }

  lemma {:induction false} NoBreaks(t: Text)
    ensures Breaks(t) == 0 <==> '\n' !in t
    decreases |t|
  {
    if t == [] {
    } else {
      NoBreaks(t[..|t| - 1]);
      assert t == t[..|t| - 1] + [t[|t| - 1]];
    }
  }

  // ---- Writing a text down as a token ----

  /** A text in quotes, with its quotes escaped. */
  function Escaped(t: Text): Text {
    if t == [] then [] else (if t[0] == '"' then ['\\', '"'] else [t[0]]) + Escaped(t[1..])
  }

  /** Reading in steps of one character, or two from a backslash on, no step meets quotes or ends early. */
  predicate Safe(t: Text) {
    t == [] || (if t[0] == '\\' then |t| > 1 && t[1] != '"' && Safe(t[2..]) else Safe(t[1..]))
  }

  /** A quoted text reads back as itself if and only if it is safe: a backslash cannot be escaped. */
  lemma {:induction false} QuotingIff(before: Text, t: Text, after: Text)
    ensures var s, i := before + Escaped(t) + ['"'] + after, |before|;
            QuotedText(s, i) == t && QuotedEnd(s, i) == i + |Escaped(t)| + 1 <==> Safe(t)
    decreases |t|
  {
    var s, i := before + Escaped(t) + ['"'] + after, |before|;
    if t == [] {
    } else if t[0] == '"' {
      assert s == (before + ['\\', '"']) + Escaped(t[1..]) + ['"'] + after;
      QuotingIff(before + ['\\', '"'], t[1..], after);
      assert QuotedText(s, i) == ['"'] + QuotedText(s, i + 2);
      Tails('"', QuotedText(s, i + 2), t);
    } else if t[0] != '\\' {
      assert s == (before + [t[0]]) + Escaped(t[1..]) + ['"'] + after;
      QuotingIff(before + [t[0]], t[1..], after);
      Tails(t[0], QuotedText(s, i + 1), t);
    } else if |t| == 1 {
      assert Escaped(t[1..]) == [];
      BackslashBefore(s, i);
    } else if t[1] == '"' {
      assert Escaped(t) == ['\\', '\\', '"'] + Escaped(t[2..]) by { assert t[1..][1..] == t[2..]; }
      BackslashBefore(s, i);
    } else {
      assert Escaped(t) == ['\\', t[1]] + Escaped(t[2..]) by { assert t[1..][1..] == t[2..]; }
      assert s == (before + ['\\', t[1]]) + Escaped(t[2..]) + ['"'] + after;
      QuotingIff(before + ['\\', t[1]], t[2..], after);
      PairRead(s, i, t);
    }
  }

  /** A backslash before a quote is dropped, and one before another backslash makes two. */
  lemma BackslashBefore(s: Text, i: nat)
    requires i + 1 < |s| && s[i] == '\\'
    ensures s[i + 1] == '"' ==> QuotedText(s, i) != [] && QuotedText(s, i)[0] == '"'
    ensures s[i + 1] == '\\' ==> |QuotedText(s, i)| > 1 && QuotedText(s, i)[1] == '\\'
  {
  }

  /** A backslash and the character behind it are read together. */
  lemma PairRead(s: Text, i: nat, t: Text)
    requires i + 2 <= |s| && |t| > 1 && s[i] == t[0] == '\\' && s[i + 1] == t[1] != '"'
    ensures QuotedText(s, i) == t <==> QuotedText(s, i + 2) == t[2..]
    ensures QuotedEnd(s, i) == QuotedEnd(s, i + 2)
  {
    assert t == ['\\', t[1]] + t[2..];
    assert QuotedText(s, i) == ['\\', t[1]] + QuotedText(s, i + 2);
    assert QuotedText(s, i)[2..] == QuotedText(s, i + 2);
  }

  lemma Tails(c: char, rest: Text, t: Text)
    requires t != [] && t[0] == c
    ensures [c] + rest == t <==> rest == t[1..]
  {
    assert t == [c] + t[1..];
    assert ([c] + rest)[1..] == rest;
  }

  // ---- The lexer ----

  /** What becomes of a quoted string that started at `start`, of which `val` has been read up to `i`. */
  function RestOfQuoted(s: Text, start: nat, i: nat, val: Text): Option<Lexeme>
    requires i <= |s|
  {
    var stop, text := QuotedEnd(s, i), val + QuotedText(s, i);
    if text == "" && !Closed(s, i) then None else Some(Lexeme(start, stop, stop, text))
  }

  function RestOfWord(s: Text, start: nat, i: nat, val: Text, comment: bool): Option<Lexeme>
    requires i <= |s|
  {
    var stop := WordEnd(s, i);
    Some(Lexeme(start, stop, if stop < |s| then stop + 1 else stop, val + WordText(s, i, comment)))
  }

  lemma ReadQuoted(s: Text, start: nat, i: nat, val: Text)
    requires i < |s|
    ensures s[i] == '"' ==> RestOfQuoted(s, start, i, val) == Some(Lexeme(start, i + 1, i + 1, val))
    ensures s[i] != '"' && s[i] != '\\' ==>
              RestOfQuoted(s, start, i, val) == RestOfQuoted(s, start, i + 1, val + [s[i]])
    ensures s[i] == '\\' && i + 1 < |s| ==>
              RestOfQuoted(s, start, i, val)
              == RestOfQuoted(s, start, i + 2, (if s[i + 1] == '"' then val else val + ['\\']) + [s[i + 1]])
  {
    if s[i] != '"' && s[i] != '\\' {
      assert val + QuotedText(s, i) == (val + [s[i]]) + QuotedText(s, i + 1);
    } else if s[i] == '\\' && i + 1 < |s| {
      var more := (if s[i + 1] == '"' then val else val + ['\\']) + [s[i + 1]];
      assert val + QuotedText(s, i) == more + QuotedText(s, i + 2);
    } else {
      assert val + "" == val;
    }
  }

  lemma QuotedAtEnd(s: Text, start: nat, i: nat, val: Text)
    requires i == |s| || (i + 1 == |s| && s[i] == '\\')
    ensures RestOfQuoted(s, start, i, val) == if val == "" then None else Some(Lexeme(start, |s|, |s|, val))
  {
    assert val + "" == val;
  }

  lemma ReadWord(s: Text, start: nat, i: nat, val: Text, comment: bool)
    requires i < |s|
    ensures EndsWord(s[i]) ==> RestOfWord(s, start, i, val, comment) == Some(Lexeme(start, i, i + 1, val))
    ensures s[i] == '\r' ==> RestOfWord(s, start, i, val, comment) == RestOfWord(s, start, i + 1, val, comment)
    ensures !IsSpace(s[i]) && (comment || s[i] == '#') ==>
              RestOfWord(s, start, i, val, comment) == RestOfWord(s, start, i + 1, val, true)
    ensures !IsSpace(s[i]) && !comment && s[i] != '#' ==>
              RestOfWord(s, start, i, val, comment) == RestOfWord(s, start, i + 1, val + [s[i]], false)
  {
    if EndsWord(s[i]) {
      assert val + "" == val;
    } else if !IsSpace(s[i]) && !comment && s[i] != '#' {
      assert val + WordText(s, i, false) == (val + [s[i]]) + WordText(s, i + 1, false);
    }
  }

  lemma WordAtEnd(s: Text, start: nat, val: Text, comment: bool)
    ensures RestOfWord(s, start, |s|, val, comment) == Some(Lexeme(start, |s|, |s|, val))
  {
    assert val + "" == val;
  }

  lemma BeginToken(s: Text, i: nat)
    requires i < |s| && !IsSpace(s[i]) && s[i] != '#'
    ensures FirstLexeme(s, i, false)
            == if s[i] == '"' then RestOfQuoted(s, i, i + 1, "") else RestOfWord(s, i, i + 1, [s[i]], false)
  {
    assert "" + QuotedText(s, i + 1) == QuotedText(s, i + 1);
  }

  /**
   In the middle of a token or between two: what is read so far, together with the input from `i` on, makes
   `target`, the token sought.
   */
  ghost predicate Reading(s: Text, target: Option<Lexeme>, start: nat, i: nat, val: Text, comment: bool,
                          quoted: bool, escaped: bool) {
    forall n :: Unfold(n) ==>
      && i <= |s| && (escaped ==> quoted && i > 0 && s[i - 1] == '\\')
      && (quoted ==> target == RestOfQuoted(s, start, if escaped then i - 1 else i, val))
      && (!quoted && val != [] ==> target == RestOfWord(s, start, i, val, comment))
      && (!quoted && val == [] ==> target == FirstLexeme(s, i, comment))
  }

  lemma Begins(s: Text, start: nat, i: nat)
    requires i <= |s|
    ensures Reading(s, FirstLexeme(s, i, false), start, i, [], false, false, false)
  {
  }

  lemma InQuotes(s: Text, target: Option<Lexeme>, start: nat, i: nat, val: Text, comment: bool, escaped: bool)
    requires i < |s| && Reading(s, target, start, i, val, comment, true, escaped)
    ensures !escaped && s[i] == '"' ==> target == Some(Lexeme(start, i + 1, i + 1, val))
    ensures !escaped && s[i] == '\\' ==> Reading(s, target, start, i + 1, val, comment, true, true)
    ensures escaped || (s[i] != '"' && s[i] != '\\') ==>
              var val' := (if escaped && s[i] != '"' then val + ['\\'] else val) + [s[i]];
              Reading(s, target, start, i + 1, val', comment, true, false)
  {
    assert Unfold(0);
    ReadQuoted(s, start, if escaped then i - 1 else i, val);
  }

  lemma AtSpace(s: Text, target: Option<Lexeme>, start: nat, i: nat, val: Text, comment: bool)
    requires i < |s| && Reading(s, target, start, i, val, comment, false, false) && IsSpace(s[i])
    ensures s[i] == '\r' ==> Reading(s, target, start, i + 1, val, comment, false, false)
    ensures s[i] != '\r' && val != [] ==> target == Some(Lexeme(start, i, i + 1, val))
    ensures val == [] ==> Reading(s, target, start, i + 1, val, comment && s[i] != '\n', false, false)
  {
    assert Unfold(0);
    if val != [] { ReadWord(s, start, i, val, comment); }
  }

  lemma InComment(s: Text, target: Option<Lexeme>, start: nat, i: nat, val: Text, comment: bool)
    requires i < |s| && Reading(s, target, start, i, val, comment, false, false) && !IsSpace(s[i])
    requires comment || s[i] == '#'
    ensures Reading(s, target, start, i + 1, val, true, false, false)
  {
    assert Unfold(0);
    if val != [] { ReadWord(s, start, i, val, comment); }
  }

  lemma InWord(s: Text, target: Option<Lexeme>, start: nat, i: nat, val: Text)
    requires i < |s| && Reading(s, target, start, i, val, false, false, false) && !IsSpace(s[i]) && s[i] != '#'
    ensures val != [] ==> Reading(s, target, start, i + 1, val + [s[i]], false, false, false)
    ensures val == [] ==>
              if s[i] == '"' then Reading(s, target, i, i + 1, [], false, true, false)
              else Reading(s, target, i, i + 1, val + [s[i]], false, false, false)
  {
    assert Unfold(0);
    if val == [] {
      BeginToken(s, i);
      assert val + [s[i]] == [s[i]];
    } else {
      ReadWord(s, start, i, val, false);
    }
  }

  lemma AtEnd(s: Text, target: Option<Lexeme>, start: nat, val: Text, comment: bool, quoted: bool, escaped: bool)
    requires Reading(s, target, start, |s|, val, comment, quoted, escaped)
    ensures target == if val == [] then None else Some(Lexeme(start, |s|, |s|, val))
  {
    assert Unfold(0);
    if quoted {
      QuotedAtEnd(s, start, if escaped then |s| - 1 else |s|, val);
    } else if val != [] {
      WordAtEnd(s, start, val, comment);
    }
  }

  /** Behind a byte order mark, if there is one. */
  function Begin(s: Text): (i: nat)
    ensures i <= |s|
  {
    if s != [] && s[0] == BYTE_ORDER_MARK then 1 else 0
  }

  class Lexer {
    const input: Text
    var pos: nat
    var line: nat
    var token: Token

    /** The line counter follows the position. */
    ghost predicate Valid()
      reads this
    {
      pos <= |input| && line == LineAt(input, pos)
    }

    constructor (input: Text)
      ensures Valid() && this.input == input && pos == 0
    {
      this.input := input;
      pos := 0;
      line := 1;
      token := Token("", 0, "");
    }

    /** A leading byte order mark is skipped; an empty input cannot be loaded. */
    method Load() returns (ok: bool)
      requires Valid() && pos == 0
      modifies this`pos
      ensures Valid() && (ok <==> input != []) && pos == Begin(input)
    {
      if input == [] {
        return false;
      }
      if input[0] == BYTE_ORDER_MARK {
        NextBreak(input, 0);
        pos := 1;
      }
      return true;
    }

    /** One character inside quotes: a backslash is kept unless it escapes a quote. */
    static method QuotedRune(val: Text, escaped: bool, ch: char) returns (val': Text, escaped': bool, closed: bool)
      ensures closed <==> !escaped && ch == '"'
      ensures escaped' <==> !escaped && ch == '\\'
      ensures closed || escaped' ==> val' == val
      ensures !closed && !escaped' ==> val' == (if escaped && ch != '"' then val + ['\\'] else val) + [ch]
    {
      val', escaped', closed := val, escaped, false;
      if !escaped {
        if ch == '\\' {
          escaped' := true;
          return;
        } else if ch == '"' {
          closed := true;
          return;
        }
      }
      if escaped {
        if ch != '"' {
          val' := val' + ['\\'];
        }
      }
      val' := val' + [ch];
      escaped' := false;
    }

    /** One character outside quotes: it ends the token, begins one, or adds to it; or it is passed over. */
    static method PlainRune(val: Text, comment: bool, ch: char, ghost s: Text, ghost i: nat, ghost start: nat,
                            ghost target: Option<Lexeme>)
      returns (val': Text, comment': bool, ended: bool, begins: bool)
      requires i < |s| && ch == s[i] && Reading(s, target, start, i, val, comment, false, false)
      ensures ended ==> !begins && val' == val != [] && target == Some(Lexeme(start, i, i + 1, val))
      ensures !ended && !begins ==> Reading(s, target, start, i + 1, val', comment', false, false)
      ensures begins ==> val == [] && ch != '\n' && Reading(s, target, i, i + 1, val', comment', ch == '"', false)
      ensures !begins && val == [] ==> val' == []
    {
      val', comment', ended, begins := val, comment, false, false;
      if IsSpace(ch) {
        AtSpace(s, target, start, i, val, comment);
        if ch == '\r' {
          return;
        }
        if ch == '\n' {
          comment' := false;
        }
        if |val| > 0 {
          ended := true;
        }
        return;
      }
      if comment || ch == '#' { InComment(s, target, start, i, val, comment); }
      if ch == '#' {
        comment' := true;
      }
      if comment' {
        return;
      }
      InWord(s, target, start, i, val);
      if |val| == 0 {
        begins := true;
        if ch == '"' {
          return;
        }
      }
      val' := val' + [ch];
    }

    /** Reads one token: the next in the input, with the line it starts on. */
    method Next() returns (ok: bool)
      requires Valid()
      modifies this
      ensures Valid()
      ensures ok <==> FirstLexeme(input, old(pos), false).Some?
      ensures ok ==> token == AsToken(input, FirstLexeme(input, old(pos), false).value)
      ensures ok ==> pos == FirstLexeme(input, old(pos), false).value.next
    {
      ok, token, pos, line := Scan(input, pos, line, token);
    }

    static method Scan(input: Text, from: nat, fromLine: nat, last: Token)
      returns (ok: bool, token: Token, pos: nat, line: nat)
      requires from <= |input| && fromLine == LineAt(input, from)
      ensures pos <= |input| && line == LineAt(input, pos)
      ensures ok <==> FirstLexeme(input, from, false).Some?
      ensures ok ==> token == AsToken(input, FirstLexeme(input, from, false).value)
      ensures ok ==> pos == FirstLexeme(input, from, false).value.next
    {
      pos, line, token := from, fromLine, last;
      var val: Text, comment, quoted, escaped := [], false, false, false;
      ghost var target, start: nat := FirstLexeme(input, pos, false), pos;
      Begins(input, start, pos);
      while pos < |input|
        invariant pos <= |input| && line == LineAt(input, pos)
        invariant Reading(input, target, start, pos, val, comment, quoted, escaped)
        invariant quoted || val != [] ==> start <= |input| && token.file == "" && token.line == LineAt(input, start)
      {
        var ch := input[pos];
        NextBreak(input, pos);
        pos := pos + 1;
        if ch == '\n' {
          line := line + 1;
        }
        if quoted {
          InQuotes(input, target, start, pos - 1, val, comment, escaped);
          var closed;
          val, escaped, closed := QuotedRune(val, escaped, ch);
          if closed {
            token := token.(text := val);
            return true, token, pos, line;
          }
          continue;
        }
        var ended, begins;
        val, comment, ended, begins := PlainRune(val, comment, ch, input, pos - 1, start, target);
        if ended {
          token := token.(text := val);
          return true, token, pos, line;
        }
        if begins {
          token := Token("", line, "");
          start := pos - 1;
          quoted := ch == '"';
        }
      }
      AtEnd(input, target, start, val, comment, quoted, escaped);
      if |val| > 0 {
        token := token.(text := val);
        return true, token, pos, line;
      }
      return false, token, pos, line;
    }
  }

  function TokensFrom(s: Text, i: nat): seq<Token>
    requires i <= |s|
    decreases |s| - i
  {
    var first := FirstLexeme(s, i, false);
    if first.None? then [] else [AsToken(s, first.value)] + TokensFrom(s, first.value.next)
  }

  /** All tokens of a text, in order. */
  function Tokens(s: Text): seq<Token> {
    TokensFrom(s, Begin(s))
  }

  lemma {:induction false} TokensAre(s: Text, i: nat, k: nat)
    requires i <= |s|
    ensures |TokensFrom(s, i)| == |Lexemes(s, i)|
    ensures k < |Lexemes(s, i)| ==> Lexemes(s, i)[k].start <= |s| && TokensFrom(s, i)[k] == AsToken(s, Lexemes(s, i)[k])
    decreases |s| - i
  {
    var first := FirstLexeme(s, i, false);
    if first.Some? {
      TokensAre(s, first.value.next, if k > 0 then k - 1 else 0);
    }
  }

  lemma {:induction false} TokensGoOn(s: Text, done: seq<Token>, at: nat, first: Lexeme)
    requires at <= |s| && FirstLexeme(s, at, false) == Some(first)
    ensures first.start <= |s| && at < first.next <= |s|
    ensures done + TokensFrom(s, at) == done + [AsToken(s, first)] + TokensFrom(s, first.next)
  {
  }

  /** All tokens; without any input there are none, and an error besides. */
  method AllTokens(input: Text) returns (tokens: seq<Token>, ok: bool)
    ensures tokens == Tokens(input) && (ok <==> input != [])
  {
    var l := new Lexer(input);
    tokens := [];
    ok := l.Load();
    if !ok {
      return;
    }
    ghost var at := l.pos;
    while true
      invariant l.Valid() && l.input == input && l.pos == at
      invariant tokens + TokensFrom(input, at) == Tokens(input)
      decreases |input| - at
    {
      ghost var first := FirstLexeme(input, at, false);
      var more := l.Next();
      if !more {
        break;
      }
      TokensGoOn(input, tokens, at, first.value);
      tokens := tokens + [l.token];
      at := l.pos;
    }
    assert TokensFrom(input, at) == [];
  }

  /** Lines never go back: each token starts on or after the line on which the one before it ends. */
  lemma TokensInOrder(s: Text, k: nat)
    requires k + 1 < |Tokens(s)|
    ensures Tokens(s)[k].file == Tokens(s)[k + 1].file
    ensures Tokens(s)[k].line + Breaks(Tokens(s)[k].text) <= Tokens(s)[k + 1].line
  {
    TokensAre(s, Begin(s), k);
    TokensAre(s, Begin(s), k + 1);
    SameLineIff(s, Begin(s), k);
  }

  // ---- A text written down as tokens ----

  /** A text, and how many lines further down it goes than where the one before it ended. */
  datatype Item = Item(text: Text, breaks: nat)

  function Gap(n: nat): Text {
    if n == 0 then " " else if n == 1 then "\n" else "\n" + Gap(n - 1)
  }

  function Written(items: seq<Item>): Text {
    if items == [] then ""
    else Piece(items[0]) + Written(items[1..])
  }

  function Expected(items: seq<Item>, line: nat): seq<Token> {
    if items == [] then []
    else
      [Token("", line + items[0].breaks, items[0].text)]
      + Expected(items[1..], line + items[0].breaks + Breaks(items[0].text))
  }

  lemma {:induction false} GapIsBlank(n: nat)
    ensures Gap(n) != [] && Breaks(Gap(n)) == n && forall i :: 0 <= i < |Gap(n)| ==> IsSpace(Gap(n)[i])
  {
    if n == 0 {
      NoBreaks(" ");
    } else if n == 1 {
      BreaksCons('\n', []);
      assert ['\n'] + [] == "\n";
    } else {
      GapIsBlank(n - 1);
      BreaksCons('\n', Gap(n - 1));
    }
  }

  lemma {:induction false} SkipBlank(s: Text, i: nat, j: nat)
    requires i <= j <= |s| && forall k :: i <= k < j ==> IsSpace(s[k])
    ensures Start(s, i, false) == Start(s, j, false)
    decreases j - i
  {
    if i == j {
    } else {
      SkipBlank(s, i + 1, j);
    }
  }

  lemma {:induction false} GapSkipped(before: Text, n: nat, tail: Text, s: Text)
    requires s == before + Gap(n) + tail
    ensures var start := |before| + |Gap(n)|;
            Start(s, |before|, false) == Start(s, start, false) && LineAt(s, start) == LineAt(s, |before|) + n
  {
    var gap, start := Gap(n), |before| + |Gap(n)|;
    GapIsBlank(n);
    assert s[|before|..start] == gap;
    forall k | |before| <= k < start ensures IsSpace(s[k]) {
      assert s[k] == gap[k - |before|];
    }
    SkipBlank(s, |before|, start);
    LinesAscend(s, |before|, start);
  }

  lemma {:induction false} QuotedLexeme(head: Text, t: Text, after: Text, s: Text)
    requires s == head + ['"'] + Escaped(t) + ['"'] + after && Safe(t)
    ensures LexemeAt(s, |head|) == Some(Lexeme(|head|, |s| - |after|, |s| - |after|, t)) && s[|head|] == '"'
  {
    assert s[|head|] == '"';
    QuotingIff(head + ['"'], t, after);
    assert t == "" ==> s[|head| + 1] == '"';
  }

  function Piece(x: Item): Text {
    Gap(x.breaks) + (['"'] + Escaped(x.text) + ['"'])
  }

  lemma Regroup(before: Text, gap: Text, e: Text, after: Text)
    ensures before + (gap + (['"'] + e + ['"'])) + after == before + gap + ((['"'] + e + ['"']) + after)
    ensures before + (gap + (['"'] + e + ['"'])) + after == (before + gap) + ['"'] + e + ['"'] + after
  {
  }

  /** One quoted text behind a gap. */
  lemma FirstWritten(before: Text, x: Item, after: Text, s: Text)
    requires s == before + Piece(x) + after && Safe(x.text)
    ensures var start, next := |before| + |Gap(x.breaks)|, |before + Piece(x)|;
            && FirstLexeme(s, |before|, false) == Some(Lexeme(start, next, next, x.text))
            && LineAt(s, start) == LineAt(s, |before|) + x.breaks
            && LineAt(s, next) == LineAt(s, start) + Breaks(x.text)
  {
    var gap, e := Gap(x.breaks), Escaped(x.text);
    Regroup(before, gap, e, after);
    GapSkipped(before, x.breaks, (['"'] + e + ['"']) + after, s);
    QuotedLexeme(before + gap, x.text, after, s);
    OpensHere(s, |before + gap|);
    LexemeBreaks(s, |before + gap|);
  }

  lemma {:induction false} OpensHere(s: Text, i: nat)
    requires i < |s| && LexemeAt(s, i).Some? && LexemeAt(s, i).value.start == i
    requires s[i] == '"' || (!IsSpace(s[i]) && s[i] != '#')
    ensures Start(s, i, false) == i && !IsSpace(s[i])
  {
  }

  lemma {:induction false} TokensFirst(s: Text, i: nat, first: Lexeme)
    requires i <= |s| && FirstLexeme(s, i, false) == Some(first)
    ensures first.start <= |s| && i < first.next <= |s|
    ensures TokensFrom(s, i) == [AsToken(s, first)] + TokensFrom(s, first.next)
  {
  }

  lemma {:induction false} ExpectedFirst(items: seq<Item>, line: nat, at: nat, end: nat)
    requires items != [] && at == line + items[0].breaks && end == at + Breaks(items[0].text)
    ensures Expected(items, line) == [Token("", at, items[0].text)] + Expected(items[1..], end)
  {
  }

  /** Every list of safe texts, written in quotes at any line distances, is read back as exactly these tokens. */
  lemma {:induction false} WrittenReadsBack(before: Text, items: seq<Item>, s: Text)
    requires s == before + Written(items) && forall i :: 0 <= i < |items| ==> Safe(items[i].text)
    ensures TokensFrom(s, |before|) == Expected(items, LineAt(s, |before|))
    decreases |items|
  {
    if items == [] {
      assert Start(s, |before|, false) == |s|;
    } else {
      var x, rest := items[0], Written(items[1..]);
      assert s == before + Piece(x) + rest;
      FirstWritten(before, x, rest, s);
      WrittenReadsBack(before + Piece(x), items[1..], s);
      var next := |before + Piece(x)|;
      var start := |before| + |Gap(x.breaks)|;
      TokensFirst(s, |before|, Lexeme(start, next, next, x.text));
      ExpectedFirst(items, LineAt(s, |before|), LineAt(s, start), LineAt(s, next));
    }
  }

  lemma {:induction false} TokensWritten(items: seq<Item>)
    requires forall i :: 0 <= i < |items| ==> Safe(items[i].text)
    ensures Tokens(Written(items)) == Expected(items, 1)
  {
    NoMark(items);
    var s := Written(items);
    WrittenReadsBack(s[..0], items, s);
    assert LineAt(s, 0) == 1;
  }

  lemma {:induction false} NoMark(items: seq<Item>)
    ensures Begin(Written(items)) == 0
  {
    if items != [] {
      GapIsBlank(items[0].breaks);
      assert Written(items)[0] == Gap(items[0].breaks)[0];
    }
  }

  // ---- Words ----

  lemma {:induction false} CommentHides(s: Text, i: nat)
    requires i <= |s|
    ensures WordText(s, i, true) == ""
    decreases |s| - i
  {
    if i < |s| && !EndsWord(s[i]) { CommentHides(s, i + 1); }
  }

  /** A text without its carriage returns. */
  function NoReturns(t: Text): Text {
    if t == [] then [] else (if t[0] == '\r' then [] else [t[0]]) + NoReturns(t[1..])
  }

  /** Without carriage returns nothing goes. */
  lemma {:induction false} NoReturnsSame(t: Text)
    requires '\r' !in t
    ensures NoReturns(t) == t
  {
    if t == [] {
    } else {
      NoReturnsSame(t[1..]);
    }
  }

  lemma {:induction false} NoReturnsFirst(s: Text, i: nat, h: nat)
    requires i < h <= |s|
    ensures NoReturns(s[i..h]) == (if s[i] == '\r' then [] else [s[i]]) + NoReturns(s[i + 1..h])
  {
    assert s[i..h][1..] == s[i + 1..h];
  }

  lemma {:induction false} RestOfWordIs(s: Text, i: nat, h: nat, j: nat)
    requires i <= h <= j <= |s| && (j < |s| ==> EndsWord(s[j])) && (h < j ==> s[h] == '#')
    requires forall k :: i <= k < h ==> !EndsWord(s[k]) && s[k] != '#'
    requires forall k :: h <= k < j ==> !EndsWord(s[k])
    ensures WordText(s, i, false) == NoReturns(s[i..h]) && WordEnd(s, i) == j
    decreases j - i
  {
    if i < h {
      RestOfWordIs(s, i + 1, h, j);
      NoReturnsFirst(s, i, h);
    } else {
      assert s[i..h] == "";
      if h < j {
        CommentHides(s, h + 1);
        EndOfWordIs(s, h, j);
      }
    }
  }

  lemma {:induction false} EndOfWordIs(s: Text, i: nat, j: nat)
    requires i <= j <= |s| && (j < |s| ==> EndsWord(s[j])) && forall k :: i <= k < j ==> !EndsWord(s[k])
    ensures WordEnd(s, i) == j
    decreases j - i
  {
    if i == j {
    } else {
      EndOfWordIs(s, i + 1, j);
    }
  }

  /**
   A word without hash signs and a leading quote is read as itself, less its carriage returns. A hash sign inside it
   hides what follows up to the next blank that ends a word, and no more: reading goes on behind that blank.
   */
  lemma WordReadsBack(s: Text, i: nat, h: nat, j: nat)
    requires i < h <= j <= |s| && (j < |s| ==> EndsWord(s[j])) && (h < j ==> s[h] == '#')
    requires !IsSpace(s[i]) && s[i] != '"' && forall k :: i <= k < h ==> !EndsWord(s[k]) && s[k] != '#'
    requires forall k :: h <= k < j ==> !EndsWord(s[k])
    ensures FirstLexeme(s, i, false) == Some(Lexeme(i, j, if j < |s| then j + 1 else j, NoReturns(s[i..h])))
    ensures '\r' !in s[i..h] ==> NoReturns(s[i..h]) == s[i..h]
  {
    RestOfWordIs(s, i + 1, h, j);
    NoReturnsFirst(s, i, h);
    if '\r' !in s[i..h] { NoReturnsSame(s[i..h]); }
  }

  // ---- Comments ----

  /** The next line break, or the end of the input. */
  function EndOfLine(s: Text, i: nat): (e: nat)
    requires i <= |s|
    ensures i <= e <= |s| && (e < |s| ==> s[e] == '\n') && forall k :: i <= k < e ==> s[k] != '\n'
    decreases |s| - i
  {
    if i == |s| || s[i] == '\n' then i else EndOfLine(s, i + 1)
  }

  /** The next character that is not blank. */
  function Ink(s: Text, i: nat): (k: nat)
    requires i <= |s|
    ensures i <= k <= |s| && (k < |s| ==> !IsSpace(s[k])) && forall j :: i <= j < k ==> IsSpace(s[j])
    decreases |s| - i
  {
    if i == |s| || !IsSpace(s[i]) then i else Ink(s, i + 1)
  }

  lemma {:induction false} CommentSkips(s: Text, i: nat)
    requires i <= |s|
    ensures Start(s, i, true) == Start(s, EndOfLine(s, i), false)
    decreases |s| - i
  {
    if i == |s| || s[i] == '\n' {
    } else {
      CommentSkips(s, i + 1);
    }
  }

  lemma {:induction false} SameStart(s: Text, i: nat, j: nat)
    requires i <= |s| && j <= |s| && Start(s, i, false) == Start(s, j, false)
    ensures FirstLexeme(s, i, false) == FirstLexeme(s, j, false) && TokensFrom(s, i) == TokensFrom(s, j)
  {
  }

  /** A hash sign where no word has begun hides everything up to the end of the line. */
  lemma {:induction false} HashHidesLine(s: Text, h: nat)
    requires h < |s| && s[h] == '#'
    ensures Start(s, h, false) == Start(s, EndOfLine(s, h), false)
    ensures TokensFrom(s, h) == TokensFrom(s, EndOfLine(s, h))
  {
    CommentSkips(s, h + 1);
    SameStart(s, h, EndOfLine(s, h));
  }

  /** A hash sign at `h`, behind the beginning of a word at `i`, or where a word could begin. */
  predicate HashAt(s: Text, i: nat, h: nat) {
    && i <= h < |s| && s[h] == '#' && (forall k :: i <= k < h ==> !EndsWord(s[k]) && s[k] != '#')
    && (i < h ==> !IsSpace(s[i]) && s[i] != '"')
  }

  function WordBefore(s: Text, i: nat, h: nat): seq<Token>
    requires i <= h <= |s|
  {
    if i == h then [] else [Token("", LineAt(s, i), NoReturns(s[i..h]))]
  }

  /** The rule as documented: of the line, nothing behind the hash sign is read. */
  predicate LineHidden(s: Text, i: nat, h: nat)
    requires HashAt(s, i, h)
  {
    TokensFrom(s, i) == WordBefore(s, i, h) + TokensFrom(s, EndOfLine(s, h))
  }

  /** From `j` on the line holds blanks, then another comment or a quote with nothing behind it, if anything. */
  predicate Bare(s: Text, j: nat, e: nat)
    requires j <= e <= |s|
  {
    var k := Ink(s, j);
    k >= e || s[k] == '#' || LexemeAt(s, k).None?
  }

  /** Only a quote at the very end of the input can open a string without a token. */
  lemma {:induction false} NothingQuoted(s: Text, i: nat)
    requires i <= |s| && QuotedText(s, i) == "" && !Closed(s, i)
    ensures i == |s| || (i + 1 == |s| && s[i] == '\\')
  {
  }

  lemma {:induction false} NoLexemeEnds(s: Text, k: nat)
    requires k < |s| && LexemeAt(s, k).None?
    ensures TokensFrom(s, EndOfLine(s, k)) == []
  {
    NothingQuoted(s, k + 1);
    assert EndOfLine(s, k) == |s|;
  }

  /** Behind a line break tokens are on a later line. */
  lemma {:induction false} LaterLine(s: Text, k: nat, e: nat)
    requires k < e <= |s| && (e < |s| ==> s[e] == '\n') && TokensFrom(s, e) != []
    ensures TokensFrom(s, e)[0].line > LineAt(s, k)
  {
    var start := Start(s, e, false);
    LinesAscend(s, k, e);
    NextBreak(s, e);
    LinesAscend(s, e + 1, start);
  }

  lemma {:induction false} BareIff(s: Text, j: nat, e: nat)
    requires j <= |s| && e == EndOfLine(s, j)
    ensures TokensFrom(s, j) == TokensFrom(s, e) <==> Bare(s, j, e)
  {
    var k := Ink(s, j);
    if k >= e {
      SkipBlank(s, j, e);
      SameStart(s, j, e);
    } else {
      SkipBlank(s, j, k);
      SameStart(s, j, k);
      SameLine(s, j, k);
      if s[k] == '#' {
        HashHidesLine(s, k);
      } else if LexemeAt(s, k).None? {
        NoLexemeEnds(s, k);
      } else {
        assert TokensFrom(s, k)[0].line == LineAt(s, k);
        if TokensFrom(s, e) != [] { LaterLine(s, k, e); }
      }
    }
  }

  lemma {:induction false} SameLine(s: Text, i: nat, k: nat)
    requires i <= |s| && i <= k < EndOfLine(s, i)
    ensures EndOfLine(s, k) == EndOfLine(s, i)
    decreases k - i
  {
    if i == k {
    } else {
      SameLine(s, i + 1, k);
    }
  }

  lemma {:induction false} WordThenRest(s: Text, i: nat, h: nat, j: nat)
    requires HashAt(s, i, h) && i < h && j == WordEnd(s, h)
    ensures TokensFrom(s, i) == WordBefore(s, i, h) + TokensFrom(s, j)
  {
    WordReadsBack(s, i, h, j);
    var next := if j < |s| then j + 1 else j;
    SkipBlank(s, j, next);
    SameStart(s, j, next);
    TokensFirst(s, i, Lexeme(i, j, next, NoReturns(s[i..h])));
  }

  /**
   A hash sign hides the rest of its line if and only if it is the first character of a token, or from the next
   blank on there is nothing on the line to be read anyway.
   */
  lemma {:induction false} HashHidesLineIff(s: Text, i: nat, h: nat)
    requires HashAt(s, i, h)
    ensures WordEnd(s, h) <= EndOfLine(s, h)
    ensures LineHidden(s, i, h) <==> i == h || Bare(s, WordEnd(s, h), EndOfLine(s, h))
  {
    var j, e := WordEnd(s, h), EndOfLine(s, h);
    assert j <= e;
    if i == h {
      HashHidesLine(s, h);
      assert [] + TokensFrom(s, e) == TokensFrom(s, e);
    } else {
      WordThenRest(s, i, h, j);
      if j < e {
        SameLine(s, h, j);
      } else {
        assert EndOfLine(s, j) == e;
      }
      BareIff(s, j, e);
      Cancel(WordBefore(s, i, h), TokensFrom(s, j), TokensFrom(s, e));
    }
  }

  lemma Cancel(a: seq<Token>, b: seq<Token>, c: seq<Token>)
    ensures a + b == a + c <==> b == c
  {
    assert (a + b)[|a|..] == b && (a + c)[|a|..] == c;
  }

  lemma {:induction false} OneLine(s: Text, i: nat)
    requires i <= |s| && '\n' !in s
    ensures LineAt(s, i) == 1 && EndOfLine(s, i) == |s|
  {
    NoBreaks(s[..i]);
    assert forall k :: 0 <= k < |s| ==> s[k] in s;
  }

  /** The last character of a line, after a blank. */
  lemma LastWord(s: Text, j: nat)
    requires j + 2 == |s| && '\n' !in s && IsSpace(s[j]) && !IsSpace(s[j + 1]) && s[j + 1] != '#' && s[j + 1] != '"'
    ensures TokensFrom(s, j) == [Token("", 1, [s[j + 1]])]
  {
    var x := Lexeme(j + 1, |s|, |s|, [s[j + 1]]);
    assert Start(s, j, false) == j + 1;
    assert WordEnd(s, j + 2) == |s| && [s[j + 1]] + WordText(s, j + 2, false) == [s[j + 1]];
    assert LexemeAt(s, j + 1) == Some(x);
    TokensFirst(s, j, x);
    OneLine(s, j + 1);
    assert TokensFrom(s, |s|) == [];
  }

  /** In `a#b c` the hash sign stands inside a word, and the `c` behind it is read. */
  lemma HashInWord()
    ensures HashAt("a#b c", 0, 1) && !LineHidden("a#b c", 0, 1)
    ensures Tokens("a#b c") == [Token("", 1, "a"), Token("", 1, "c")]
  {
    HashInside("a#b c");
  }

  lemma {:induction false} HashInside(s: Text)
    requires |s| == 5 && s[0] == 'a' && s[1] == '#' && s[2] == 'b' && s[3] == ' ' && s[4] == 'c'
    ensures HashAt(s, 0, 1) && !LineHidden(s, 0, 1)
    ensures TokensFrom(s, 0) == [Token("", 1, "a"), Token("", 1, "c")]
  {
    OneLine(s, 1);
    OneLine(s, 0);
    EndOfWordIs(s, 1, 3);
    WordThenRest(s, 0, 1, 3);
    LastWord(s, 3);
    assert s[0..1] == "a" && NoReturns("a") == "a" && TokensFrom(s, |s|) == [];
  }

  /** A text of one backslash, written in quotes, is read as a quotation mark. */
  lemma BackslashLost()
    ensures !Safe("\\") && Tokens(['"'] + Escaped("\\") + ['"']) == [Token("", 1, "\"")]
  {
    var s := ['"', '\\', '"'];
    assert "\\"[1..] == "" && Escaped("\\") == ['\\'];
    assert ['"'] + Escaped("\\") + ['"'] == s;
    assert QuotedText(s, 3) == "" && QuotedEnd(s, 3) == 3;
    assert QuotedText(s, 1) == ['"'] + QuotedText(s, 3) == "\"";
    TokensFirst(s, 0, Lexeme(0, 3, 3, "\""));
    assert LineAt(s, 0) == 1 && TokensFrom(s, 3) == [];
  }
}
