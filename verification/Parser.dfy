/**
 The block parser of the configuration language (framework/cfgparser/parse.go): mutually recursive
 readers of one directive and of the directives of a block, over the token dispenser. What lies ahead,
 written down, is read as what it means.
 */
module Parser {
  import opened Uids
  import opened L = Lexer
  import D = Dispenser
  import opened I = Imports
  import opened Y = Layout
  import opened M = Meaning

  // ---- The parser ----

  /** Macros leave what plain tokens were read as alone. */
  lemma {:induction false} PlainPassed(ts: seq<Token>, at: int, to: int, node: Node, tail: seq<Piece>, macros: Macros,
                                       sub: (Macros, string) -> Option<string>)
    requires -1 <= at <= to <= |ts| - 1 && Plain(ts) && Passed(ts, at, to) == Flatten(node) + tail
    ensures ExpandNode(macros, sub, node) == Some(node)
  {
    PiecesPlain(ts, at + 1, to + 1);
    PlainParts(Flatten(node), tail);
    PlainNode(macros, sub, node);
  }

  /** The same plain tokens read as a directive whose last argument closes the block around it. */
  lemma StripBrace(ts: seq<Token>, at: int, to: int, node: Node, macros: Macros,
                   sub: (Macros, string) -> Option<string>)
    requires -1 <= at <= to <= |ts| - 1 && Plain(ts) && Passed(ts, at, to) == Flatten(node)
    requires node.Leaf? && EndsWith(node.args, "}")
    ensures var last := Leaf(node.name, node.args[..|node.args| - 1]);
            ExpandNode(macros, sub, last) == Some(last) && Passed(ts, at, to) == Flatten(last) + CLOSING
  {
    var last := Leaf(node.name, node.args[..|node.args| - 1]);
    assert ArgPieces(node.args) == ArgPieces(last.args) + CLOSING;
    assert Flatten(node) == Flatten(last) + CLOSING;
    PlainPassed(ts, at, to, last, CLOSING, macros, sub);
  }

  /** The parse context: cursor and nesting, and the declarations so far. */
  datatype Context = Context(cursor: int, nesting: int, snippets: Snippets, macros: Macros)

  /** The cursor is at a token, inside the file's block. */
  ghost predicate AtToken(ts: seq<Token>, c: Context) {
    0 <= c.cursor < |ts| && 0 <= c.nesting <= NESTING_LIMIT + 1
  }

  /** Every block that was opened has been closed, or the tokens are used up. */
  ghost predicate Balanced(ts: seq<Token>, before: int, c: Context) {
    c.nesting == before || (c.nesting > before && c.cursor == |ts| - 1)
  }

  /** Behind the token at `at`, up to `stop`, lie the arguments and the block of `want`. */
  ghost predicate LineAhead(ts: seq<Token>, at: int, nesting: int, want: Node, stop: int) {
    forall n :: Unfold(n) ==>
      && 0 <= at && 0 <= nesting && Laid(ts) && LineEnds(ts, stop) && Legible(want)
      && Lie(ts, at, stop, ArgPieces(want.args) + BlockPieces(ChildrenOf(want)))
  }

  /** From the token at `at` to the one at `stop` lies the directive `want`. */
  ghost predicate NodeThere(ts: seq<Token>, at: int, nesting: int, want: Node, stop: int) {
    forall n :: Unfold(n) ==>
      && 0 <= at && 0 <= nesting && Laid(ts) && LineEnds(ts, stop) && Legible(want)
      && Lie(ts, at - 1, stop, Flatten(want))
  }

  /** A block is closed by a brace, the file by its end. */
  function Tail(at: int): seq<Piece> {
    if at == -1 then [] else CLOSING
  }

  /** Behind the opening brace at `at`, or before the file's first token, lie the directives `want` and the end. */
  ghost predicate BlockAhead(ts: seq<Token>, at: int, nesting: int, want: seq<Node>, stop: int) {
    forall n :: Unfold(n) ==>
      && Laid(ts) && AllLegible(want)
      && (if at == -1 then stop == |ts| - 1 else nesting >= 0)
      && Lie(ts, at, stop, FlattenAll(want) + Tail(at))
  }

  function Val(ts: seq<Token>, c: Context): Text {
    if 0 <= c.cursor < |ts| then ts[c.cursor].text else ""
  }

  function Advanced(c: Context): Context {
    c.(cursor := c.cursor + 1)
  }

  /** The arguments wanted begin with these. */
  predicate Begin(args: seq<string>, all: seq<string>) {
    |args| <= |all| && forall i :: 0 <= i < |args| ==> args[i] == all[i]
  }

  /** With `n` arguments read, the next move along the line meets another argument, the block, or nothing. */
  ghost predicate MeetsOnLine(ts: seq<Token>, at: int, nesting: int, want: Node, n: nat, stop: int) {
    && n <= |want.args| && (D.ArgFollows(ts, at) <==> n < |want.args| || want.Block?)
    && (n < |want.args| ==> 0 <= at < |ts| - 1 && ts[at + 1].text == want.args[n] && ts[at + 1].text != "{")
    && (n == |want.args| && want.Block? ==>
          0 <= at < |ts| - 1 && ts[at + 1].text == "{" && BlockAhead(ts, at + 1, nesting, want.children, stop))
    && (n == |want.args| && want.Leaf? ==> at == stop)
  }

  lemma {:induction false} LineLeft(ts: seq<Token>, at: int, nesting: int, want: Node, n: nat, stop: int)
    requires LineAhead(ts, at, nesting, want, stop) && n <= |want.args|
    ensures Lie(ts, at + n, stop, ArgPieces(want.args[n..]) + BlockPieces(ChildrenOf(want)))
    ensures 0 <= at && Laid(ts) && LineEnds(ts, stop) && (n < |want.args| ==> !IsBrace(want.args[n]))
  {
    assert Unfold(0);
    var done, rest, block := want.args[..n], want.args[n..], BlockPieces(ChildrenOf(want));
    assert want.args == done + rest;
    ArgConcat(done, rest);
    Y.Regroup(ArgPieces(done), ArgPieces(rest), block);
    SplitAhead(ts, at, stop, ArgPieces(done), ArgPieces(rest) + block);
  }

  lemma {:induction false} EndOfArgs(ts: seq<Token>, at: int, nesting: int, want: Node, stop: int, here: int)
    requires LineAhead(ts, at, nesting, want, stop) && here == at + |want.args|
    ensures 0 <= here && Laid(ts) && LineEnds(ts, stop) && Lie(ts, here, stop, BlockPieces(ChildrenOf(want)))
  {
    assert Unfold(0);
    var args, block := ArgPieces(want.args), BlockPieces(ChildrenOf(want));
    ArgCount(want.args);
    SplitAhead(ts, at, stop, args, block);
    LieAt(ts, at + |args|, here, stop, block);
  }

  lemma {:induction false} ArgCount(args: seq<string>)
    ensures |ArgPieces(args)| == |args|
  {
    if args == [] {
    } else {
      ArgCount(args[..|args| - 1]);
    }
  }

  lemma ArgumentNext(ts: seq<Token>, at: int, nesting: int, want: Node, n: nat, stop: int)
    requires LineAhead(ts, at, nesting, want, stop) && n < |want.args|
    ensures D.ArgFollows(ts, at + n)
    ensures 0 <= at + n < |ts| - 1 && ts[at + n + 1].text == want.args[n] && ts[at + n + 1].text != "{"
  {
    LineLeft(ts, at, nesting, want, n, stop);
    ArgAhead(ts, at + n, stop, want.args[n..], BlockPieces(ChildrenOf(want)));
  }

  lemma BlockNext(ts: seq<Token>, at: int, nesting: int, want: Node, stop: int, here: int)
    requires LineAhead(ts, at, nesting, want, stop) && want.Block? && here == at + |want.args|
    ensures D.ArgFollows(ts, here) && 0 <= here < |ts| - 1 && ts[here + 1].text == "{"
    ensures BlockAhead(ts, here + 1, nesting, want.children, stop)
  {
    EndOfArgs(ts, at, nesting, want, stop, here);
    BraceAhead(ts, here, stop, want.children);
    BlockOpens(ts, at, nesting, want, stop, here + 1);
  }

  lemma NothingNext(ts: seq<Token>, at: int, nesting: int, want: Node, stop: int, here: int)
    requires LineAhead(ts, at, nesting, want, stop) && want.Leaf? && here == at + |want.args|
    ensures !D.ArgFollows(ts, here) && here == stop
  {
    EndOfArgs(ts, at, nesting, want, stop, here);
    NothingAhead(ts, here, stop);
  }

  lemma NextOnLine(ts: seq<Token>, at: int, nesting: int, want: Node, n: nat, stop: int)
    requires LineAhead(ts, at, nesting, want, stop) && n <= |want.args|
    ensures MeetsOnLine(ts, at + n, nesting, want, n, stop)
  {
    if n < |want.args| {
      ArgumentNext(ts, at, nesting, want, n, stop);
    } else if want.Block? {
      BlockNext(ts, at, nesting, want, stop, at + n);
    } else {
      NothingNext(ts, at, nesting, want, stop, at + n);
    }
  }

  lemma {:induction false} BlockOpens(ts: seq<Token>, at: int, nesting: int, want: Node, stop: int,
                                      brace: int)
    requires LineAhead(ts, at, nesting, want, stop) && want.Block? && brace >= 0
    requires Lie(ts, brace, stop, FlattenAll(want.children) + CLOSING)
    ensures BlockAhead(ts, brace, nesting, want.children, stop)
  {
    assert Unfold(0);
  }

  /** Whatever line lies ahead, its arguments begin with these. */
  ghost predicate Begun(ts: seq<Token>, at: int, nesting: int, args: seq<string>) {
    forall n :: Unfold(n) ==> forall want, stop :: LineAhead(ts, at, nesting, want, stop) ==> Begin(args, want.args)
  }

  lemma BegunOn(ts: seq<Token>, at: int, nesting: int, args: seq<string>, here: int)
    requires Begun(ts, at, nesting, args) && here == at + |args| && 0 <= here < |ts| - 1
    requires D.ArgFollows(ts, here) && ts[here + 1].text != "{"
    ensures Begun(ts, at, nesting, args + [ts[here + 1].text])
  {
    assert Unfold(0);
    forall want, stop | LineAhead(ts, at, nesting, want, stop)
      ensures Begin(args + [ts[here + 1].text], want.args)
    {
      NextOnLine(ts, at, nesting, want, |args|, stop);
    }
  }

  lemma BegunAll(args: seq<string>, all: seq<string>)
    requires Begin(args, all) && |args| == |all|
    ensures args == all
  {
  }

  lemma BlockMet(ts: seq<Token>, at: int, nesting: int, args: seq<string>, here: int)
    requires Begun(ts, at, nesting, args) && here == at + |args| && 0 <= here < |ts| - 1
    requires D.ArgFollows(ts, here) && ts[here + 1].text == "{"
    ensures forall want, stop :: LineAhead(ts, at, nesting, want, stop) ==>
              args == want.args && want.Block? && BlockAhead(ts, here + 1, nesting, want.children, stop)
  {
    assert Unfold(0);
    forall want, stop | LineAhead(ts, at, nesting, want, stop)
      ensures args == want.args && want.Block? && BlockAhead(ts, here + 1, nesting, want.children, stop)
    {
      NextOnLine(ts, at, nesting, want, |args|, stop);
      BegunAll(args, want.args);
    }
  }

  lemma LineMet(ts: seq<Token>, at: int, nesting: int, args: seq<string>, here: int)
    requires Begun(ts, at, nesting, args) && here == at + |args| && 0 <= here < |ts| && !D.ArgFollows(ts, here)
    ensures forall want, stop :: LineAhead(ts, at, nesting, want, stop) ==>
              args == want.args && want.Leaf? && here == stop
  {
    assert Unfold(0);
    forall want, stop | LineAhead(ts, at, nesting, want, stop)
      ensures args == want.args && want.Leaf? && here == stop
    {
      NextOnLine(ts, at, nesting, want, |args|, stop);
      BegunAll(args, want.args);
    }
  }

  /** What has been passed of a line of plain tokens, up to the one at `at`. */
  ghost predicate PlainLine(ts: seq<Token>, from: int, at: int, args: seq<string>) {
    forall n :: Unfold(n) ==>
      && -1 <= from <= at < |ts| && 0 <= at && ts[at].text != "{" && Passed(ts, from, at) == ArgPieces(args)
      && PlainArgList(args) && (args != [] ==> args[|args| - 1] == ts[at].text)
  }

  /** From plain tokens the words read are the tokens passed, with the brace if that opens a block. */
  ghost predicate PlainWords(ts: seq<Token>, from: int, to: int, args: seq<string>, open: bool) {
    forall n :: Unfold(n) ==>
      && -1 <= from <= to <= |ts| - 1 && PlainArgList(args) && (open ==> !EndsWith(args, "}"))
      && Passed(ts, from, to) == if open then ArgPieces(args) + OPENING else ArgPieces(args)
  }

  lemma {:induction false} PlainWordsAre(ts: seq<Token>, from: int, to: int, args: seq<string>, open: bool)
    requires PlainWords(ts, from, to, args, open)
    ensures -1 <= from <= to <= |ts| - 1 && PlainArgList(args) && (open ==> !EndsWith(args, "}"))
    ensures Passed(ts, from, to) == if open then ArgPieces(args) + OPENING else ArgPieces(args)
  {
    assert Unfold(0);
  }

  lemma PlainStart(ts: seq<Token>, at: int)
    requires 0 <= at < |ts| && ts[at].text != "{"
    ensures PlainLine(ts, at, at, [])
  {
  }

  lemma {:induction false} PlainEnd(ts: seq<Token>, from: int, at: int, args: seq<string>)
    requires PlainLine(ts, from, at, args)
    ensures PlainWords(ts, from, at, args, false)
  {
    assert Unfold(0);
  }

  lemma {:induction false} PlainMove(ts: seq<Token>, from: int, at: int, args: seq<string>)
    requires Plain(ts) && PlainLine(ts, from, at, args) && -1 <= from && 0 <= at < |ts| - 1 && D.ArgFollows(ts, at)
    ensures ts[at + 1].text == "{" ==> PlainWords(ts, from, at + 1, args, true)
    ensures ts[at + 1].text != "{" ==> PlainLine(ts, from, at + 1, args + [ts[at + 1].text])
  {
    assert Unfold(0);
    ArgPassed(ts, from, at, args);
    PlainAt(ts, at + 1);
    ArgMore(args, ts[at + 1].text);
  }

  /**
   Behind the token at `at` these words follow on its line, the first on a later one if the line is continued, and
   behind the last of them, at `stop`, the line ends.
   */
  ghost predicate WordsAhead(ts: seq<Token>, at: int, continued: bool, words: seq<string>, stop: int) {
    forall n :: Unfold(n) ==>
      && 0 <= at && stop == at + |words| < |ts|
      && (forall k {:trigger words[k]} :: 0 <= k < |words| ==>
            && ts[at + 1 + k].text == words[k] != "{"
            && (D.ArgFollows(ts, at + k) || (k == 0 && continued && D.LineFollows(ts, at + k))))
      && !D.ArgFollows(ts, stop) && (continued && words == [] ==> !D.LineFollows(ts, stop))
  }

  /** Whatever words lie ahead, they begin with these. */
  ghost predicate WordsBegun(ts: seq<Token>, at: int, continued: bool, args: seq<string>) {
    forall n :: Unfold(n) ==> forall words, stop :: WordsAhead(ts, at, continued, words, stop) ==> Begin(args, words)
  }

  lemma WordThere(ts: seq<Token>, at: int, continued: bool, words: seq<string>, stop: int, n: nat)
    requires WordsAhead(ts, at, continued, words, stop) && n <= |words|
    ensures 0 <= at && at + n <= stop < |ts| && stop == at + |words|
    ensures n < |words| ==>
              && at + n + 1 < |ts| && ts[at + n + 1].text == words[n] != "{"
              && (D.ArgFollows(ts, at + n) || (n == 0 && continued && D.LineFollows(ts, at + n)))
    ensures n == |words| ==> !D.ArgFollows(ts, at + n) && (continued && n == 0 ==> !D.LineFollows(ts, at + n))
  {
    assert Unfold(0);
    if n < |words| { assert words[n] == ts[at + 1 + n].text; }
  }

  /** Another word is met, which opens no block. */
  lemma WordsOn(ts: seq<Token>, at: int, continued: bool, args: seq<string>, here: int)
    requires WordsBegun(ts, at, continued, args) && here == at + |args| && 0 <= here < |ts| - 1
    requires D.ArgFollows(ts, here) || (args == [] && continued && D.LineFollows(ts, here))
    ensures WordsBegun(ts, at, continued, args + [ts[here + 1].text])
  {
    assert Unfold(0);
    forall words, stop | WordsAhead(ts, at, continued, words, stop)
      ensures Begin(args + [ts[here + 1].text], words)
    {
      WordThere(ts, at, continued, words, stop, |args|);
    }
  }

  /** The brace of a block is met. */
  lemma WordsOpen(ts: seq<Token>, at: int, continued: bool, args: seq<string>, here: int)
    requires WordsBegun(ts, at, continued, args) && here == at + |args| && 0 <= here < |ts| - 1
    requires D.ArgFollows(ts, here) || (args == [] && continued && D.LineFollows(ts, here))
    requires ts[here + 1].text == "{"
    ensures forall words, stop :: !WordsAhead(ts, at, continued, words, stop)
  {
    assert Unfold(0);
    if words, stop :| WordsAhead(ts, at, continued, words, stop) {
      WordThere(ts, at, continued, words, stop, |args|);
      assert false;
    }
  }

  /** What is known of the words so far, the last of them at `here`. */
  ghost predicate WordsSofar(ts: seq<Token>, c: Context, here: int, args: seq<string>, continued: bool, plain: bool) {
    forall n :: Unfold(n) ==>
      && here == c.cursor + |args| && WordsBegun(ts, c.cursor, continued, args)
      && (plain ==> PlainLine(ts, c.cursor, here, args)) && (!continued ==> Begun(ts, c.cursor, c.nesting, args))
  }

  lemma NoWordsYet(ts: seq<Token>, c: Context, continued: bool, plain: bool)
    requires AtToken(ts, c) && (plain ==> ts[c.cursor].text != "{")
    ensures WordsSofar(ts, c, c.cursor, [], continued, plain)
  {
    if plain { PlainStart(ts, c.cursor); }
  }

  /** There is a next word. */
  ghost predicate WordFollows(ts: seq<Token>, here: int, args: seq<string>, continued: bool, plain: bool) {
    && 0 <= here < |ts| - 1 && (plain ==> Plain(ts) && !continued)
    && (D.ArgFollows(ts, here) || (args == [] && continued && D.LineFollows(ts, here)))
  }

  lemma OneMoreWord(ts: seq<Token>, c: Context, here: int, args: seq<string>, continued: bool, plain: bool)
    requires AtToken(ts, c) && WordsSofar(ts, c, here, args, continued, plain)
    requires WordFollows(ts, here, args, continued, plain) && ts[here + 1].text != "{"
    ensures WordsSofar(ts, c, here + 1, args + [ts[here + 1].text], continued, plain)
  {
    assert Unfold(0);
    WordsOn(ts, c.cursor, continued, args, here);
    if plain { PlainMove(ts, c.cursor, here, args); }
    if !continued { BegunOn(ts, c.cursor, c.nesting, args, here); }
  }

  lemma BraceForWord(ts: seq<Token>, c: Context, here: int, args: seq<string>, continued: bool, plain: bool)
    requires AtToken(ts, c) && WordsSofar(ts, c, here, args, continued, plain)
    requires WordFollows(ts, here, args, continued, plain) && ts[here + 1].text == "{"
    ensures here == c.cursor + |args| && (plain ==> PlainWords(ts, c.cursor, here + 1, args, true))
    ensures forall words, stop :: !WordsAhead(ts, c.cursor, continued, words, stop)
    ensures forall want, stop :: LineAhead(ts, c.cursor, c.nesting, want, stop) && !continued ==>
              args == want.args && want.Block? && BlockAhead(ts, here + 1, c.nesting, want.children, stop)
  {
    assert Unfold(0);
    WordsOpen(ts, c.cursor, continued, args, here);
    if plain { PlainMove(ts, c.cursor, here, args); }
    if !continued { BlockMet(ts, c.cursor, c.nesting, args, here); }
  }

  lemma NoMoreWords(ts: seq<Token>, c: Context, here: int, args: seq<string>, continued: bool, plain: bool)
    requires AtToken(ts, c) && WordsSofar(ts, c, here, args, continued, plain) && 0 <= here < |ts|
    requires !D.ArgFollows(ts, here) && !(args == [] && continued && D.LineFollows(ts, here))
    ensures here == c.cursor + |args| && (plain ==> PlainWords(ts, c.cursor, here, args, false))
    ensures forall words, stop :: WordsAhead(ts, c.cursor, continued, words, stop) ==> args == words && here == stop
    ensures forall want, stop :: LineAhead(ts, c.cursor, c.nesting, want, stop) && !continued ==>
              args == want.args && want.Leaf? && here == stop
  {
    assert Unfold(0);
    WordsMet(ts, c.cursor, continued, args, here);
    if plain { PlainEnd(ts, c.cursor, here, args); }
    if !continued { LineMet(ts, c.cursor, c.nesting, args, here); }
  }

  /** No word is met. */
  lemma WordsMet(ts: seq<Token>, at: int, continued: bool, args: seq<string>, here: int)
    requires WordsBegun(ts, at, continued, args) && here == at + |args| && 0 <= here < |ts|
    requires !D.ArgFollows(ts, here) && !(args == [] && continued && D.LineFollows(ts, here))
    ensures forall words, stop :: WordsAhead(ts, at, continued, words, stop) ==> args == words && here == stop
  {
    assert Unfold(0);
    forall words, stop | WordsAhead(ts, at, continued, words, stop) ensures args == words && here == stop {
      WordThere(ts, at, continued, words, stop, |args|);
      BegunAll(args, words);
    }
  }

  /** The arguments up to the end of the line, or up to the brace that opens a block. */
  method ReadWords(ts: seq<Token>, env: Env, c: Context, continueOnLF: bool, ghost plain: bool)
    returns (c': Context, args: seq<string>, open: bool)
    requires AtToken(ts, c) && (plain ==> Plain(ts) && !continueOnLF && ts[c.cursor].text != "{")
    ensures AtToken(ts, c') && c' == c.(cursor := c.cursor + |args| + if open then 1 else 0)
    ensures open ==> ts[c'.cursor].text == "{"
    ensures plain ==> PlainWords(ts, c.cursor, c'.cursor, args, open)
    ensures forall want, stop :: LineAhead(ts, c.cursor, c.nesting, want, stop) && !continueOnLF ==>
              && args == want.args && open == want.Block?
              && if open then BlockAhead(ts, c'.cursor, c.nesting, want.children, stop) else c'.cursor == stop
    ensures forall words, stop :: WordsAhead(ts, c.cursor, continueOnLF, words, stop) ==>
              !open && args == words && c'.cursor == stop
  {
    c', args, open := c, [], false;
    var lineFeed := continueOnLF;
    NoWordsYet(ts, c, continueOnLF, plain);
    while D.ArgFollows(ts, c'.cursor) || (lineFeed && D.LineFollows(ts, c'.cursor))
      invariant AtToken(ts, c') && c' == c.(cursor := c.cursor + |args|)
      invariant lineFeed <==> continueOnLF && args == []
      invariant WordsSofar(ts, c, c'.cursor, args, continueOnLF, plain)
      decreases |ts| - c'.cursor
    {
      ghost var here := c'.cursor;
      c' := Advanced(c');
      lineFeed := false;
      if Val(ts, c') == "{" {
        BraceForWord(ts, c, here, args, continueOnLF, plain);
        return c', args, true;
      }
      OneMoreWord(ts, c, here, args, continueOnLF, plain);
      args := args + [Val(ts, c')];
    }
    NoMoreWords(ts, c, c'.cursor, args, continueOnLF, plain);
  }

  /** The declarations so far. */
  function Declared(c: Context): Sofar {
    Sofar([], c.snippets, c.macros)
  }

  /** A line that lies ahead is read as its arguments and what its block means, or is an error like that. */
  ghost predicate LineRead(env: Env, c: Context, want: Node, stop: int, ok: bool, c': Context, args: seq<string>,
                           children: Option<seq<Node>>) {
    var inner := WithBlock(env, c.nesting, Declared(c), want);
    && (ok <==> inner.Some?)
    && (ok ==> c' == c.(cursor := stop) && args == want.args && children == ChildrenOf(inner.value))
  }

  /** So is a block, with the declarations it makes. */
  ghost predicate BlockRead(env: Env, c: Context, want: seq<Node>, stop: int, ok: bool, c': Context, res: seq<Node>) {
    var r := TookAll(env, c.nesting + 1, Declared(c), want);
    && (ok <==> c.nesting <= NESTING_LIMIT && r.Some?)
    && (ok ==> c' == Context(stop, c.nesting + if c.cursor == -1 then 1 else 0, r.value.snippets, r.value.macros)
               && res == r.value.nodes)
  }

  lemma BlockLine(env: Env, c: Context, here: Context, want: Node, stop: int, ok: bool, c': Context, res: seq<Node>)
    requires want.Block? && here == c.(cursor := here.cursor) && here.cursor >= 0 && c.nesting >= 0
    requires BlockRead(env, here, want.children, stop, ok, c', res)
    ensures LineRead(env, c, want, stop, ok, c', want.args, Some(res))
  {
    if ok { NothingDeclared(env, c.nesting + 1, Declared(c), want.children); }
  }

  /** The arguments up to the end of the line, or up to a block, which is read too. */
  method ReadLine(ts: seq<Token>, env: Env, c: Context, continueOnLF: bool, ghost plain: bool)
    returns (ok: bool, c': Context, args: seq<string>, children: Option<seq<Node>>)
    requires AtToken(ts, c) && (plain ==> Plain(ts) && !continueOnLF && ts[c.cursor].text != "{")
    ensures c.cursor + |args| <= c'.cursor < |ts|
    ensures ok ==> AtToken(ts, c') && (plain ==> Balanced(ts, c.nesting, c'))
    ensures ok && plain && c'.nesting == c.nesting ==>
              Passed(ts, c.cursor, c'.cursor) == ArgPieces(args) + BlockPieces(children)
    ensures ok && children.None? ==> c'.nesting == c.nesting
    ensures plain ==> PlainArgList(args) && (children.Some? ==> !EndsWith(args, "}"))
    ensures forall want, stop :: LineAhead(ts, c.cursor, c.nesting, want, stop) && !continueOnLF ==>
              LineRead(env, c, want, stop, ok, c', args, children)
    ensures forall words, stop :: WordsAhead(ts, c.cursor, continueOnLF, words, stop) ==>
              ok && args == words && children == None && c' == c.(cursor := stop)
    decreases |ts| - c.cursor, 0
  {
    var open;
    c', args, open := ReadWords(ts, env, c, continueOnLF, plain);
    if plain { PlainWordsAre(ts, c.cursor, c'.cursor, args, open); }
    if !open {
      assert ArgPieces(args) + [] == ArgPieces(args);
      return true, c', args, None;
    }
    ghost var here := c';
    ghost var at := c'.cursor;
    var nodes;
    ok, c', nodes := ReadNodes(ts, env, c', plain);
    children := Some(nodes);
    forall want, stop | LineAhead(ts, c.cursor, c.nesting, want, stop) && !continueOnLF
      ensures LineRead(env, c, want, stop, ok, c', args, children)
    {
      BlockLine(env, c, here, want, stop, ok, c', nodes);
    }
    if ok && plain && c'.nesting == c.nesting {
      BlockPassed(ts, c.cursor, at, c'.cursor, args, nodes);
    }
  }

  lemma PlainLast(args: seq<string>)
    requires PlainArgList(args)
    ensures !EndsWith(args, "\\")
  {
  }

  lemma LineEndsWell(ts: seq<Token>, at: int, nesting: int, want: Node, stop: int)
    requires LineAhead(ts, at, nesting, want, stop)
    ensures !EndsWith(want.args, "\\")
  {
    assert Unfold(0);
  }

  /** Lines of words, all but the last continued by a backslash at the end. */
  ghost predicate LinesAhead(ts: seq<Token>, at: int, continued: bool, lines: seq<seq<string>>, stop: int)
    decreases |lines|
  {
    && lines != [] && !EndsWith(lines[0], "\\")
    && if |lines| == 1 then WordsAhead(ts, at, continued, lines[0], stop)
       else
         && WordsAhead(ts, at, continued, lines[0] + ["\\"], at + |lines[0]| + 1)
         && LinesAhead(ts, at + |lines[0]| + 1, true, lines[1..], stop)
  }

  function Concat(lines: seq<seq<string>>): seq<string> {
    if lines == [] then [] else Concat(lines[..|lines| - 1]) + lines[|lines| - 1]
  }

  /** The tokens of the lines `n a \` and `b`. */
  lemma TwoLines()
    ensures var ts := [Token("", 1, "n"), Token("", 1, "a"), Token("", 1, "\\"), Token("", 2, "b")];
            LinesAhead(ts, 0, false, [["a"], ["b"]], 3) && Concat([["a"], ["b"]]) == ["a", "b"]
  {
    var ts := [Token("", 1, "n"), Token("", 1, "a"), Token("", 1, "\\"), Token("", 2, "b")];
    var lines := [["a"], ["b"]];
    NoBreaks("n");
    NoBreaks("a");
    NoBreaks("\\");
    NoBreaks("b");
    assert ["a"] + ["\\"] == ["a", "\\"];
    assert WordsAhead(ts, 0, false, ["a", "\\"], 2);
    assert WordsAhead(ts, 2, true, ["b"], 3);
    assert lines[1..] == [["b"]] && LinesAhead(ts, 2, true, [["b"]], 3);
    assert lines[..1] == [["a"]] && lines[..1][..0] == [] && Concat([["a"]]) == [] + ["a"];
    assert [] + ["a"] + ["b"] == ["a", "b"];
  }

  /** With `n` of the lines read. */
  ghost predicate LinesLeft(ts: seq<Token>, c: Context, lines: seq<seq<string>>, n: nat, stop: int, c': Context,
                            args: seq<string>, children: Option<seq<Node>>, continued: bool) {
    forall k :: Unfold(k) ==>
      && n < |lines| && LinesAhead(ts, c'.cursor, continued, lines[n..], stop) && c' == c.(cursor := c'.cursor)
      && args == Concat(lines[..n]) && !EndsWith(args, "\\") && children == None
  }

  lemma {:induction false} NoLineRead(ts: seq<Token>, c: Context, lines: seq<seq<string>>, stop: int)
    requires LinesAhead(ts, c.cursor, false, lines, stop)
    ensures LinesLeft(ts, c, lines, 0, stop, c, [], None, false)
  {
    assert lines[0..] == lines && lines[..0] == [];
  }

  /** One more: the last of them, or one that is continued. */
  ghost predicate LineDone(ts: seq<Token>, c: Context, lines: seq<seq<string>>, n: nat, stop: int, ok: bool,
                           c': Context, args: seq<string>, line: seq<string>, block: Option<seq<Node>>) {
    forall k :: Unfold(k) ==>
      && n < |lines| && ok && block == None && c' == c.(cursor := c'.cursor)
      && (n == |lines| - 1 ==> c'.cursor == stop && args + line == Concat(lines) && !EndsWith(args + line, "\\"))
      && (n < |lines| - 1 ==>
            && EndsWith(args + line, "\\")
            && LinesLeft(ts, c, lines, n + 1, stop, c', (args + line)[..|args + line| - 1], None, true))
  }

  lemma {:induction false} LineContinues(ts: seq<Token>, c: Context, lines: seq<seq<string>>, n: nat, stop: int,
                                         ok: bool, c': Context, args: seq<string>, line: seq<string>,
                                         block: Option<seq<Node>>)
    requires LineDone(ts, c, lines, n, stop, ok, c', args, line, block)
    ensures ok && block == None
    ensures if EndsWith(args + line, "\\")
            then LinesLeft(ts, c, lines, n + 1, stop, c', (args + line)[..|args + line| - 1], None, true)
            else args + line == Concat(lines) && c' == c.(cursor := stop)
  {
    assert Unfold(0);
  }

  lemma {:induction false} ConcatMore(lines: seq<seq<string>>, n: nat)
    requires n < |lines|
    ensures Concat(lines[..n + 1]) == Concat(lines[..n]) + lines[n]
  {
    assert lines[..n + 1][..n] == lines[..n];
  }

  lemma {:induction false} LastLineRead(ts: seq<Token>, c: Context, lines: seq<seq<string>>, n: nat, stop: int,
                                        before: Context, args: seq<string>, children: Option<seq<Node>>,
                                        continued: bool)
    requires LinesLeft(ts, c, lines, n, stop, before, args, children, continued) && n == |lines| - 1
    ensures WordsAhead(ts, before.cursor, continued, lines[n], stop) && children == None
    ensures LineDone(ts, c, lines, n, stop, true, before.(cursor := stop), args, lines[n], None)
  {
    assert Unfold(0);
    var rest, line := lines[n..], lines[n];
    assert rest[0] == line;
    ConcatMore(lines, n);
    assert lines[..n + 1] == lines;
    NoBackslashLast(args, line);
  }

  lemma {:induction false} MidLineRead(ts: seq<Token>, c: Context, lines: seq<seq<string>>, n: nat, stop: int,
                                       before: Context, args: seq<string>, children: Option<seq<Node>>,
                                       continued: bool, words: seq<string>, next: int)
    requires LinesLeft(ts, c, lines, n, stop, before, args, children, continued) && n < |lines| - 1
    requires words == lines[n] + ["\\"] && next == before.cursor + |words|
    ensures WordsAhead(ts, before.cursor, continued, words, next) && children == None
    ensures LineDone(ts, c, lines, n, stop, true, before.(cursor := next), args, words, None)
  {
    assert Unfold(0);
    var rest, line := lines[n..], lines[n];
    assert rest[0] == line && rest[1..] == lines[n + 1..];
    ConcatMore(lines, n);
    assert args + words == args + line + ["\\"];
    assert (args + words)[..|args + words| - 1] == args + line;
    NoBackslashLast(args, line);
    assert LinesAhead(ts, next, true, lines[n + 1..], stop);
  }

  lemma {:induction false} LinesThere(ts: seq<Token>, c: Context, lines: seq<seq<string>>, n: nat, stop: int,
                                      before: Context, args: seq<string>, children: Option<seq<Node>>, continued: bool)
    requires LinesLeft(ts, c, lines, n, stop, before, args, children, continued)
    ensures n < |lines|
  {
    assert Unfold(0);
  }

  /** What the next line gives is what is wanted of it. */
  lemma {:induction false} NextLineRead(ts: seq<Token>, c: Context, lines: seq<seq<string>>, n: nat, stop: int,
                                        before: Context, args: seq<string>, children: Option<seq<Node>>,
                                        continued: bool, ok: bool, c': Context, line: seq<string>,
                                        block: Option<seq<Node>>)
    requires LinesLeft(ts, c, lines, n, stop, before, args, children, continued)
    requires forall words, next :: WordsAhead(ts, before.cursor, continued, words, next) ==>
               ok && line == words && block == None && c' == before.(cursor := next)
    ensures children == None && LineDone(ts, c, lines, n, stop, ok, c', args, line, block)
  {
    LinesThere(ts, c, lines, n, stop, before, args, children, continued);
    if n == |lines| - 1 {
      LastLineRead(ts, c, lines, n, stop, before, args, children, continued);
    } else {
      var words := lines[n] + ["\\"];
      MidLineRead(ts, c, lines, n, stop, before, args, children, continued, words, before.cursor + |words|);
    }
  }

  lemma NoBackslashLast(a: seq<string>, b: seq<string>)
    requires !EndsWith(a, "\\") && !EndsWith(b, "\\")
    ensures !EndsWith(a + b, "\\")
  {
    if b == [] { assert a + b == a; }
  }

  /** The arguments of a directive, over lines continued by a backslash, and its block. */
  method ReadArgs(ts: seq<Token>, env: Env, c: Context, ghost plain: bool)
    returns (ok: bool, c': Context, args: seq<string>, children: Option<seq<Node>>)
    requires AtToken(ts, c) && (plain ==> Plain(ts) && ts[c.cursor].text != "{")
    ensures c.cursor <= c'.cursor < |ts|
    ensures ok ==> AtToken(ts, c') && (plain ==> Balanced(ts, c.nesting, c'))
    ensures ok && plain && c'.nesting == c.nesting ==>
              Passed(ts, c.cursor, c'.cursor) == ArgPieces(args) + BlockPieces(children)
    ensures ok && plain && children.Some? ==> !EndsWith(args, "}")
    ensures ok && plain && children.None? ==> c'.nesting == c.nesting
    ensures forall want, stop :: LineAhead(ts, c.cursor, c.nesting, want, stop) ==>
              LineRead(env, c, want, stop, ok, c', args, children)
    ensures forall lines, stop :: LinesAhead(ts, c.cursor, false, lines, stop) ==>
              ok && args == Concat(lines) && children == None && c' == c.(cursor := stop)
    decreases |ts| - c.cursor, 1
  {
    c', args, children := c, [], None;
    var continueOnLF := false;
    ghost var n := 0;
    forall lines, stop | LinesAhead(ts, c.cursor, false, lines, stop)
      ensures LinesLeft(ts, c, lines, 0, stop, c, [], None, false)
    {
      NoLineRead(ts, c, lines, stop);
    }
    while true
      invariant c.cursor <= c'.cursor && AtToken(ts, c')
      invariant plain ==> args == [] && children == None && c' == c && !continueOnLF
      invariant forall want, stop :: LineAhead(ts, c.cursor, c.nesting, want, stop) ==>
                  args == [] && children == None && c' == c && !continueOnLF
      invariant forall lines, stop :: LinesAhead(ts, c.cursor, false, lines, stop) ==>
                  LinesLeft(ts, c, lines, n, stop, c', args, children, continueOnLF)
      decreases |ts| - c'.cursor + |args|
    {
      ghost var before := c';
      var line, block;
      ok, c', line, block := ReadLine(ts, env, c', continueOnLF, plain);
      forall lines, stop | LinesAhead(ts, c.cursor, false, lines, stop)
        ensures ok && block == None && children == None
        ensures if EndsWith(args + line, "\\")
                then LinesLeft(ts, c, lines, n + 1, stop, c', (args + line)[..|args + line| - 1], None, true)
                else args + line == Concat(lines) && c' == c.(cursor := stop)
      {
        NextLineRead(ts, c, lines, n, stop, before, args, children, continueOnLF, ok, c', line, block);
        LineContinues(ts, c, lines, n, stop, ok, c', args, line, block);
      }
      forall want, stop | LineAhead(ts, c.cursor, c.nesting, want, stop)
        ensures LineRead(env, c, want, stop, ok, c', args + line, block) && !EndsWith(want.args, "\\")
      {
        assert args + line == line;
        LineEndsWell(ts, c.cursor, c.nesting, want, stop);
      }
      if !ok {
        return;
      }
      if plain {
        assert args + line == line;
        PlainLast(line);
      }
      args := args + line;
      if block.Some? {
        children := block;
      }
      if |args| != 0 && args[|args| - 1] == "\\" {
        args := args[..|args| - 1];
        continueOnLF := true;
        n := n + 1;
        continue;
      }
      break;
    }
  }

  lemma HeadThere(ts: seq<Token>, at: int, nesting: int, want: Node, stop: int)
    requires NodeThere(ts, at, nesting, want, stop)
    ensures LineAhead(ts, at, nesting, want, stop) && 0 <= at < |ts| && ts[at].text == want.name && want.name != "{"
  {
    assert Unfold(0);
    HeadAhead(ts, at, stop, want);
  }

  /** A directive that lies ahead is read under the name it has, with what its block means, or is an error like that. */
  ghost predicate NodeRead(env: Env, c: Context, want: Node, stop: int, ok: bool, c': Context, h: Heading) {
    var inner := WithBlock(env, c.nesting, Declared(c), want);
    && (ok <==> inner.Some? && Named(env, inner.value).Some?)
    && (ok ==> c' == c.(cursor := stop) && Named(env, inner.value) == Some(h))
  }

  /** One directive, from its name at the cursor to its last token. */
  method ReadNode(ts: seq<Token>, env: Env, c: Context, ghost plain: bool)
    returns (ok: bool, c': Context, node: Node, isSnippet: bool, isMacro: bool)
    requires AtToken(ts, c) && (plain ==> Plain(ts) && Starts(ts, c.cursor))
    ensures c.cursor <= c'.cursor < |ts|
    ensures ok ==> AtToken(ts, c') && (plain ==> Balanced(ts, c.nesting, c'))
    ensures ok && plain ==> !isSnippet && !isMacro
    ensures ok && plain && c'.nesting == c.nesting ==> Passed(ts, c.cursor - 1, c'.cursor) == Flatten(node)
    ensures ok && plain && (node.Block? || c'.nesting != c.nesting) ==> !EndsWith(node.args, "}")
    ensures forall want, stop :: NodeThere(ts, c.cursor, c.nesting, want, stop) ==>
              NodeRead(env, c, want, stop, ok, c', Heading(node, isSnippet, isMacro))
    decreases |ts| - c.cursor, 2
  {
    ok, c', node, isSnippet, isMacro := false, c, Leaf("", []), false, false;
    forall want, stop | NodeThere(ts, c.cursor, c.nesting, want, stop)
      ensures LineAhead(ts, c.cursor, c.nesting, want, stop) && Val(ts, c) == want.name && want.name != "{"
    {
      HeadThere(ts, c.cursor, c.nesting, want, stop);
    }
    if Val(ts, c) == "{" {
      return;
    }
    if plain {
      PlainAt(ts, c.cursor);
      PlainName(Val(ts, c));
    }
    var args, children;
    ok, c', args, children := ReadArgs(ts, env, c, plain);
    ghost var written := MakeNode(Val(ts, c), args, children);
    forall want, stop | NodeThere(ts, c.cursor, c.nesting, want, stop)
      ensures WrittenRead(env, c, want, stop, ok, c', written)
    {
      assert LineAhead(ts, c.cursor, c.nesting, want, stop);
    }
    if !ok {
      return;
    }
    if plain && c'.nesting == c.nesting {
      HeadPassed(ts, c.cursor, c'.cursor, args, children);
    }
    ok, node, isSnippet, isMacro := ReadHead(env, Val(ts, c), args, children);
  }

  /** What the name says: a snippet, a macro declaration, or a directive, whose name has to be valid. */
  method ReadHead(env: Env, text: Text, args: seq<string>, children: Option<seq<Node>>)
    returns (ok: bool, node: Node, isSnippet: bool, isMacro: bool)
    ensures var h := Named(env, MakeNode(text, args, children));
            (ok <==> h.Some?) && (ok ==> h == Some(Heading(node, isSnippet, isMacro)))
    ensures ok && !HasPrefix(text, "$(") && !IsSnippet(text) ==>
              !isSnippet && !isMacro && node == MakeNode(text, args, children)
  {
    var name, rest := text, args;
    isSnippet, isMacro := false, false;
    if IsSnippet(name) {
      name := SnippetName(name);
      isSnippet := true;
    }
    node := MakeNode(name, rest, children);
    if HasPrefix(name, "$(") {
      if !HasSuffix(name, ")") || |rest| < 2 || rest[0] != "=" {
        return false, node, isSnippet, isMacro;
      }
      assert IsReference(name);
      if name[2..|name| - 1] != "" {
        name, rest, isMacro := name[2..|name| - 1], rest[1..], true;
        node := MakeNode(name, rest, children);
      }
    }
    ok := isMacro || isSnippet || env.validName(name);
  }

  /** The directive as written, but with its block read. */
  ghost predicate WrittenRead(env: Env, c: Context, want: Node, stop: int, ok: bool, c': Context, written: Node) {
    var inner := WithBlock(env, c.nesting, Declared(c), want);
    (ok <==> inner.Some?) && (ok ==> c' == c.(cursor := stop) && inner.value == written)
  }

  /** Macro and snippet declarations go into their tables, any other directive into the block. */
  method Keep(env: Env, c: Context, node: Node, isSnippet: bool, isMacro: bool)
    returns (ok: bool, c': Context, kept: Option<Node>)
    ensures c'.cursor == c.cursor && c'.nesting == c.nesting
    ensures !isMacro && !isSnippet ==>
              c' == c && kept == ExpandNode(c.macros, env.substitute, node) && (ok <==> kept.Some?)
    ensures isMacro || isSnippet ==> kept == None && (ok ==> c.nesting == 0)
    ensures ok && isMacro ==> var m := ExpandNode(c.macros, env.substitute, node);
                              m.Some? && c' == c.(macros := c.macros[m.value.name := m.value.args])
    ensures ok && isSnippet && !isMacro ==>
              && node.args == []
              && c' == c.(snippets := c.snippets[node.name := if node.Block? then node.children else []])
    ensures ok <==> Kept(env, c.nesting, Declared(c), Heading(node, isSnippet, isMacro)).Some?
  {
    ok, c', kept := false, c, None;
    if isMacro {
      if c.nesting != 0 {
        return;
      }
      var m := ExpandNode(c.macros, env.substitute, node);
      if m.None? {
        return;
      }
      return true, c.(macros := c.macros[m.value.name := m.value.args]), None;
    }
    if isSnippet {
      if c.nesting != 0 || |node.args| != 0 {
        return;
      }
      return true, c.(snippets := c.snippets[node.name := if node.Block? then node.children else []]), None;
    }
    kept := ExpandNode(c.macros, env.substitute, node);
    ok := kept.Some?;
  }

  lemma NoBraceLast(ts: seq<Token>, at: int, nesting: int, want: Node, stop: int, env: Env, inner: Node)
    requires NodeThere(ts, at, nesting, want, stop) && inner.args == want.args && Named(env, inner).Some?
    ensures !EndsWith(Named(env, inner).value.node.args, "}")
  {
    assert Unfold(0);
  }

  /** A directive that lies ahead is taken, with what it declares, or is an error. */
  ghost predicate Taken(env: Env, c: Context, want: Node, last: int, ok: bool, c': Context, kept: Option<Node>) {
    var r := Took(env, c.nesting, Declared(c), want);
    && (ok <==> r.Some?)
    && (ok ==> c' == Context(last, c.nesting, r.value.snippets, r.value.macros)
               && r.value.nodes == if kept.Some? then [kept.value] else [])
  }

  /** One directive of a block; `stop` when its last argument was the brace that closes the block. */
  method ReadDirective(ts: seq<Token>, env: Env, c: Context, ghost plain: bool)
    returns (ok: bool, c': Context, kept: Option<Node>, stop: bool)
    requires AtToken(ts, c) && (plain ==> Plain(ts) && Starts(ts, c.cursor))
    ensures c.cursor <= c'.cursor < |ts|
    ensures ok ==> AtToken(ts, c')
    ensures ok && plain ==> kept.Some?
    ensures ok && plain && stop ==>
              c'.nesting == c.nesting - 1 && Passed(ts, c.cursor - 1, c'.cursor) == Flatten(kept.value) + CLOSING
    ensures ok && plain && !stop ==> Balanced(ts, c.nesting, c')
    ensures ok && plain && !stop && c'.nesting == c.nesting ==>
              Passed(ts, c.cursor - 1, c'.cursor) == Flatten(kept.value)
    ensures forall want, last :: NodeThere(ts, c.cursor, c.nesting, want, last) ==>
              !stop && Taken(env, c, want, last, ok, c', kept)
    decreases |ts| - c.cursor, 3
  {
    var node, isSnippet, isMacro;
    kept, stop := None, false;
    ok, c', node, isSnippet, isMacro := ReadNode(ts, env, c, plain);
    forall want, last | NodeThere(ts, c.cursor, c.nesting, want, last)
      ensures NodeRead(env, c, want, last, ok, c', Heading(node, isSnippet, isMacro))
      ensures ok ==> !EndsWith(node.args, "}")
    {
      if ok {
        NoBraceLast(ts, c.cursor, c.nesting, want, last, env, WithBlock(env, c.nesting, Declared(c), want).value);
      }
    }
    if !ok {
      return;
    }
    if |node.args| != 0 && node.args[|node.args| - 1] == "}" {
      if plain { StripBrace(ts, c.cursor - 1, c'.cursor, node, c'.macros, env.substitute); }
      c' := c'.(nesting := c'.nesting - 1);
      if c'.nesting < 0 {
        return false, c', kept, stop;
      }
      node := node.(args := node.args[..|node.args| - 1]);
      stop := true;
    } else if plain && c'.nesting == c.nesting {
      assert Flatten(node) + [] == Flatten(node);
      PlainPassed(ts, c.cursor - 1, c'.cursor, node, [], c'.macros, env.substitute);
    }
    ok, c', kept := Keep(env, c', node, isSnippet, isMacro);
  }

  /** Of the directives wanted, `n` are read, and the others lie behind the token at `at`. */
  ghost predicate NodesLeft(ts: seq<Token>, at: int, nesting: int, want: seq<Node>, n: nat, tail: seq<Piece>, stop: int)
  {
    forall k :: Unfold(k) ==>
      && n <= |want| && Laid(ts) && nesting >= 0 && AllLegible(want)
      && (if tail == [] then stop == |ts| - 1 else tail == CLOSING && nesting > 0)
      && Lie(ts, at, stop, FlattenAll(want[n..]) + tail)
  }

  /** The next directive is there, and what lies behind it. */
  ghost predicate NodeNext(ts: seq<Token>, at: int, nesting: int, want: seq<Node>, n: nat, tail: seq<Piece>, stop: int,
                           last: int)
    requires n < |want|
  {
    && NodeThere(ts, at + 1, nesting, want[n], last) && -1 <= at < last < |ts| && ts[last].text != "{"
    && NodesLeft(ts, last, nesting, want, n + 1, tail, stop)
  }

  /** The next move between directives meets a directive, the closing brace, or the end. */
  ghost predicate MeetsInBlock(ts: seq<Token>, at: int, nesting: int, want: seq<Node>, n: nat, tail: seq<Piece>,
                               stop: int) {
    && n <= |want| && (tail != [] ==> nesting > 0)
    && (n == |want| && tail == [] ==> at == stop == |ts| - 1)
    && (n == |want| && tail != [] ==>
          -1 <= at < |ts| - 1 && at + 1 == stop && ts[stop].text == "}" && (at >= 0 ==> D.LineFollows(ts, at)))
    && (n < |want| ==>
          && -1 <= at < |ts| - 1 && ts[at + 1].text != "}" && (at >= 0 && ts[at].text != "{" ==> D.LineFollows(ts, at))
          && exists last :: NodeNext(ts, at, nesting, want, n, tail, stop, last))
  }

  lemma NextInBlock(ts: seq<Token>, at: int, nesting: int, want: seq<Node>, n: nat, tail: seq<Piece>, stop: int)
    requires NodesLeft(ts, at, nesting, want, n, tail, stop)
    ensures MeetsInBlock(ts, at, nesting, want, n, tail, stop)
  {
    assert Unfold(0);
    if n == |want| {
      assert FlattenAll(want[n..]) + tail == tail;
      EndAhead(ts, at, stop, tail);
    } else {
      FirstInBlock(ts, at, nesting, want, n, tail, stop);
    }
  }

  lemma FirstInBlock(ts: seq<Token>, at: int, nesting: int, want: seq<Node>, n: nat, tail: seq<Piece>, stop: int)
    requires NodesLeft(ts, at, nesting, want, n, tail, stop) && n < |want|
    ensures -1 <= at < |ts| - 1 && ts[at + 1].text != "}" && (at >= 0 && ts[at].text != "{" ==> D.LineFollows(ts, at))
    ensures NodeNext(ts, at, nesting, want, n, tail, stop, at + |Flatten(want[n])|)
  {
    assert Unfold(0);
    var rest := want[n..];
    var node, last := rest[0], at + |Flatten(rest[0])|;
    assert want[n + 1..] == rest[1..];
    LegibleClean(node);
    StartAhead(ts, at, stop, rest, tail);
    NodeAhead(ts, at, stop, rest, tail, last);
    BehindNode(ts, at, stop, rest, tail, last);
  }

  lemma {:induction false} BehindNode(ts: seq<Token>, at: int, stop: int, rest: seq<Node>, tail: seq<Piece>, last: int)
    requires rest != [] && Lie(ts, at, stop, FlattenAll(rest) + tail) && last == at + |Flatten(rest[0])|
    ensures Lie(ts, last, stop, FlattenAll(rest[1..]) + tail)
  {
    NodesHead(rest, tail);
    SplitAhead(ts, at, stop, Flatten(rest[0]), FlattenAll(rest[1..]) + tail);
  }

  lemma BlockLeft(ts: seq<Token>, at: int, nesting: int, want: seq<Node>, stop: int)
    requires BlockAhead(ts, at, nesting, want, stop) && nesting >= -1
    ensures NodesLeft(ts, at, nesting + 1, want, 0, Tail(at), stop)
  {
    assert Unfold(0);
    assert want[0..] == want;
  }

  /** How one round of the loop over a block ends: with an error, with the tokens, with the closing brace, or not. */
  datatype Round = Failed | Ended | Closed | Went(stop: bool)

  /** What a round has to come to, when directives lie ahead. */
  ghost predicate AsWanted(ts: seq<Token>, env: Env, c: Context, want: seq<Node>, n: nat, tail: seq<Piece>, stop: int,
                           round: Round, c': Context, kept: Option<Node>) {
    && n <= |want|
    && (n == |want| && tail == [] ==> round == Ended && c'.cursor == stop)
    && (n == |want| && tail != [] ==> round == Closed && c'.cursor == stop)
    && (n < |want| ==>
          && (round == Failed || round == Went(false))
          && Taken(env, c, want[n], c'.cursor, round == Went(false), c', kept)
          && (round == Went(false) ==>
                0 <= c'.cursor < |ts| && ts[c'.cursor].text != "{"
                && NodesLeft(ts, c'.cursor, c.nesting, want, n + 1, tail, stop)))
  }

  /** From plain tokens a round passes exactly the directive it keeps, and the brace if that closes the block. */
  ghost predicate RoundPassed(ts: seq<Token>, c: Context, round: Round, c': Context, kept: Option<Node>) {
    forall k :: Unfold(k) ==>
      && (round.Went? ==> kept.Some? && -1 <= c.cursor <= c'.cursor <= |ts| - 1)
      && (round == Went(true) ==>
            c'.nesting == c.nesting - 1 && Passed(ts, c.cursor, c'.cursor) == Flatten(kept.value) + CLOSING)
      && (round == Went(false) ==> Balanced(ts, c.nesting, c'))
      && (round == Went(false) && c'.nesting == c.nesting ==> Passed(ts, c.cursor, c'.cursor) == Flatten(kept.value))
  }

  /** One round: on to the next line, or the first token of the block, and the directive there. */
  method ReadNext(ts: seq<Token>, env: Env, c: Context, requireNewLine: bool, ghost plain: bool)
    returns (round: Round, c': Context, kept: Option<Node>)
    requires -1 <= c.cursor <= |ts| - 1 && 0 <= c.nesting <= NESTING_LIMIT + 1 && (plain ==> Plain(ts))
    requires if requireNewLine then c.cursor >= 0 else c.cursor == -1 || ts[c.cursor].text == "{"
    ensures c.cursor <= c'.cursor <= |ts| - 1 && (round.Went? ==> c.cursor < c'.cursor)
    ensures !round.Failed? ==> 0 <= c'.nesting <= NESTING_LIMIT + 1
    ensures round.Ended? ==> c' == c && c.cursor == |ts| - 1
    ensures round.Closed? ==>
              c.cursor < |ts| - 1 && ts[c.cursor + 1].text == "}" && c' == Advanced(c).(nesting := c.nesting - 1)
    ensures plain ==> RoundPassed(ts, c, round, c', kept)
    ensures (requireNewLine ==> ts[c.cursor].text != "{") ==>
              forall want, n, tail, stop :: NodesLeft(ts, c.cursor, c.nesting, want, n, tail, stop) ==>
                AsWanted(ts, env, c, want, n, tail, stop, round, c', kept)
    decreases |ts| - c.cursor, 4
  {
    round, c', kept := Failed, c, None;
    forall want, n, tail, stop | NodesLeft(ts, c.cursor, c.nesting, want, n, tail, stop)
      ensures MeetsInBlock(ts, c.cursor, c.nesting, want, n, tail, stop)
    {
      NextInBlock(ts, c.cursor, c.nesting, want, n, tail, stop);
    }
    if requireNewLine {
      if !D.LineFollows(ts, c.cursor) {
        return if c.cursor < |ts| - 1 then Failed else Ended, c, None;
      }
    } else if !(c.cursor < |ts| - 1) {
      return Ended, c, None;
    }
    c' := Advanced(c');
    if Val(ts, c') == "}" {
      c' := c'.(nesting := c'.nesting - 1);
      if c'.nesting >= 0 {
        round := Closed;
      }
      return;
    }
    var ok, stop;
    ok, c', kept, stop := ReadDirective(ts, env, c', plain);
    if ok {
      round := Went(stop);
    }
  }

  /** The directives of a block that lies ahead are all taken, or one of them is an error. */
  ghost predicate AllTaken(env: Env, c: Context, want: seq<Node>, tail: seq<Piece>, stop: int, ok: bool, c': Context,
                           res: seq<Node>) {
    forall k :: Unfold(k) ==>
      var r := TookAll(env, c.nesting, Declared(c), want);
      && (ok <==> r.Some?)
      && (ok ==> c' == Context(stop, if tail == [] then c.nesting else c.nesting - 1, r.value.snippets, r.value.macros)
                 && res == r.value.nodes)
  }

  /** With the first `n` of them taken. */
  ghost predicate Reading(ts: seq<Token>, env: Env, c: Context, want: seq<Node>, n: nat, tail: seq<Piece>, stop: int,
                          c': Context, res: seq<Node>, requireNewLine: bool) {
    forall k :: Unfold(k) ==>
      && n <= |want| && NodesLeft(ts, c'.cursor, c.nesting, want, n, tail, stop) && c'.nesting == c.nesting
      && (requireNewLine ==> 0 <= c'.cursor < |ts| && ts[c'.cursor].text != "{")
      && TookAll(env, c.nesting, Declared(c), want[..n]) == Some(Sofar(res, c'.snippets, c'.macros))
  }

  lemma {:induction false} ReadingStarts(ts: seq<Token>, env: Env, c: Context, want: seq<Node>, tail: seq<Piece>,
                                         stop: int)
    requires NodesLeft(ts, c.cursor, c.nesting, want, 0, tail, stop)
    ensures Reading(ts, env, c, want, 0, tail, stop, c, [], false)
  {
    assert want[..0] == [];
  }

  lemma {:induction false} ReadingAt(ts: seq<Token>, env: Env, c: Context, want: seq<Node>, n: nat, tail: seq<Piece>,
                                     stop: int, c': Context, res: seq<Node>, requireNewLine: bool)
    requires Reading(ts, env, c, want, n, tail, stop, c', res, requireNewLine)
    ensures NodesLeft(ts, c'.cursor, c'.nesting, want, n, tail, stop) && c'.nesting == c.nesting
    ensures requireNewLine ==> 0 <= c'.cursor < |ts| && ts[c'.cursor].text != "{"
  {
    assert Unfold(0);
  }

  function Joined(res: seq<Node>, kept: Option<Node>): seq<Node> {
    if kept.Some? then res + [kept.value] else res
  }

  /** From plain tokens: the directives read so far are the tokens passed. */
  ghost predicate PlainSofar(ts: seq<Token>, c: Context, c': Context, res: seq<Node>) {
    forall k :: Unfold(k) ==>
      && -1 <= c.cursor <= c'.cursor <= |ts| - 1 && Balanced(ts, c.nesting, c')
      && (c'.nesting == c.nesting ==> Passed(ts, c.cursor, c'.cursor) == FlattenAll(res))
  }

  /** So are those of the whole block, up to its closing brace, or to the end of the tokens. */
  ghost predicate PlainBlock(ts: seq<Token>, c: Context, c': Context, res: seq<Node>) {
    forall k :: Unfold(k) ==>
      && -1 <= c.cursor <= c'.cursor <= |ts| - 1 && Balanced(ts, c.nesting - 1, c')
      && (c'.nesting == c.nesting - 1 ==> Passed(ts, c.cursor, c'.cursor) == FlattenAll(res) + CLOSING)
      && (c'.nesting == c.nesting ==> Passed(ts, c.cursor, c'.cursor) == FlattenAll(res))
  }

  lemma PlainBegins(ts: seq<Token>, c: Context)
    requires -1 <= c.cursor <= |ts| - 1
    ensures PlainSofar(ts, c, c, [])
  {
  }

  lemma {:induction false} PlainEnds(ts: seq<Token>, c: Context, c': Context, res: seq<Node>)
    requires PlainSofar(ts, c, c', res) && c'.cursor == |ts| - 1
    ensures PlainBlock(ts, c, c', res)
  {
    assert Unfold(0);
  }

  lemma {:induction false} PlainCloses(ts: seq<Token>, c: Context, before: Context, res: seq<Node>)
    requires PlainSofar(ts, c, before, res) && -1 <= before.cursor < |ts| - 1 && ts[before.cursor + 1].text == "}"
    ensures PlainBlock(ts, c, Advanced(before).(nesting := before.nesting - 1), res)
  {
    assert Unfold(0);
    BracePassed(ts, c.cursor, before.cursor, res);
  }

  lemma {:induction false} PlainStops(ts: seq<Token>, c: Context, before: Context, res: seq<Node>, c': Context,
                                      kept: Option<Node>)
    requires PlainSofar(ts, c, before, res) && before.cursor < c'.cursor
    requires RoundPassed(ts, before, Went(true), c', kept)
    ensures PlainBlock(ts, c, c', Joined(res, kept)) && kept.Some?
  {
    assert Unfold(0);
    if before.nesting == c.nesting { ClosePassed(ts, c.cursor, before.cursor, c'.cursor, res, kept.value); }
  }

  lemma {:induction false} PlainGoesOn(ts: seq<Token>, c: Context, before: Context, res: seq<Node>, c': Context,
                                       kept: Option<Node>)
    requires PlainSofar(ts, c, before, res) && before.cursor < c'.cursor
    requires RoundPassed(ts, before, Went(false), c', kept)
    ensures PlainSofar(ts, c, c', Joined(res, kept))
  {
    assert Unfold(0);
    if before.nesting == c.nesting && c'.nesting == c.nesting {
      NodePassed(ts, c.cursor, before.cursor, c'.cursor, res, kept.value);
    }
  }

  lemma RoundRead(ts: seq<Token>, env: Env, c: Context, want: seq<Node>, n: nat, tail: seq<Piece>, stop: int,
                  before: Context, res: seq<Node>, requireNewLine: bool, round: Round, c': Context, kept: Option<Node>)
    requires Reading(ts, env, c, want, n, tail, stop, before, res, requireNewLine)
    requires AsWanted(ts, env, before, want, n, tail, stop, round, c', kept)
    requires round.Ended? ==> c' == before
    requires round.Closed? ==> c' == Advanced(before).(nesting := before.nesting - 1)
    requires tail != [] ==> round != Ended
    ensures round.Went? ==>
              round == Went(false) && Reading(ts, env, c, want, n + 1, tail, stop, c', Joined(res, kept), true)
    ensures !round.Went? ==> AllTaken(env, c, want, tail, stop, !round.Failed?, c', res)
  {
    assert Unfold(0);
    var sofar := Sofar(res, before.snippets, before.macros);
    if n == |want| {
      assert want[..n] == want;
    } else {
      TookMore(env, c.nesting, Declared(c), want, n);
      TookAfter(env, c.nesting, sofar, want[n]);
      assert sofar.(nodes := []) == Declared(before);
      if round.Failed? {
        TookFails(env, c.nesting, Declared(c), want, n + 1);
      } else {
        assert res + [] == res;
      }
    }
  }

  /** The loop over the directives of a block, up to its closing brace or the end of the tokens. */
  method ReadBlock(ts: seq<Token>, env: Env, c: Context, ghost plain: bool)
    returns (ok: bool, c': Context, res: seq<Node>)
    requires -1 <= c.cursor <= |ts| - 1 && 0 <= c.nesting <= NESTING_LIMIT + 1 && (plain ==> Plain(ts))
    requires c.cursor == -1 || ts[c.cursor].text == "{"
    ensures c.cursor <= c'.cursor <= |ts| - 1
    ensures ok ==> 0 <= c'.nesting <= NESTING_LIMIT + 1 && (plain ==> PlainBlock(ts, c, c', res))
    ensures forall want, tail, stop :: NodesLeft(ts, c.cursor, c.nesting, want, 0, tail, stop) ==>
              AllTaken(env, c, want, tail, stop, ok, c', res)
    decreases |ts| - c.cursor, 5
  {
    ok, c', res := false, c, [];
    var requireNewLine := false;
    ghost var n := 0;
    forall want, tail, stop | NodesLeft(ts, c.cursor, c.nesting, want, 0, tail, stop)
      ensures Reading(ts, env, c, want, 0, tail, stop, c, [], false)
    {
      ReadingStarts(ts, env, c, want, tail, stop);
    }
    PlainBegins(ts, c);
    while true
      invariant c.cursor <= c'.cursor <= |ts| - 1 && 0 <= c'.nesting <= NESTING_LIMIT + 1
      invariant if requireNewLine then c'.cursor >= 0 else c'.cursor == c.cursor
      invariant plain ==> PlainSofar(ts, c, c', res)
      invariant forall want, tail, stop :: NodesLeft(ts, c.cursor, c.nesting, want, 0, tail, stop) ==>
                  Reading(ts, env, c, want, n, tail, stop, c', res, requireNewLine)
      decreases |ts| - c'.cursor
    {
      ghost var before := c';
      var round, kept;
      round, c', kept := ReadNext(ts, env, c', requireNewLine, plain);
      forall want, tail, stop | NodesLeft(ts, c.cursor, c.nesting, want, 0, tail, stop)
        ensures round.Went? ==>
                  round == Went(false) && Reading(ts, env, c, want, n + 1, tail, stop, c', Joined(res, kept), true)
        ensures !round.Went? ==> AllTaken(env, c, want, tail, stop, !round.Failed?, c', res)
      {
        ReadingAt(ts, env, c, want, n, tail, stop, before, res, requireNewLine);
        RoundRead(ts, env, c, want, n, tail, stop, before, res, requireNewLine, round, c', kept);
      }
      n := n + 1;
      match round
      case Failed => return false, c', res;
      case Ended =>
        if plain { PlainEnds(ts, c, c', res); }
        return true, c', res;
      case Closed =>
        if plain { PlainCloses(ts, c, before, res); }
        return true, c', res;
      case Went(stop) =>
        requireNewLine := true;
        if plain && stop {
          PlainStops(ts, c, before, res, c', kept);
        } else if plain {
          PlainGoesOn(ts, c, before, res, c', kept);
        }
        res := Joined(res, kept);
        if stop && kept.Some? {
          return true, c', res;
        }
    }
  }

  /**
   The directives of the block whose opening brace is at the cursor, within the nesting limit. From
   plain tokens nothing is lost, added or moved; a block of readable directives is read as these.
   */
  method ReadNodes(ts: seq<Token>, env: Env, c: Context, ghost plain: bool)
    returns (ok: bool, c': Context, res: seq<Node>)
    requires -1 <= c.cursor <= |ts| - 1 && -1 <= c.nesting <= NESTING_LIMIT + 1 && (plain ==> Plain(ts))
    requires c.cursor == -1 || ts[c.cursor].text == "{"
    ensures c.cursor <= c'.cursor <= |ts| - 1
    ensures ok ==> 0 <= c'.nesting <= NESTING_LIMIT + 1 && (plain ==> Balanced(ts, c.nesting, c'))
    ensures ok && plain && c'.nesting == c.nesting ==> Passed(ts, c.cursor, c'.cursor) == FlattenAll(res) + CLOSING
    ensures ok && plain && c'.nesting == c.nesting + 1 ==> Passed(ts, c.cursor, c'.cursor) == FlattenAll(res)
    ensures forall want, stop :: BlockAhead(ts, c.cursor, c.nesting, want, stop) ==>
              BlockRead(env, c, want, stop, ok, c', res)
    decreases |ts| - c.cursor, 6
  {
    forall want, stop | BlockAhead(ts, c.cursor, c.nesting, want, stop)
      ensures NodesLeft(ts, c.cursor, c.nesting + 1, want, 0, Tail(c.cursor), stop)
    {
      BlockLeft(ts, c.cursor, c.nesting, want, stop);
    }
    if c.nesting > NESTING_LIMIT {
      return false, c, [];
    }
    ok, c', res := ReadBlock(ts, env, c.(nesting := c.nesting + 1), plain);
    assert Unfold(0);
  }

  // ---- A whole file ----

  /** No directive is called import. */
  predicate NoImport(ps: seq<Piece>) {
    Piece(IMPORT, true) !in ps
  }

  lemma {:induction false} NoImportNodes(nodes: seq<Node>)
    requires NoImport(FlattenAll(nodes))
    ensures AllFree(nodes)
    decreases nodes, 0
  {
    if nodes == [] {
    } else {
      NoImportNodes(nodes[..|nodes| - 1]);
      NoImportNode(nodes[|nodes| - 1]);
      forall i | 0 <= i < |nodes| ensures ImportFree(nodes[i]) {
        if i < |nodes| - 1 { assert nodes[..|nodes| - 1][i] == nodes[i]; }
      }
    }
  }

  lemma {:induction false} NoImportNode(node: Node)
    requires NoImport(Flatten(node))
    ensures ImportFree(node)
    decreases node, 1
  {
    assert Flatten(node)[0] == Piece(node.name, true);
    if node.Block? {
      NoImportNodes(node.children);
    }
  }

  /** A tree that is read back as itself: plain texts, no imports, and names and depth that are accepted. */
  ghost predicate Writable(env: Env, nodes: seq<Node>) {
    AllReadable(env, nodes, NESTING_LIMIT + 1) && SafePieces(FlattenAll(nodes)) && NoImport(FlattenAll(nodes))
  }

  lemma {:induction false} WritableMeans(env: Env, nodes: seq<Node>, depth: nat)
    requires Writable(env, nodes)
    ensures AllClean(nodes) && FileMeaning(env, nodes, depth) == Some(nodes)
  {
    AllReadableAre(env, nodes, NESTING_LIMIT + 1);
    AllReadableTaken(env, 0, NOTHING, nodes);
    assert [] + nodes == nodes;
    NoImportNodes(nodes);
    FreeStays(map[], nodes, Budget(depth));
  }

  /** A table of snippets and directives, with imports, that can be written down. */
  ghost predicate TableWritable(env: Env, names: seq<string>, table: Snippets, nodes: seq<Node>) {
    GoodTable(env, names, table, nodes) && SafePieces(FlattenAll(Declarations(names, table) + nodes))
  }

  lemma {:induction false} TableMeans(env: Env, names: seq<string>, table: Snippets, nodes: seq<Node>, depth: nat)
    requires TableWritable(env, names, table, nodes)
    ensures var all := Declarations(names, table) + nodes;
            AllClean(all) && FileMeaning(env, all, depth) == InlineList(table, nodes, Budget(depth))
  {
    TableMeaning(env, names, table, nodes, depth);
    var decls := Declarations(names, table);
    forall i | 0 <= i < |decls + nodes| ensures Clean((decls + nodes)[i]) {
      if i < |decls| {
        AllReadableAre(env, table[names[i]], NESTING_LIMIT);
        NameClean(names[i], table[names[i]]);
      } else {
        ReadableIs(env, nodes[i - |decls|], NESTING_LIMIT);
      }
    }
  }

  lemma NameClean(name: string, body: seq<Node>)
    requires AllClean(body)
    ensures Clean(Block("(" + name + ")", [], body))
  {
    assert |"(" + name + ")"| >= 2;
  }

  lemma {:induction false} BlockWritten(nodes: seq<Node>, ts: seq<Token>)
    requires AllClean(nodes) && SafePieces(FlattenAll(nodes)) && ts == Tokens(WrittenTree(nodes))
    ensures BlockAhead(ts, -1, -1, nodes, |ts| - 1)
  {
    SafeAllLegible(nodes);
    TreeWritten(nodes);
    assert FlattenAll(nodes) + [] == FlattenAll(nodes);
    PassedLie(ts, -1, |ts| - 1);
  }

  /**
   Lexing, parsing and import expansion of one file. No import is left; a plain file without imports is
   read exactly as it is laid out: every token is there, in order, and directives start where lines and
   blocks do; and every tree of safe texts without braces, written down, is read as what it means. So a
   tree of plain directives is read back as itself, and one with snippets in front with these imported.
   */
  method ReadTree(input: Text, env: Env, depth: nat) returns (r: Option<seq<Node>>)
    ensures r.Some? ==> AllFree(r.value)
    ensures var ts := Tokens(input);
            r.Some? && Plain(ts) && NoImport(Pieces(ts, 0, |ts|)) ==> FlattenAll(r.value) == Pieces(ts, 0, |ts|)
    ensures forall nodes :: AllClean(nodes) && SafePieces(FlattenAll(nodes)) && input == WrittenTree(nodes) ==>
              r == FileMeaning(env, nodes, depth)
    ensures forall nodes :: Writable(env, nodes) && input == WrittenTree(nodes) ==> r == Some(nodes)
    ensures forall names, table, nodes ::
              TableWritable(env, names, table, nodes) && input == WrittenTree(Declarations(names, table) + nodes) ==>
                r == InlineList(table, nodes, Budget(depth))
  {
    r := ReadFile(input, env, depth);
    forall nodes | Writable(env, nodes) && input == WrittenTree(nodes) ensures r == Some(nodes) {
      WritableMeans(env, nodes, depth);
    }
    forall names, table, nodes |
      TableWritable(env, names, table, nodes) && input == WrittenTree(Declarations(names, table) + nodes)
      ensures r == InlineList(table, nodes, Budget(depth))
    {
      TableMeans(env, names, table, nodes, depth);
    }
  }

  method ReadFile(input: Text, env: Env, depth: nat) returns (r: Option<seq<Node>>)
    ensures r.Some? ==> AllFree(r.value)
    ensures var ts := Tokens(input);
            r.Some? && Plain(ts) && NoImport(Pieces(ts, 0, |ts|)) ==> FlattenAll(r.value) == Pieces(ts, 0, |ts|)
    ensures forall nodes :: AllClean(nodes) && SafePieces(FlattenAll(nodes)) && input == WrittenTree(nodes) ==>
              r == FileMeaning(env, nodes, depth)
  {
    var ts, _ := AllTokens(input);
    forall nodes | AllClean(nodes) && SafePieces(FlattenAll(nodes)) && input == WrittenTree(nodes)
      ensures BlockAhead(ts, -1, -1, nodes, |ts| - 1)
    {
      BlockWritten(nodes, ts);
    }
    var start := Context(-1, -1, map[], map[]);
    var ok, c, children := ReadNodes(ts, env, start, Plain(ts));
    forall nodes | AllClean(nodes) && SafePieces(FlattenAll(nodes)) && input == WrittenTree(nodes)
      ensures BlockRead(env, start, nodes, |ts| - 1, ok, c, children)
    {
      assert BlockAhead(ts, -1, -1, nodes, |ts| - 1);
    }
    if !ok || c.nesting > 0 {
      return None;
    }
    if Plain(ts) {
      assert FlattenAll(children) == Pieces(ts, 0, |ts|);
      if NoImport(Pieces(ts, 0, |ts|)) {
        NoImportNodes(children);
      }
    }
    var root := Block("", [], children);
    if AllFree(children) { FreeStays(c.snippets, children, Budget(depth)); }
    var tree := ExpandImports(c.snippets, root, depth);
    if tree.None? {
      return None;
    }
    InlinedNodeIsFree(c.snippets, root, Budget(depth));
    r := Some(tree.value.children);
  }
}
