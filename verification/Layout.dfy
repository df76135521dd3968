/**
 How a tree of directives is laid out in tokens: what each directive passes, that a layout is that of
 one tree only, and what a tree looks like written down.
 */
module Layout {
  import opened Uids
  import opened L = Lexer
  import D = Dispenser
  import opened I = Imports

  // ---- Texts and layout ----

  /** A text of the input, and whether it starts a directive. */
  datatype Piece = Piece(text: Text, starts: bool)

  /** A directive starts with the file, with a block and with a line; a closing brace starts none. */
  predicate Starts(ts: seq<Token>, k: nat)
    requires k < |ts|
  {
    ts[k].text != "}" && (k == 0 || ts[k - 1].text == "{" || D.LineFollows(ts, k - 1))
  }

  function Pieces(ts: seq<Token>, i: nat, j: nat): seq<Piece>
    requires i <= j <= |ts|
  {
    if i == j then [] else Pieces(ts, i, j - 1) + [Piece(ts[j - 1].text, Starts(ts, j - 1))]
  }

  function ArgPieces(args: seq<string>): seq<Piece> {
    if args == [] then [] else ArgPieces(args[..|args| - 1]) + [Piece(args[|args| - 1], false)]
  }

  const OPENING := [Piece("{", false)]
  const CLOSING := [Piece("}", false)]

  /** A directive, and a list of them, as written. */
  function Flatten(node: Node): seq<Piece> {
    match node
    case Leaf(name, args) => [Piece(name, true)] + ArgPieces(args)
    case Block(name, args, children) =>
      [Piece(name, true)] + ArgPieces(args) + (OPENING + FlattenAll(children) + CLOSING)
  }

  function FlattenAll(nodes: seq<Node>): seq<Piece> {
    if nodes == [] then [] else FlattenAll(nodes[..|nodes| - 1]) + Flatten(nodes[|nodes| - 1])
  }

  lemma {:induction false} FlattenMore(nodes: seq<Node>, node: Node)
    ensures FlattenAll(nodes + [node]) == FlattenAll(nodes) + Flatten(node)
  {
    assert (nodes + [node])[..|nodes|] == nodes;
  }

  lemma {:induction false} ArgMore(args: seq<string>, arg: string)
    ensures ArgPieces(args + [arg]) == ArgPieces(args) + [Piece(arg, false)]
    ensures PlainArgList(args) && PlainText(arg) ==> PlainArgList(args + [arg])
  {
    assert (args + [arg])[..|args|] == args;
  }

  lemma {:induction false} ArgConcat(a: seq<string>, b: seq<string>)
    ensures ArgPieces(a + b) == ArgPieces(a) + ArgPieces(b) && |ArgPieces(a)| == |a|
    decreases |b|, |a|
  {
    if b == [] {
      assert a + b == a && ArgPieces(a) + [] == ArgPieces(a);
      if a != [] { ArgConcat(a[..|a| - 1], []); }
    } else {
      var front, last := b[..|b| - 1], b[|b| - 1];
      ArgConcat(a, front);
      assert a + b == (a + front) + [last];
      ArgMore(a + front, last);
      assert ArgPieces(a) + ArgPieces(front) + [Piece(last, false)]
             == ArgPieces(a) + (ArgPieces(front) + [Piece(last, false)]);
    }
  }

  lemma {:induction false} FlattenConcat(a: seq<Node>, b: seq<Node>)
    ensures FlattenAll(a + b) == FlattenAll(a) + FlattenAll(b)
    decreases |b|
  {
    if b == [] {
      assert a + b == a && FlattenAll(a) + [] == FlattenAll(a);
    } else {
      var front, last := b[..|b| - 1], b[|b| - 1];
      FlattenConcat(a, front);
      assert a + b == (a + front) + [last];
      FlattenMore(a + front, last);
      assert FlattenAll(a) + FlattenAll(front) + Flatten(last) == FlattenAll(a) + (FlattenAll(front) + Flatten(last));
    }
  }

  lemma {:induction false} JoinPieces(ts: seq<Token>, i: nat, j: nat, k: nat)
    requires i <= j <= k <= |ts|
    ensures Pieces(ts, i, k) == Pieces(ts, i, j) + Pieces(ts, j, k)
    decreases k
  {
    if j == k {
    } else {
      JoinPieces(ts, i, j, k - 1);
    }
  }

  function BlockPieces(children: Option<seq<Node>>): seq<Piece> {
    match children
    case None => []
    case Some(nodes) => OPENING + FlattenAll(nodes) + CLOSING
  }

  function MakeNode(name: string, args: seq<string>, children: Option<seq<Node>>): Node {
    if children.Some? then Block(name, args, children.value) else Leaf(name, args)
  }

  /** What is between two positions of the cursor: the tokens after `from`, up to and with the one at `to`. */
  function Passed(ts: seq<Token>, from: int, to: int): seq<Piece>
    requires -1 <= from <= to <= |ts| - 1
  {
    Pieces(ts, from + 1, to + 1)
  }

  lemma JoinPassed(ts: seq<Token>, from: int, at: int, to: int)
    requires -1 <= from <= at <= to <= |ts| - 1
    ensures Passed(ts, from, to) == Passed(ts, from, at) + Passed(ts, at, to)
  {
    JoinPieces(ts, from + 1, at + 1, to + 1);
  }

  /** A token on the same line, behind one that opens no block, is an argument or opens a block. */
  lemma {:induction false} ArgPassed(ts: seq<Token>, from: int, at: int, args: seq<string>)
    requires -1 <= from <= at < |ts| - 1 && 0 <= at && Passed(ts, from, at) == ArgPieces(args)
    requires ts[at].text != "{" && D.ArgFollows(ts, at)
    ensures Passed(ts, from, at + 1) == ArgPieces(args) + [Piece(ts[at + 1].text, false)]
  {
    assert !D.LineFollows(ts, at);
  }

  lemma {:induction false} BracePassed(ts: seq<Token>, from: int, at: int, res: seq<Node>)
    requires -1 <= from <= at < |ts| - 1 && Passed(ts, from, at) == FlattenAll(res) && ts[at + 1].text == "}"
    ensures Passed(ts, from, at + 1) == FlattenAll(res) + CLOSING
  {
  }

  lemma {:induction false} BlockPassed(ts: seq<Token>, from: int, at: int, to: int, args: seq<string>, nodes: seq<Node>)
    requires -1 <= from <= at <= to <= |ts| - 1
    requires Passed(ts, from, at) == ArgPieces(args) + OPENING && Passed(ts, at, to) == FlattenAll(nodes) + CLOSING
    ensures Passed(ts, from, to) == ArgPieces(args) + BlockPieces(Some(nodes))
  {
    JoinPassed(ts, from, at, to);
    Associate(ArgPieces(args), OPENING, FlattenAll(nodes), CLOSING);
  }

  lemma Associate(a: seq<Piece>, b: seq<Piece>, c: seq<Piece>, d: seq<Piece>)
    ensures a + b + (c + d) == a + (b + c + d)
  {
  }

  lemma {:induction false} OnePiece(ts: seq<Token>, at: nat)
    requires at < |ts|
    ensures Pieces(ts, at, at + 1) == [Piece(ts[at].text, Starts(ts, at))]
  {
    assert Pieces(ts, at, at) == [];
  }

  lemma {:induction false} FlattenParts(name: string, args: seq<string>, children: Option<seq<Node>>)
    ensures Flatten(MakeNode(name, args, children)) == [Piece(name, true)] + (ArgPieces(args) + BlockPieces(children))
  {
    if children.None? {
      assert ArgPieces(args) + [] == ArgPieces(args);
    } else {
      assert [Piece(name, true)] + ArgPieces(args) + BlockPieces(children)
             == [Piece(name, true)] + (ArgPieces(args) + BlockPieces(children));
    }
  }

  lemma {:induction false} HeadPassed(ts: seq<Token>, at: int, to: int, args: seq<string>, children: Option<seq<Node>>)
    requires 0 <= at <= to <= |ts| - 1 && Passed(ts, at, to) == ArgPieces(args) + BlockPieces(children)
    requires Starts(ts, at)
    ensures Passed(ts, at - 1, to) == Flatten(MakeNode(ts[at].text, args, children))
  {
    JoinPassed(ts, at - 1, at, to);
    OnePiece(ts, at);
    FlattenParts(ts[at].text, args, children);
  }

  lemma {:induction false} NodePassed(ts: seq<Token>, from: int, at: int, to: int, res: seq<Node>, node: Node)
    requires -1 <= from <= at <= to <= |ts| - 1
    requires Passed(ts, from, at) == FlattenAll(res) && Passed(ts, at, to) == Flatten(node)
    ensures Passed(ts, from, to) == FlattenAll(res + [node])
  {
    JoinPassed(ts, from, at, to);
    FlattenMore(res, node);
  }

  lemma {:induction false} ClosePassed(ts: seq<Token>, from: int, at: int, to: int, res: seq<Node>, last: Node)
    requires -1 <= from <= at <= to <= |ts| - 1
    requires Passed(ts, from, at) == FlattenAll(res) && Passed(ts, at, to) == Flatten(last) + CLOSING
    ensures Passed(ts, from, to) == FlattenAll(res + [last]) + CLOSING
  {
    JoinPassed(ts, from, at, to);
    FlattenMore(res, last);
    assert FlattenAll(res) + (Flatten(last) + CLOSING) == FlattenAll(res) + Flatten(last) + CLOSING;
  }

  // ---- Plain texts ----

  predicate HasPrefix(s: string, p: string) {
    p <= s
  }

  predicate HasSuffix(s: string, p: string) {
    |p| <= |s| && s[|s| - |p|..] == p
  }

  predicate Contains(s: string, p: string) {
    HasPrefix(s, p) || (s != [] && Contains(s[1..], p))
  }

  /** No macro reference, no snippet name, no line continuation. */
  predicate PlainText(t: Text) {
    !Contains(t, "$(") && !HasPrefix(t, "(") && t != "\\"
  }

  /** Plain texts, and no closing brace right before an opening one. */
  predicate Plain(ts: seq<Token>) {
    ts == [] ||
    var n := |ts| - 1;
    PlainText(ts[n].text) && (n == 0 || ts[n - 1].text != "}" || ts[n].text != "{") && Plain(ts[..n])
  }

  lemma {:induction false} PlainAt(ts: seq<Token>, i: nat)
    requires Plain(ts) && i < |ts|
    ensures PlainText(ts[i].text) && (i == 0 || ts[i - 1].text != "}" || ts[i].text != "{")
    decreases |ts|
  {
    if i == |ts| - 1 {
    } else {
      PlainAt(ts[..|ts| - 1], i);
    }
  }

  predicate PlainPieces(ps: seq<Piece>) {
    forall i :: 0 <= i < |ps| ==> PlainText(ps[i].text)
  }

  lemma {:induction false} PiecesPlain(ts: seq<Token>, i: nat, j: nat)
    requires i <= j <= |ts| && Plain(ts)
    ensures PlainPieces(Pieces(ts, i, j))
    decreases j
  {
    if i == j {
    } else {
      PiecesPlain(ts, i, j - 1);
      PlainAt(ts, j - 1);
    }
  }

  predicate PlainArgList(args: seq<string>) {
    forall i :: 0 <= i < |args| ==> PlainText(args[i])
  }

  lemma PlainParts(a: seq<Piece>, b: seq<Piece>)
    requires PlainPieces(a + b)
    ensures PlainPieces(a) && PlainPieces(b)
  {
    forall i | 0 <= i < |a| ensures PlainText(a[i].text) { assert (a + b)[i] == a[i]; }
    forall i | 0 <= i < |b| ensures PlainText(b[i].text) { assert (a + b)[|a| + i] == b[i]; }
  }

  // ---- One layout, one tree ----

  predicate IsBrace(t: Text) {
    t == "{" || t == "}"
  }

  /** No name or argument is a brace. */
  predicate Clean(node: Node) {
    && !IsBrace(node.name) && (forall i :: 0 <= i < |node.args| ==> !IsBrace(node.args[i]))
    && (node.Block? ==> forall i :: 0 <= i < |node.children| ==> Clean(node.children[i]))
  }

  predicate AllClean(nodes: seq<Node>) {
    forall i :: 0 <= i < |nodes| ==> Clean(nodes[i])
  }

  /** Nor does a line end with a backslash. */
  predicate Legible(node: Node) {
    && !IsBrace(node.name) && (forall i :: 0 <= i < |node.args| ==> !IsBrace(node.args[i]))
    && !EndsWith(node.args, "\\")
    && (node.Block? ==> forall i :: 0 <= i < |node.children| ==> Legible(node.children[i]))
  }

  predicate AllLegible(nodes: seq<Node>) {
    forall i :: 0 <= i < |nodes| ==> Legible(nodes[i])
  }

  predicate EndsWith(args: seq<string>, t: string) {
    args != [] && args[|args| - 1] == t
  }

  lemma {:induction false} LegibleClean(node: Node)
    requires Legible(node)
    ensures Clean(node)
    decreases node
  {
    if node.Block? {
      forall i | 0 <= i < |node.children| ensures Clean(node.children[i]) { LegibleClean(node.children[i]); }
    }
  }

  lemma {:induction false} AllLegibleClean(nodes: seq<Node>)
    requires AllLegible(nodes)
    ensures AllClean(nodes)
  {
    forall i | 0 <= i < |nodes| ensures Clean(nodes[i]) { LegibleClean(nodes[i]); }
  }

  /** A backslash alone cannot be written in quotes, so no line of a written tree ends with one. */
  lemma {:induction false} SafeLegible(node: Node)
    requires Clean(node) && SafePieces(Flatten(node))
    ensures Legible(node)
    decreases node, 1
  {
    FlattenParts(node.name, node.args, ChildrenOf(node));
    var name, args, block := [Piece(node.name, true)], ArgPieces(node.args), BlockPieces(ChildrenOf(node));
    assert MakeNode(node.name, node.args, ChildrenOf(node)) == node;
    SafeParts(name, args + block);
    SafeParts(args, block);
    if node.args != [] {
      LastArg(node.args);
      assert Safe(args[|args| - 1].text);
      assert !Safe("\\");
    }
    if node.Block? {
      SafeParts(OPENING + FlattenAll(node.children), CLOSING);
      SafeParts(OPENING, FlattenAll(node.children));
      SafeAllLegible(node.children);
    }
  }

  lemma {:induction false} SafeAllLegible(nodes: seq<Node>)
    requires AllClean(nodes) && SafePieces(FlattenAll(nodes))
    ensures AllLegible(nodes)
    decreases nodes, 0
  {
    if nodes == [] {
    } else {
      var front, last := nodes[..|nodes| - 1], nodes[|nodes| - 1];
      SafeParts(FlattenAll(front), Flatten(last));
      SafeAllLegible(front);
      SafeLegible(last);
      forall i | 0 <= i < |nodes| ensures Legible(nodes[i]) {
        if i < |front| { assert front[i] == nodes[i]; }
      }
    }
  }

  lemma SafeParts(a: seq<Piece>, b: seq<Piece>)
    requires SafePieces(a + b)
    ensures SafePieces(a) && SafePieces(b)
  {
    forall i | 0 <= i < |a| ensures Safe(a[i].text) { assert (a + b)[i] == a[i]; }
    forall i | 0 <= i < |b| ensures Safe(b[i].text) { assert (a + b)[|a| + i] == b[i]; }
  }

  /** Where arguments, and where directives, cannot go on. */
  predicate EndsArgs(x: seq<Piece>) {
    x == [] || x[0].starts || IsBrace(x[0].text)
  }

  predicate EndsNodes(x: seq<Piece>) {
    x == [] || x[0] == Piece("}", false)
  }

  lemma {:induction false} ArgHead(arg: string, rest: seq<string>)
    ensures ArgPieces([arg] + rest) == [Piece(arg, false)] + ArgPieces(rest)
    decreases |rest|
  {
    if rest == [] {
      assert [arg] + rest == [] + [arg];
      ArgMore([], arg);
    } else {
      var front, last := rest[..|rest| - 1], rest[|rest| - 1];
      ArgHead(arg, front);
      assert [arg] + rest == ([arg] + front) + [last];
      ArgMore([arg] + front, last);
    }
  }

  lemma {:induction false} ArgsStart(args: seq<string>, x: seq<Piece>)
    ensures args == [] ==> ArgPieces(args) + x == x
    ensures args != [] ==> ArgPieces(args) + x == [Piece(args[0], false)] + (ArgPieces(args[1..]) + x)
  {
    if args == [] {
      assert [] + x == x;
    } else {
      assert args == [args[0]] + args[1..];
      ArgHead(args[0], args[1..]);
      assert [Piece(args[0], false)] + ArgPieces(args[1..]) + x == [Piece(args[0], false)] + (ArgPieces(args[1..]) + x);
    }
  }

  lemma {:induction false} ArgsUnique(a: seq<string>, b: seq<string>, x: seq<Piece>, y: seq<Piece>)
    requires EndsArgs(x) && EndsArgs(y) && ArgPieces(a) + x == ArgPieces(b) + y
    requires (forall i :: 0 <= i < |a| ==> !IsBrace(a[i])) && forall i :: 0 <= i < |b| ==> !IsBrace(b[i])
    ensures a == b && x == y
    decreases |a|
  {
    ArgsStart(a, x);
    ArgsStart(b, y);
    assert a == [] <==> b == [];
    if a == [] {
    } else {
      Tails(Piece(a[0], false), ArgPieces(a[1..]) + x, Piece(b[0], false), ArgPieces(b[1..]) + y);
      ArgsUnique(a[1..], b[1..], x, y);
      assert a == [a[0]] + a[1..] && b == [b[0]] + b[1..];
    }
  }

  lemma {:induction false} FlattenHead(node: Node, rest: seq<Node>)
    ensures FlattenAll([node] + rest) == Flatten(node) + FlattenAll(rest)
    decreases |rest|
  {
    if rest == [] {
      assert [node] + rest == [] + [node];
      FlattenMore([], node);
      assert Flatten(node) + [] == Flatten(node) == [] + Flatten(node);
    } else {
      var front, last := rest[..|rest| - 1], rest[|rest| - 1];
      FlattenHead(node, front);
      assert [node] + rest == ([node] + front) + [last];
      FlattenMore([node] + front, last);
      assert Flatten(node) + FlattenAll(front) + Flatten(last) == Flatten(node) + (FlattenAll(front) + Flatten(last));
    }
  }

  lemma {:induction false} NodesStart(nodes: seq<Node>, x: seq<Piece>)
    requires EndsNodes(x)
    ensures nodes != [] ==> FlattenAll(nodes) + x != [] && (FlattenAll(nodes) + x)[0].starts
    ensures nodes == [] ==> FlattenAll(nodes) + x == x
    ensures EndsArgs(FlattenAll(nodes) + x)
    ensures FlattenAll(nodes) + x == [] || (FlattenAll(nodes) + x)[0] != Piece("{", false)
  {
    if nodes != [] {
      assert nodes == [nodes[0]] + nodes[1..];
      FlattenHead(nodes[0], nodes[1..]);
      assert Flatten(nodes[0])[0].starts;
    } else {
      assert [] + x == x;
    }
  }

  function ChildrenOf(node: Node): Option<seq<Node>> {
    if node.Block? then Some(node.children) else None
  }

  lemma {:induction false} NodeParts(node: Node, x: seq<Piece>)
    ensures Flatten(node) + x == [Piece(node.name, true)] + (ArgPieces(node.args) + (BlockPieces(ChildrenOf(node)) + x))
  {
    var name, args, block := [Piece(node.name, true)], ArgPieces(node.args), BlockPieces(ChildrenOf(node));
    FlattenParts(node.name, node.args, ChildrenOf(node));
    assert MakeNode(node.name, node.args, ChildrenOf(node)) == node;
    assert name + (args + block) + x == name + (args + (block + x));
  }

  lemma BlockParts(children: Option<seq<Node>>, x: seq<Piece>)
    ensures children.None? ==> BlockPieces(children) + x == x
    ensures children.Some? ==> BlockPieces(children) + x == OPENING + (FlattenAll(children.value) + (CLOSING + x))
  {
    if children.None? {
      assert [] + x == x;
    } else {
      assert OPENING + FlattenAll(children.value) + CLOSING + x
             == OPENING + (FlattenAll(children.value) + (CLOSING + x));
    }
  }

  lemma {:induction false} NodeUnique(a: Node, b: Node, x: seq<Piece>, y: seq<Piece>)
    requires Clean(a) && Clean(b) && Flatten(a) + x == Flatten(b) + y
    requires EndsArgs(x) && (x == [] || x[0] != Piece("{", false))
    requires EndsArgs(y) && (y == [] || y[0] != Piece("{", false))
    ensures a == b && x == y
    decreases a, 1
  {
    NodeParts(a, x);
    NodeParts(b, y);
    var p, q := BlockPieces(ChildrenOf(a)) + x, BlockPieces(ChildrenOf(b)) + y;
    Tails(Piece(a.name, true), ArgPieces(a.args) + p, Piece(b.name, true), ArgPieces(b.args) + q);
    BlockParts(ChildrenOf(a), x);
    BlockParts(ChildrenOf(b), y);
    assert a.Block? ==> p[0] == Piece("{", false);
    assert b.Block? ==> q[0] == Piece("{", false);
    ArgsUnique(a.args, b.args, p, q);
    if a.Block? {
      Tails(Piece("{", false), FlattenAll(a.children) + (CLOSING + x),
            Piece("{", false), FlattenAll(b.children) + (CLOSING + y));
      NodesUnique(a.children, b.children, CLOSING + x, CLOSING + y);
      Tails(Piece("}", false), x, Piece("}", false), y);
    }
  }

  lemma Tails(c: Piece, p: seq<Piece>, d: Piece, q: seq<Piece>)
    requires [c] + p == [d] + q
    ensures c == d && p == q
  {
    assert ([c] + p)[0] == c && ([d] + q)[0] == d;
    assert ([c] + p)[1..] == p && ([d] + q)[1..] == q;
  }

  lemma {:induction false} NodesHead(nodes: seq<Node>, x: seq<Piece>)
    requires nodes != []
    ensures FlattenAll(nodes) + x == Flatten(nodes[0]) + (FlattenAll(nodes[1..]) + x)
  {
    assert nodes == [nodes[0]] + nodes[1..];
    var first, rest := Flatten(nodes[0]), FlattenAll(nodes[1..]);
    FlattenHead(nodes[0], nodes[1..]);
    assert FlattenAll(nodes) == first + rest;
    Regroup(first, rest, x);
  }

  lemma Regroup(a: seq<Piece>, b: seq<Piece>, c: seq<Piece>)
    ensures a + b + c == a + (b + c)
  {
  }

  lemma {:induction false} NodesUnique(a: seq<Node>, b: seq<Node>, x: seq<Piece>, y: seq<Piece>)
    requires AllClean(a) && AllClean(b) && EndsNodes(x) && EndsNodes(y) && FlattenAll(a) + x == FlattenAll(b) + y
    ensures a == b && x == y
    decreases a, 0
  {
    NodesStart(a, x);
    NodesStart(b, y);
    assert a == [] <==> b == [];
    if a == [] {
    } else {
      NodesHead(a, x);
      NodesHead(b, y);
      NodesStart(a[1..], x);
      NodesStart(b[1..], y);
      NodeUnique(a[0], b[0], FlattenAll(a[1..]) + x, FlattenAll(b[1..]) + y);
      NodesUnique(a[1..], b[1..], x, y);
      assert a == [a[0]] + a[1..] && b == [b[0]] + b[1..];
    }
  }

  /** A layout is that of at most one tree without braces among its names and arguments. */
  lemma {:induction false} LayoutUnique(a: seq<Node>, b: seq<Node>)
    requires AllClean(a) && AllClean(b) && FlattenAll(a) == FlattenAll(b)
    ensures a == b
  {
    assert FlattenAll(a) + [] == FlattenAll(a) && FlattenAll(b) + [] == FlattenAll(b);
    NodesUnique(a, b, [], []);
  }

  // ---- Reading ahead ----

  /** A token starts a line or continues one, and a closing brace starts one. */
  predicate LaidAt(ts: seq<Token>, k: nat)
    requires k + 1 < |ts|
  {
    (D.ArgFollows(ts, k) <==> !D.LineFollows(ts, k)) && (ts[k + 1].text == "}" ==> D.LineFollows(ts, k))
  }

  ghost predicate Laid(ts: seq<Token>) {
    forall k :: 0 <= k && k + 1 < |ts| ==> LaidAt(ts, k)
  }

  /** No argument follows. */
  predicate LineEnds(ts: seq<Token>, at: int) {
    at == |ts| - 1 || D.LineFollows(ts, at)
  }

  /** Plain texts, and no brace among them. */
  predicate GoodArgs(args: seq<string>) {
    args == [] || (PlainText(args[0]) && !IsBrace(args[0]) && GoodArgs(args[1..]))
  }

  lemma {:induction false} GoodArg(args: seq<string>, i: nat)
    requires GoodArgs(args) && i < |args|
    ensures PlainText(args[i]) && !IsBrace(args[i])
    decreases |args|
  {
    if i == 0 {
    } else {
      GoodArg(args[1..], i - 1);
    }
  }

  lemma {:induction false} GoodArgList(args: seq<string>)
    requires GoodArgs(args)
    ensures PlainArgList(args) && forall i :: 0 <= i < |args| ==> !IsBrace(args[i])
  {
    forall i | 0 <= i < |args| ensures PlainText(args[i]) && !IsBrace(args[i]) { GoodArg(args, i); }
  }

  function PieceAt(ts: seq<Token>, k: nat): Piece
    requires k < |ts|
  {
    Piece(ts[k].text, Starts(ts, k))
  }

  /** Behind the token at `at`, up to the one at `stop`, lie these pieces. */
  ghost predicate Lie(ts: seq<Token>, at: int, stop: int, ps: seq<Piece>) {
    && -1 <= at <= stop <= |ts| - 1 && |ps| == stop - at
    && forall k :: at < k <= stop ==> PieceAt(ts, k) == ps[k - at - 1]
  }

  lemma {:induction false} PassedLie(ts: seq<Token>, at: int, stop: int)
    requires -1 <= at <= stop <= |ts| - 1
    ensures Lie(ts, at, stop, Passed(ts, at, stop))
    decreases stop
  {
    if at == stop {
    } else {
      PassedLie(ts, at, stop - 1);
    }
  }

  lemma SplitAhead(ts: seq<Token>, at: int, stop: int, a: seq<Piece>, b: seq<Piece>)
    requires Lie(ts, at, stop, a + b)
    ensures Lie(ts, at, at + |a|, a) && Lie(ts, at + |a|, stop, b)
  {
    forall k | at < k <= at + |a| ensures PieceAt(ts, k) == a[k - at - 1] { }
    forall k | at + |a| < k <= stop ensures PieceAt(ts, k) == b[k - at - |a| - 1] { }
  }

  lemma NextPiece(ts: seq<Token>, at: int, stop: int, p: Piece, rest: seq<Piece>)
    requires Lie(ts, at, stop, [p] + rest)
    ensures at < stop && p == PieceAt(ts, at + 1) && Lie(ts, at + 1, stop, rest)
  {
    SplitAhead(ts, at, stop, [p], rest);
  }

  lemma LieAt(ts: seq<Token>, at: int, here: int, stop: int, ps: seq<Piece>)
    requires Lie(ts, at, stop, ps) && here == at
    ensures Lie(ts, here, stop, ps)
  {
  }

  // What the next move along a line meets: an argument, a block or nothing.

  lemma {:induction false} ArgAhead(ts: seq<Token>, at: int, stop: int, args: seq<string>, block: seq<Piece>)
    requires 0 <= at && Lie(ts, at, stop, ArgPieces(args) + block) && Laid(ts) && args != [] && !IsBrace(args[0])
    ensures D.ArgFollows(ts, at) && at < stop && ts[at + 1].text == args[0] != "{"
  {
    ArgsStart(args, block);
    NextPiece(ts, at, stop, Piece(args[0], false), ArgPieces(args[1..]) + block);
    assert LaidAt(ts, at);
  }

  lemma {:induction false} BraceAhead(ts: seq<Token>, at: int, stop: int, children: seq<Node>)
    requires 0 <= at && Lie(ts, at, stop, BlockPieces(Some(children))) && Laid(ts)
    ensures D.ArgFollows(ts, at) && at < stop && ts[at + 1].text == "{"
    ensures Lie(ts, at + 1, stop, FlattenAll(children) + CLOSING)
  {
    Regroup(OPENING, FlattenAll(children), CLOSING);
    NextPiece(ts, at, stop, Piece("{", false), FlattenAll(children) + CLOSING);
    assert LaidAt(ts, at);
  }

  lemma NothingAhead(ts: seq<Token>, at: int, stop: int)
    requires 0 <= at && Lie(ts, at, stop, []) && Laid(ts) && LineEnds(ts, stop)
    ensures !D.ArgFollows(ts, at) && at == stop
  {
    assert at + 1 < |ts| ==> LaidAt(ts, at);
  }

  lemma {:induction false} HeadAhead(ts: seq<Token>, at: int, stop: int, node: Node)
    requires 0 <= at && Lie(ts, at - 1, stop, Flatten(node))
    ensures at <= stop && ts[at].text == node.name && Starts(ts, at)
    ensures Lie(ts, at, stop, ArgPieces(node.args) + BlockPieces(ChildrenOf(node)))
  {
    FlattenParts(node.name, node.args, ChildrenOf(node));
    assert MakeNode(node.name, node.args, ChildrenOf(node)) == node;
    NextPiece(ts, at - 1, stop, Piece(node.name, true), ArgPieces(node.args) + BlockPieces(ChildrenOf(node)));
  }

  lemma {:induction false} LastArg(args: seq<string>)
    requires args != []
    ensures ArgPieces(args) != [] && ArgPieces(args)[|ArgPieces(args)| - 1] == Piece(args[|args| - 1], false)
  {
  }

  /** No directive ends with an opening brace. */
  lemma {:induction false} LastPiece(node: Node)
    requires Clean(node)
    ensures Flatten(node) != [] && Flatten(node)[|Flatten(node)| - 1].text != "{"
  {
    FlattenParts(node.name, node.args, ChildrenOf(node));
    if node.args != [] { LastArg(node.args); }
  }

  /** What is ahead behind the last directive: the closing brace, or nothing. */
  lemma EndAhead(ts: seq<Token>, at: int, stop: int, tail: seq<Piece>)
    requires Lie(ts, at, stop, tail) && Laid(ts)
    ensures tail == [] ==> at == stop
    ensures tail == CLOSING ==> at + 1 == stop && ts[stop].text == "}" && (at >= 0 ==> D.LineFollows(ts, at))
  {
    if tail == CLOSING {
      assert PieceAt(ts, at + 1) == tail[0];
      assert at >= 0 ==> LaidAt(ts, at);
    }
  }

  /** A directive ahead starts a line, or the block. */
  lemma {:induction false} StartAhead(ts: seq<Token>, at: int, stop: int, nodes: seq<Node>, tail: seq<Piece>)
    requires nodes != [] && Lie(ts, at, stop, FlattenAll(nodes) + tail)
    ensures at < stop && Starts(ts, at + 1) && ts[at + 1].text == nodes[0].name
    ensures at >= 0 && ts[at].text != "{" ==> D.LineFollows(ts, at)
  {
    var node, after := nodes[0], FlattenAll(nodes[1..]) + tail;
    NodesHead(nodes, tail);
    NodeParts(node, after);
    NextPiece(ts, at, stop, Piece(node.name, true), ArgPieces(node.args) + (BlockPieces(ChildrenOf(node)) + after));
  }

  /** Where the first of them ends. */
  lemma {:induction false} NodeAhead(ts: seq<Token>, at: int, stop: int, nodes: seq<Node>, tail: seq<Piece>, e: int)
    requires nodes != [] && Clean(nodes[0]) && e == at + |Flatten(nodes[0])|
    requires Lie(ts, at, stop, FlattenAll(nodes) + tail) && Laid(ts)
    requires if tail == [] then stop == |ts| - 1 else tail == CLOSING
    ensures at < e && Lie(ts, at, e, Flatten(nodes[0])) && LineEnds(ts, e) && ts[e].text != "{"
  {
    var first := Flatten(nodes[0]);
    NodesHead(nodes, tail);
    LastPiece(nodes[0]);
    SplitAhead(ts, at, stop, first, FlattenAll(nodes[1..]) + tail);
    assert PieceAt(ts, e) == first[|first| - 1];
    LineOver(ts, e, stop, nodes[1..], tail);
  }

  /** What comes behind a directive comes on another line. */
  lemma {:induction false} LineOver(ts: seq<Token>, e: int, stop: int, nodes: seq<Node>, tail: seq<Piece>)
    requires 0 <= e && Lie(ts, e, stop, FlattenAll(nodes) + tail) && Laid(ts) && ts[e].text != "{"
    requires if tail == [] then stop == |ts| - 1 else tail == CLOSING
    ensures LineEnds(ts, e)
  {
    if nodes == [] {
      assert FlattenAll(nodes) + tail == tail;
      EndAhead(ts, e, stop, tail);
    } else {
      StartAhead(ts, e, stop, nodes, tail);
    }
  }

  // ---- A tree written down ----

  /** Directives start lines, arguments and opening braces follow a name or an argument. */
  predicate FollowsOn(front: seq<Piece>, p: Piece) {
    if p.starts then !IsBrace(p.text) else p.text == "}" || (front != [] && !IsBrace(front[|front| - 1].text))
  }

  predicate WellLaid(ps: seq<Piece>) {
    ps == [] || (WellLaid(ps[..|ps| - 1]) && FollowsOn(ps[..|ps| - 1], ps[|ps| - 1]))
  }

  lemma {:induction false} WellLaidMore(ps: seq<Piece>, p: Piece)
    ensures WellLaid(ps + [p]) <==> WellLaid(ps) && FollowsOn(ps, p)
  {
    assert (ps + [p])[..|ps|] == ps;
  }

  lemma {:induction false} WellLaidAt(ps: seq<Piece>, k: nat)
    requires WellLaid(ps) && k < |ps|
    ensures FollowsOn(ps[..k], ps[k])
    decreases |ps|
  {
    if k == |ps| - 1 {
    } else {
      WellLaidAt(ps[..|ps| - 1], k);
      assert ps[..|ps| - 1][..k] == ps[..k];
    }
  }

  lemma {:induction false} ArgsLaid(ps: seq<Piece>, args: seq<string>)
    requires WellLaid(ps) && ps != [] && !IsBrace(ps[|ps| - 1].text)
    requires forall i :: 0 <= i < |args| ==> !IsBrace(args[i])
    ensures var all := ps + ArgPieces(args); WellLaid(all) && !IsBrace(all[|all| - 1].text)
    decreases |args|
  {
    if args == [] {
      assert ps + [] == ps;
    } else {
      var front, p := args[..|args| - 1], Piece(args[|args| - 1], false);
      ArgsLaid(ps, front);
      assert ps + ArgPieces(args) == ps + ArgPieces(front) + [p];
      WellLaidMore(ps + ArgPieces(front), p);
    }
  }

  lemma {:induction false} NodeLaid(ps: seq<Piece>, node: Node)
    requires WellLaid(ps) && Clean(node)
    ensures WellLaid(ps + Flatten(node))
    decreases node, 1
  {
    var head := ps + [Piece(node.name, true)];
    WellLaidMore(ps, Piece(node.name, true));
    ArgsLaid(head, node.args);
    var line := head + ArgPieces(node.args);
    match node
    case Leaf(name, args) => Regroup(ps, [Piece(name, true)], ArgPieces(args));
    case Block(name, args, children) =>
      var inside := line + OPENING;
      WellLaidMore(line, Piece("{", false));
      NodesLaid(inside, children);
      WellLaidMore(inside + FlattenAll(children), Piece("}", false));
      BlockGrouped(ps, [Piece(name, true)], ArgPieces(args), FlattenAll(children));
  }

  lemma BlockGrouped(ps: seq<Piece>, name: seq<Piece>, args: seq<Piece>, inside: seq<Piece>)
    ensures ps + (name + args + (OPENING + inside + CLOSING)) == ps + name + args + OPENING + inside + CLOSING
  {
    Associate(ps + name + args, OPENING, inside, CLOSING);
    Regroup(ps, name + args, OPENING + inside + CLOSING);
    Regroup(ps, name, args);
    Regroup(ps + name + args + OPENING, inside, CLOSING);
  }

  lemma {:induction false} NodesLaid(ps: seq<Piece>, nodes: seq<Node>)
    requires WellLaid(ps) && AllClean(nodes)
    ensures WellLaid(ps + FlattenAll(nodes))
    decreases nodes, 0
  {
    if nodes == [] {
      assert ps + [] == ps;
    } else {
      var front, last := nodes[..|nodes| - 1], nodes[|nodes| - 1];
      NodesLaid(ps, front);
      NodeLaid(ps + FlattenAll(front), last);
      Regroup(ps, FlattenAll(front), Flatten(last));
    }
  }

  function ItemOf(p: Piece): Item {
    Item(p.text, if p.starts || p.text == "}" then 1 else 0)
  }

  /** Every directive and every closing brace on a line of its own. */
  function ItemsOf(ps: seq<Piece>): seq<Item> {
    seq(|ps|, i requires 0 <= i < |ps| => ItemOf(ps[i]))
  }

  lemma {:induction false} ExpectedAt(items: seq<Item>, line: nat, k: nat)
    requires k < |items|
    ensures var ts := Expected(items, line);
            && |ts| == |items| && ts[k].text == items[k].text && ts[k].file == ""
            && (k == 0 ==> ts[k].line == line + items[0].breaks)
            && (k > 0 ==> ts[k].line == ts[k - 1].line + Breaks(items[k - 1].text) + items[k].breaks
                          && ts[k - 1].text == items[k - 1].text && ts[k - 1].file == "")
    decreases |items|
  {
    var next := line + items[0].breaks + Breaks(items[0].text);
    if k > 0 {
      ExpectedAt(items[1..], next, k - 1);
    } else if |items| > 1 {
      ExpectedAt(items[1..], next, 0);
    }
  }

  lemma {:induction false} WrittenAt(ps: seq<Piece>, ts: seq<Token>, k: nat)
    requires WellLaid(ps) && ts == Expected(ItemsOf(ps), 1) && k < |ps|
    ensures |ts| == |ps| && ts[k].text == ps[k].text && Starts(ts, k) == ps[k].starts
    ensures k > 0 ==> LaidAt(ts, k - 1) && (ts[k - 1].text != "}" || ts[k].text != "{")
  {
    ExpectedAt(ItemsOf(ps), 1, k);
    WellLaidAt(ps, k);
    if k > 0 {
      WellLaidAt(ps, k - 1);
      assert ps[..k][k - 1] == ps[k - 1];
    }
  }

  lemma {:induction false} WrittenPieces(ps: seq<Piece>, ts: seq<Token>, k: nat)
    requires WellLaid(ps) && ts == Expected(ItemsOf(ps), 1) && k <= |ps|
    ensures |ts| == |ps| && Pieces(ts, 0, k) == ps[..k] && (PlainPieces(ps) ==> Plain(ts[..k]))
    decreases k
  {
    if k == 0 {
      if ps != [] { WrittenAt(ps, ts, 0); }
    } else {
      WrittenPieces(ps, ts, k - 1);
      WrittenAt(ps, ts, k - 1);
      assert ps[..k] == ps[..k - 1] + [ps[k - 1]];
      assert ts[..k][..k - 1] == ts[..k - 1];
    }
  }

  /** A tree as a file: its texts in quotes, every directive and closing brace on a new line. */
  function WrittenTree(nodes: seq<Node>): Text {
    Written(ItemsOf(FlattenAll(nodes)))
  }

  predicate SafePieces(ps: seq<Piece>) {
    forall i :: 0 <= i < |ps| ==> Safe(ps[i].text)
  }

  lemma {:induction false} WrittenLaid(ps: seq<Piece>, ts: seq<Token>)
    requires WellLaid(ps) && |ts| == |ps| && ts == Expected(ItemsOf(ps), 1)
    ensures Laid(ts)
  {
    forall k | 0 <= k && k + 1 < |ts| ensures LaidAt(ts, k) { WrittenAt(ps, ts, k + 1); }
  }

  lemma {:induction false} LaidAsWritten(ps: seq<Piece>, ts: seq<Token>)
    requires WellLaid(ps) && ts == Expected(ItemsOf(ps), 1)
    ensures (PlainPieces(ps) ==> Plain(ts)) && Laid(ts) && Pieces(ts, 0, |ts|) == ps
  {
    WrittenPieces(ps, ts, |ps|);
    WrittenLaid(ps, ts);
    assert ts[..|ps|] == ts && ps[..|ps|] == ps;
  }

  /** The tokens of a written tree are laid out as the tree is. */
  lemma {:induction false} TreeWritten(nodes: seq<Node>)
    requires AllClean(nodes) && SafePieces(FlattenAll(nodes))
    ensures var ts := Tokens(WrittenTree(nodes));
            && (PlainPieces(FlattenAll(nodes)) ==> Plain(ts)) && Laid(ts)
            && Pieces(ts, 0, |ts|) == FlattenAll(nodes)
  {
    var ps := FlattenAll(nodes);
    NodesLaid([], nodes);
    assert [] + ps == ps;
    TokensWritten(ItemsOf(ps));
    LaidAsWritten(ps, Expected(ItemsOf(ps), 1));
  }
}
