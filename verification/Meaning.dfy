/**
 What a tree of directives means, written down as a configuration file (framework/cfgparser/parse.go and
 imports.go): names in parentheses declare snippets, $(names) declare macros and stand for their values, imports
 stand for snippets. The parser is proved to read this from the text.
 */
module Meaning {
  import opened Uids
  import opened L = Lexer
  import opened I = Imports
  import opened Y = Layout

  type Macros = map<string, seq<string>>

  const NESTING_LIMIT := 255

  // ---- Names and macros ----

  /** $(name) */
  predicate IsReference(s: string)
    ensures IsReference(s) ==> |s| >= 3
  {
    assert HasPrefix(s, "$(") && HasSuffix(s, ")") ==> s[1] == '(' && s[|s| - 1] == ')';
    HasPrefix(s, "$(") && HasSuffix(s, ")")
  }

  predicate IsSnippet(name: string)
    ensures IsSnippet(name) ==> |name| >= 2
  {
    assert HasPrefix(name, "(") && HasSuffix(name, ")") ==> name[0] == '(' && name[|name| - 1] == ')';
    HasPrefix(name, "(") && HasSuffix(name, ")")
  }

  /** The name in the parentheses. */
  function SnippetName(name: string): string
    requires IsSnippet(name)
  {
    name[1..|name| - 1]
  }

  /** An argument of the form $(name) stands for the values of the macro, or for nothing. */
  function ReplaceArg(macros: Macros, sub: (Macros, string) -> Option<string>, arg: string): Option<seq<string>> {
    if IsReference(arg) then
      var name := arg[2..|arg| - 1];
      Some(if name in macros then macros[name] else [])
    else if Contains(arg, "$(") && Contains(arg, ")") then
      var r := sub(macros, arg);
      if r.None? then None else Some([r.value])
    else Some([arg])
  }

  function ReplaceArgs(macros: Macros, sub: (Macros, string) -> Option<string>,
                       args: seq<string>): Option<seq<string>> {
    if args == [] then Some([])
    else
      var front, last := ReplaceArgs(macros, sub, args[..|args| - 1]), ReplaceArg(macros, sub, args[|args| - 1]);
      if front.None? || last.None? then None else Some(front.value + last.value)
  }

  function ExpandNode(macros: Macros, sub: (Macros, string) -> Option<string>, node: Node): Option<Node>
    decreases node
  {
    if IsReference(node.name) then None
    else
      var args := ReplaceArgs(macros, sub, node.args);
      if args.None? then None
      else if node.Leaf? then Some(Leaf(node.name, args.value))
      else
        var children := ExpandAll(macros, sub, node.children);
        if children.None? then None else Some(Block(node.name, args.value, children.value))
  }

  function ExpandAll(macros: Macros, sub: (Macros, string) -> Option<string>, nodes: seq<Node>): Option<seq<Node>>
    decreases nodes
  {
    if nodes == [] then Some([])
    else
      var front, last := ExpandAll(macros, sub, nodes[..|nodes| - 1]), ExpandNode(macros, sub, nodes[|nodes| - 1]);
      if front.None? || last.None? then None else Some(front.value + [last.value])
  }

  lemma PlainName(t: Text)
    requires PlainText(t)
    ensures !HasPrefix(t, "$(") && !IsSnippet(t)
  {
  }

  lemma {:induction false} PlainArgs(macros: Macros, sub: (Macros, string) -> Option<string>, args: seq<string>)
    requires PlainPieces(ArgPieces(args))
    ensures ReplaceArgs(macros, sub, args) == Some(args)
  {
    if args == [] {
    } else {
      var front, last := args[..|args| - 1], args[|args| - 1];
      PlainParts(ArgPieces(front), [Piece(last, false)]);
      PlainArgs(macros, sub, front);
      assert PlainText([Piece(last, false)][0].text);
      PlainName(last);
      assert args == front + [last];
    }
  }

  /** Macros leave a directive of plain texts alone. */
  lemma {:induction false} PlainNode(macros: Macros, sub: (Macros, string) -> Option<string>, node: Node)
    requires PlainPieces(Flatten(node))
    ensures ExpandNode(macros, sub, node) == Some(node)
    decreases node, 1
  {
    assert Flatten(node)[0] == Piece(node.name, true);
    PlainName(node.name);
    match node
    case Leaf(name, args) =>
      PlainParts([Piece(name, true)], ArgPieces(args));
      PlainArgs(macros, sub, args);
    case Block(name, args, children) =>
      PlainParts([Piece(name, true)] + ArgPieces(args), OPENING + FlattenAll(children) + CLOSING);
      PlainParts([Piece(name, true)], ArgPieces(args));
      PlainParts(OPENING + FlattenAll(children), CLOSING);
      PlainParts(OPENING, FlattenAll(children));
      PlainArgs(macros, sub, args);
      PlainNodes(macros, sub, children);
  }

  lemma {:induction false} PlainNodes(macros: Macros, sub: (Macros, string) -> Option<string>, nodes: seq<Node>)
    requires PlainPieces(FlattenAll(nodes))
    ensures ExpandAll(macros, sub, nodes) == Some(nodes)
    decreases nodes, 0
  {
    if nodes == [] {
    } else {
      var front, last := nodes[..|nodes| - 1], nodes[|nodes| - 1];
      PlainParts(FlattenAll(front), Flatten(last));
      PlainNodes(macros, sub, front);
      PlainNode(macros, sub, last);
      assert nodes == front + [last];
    }
  }

  // ---- Directives without macros and declarations ----

  /** What the parser asks of other code: validateNodeName and expandSingleValueMacro. */
  datatype Env = Env(validName: string -> bool, substitute: (Macros, string) -> Option<string>)

  /** Plain texts, no braces among them, valid names, and not too deep: `room` blocks may be open inside. */
  predicate Readable(env: Env, node: Node, room: int)
    decreases node, 1
  {
    && PlainText(node.name) && !IsBrace(node.name) && env.validName(node.name) && GoodArgs(node.args)
    && (node.Block? ==> AllReadable(env, node.children, room))
  }

  predicate AllReadable(env: Env, nodes: seq<Node>, room: int)
    decreases nodes, 0
  {
    room >= 0 && (nodes == [] || (Readable(env, nodes[0], room - 1) && AllReadable(env, nodes[1..], room)))
  }

  lemma {:induction false} ReadableIs(env: Env, node: Node, room: int)
    requires Readable(env, node, room)
    ensures Clean(node) && PlainPieces(Flatten(node))
    decreases node, 1
  {
    GoodArgList(node.args);
    ArgsPlain(node.args);
    var head := [Piece(node.name, true)] + ArgPieces(node.args);
    PlainJoin([Piece(node.name, true)], ArgPieces(node.args));
    if node.Block? {
      AllReadableAre(env, node.children, room);
      BracesPlain();
      PlainJoin(OPENING, FlattenAll(node.children));
      PlainJoin(OPENING + FlattenAll(node.children), CLOSING);
      PlainJoin(head, OPENING + FlattenAll(node.children) + CLOSING);
    }
  }

  lemma {:induction false} AllReadableAre(env: Env, nodes: seq<Node>, room: int)
    requires AllReadable(env, nodes, room)
    ensures AllClean(nodes) && PlainPieces(FlattenAll(nodes))
    decreases nodes, 0
  {
    if nodes == [] {
    } else {
      ReadableIs(env, nodes[0], room - 1);
      AllReadableAre(env, nodes[1..], room);
      assert nodes == [nodes[0]] + nodes[1..];
      FlattenHead(nodes[0], nodes[1..]);
      PlainJoin(Flatten(nodes[0]), FlattenAll(nodes[1..]));
    }
  }

  lemma BracesPlain()
    ensures PlainPieces(OPENING) && PlainPieces(CLOSING)
  {
    OneCharPlain("{");
    OneCharPlain("}");
  }

  lemma OneCharPlain(t: Text)
    requires |t| == 1 && t[0] != '(' && t[0] != '\\'
    ensures PlainText(t)
  {
    var p := "$(";
    assert |p| == 2 && t[1..] == [] && !HasPrefix(t, p);
    assert Contains(t, p) == (HasPrefix(t, p) || Contains([], p));
    assert "("[0] == '(' && "\\"[0] == '\\';
  }

  lemma PlainJoin(a: seq<Piece>, b: seq<Piece>)
    requires PlainPieces(a) && PlainPieces(b)
    ensures PlainPieces(a + b)
  {
  }

  lemma {:induction false} ArgsPlain(args: seq<string>)
    requires PlainArgList(args)
    ensures PlainPieces(ArgPieces(args))
    decreases |args|
  {
    if args == [] {
    } else {
      ArgsPlain(args[..|args| - 1]);
    }
  }

  // ---- The meaning of a file ----

  /** What has been read of a block: its directives, and the declarations so far. */
  datatype Sofar = Sofar(nodes: seq<Node>, snippets: Snippets, macros: Macros)

  /** A directive, a snippet or a macro. */
  datatype Heading = Heading(node: Node, isSnippet: bool, isMacro: bool)

  function Renamed(node: Node, name: string, args: seq<string>): Node {
    MakeNode(name, args, ChildrenOf(node))
  }

  /** Which of the three a directive is, and under which name: (name), $(name) = values, or a valid name. */
  function Named(env: Env, node: Node): Option<Heading> {
    var isSnippet := IsSnippet(node.name);
    var name := if isSnippet then SnippetName(node.name) else node.name;
    if HasPrefix(name, "$(") && (!HasSuffix(name, ")") || |node.args| < 2 || node.args[0] != "=") then None
    else if IsReference(name) && name[2..|name| - 1] != "" then
      Some(Heading(Renamed(node, name[2..|name| - 1], node.args[1..]), isSnippet, true))
    else if isSnippet || env.validName(name) then Some(Heading(Renamed(node, name, node.args), isSnippet, false))
    else None
  }

  /** Declarations go into their tables, at top level only; a directive, with macros replaced, goes into the block. */
  function Kept(env: Env, nesting: int, s: Sofar, h: Heading): Option<Sofar> {
    if h.isMacro then
      var m := ExpandNode(s.macros, env.substitute, h.node);
      if nesting != 0 || m.None? then None else Some(s.(macros := s.macros[m.value.name := m.value.args]))
    else if h.isSnippet then
      if nesting != 0 || h.node.args != [] then None
      else Some(s.(snippets := s.snippets[h.node.name := if h.node.Block? then h.node.children else []]))
    else
      var kept := ExpandNode(s.macros, env.substitute, h.node);
      if kept.None? then None else Some(s.(nodes := s.nodes + [kept.value]))
  }

  /** The directive with its block read; an error when the block is too deep or something in it is wrong. */
  function WithBlock(env: Env, nesting: int, s: Sofar, node: Node): Option<Node>
    decreases node, 1
  {
    if node.Leaf? then Some(node)
    else if nesting > NESTING_LIMIT then None
    else
      var inner := TookAll(env, nesting + 1, s.(nodes := []), node.children);
      if inner.None? then None else Some(node.(children := inner.value.nodes))
  }

  /** One more directive, in a block of this nesting. */
  function Took(env: Env, nesting: int, s: Sofar, node: Node): Option<Sofar>
    decreases node, 2
  {
    var inner := WithBlock(env, nesting, s, node);
    if inner.None? then None
    else
      var h := Named(env, inner.value);
      if h.None? then None else Kept(env, nesting, s, h.value)
  }

  function TookAll(env: Env, nesting: int, s: Sofar, nodes: seq<Node>): Option<Sofar>
    decreases nodes, 0
  {
    if nodes == [] then Some(s)
    else
      var front := TookAll(env, nesting, s, nodes[..|nodes| - 1]);
      if front.None? then None else Took(env, nesting, front.value, nodes[|nodes| - 1])
  }

  const NOTHING := Sofar([], map[], map[])

  /** All directives of a file in order, then the imports. */
  function FileMeaning(env: Env, nodes: seq<Node>, depth: nat): Option<seq<Node>> {
    var s := TookAll(env, 0, NOTHING, nodes);
    if s.None? then None else InlineList(s.value.snippets, s.value.nodes, Budget(depth))
  }

  lemma {:induction false} TookMore(env: Env, nesting: int, s: Sofar, nodes: seq<Node>, n: nat)
    requires n < |nodes| && TookAll(env, nesting, s, nodes[..n]).Some?
    ensures TookAll(env, nesting, s, nodes[..n + 1])
            == Took(env, nesting, TookAll(env, nesting, s, nodes[..n]).value, nodes[n])
  {
    assert nodes[..n + 1][..n] == nodes[..n];
  }

  /** Where one directive is wrong the whole list is. */
  lemma {:induction false} TookFails(env: Env, nesting: int, s: Sofar, nodes: seq<Node>, n: nat)
    requires n <= |nodes| && TookAll(env, nesting, s, nodes[..n]).None?
    ensures TookAll(env, nesting, s, nodes).None?
    decreases |nodes|
  {
    if n == |nodes| {
      assert nodes[..n] == nodes;
    } else {
      assert nodes[..|nodes| - 1][..n] == nodes[..n];
      TookFails(env, nesting, s, nodes[..|nodes| - 1], n);
    }
  }

  /** What is taken does not depend on the directives before, but for their declarations. */
  lemma {:induction false} TookAfter(env: Env, nesting: int, s: Sofar, node: Node)
    ensures var r, r0 := Took(env, nesting, s, node), Took(env, nesting, s.(nodes := []), node);
            && (r.Some? <==> r0.Some?)
            && (r.Some? ==> r.value == r0.value.(nodes := s.nodes + r0.value.nodes) && |r0.value.nodes| <= 1)
  {
    assert s.(nodes := []).(nodes := []) == s.(nodes := []);
    assert s.nodes + [] == s.nodes;
  }

  /** Inside a block nothing is declared. */
  lemma {:induction false} NothingDeclared(env: Env, nesting: int, s: Sofar, nodes: seq<Node>)
    requires nesting != 0 && TookAll(env, nesting, s, nodes).Some?
    ensures var r := TookAll(env, nesting, s, nodes).value; r.snippets == s.snippets && r.macros == s.macros
    decreases |nodes|
  {
    if nodes == [] {
    } else {
      NothingDeclared(env, nesting, s, nodes[..|nodes| - 1]);
    }
  }

  // ---- Directives mean themselves ----

  lemma {:induction false} AllReadableAt(env: Env, nodes: seq<Node>, room: int, i: nat)
    requires AllReadable(env, nodes, room) && i < |nodes|
    ensures Readable(env, nodes[i], room - 1)
    decreases |nodes|
  {
    if i == 0 {
    } else {
      AllReadableAt(env, nodes[1..], room, i - 1);
    }
  }

  lemma {:induction false} PlainTook(env: Env, nesting: int, s: Sofar, node: Node)
    requires WithBlock(env, nesting, s, node) == Some(node) && PlainText(node.name) && env.validName(node.name)
    requires ExpandNode(s.macros, env.substitute, node) == Some(node)
    ensures Took(env, nesting, s, node) == Some(s.(nodes := s.nodes + [node]))
  {
    PlainName(node.name);
    assert Renamed(node, node.name, node.args) == node;
    assert Named(env, node) == Some(Heading(node, false, false));
  }

  lemma {:induction false} BlockStays(env: Env, nesting: int, s: Sofar, node: Node)
    requires node.Block? && nesting <= NESTING_LIMIT
    requires TookAll(env, nesting + 1, s.(nodes := []), node.children) == Some(s.(nodes := node.children))
    ensures WithBlock(env, nesting, s, node) == Some(node)
  {
  }

  lemma {:induction false} ReadableTaken(env: Env, nesting: int, s: Sofar, node: Node, room: int)
    requires Readable(env, node, room) && room == NESTING_LIMIT - nesting
    ensures Took(env, nesting, s, node) == Some(s.(nodes := s.nodes + [node]))
    decreases node, 1
  {
    ReadableBlock(env, nesting, s, node, room);
    ReadableExpands(env, node, room, s.macros);
    PlainTook(env, nesting, s, node);
  }

  lemma {:induction false} ReadableBlock(env: Env, nesting: int, s: Sofar, node: Node, room: int)
    requires Readable(env, node, room) && room == NESTING_LIMIT - nesting
    ensures WithBlock(env, nesting, s, node) == Some(node)
    decreases node, 0
  {
    if node.Block? {
      ReadableInside(env, node, room);
      AllReadableTaken(env, nesting + 1, s.(nodes := []), node.children);
      assert [] + node.children == node.children;
      BlockStays(env, nesting, s, node);
    }
  }

  lemma {:induction false} ReadableInside(env: Env, node: Node, room: int)
    requires Readable(env, node, room) && node.Block?
    ensures room >= 0 && AllReadable(env, node.children, room)
  {
  }

  lemma {:induction false} ReadableExpands(env: Env, node: Node, room: int, macros: Macros)
    requires Readable(env, node, room)
    ensures ExpandNode(macros, env.substitute, node) == Some(node) && PlainText(node.name) && env.validName(node.name)
  {
    ReadableIs(env, node, room);
    PlainNode(macros, env.substitute, node);
  }

  /** Plain directives with valid names, within the nesting limit, mean themselves. */
  lemma {:induction false} AllReadableTaken(env: Env, nesting: int, s: Sofar, nodes: seq<Node>)
    requires AllReadable(env, nodes, NESTING_LIMIT + 1 - nesting)
    ensures TookAll(env, nesting, s, nodes) == Some(s.(nodes := s.nodes + nodes))
    decreases nodes, 0
  {
    TakenUpTo(env, nesting, s, nodes, |nodes|);
    assert nodes[..|nodes|] == nodes;
  }

  lemma {:induction false} TakenUpTo(env: Env, nesting: int, s: Sofar, nodes: seq<Node>, n: nat)
    requires AllReadable(env, nodes, NESTING_LIMIT + 1 - nesting) && n <= |nodes|
    ensures TookAll(env, nesting, s, nodes[..n]) == Some(s.(nodes := s.nodes + nodes[..n]))
    decreases nodes, -1, n
  {
    if n == 0 {
      assert s.nodes + nodes[..0] == s.nodes;
    } else {
      TakenUpTo(env, nesting, s, nodes, n - 1);
      TookMore(env, nesting, s, nodes, n - 1);
      AllReadableAt(env, nodes, NESTING_LIMIT + 1 - nesting, n - 1);
      ReadableTaken(env, nesting, s.(nodes := s.nodes + nodes[..n - 1]), nodes[n - 1], NESTING_LIMIT - nesting);
      assert s.nodes + nodes[..n - 1] + [nodes[n - 1]] == s.nodes + nodes[..n];
    }
  }

  // ---- Snippets ----

  /** An entry of a file: a snippet (name) { body }, or a directive. */
  datatype Entry = Declare(name: string, body: seq<Node>) | Directive(node: Node)

  function EntryNode(e: Entry): Node {
    match e
    case Declare(name, body) => Block("(" + name + ")", [], body)
    case Directive(node) => node
  }

  function EntryNodes(es: seq<Entry>): seq<Node> {
    seq(|es|, i requires 0 <= i < |es| => EntryNode(es[i]))
  }

  /** The snippets, of which a later one replaces an earlier of the same name, and the directives. */
  function TableOf(es: seq<Entry>): Snippets {
    if es == [] then map[]
    else
      var front, e := TableOf(es[..|es| - 1]), es[|es| - 1];
      if e.Declare? then front[e.name := e.body] else front
  }

  function DirectivesOf(es: seq<Entry>): seq<Node> {
    if es == [] then []
    else
      var front, e := DirectivesOf(es[..|es| - 1]), es[|es| - 1];
      if e.Directive? then front + [e.node] else front
  }

  predicate GoodEntry(env: Env, e: Entry) {
    match e
    case Declare(name, body) => !HasPrefix(name, "$(") && AllReadable(env, body, NESTING_LIMIT)
    case Directive(node) => Readable(env, node, NESTING_LIMIT)
  }

  predicate GoodEntries(env: Env, es: seq<Entry>) {
    forall i :: 0 <= i < |es| ==> GoodEntry(env, es[i])
  }

  lemma InParentheses(name: string)
    ensures IsSnippet("(" + name + ")") && SnippetName("(" + name + ")") == name
  {
    var t := "(" + name + ")";
    assert t[..1] == "(" && t[|t| - 1..] == ")" && t[1..|t| - 1] == name;
  }

  lemma {:induction false} DeclarationTaken(env: Env, s: Sofar, name: string, body: seq<Node>)
    requires !HasPrefix(name, "$(") && AllReadable(env, body, NESTING_LIMIT)
    ensures Took(env, 0, s, Block("(" + name + ")", [], body)) == Some(s.(snippets := s.snippets[name := body]))
  {
    var node := Block("(" + name + ")", [], body);
    AllReadableTaken(env, 1, s.(nodes := []), body);
    assert [] + body == body;
    assert WithBlock(env, 0, s, node) == Some(node);
    InParentheses(name);
  }

  function WithEntry(s: Sofar, e: Entry): Sofar {
    match e
    case Declare(name, body) => s.(snippets := s.snippets[name := body])
    case Directive(node) => s.(nodes := s.nodes + [node])
  }

  lemma {:induction false} EntryTaken(env: Env, s: Sofar, e: Entry)
    requires GoodEntry(env, e)
    ensures Took(env, 0, s, EntryNode(e)) == Some(WithEntry(s, e))
  {
    match e
    case Declare(name, body) => DeclarationTaken(env, s, name, body);
    case Directive(node) => ReadableTaken(env, 0, s, node, NESTING_LIMIT);
  }

  function FromEntries(es: seq<Entry>): Sofar {
    Sofar(DirectivesOf(es), TableOf(es), map[])
  }

  lemma {:induction false} OneMoreEntry(es: seq<Entry>, n: nat)
    requires n < |es|
    ensures FromEntries(es[..n + 1]) == WithEntry(FromEntries(es[..n]), es[n])
  {
    assert es[..n + 1][..n] == es[..n];
  }

  lemma {:induction false} EntriesTaken(env: Env, es: seq<Entry>, nodes: seq<Node>, n: nat)
    requires GoodEntries(env, es) && nodes == EntryNodes(es) && n <= |es|
    ensures TookAll(env, 0, NOTHING, nodes[..n]) == Some(FromEntries(es[..n]))
    decreases n
  {
    if n == 0 {
    } else {
      EntriesTaken(env, es, nodes, n - 1);
      TookMore(env, 0, NOTHING, nodes, n - 1);
      EntryTaken(env, FromEntries(es[..n - 1]), es[n - 1]);
      OneMoreEntry(es, n - 1);
    }
  }

  /** A file of snippets and directives, in any order, means its directives with the snippets imported. */
  lemma {:induction false} SnippetsMeaning(env: Env, es: seq<Entry>, depth: nat)
    requires GoodEntries(env, es)
    ensures FileMeaning(env, EntryNodes(es), depth) == InlineList(TableOf(es), DirectivesOf(es), Budget(depth))
  {
    EntriesTaken(env, es, EntryNodes(es), |es|);
    assert EntryNodes(es)[..|es|] == EntryNodes(es) && es[..|es|] == es;
  }

  /** A table of snippets written down in the order of these names. */
  function Declarations(names: seq<string>, table: Snippets): seq<Node>
    requires forall i :: 0 <= i < |names| ==> names[i] in table
  {
    seq(|names|, i requires 0 <= i < |names| => Block("(" + names[i] + ")", [], table[names[i]]))
  }

  /** Names of snippets, their bodies and the directives of a file. */
  ghost predicate GoodTable(env: Env, names: seq<string>, table: Snippets, nodes: seq<Node>) {
    && (forall i :: 0 <= i < |names| ==> names[i] in table) && (forall n :: n in table ==> n in names)
    && (forall n :: n in table ==> !HasPrefix(n, "$(") && AllReadable(env, table[n], NESTING_LIMIT))
    && forall i :: 0 <= i < |nodes| ==> Readable(env, nodes[i], NESTING_LIMIT)
  }

  function EntriesOf(names: seq<string>, table: Snippets, nodes: seq<Node>): seq<Entry>
    requires forall i :: 0 <= i < |names| ==> names[i] in table
  {
    seq(|names|, i requires 0 <= i < |names| => Declare(names[i], table[names[i]]))
    + seq(|nodes|, i requires 0 <= i < |nodes| => Directive(nodes[i]))
  }

  lemma {:induction false} EntriesAt(names: seq<string>, table: Snippets, nodes: seq<Node>, k: nat)
    requires (forall i :: 0 <= i < |names| ==> names[i] in table) && k < |names| + |nodes|
    ensures EntriesOf(names, table, nodes)[k]
            == if k < |names| then Declare(names[k], table[names[k]]) else Directive(nodes[k - |names|])
  {
  }

  /** A part of a table: the entries of these names. */
  ghost predicate PartOf(part: Snippets, table: Snippets, names: seq<string>) {
    (forall k :: k in part <==> k in names) && forall k :: k in part ==> k in table && part[k] == table[k]
  }

  lemma MorePart(part: Snippets, table: Snippets, names: seq<string>, n: nat)
    requires n < |names| && names[n] in table && PartOf(part, table, names[..n])
    ensures PartOf(part[names[n] := table[names[n]]], table, names[..n + 1])
  {
    assert names[..n + 1] == names[..n] + [names[n]];
  }

  lemma {:induction false} TableUpTo(names: seq<string>, table: Snippets, nodes: seq<Node>, es: seq<Entry>, n: nat)
    requires (forall i :: 0 <= i < |names| ==> names[i] in table) && n <= |names|
    requires es == EntriesOf(names, table, nodes)
    ensures FromEntries(es[..n]).nodes == [] && PartOf(FromEntries(es[..n]).snippets, table, names[..n])
    decreases n
  {
    if n == 0 {
    } else {
      TableUpTo(names, table, nodes, es, n - 1);
      OneMoreEntry(es, n - 1);
      EntriesAt(names, table, nodes, n - 1);
      MorePart(FromEntries(es[..n - 1]).snippets, table, names, n - 1);
    }
  }

  lemma {:induction false} DirectivesUpTo(names: seq<string>, table: Snippets, nodes: seq<Node>, es: seq<Entry>,
                                          s: Sofar, n: nat)
    requires (forall i :: 0 <= i < |names| ==> names[i] in table) && n <= |nodes|
    requires es == EntriesOf(names, table, nodes) && s == FromEntries(es[..|names|])
    ensures FromEntries(es[..|names| + n]) == s.(nodes := s.nodes + nodes[..n])
    decreases n
  {
    if n == 0 {
      assert s.nodes + nodes[..0] == s.nodes;
    } else {
      var k := |names| + n - 1;
      DirectivesUpTo(names, table, nodes, es, s, n - 1);
      OneMoreEntry(es, k);
      EntriesAt(names, table, nodes, k);
      assert s.nodes + nodes[..n - 1] + [nodes[n - 1]] == s.nodes + nodes[..n];
    }
  }

  /**
   For every table of snippets and every list of directives: written down with the snippets in front, they mean
   the directives with the snippets of the table imported.
   */
  lemma {:induction false} TableMeaning(env: Env, names: seq<string>, table: Snippets, nodes: seq<Node>, depth: nat)
    requires GoodTable(env, names, table, nodes)
    ensures FileMeaning(env, Declarations(names, table) + nodes, depth) == InlineList(table, nodes, Budget(depth))
  {
    var es := EntriesOf(names, table, nodes);
    EntriesGood(env, names, table, nodes);
    SnippetsMeaning(env, es, depth);
    EntriesAre(names, table, nodes, es);
  }

  lemma {:induction false} EntriesGood(env: Env, names: seq<string>, table: Snippets, nodes: seq<Node>)
    requires GoodTable(env, names, table, nodes)
    ensures GoodEntries(env, EntriesOf(names, table, nodes))
    ensures EntryNodes(EntriesOf(names, table, nodes)) == Declarations(names, table) + nodes
  {
    var es := EntriesOf(names, table, nodes);
    forall i | 0 <= i < |es| ensures GoodEntry(env, es[i]) {
      if i < |names| { assert names[i] in table; }
    }
  }

  lemma {:induction false} EntriesAre(names: seq<string>, table: Snippets, nodes: seq<Node>, es: seq<Entry>)
    requires (forall i :: 0 <= i < |names| ==> names[i] in table) && (forall n :: n in table ==> n in names)
    requires es == EntriesOf(names, table, nodes)
    ensures FromEntries(es) == Sofar(nodes, table, map[])
  {
    var s := FromEntries(es[..|names|]);
    TableUpTo(names, table, nodes, es, |names|);
    assert names[..|names|] == names;
    SameTable(s.snippets, table, names);
    DirectivesUpTo(names, table, nodes, es, s, |nodes|);
    assert es[..|names| + |nodes|] == es && [] + nodes[..|nodes|] == nodes;
  }

  lemma SameTable(part: Snippets, table: Snippets, names: seq<string>)
    requires PartOf(part, table, names) && forall k :: k in table ==> k in names
    ensures part == table
  {
  }

  /** The file `(a) { b c }`, `import a` means `b c`. */
  lemma ImportExample(env: Env, depth: nat)
    requires env.validName("b") && env.validName("import") && depth <= EXPANSION_LIMIT
    ensures FileMeaning(env, [Block("(a)", [], [Leaf("b", ["c"])]), Leaf("import", ["a"])], depth)
            == Some([Leaf("b", ["c"])])
  {
    var body, call := [Leaf("b", ["c"])], Leaf("import", ["a"]);
    var table: Snippets := map["a" := body];
    ExampleTable(env, body, call, table);
    TableMeaning(env, ["a"], table, [call], depth);
    ExampleFile(body, call, table);
    ImportInlines(table, call, body, Budget(depth));
  }

  lemma ExampleFile(body: seq<Node>, call: Node, table: Snippets)
    requires table == map["a" := body]
    ensures Declarations(["a"], table) + [call] == [Block("(a)", [], body), call]
  {
    assert "(" + "a" + ")" == "(a)";
    assert Declarations(["a"], table) == [Block("(a)", [], body)];
  }

  lemma {:induction false} OneArg(name: string, arg: string, env: Env, room: int)
    requires PlainText(name) && !IsBrace(name) && env.validName(name) && PlainText(arg) && !IsBrace(arg)
    ensures Readable(env, Leaf(name, [arg]), room) && (room >= 0 ==> AllReadable(env, [Leaf(name, [arg])], room))
  {
    var args, node := [arg], Leaf(name, [arg]);
    assert args[1..] == [] && GoodArgs(args[1..]);
    assert GoodArgs(args);
    assert Readable(env, node, room) && Readable(env, node, room - 1);
    assert [node][1..] == [];
    assert room >= 0 ==> AllReadable(env, [node][1..], room);
  }

  lemma {:induction false} ExampleTable(env: Env, body: seq<Node>, call: Node, table: Snippets)
    requires env.validName("b") && env.validName("import")
    requires body == [Leaf("b", ["c"])] && call == Leaf("import", ["a"]) && table == map["a" := body]
    ensures GoodTable(env, ["a"], table, [call])
  {
    ShortTexts();
    OneArg("b", "c", env, NESTING_LIMIT);
    OneArg("import", "a", env, NESTING_LIMIT);
    assert "a"[0] != '$' && !HasPrefix("a", "$(");
  }

  lemma ShortTexts()
    ensures PlainText("a") && PlainText("b") && PlainText("c") && PlainText("import")
    ensures !IsBrace("a") && !IsBrace("b") && !IsBrace("c") && !IsBrace("import")
  {
    OneCharPlain("a");
    OneCharPlain("b");
    OneCharPlain("c");
    NoDollar("import");
    assert "import"[0] != '(' && "import"[0] != '\\' && |"import"| == 6;
  }

  lemma {:induction false} NoDollar(t: Text)
    requires '$' !in t
    ensures !Contains(t, "$(")
  {
    if t == [] {
    } else {
      NoDollar(t[1..]);
      assert t[0] in t;
    }
  }

  lemma {:induction false} ImportInlines(table: Snippets, call: Node, body: seq<Node>, budget: nat)
    requires call == Leaf("import", ["a"]) && "a" in table && table["a"] == body && AllFree(body) && budget > 0
    ensures InlineList(table, [call], budget) == Some(body)
  {
    FreeStays(table, body, budget - 1);
    assert !ImportFree(call) && InlineNode(table, call, budget - 1) == Some(call);
    assert InlineOne(table, call, budget) == Some(body);
    assert [call][..0] == [] && InlineList(table, [], budget) == Some([]);
    assert [] + body == body;
  }

  // ---- Macros ----

  lemma {:induction false} ReplaceConcat(macros: Macros, sub: (Macros, string) -> Option<string>, a: seq<string>,
                                         b: seq<string>)
    requires ReplaceArgs(macros, sub, a).Some? && ReplaceArgs(macros, sub, b).Some?
    ensures ReplaceArgs(macros, sub, a + b)
            == Some(ReplaceArgs(macros, sub, a).value + ReplaceArgs(macros, sub, b).value)
    decreases |b|
  {
    if b == [] {
      assert a + b == a && ReplaceArgs(macros, sub, a).value + [] == ReplaceArgs(macros, sub, a).value;
    } else {
      var front, last := b[..|b| - 1], b[|b| - 1];
      assert (a + b)[..|a + b| - 1] == a + front;
      ReplaceConcat(macros, sub, a, front);
      Associative(ReplaceArgs(macros, sub, a).value, ReplaceArgs(macros, sub, front).value,
                  ReplaceArg(macros, sub, last).value);
    }
  }

  lemma Associative(a: seq<string>, b: seq<string>, c: seq<string>)
    ensures a + b + c == a + (b + c)
  {
  }

  function Reference(x: string): string {
    "$(" + x + ")"
  }

  lemma ReferenceIs(x: string)
    ensures IsReference(Reference(x)) && Reference(x)[2..|Reference(x)| - 1] == x && !IsSnippet(Reference(x))
  {
    var t := Reference(x);
    assert t[..2] == "$(" && t[|t| - 1..] == ")" && t[0] == '$';
  }

  /** Among plain arguments a reference stands for the values of its macro, or for nothing. */
  lemma {:induction false} ReferenceReplaced(macros: Macros, sub: (Macros, string) -> Option<string>, pre: seq<string>,
                                             x: string, post: seq<string>)
    requires PlainArgList(pre) && PlainArgList(post)
    ensures ReplaceArgs(macros, sub, pre + [Reference(x)] + post)
            == Some(pre + (if x in macros then macros[x] else []) + post)
  {
    var values := if x in macros then macros[x] else [];
    ArgsPlain(pre);
    ArgsPlain(post);
    PlainArgs(macros, sub, pre);
    PlainArgs(macros, sub, post);
    ReferenceIs(x);
    var one := [Reference(x)];
    assert one[..0] == [] && ReplaceArgs(macros, sub, one[..0]) == Some([]);
    assert [] + values == values;
    ReplaceConcat(macros, sub, pre, one);
    ReplaceConcat(macros, sub, pre + one, post);
  }

  lemma {:induction false} MacroTaken(env: Env, s: Sofar, x: string, values: seq<string>)
    requires x != "" && !IsReference(x) && values != [] && PlainArgList(values)
    ensures Took(env, 0, s, Leaf(Reference(x), ["="] + values)) == Some(s.(macros := s.macros[x := values]))
  {
    var node := Leaf(Reference(x), ["="] + values);
    ReferenceIs(x);
    assert node.args[1..] == values;
    ArgsPlain(values);
    PlainArgs(s.macros, env.substitute, values);
    assert Named(env, node) == Some(Heading(Leaf(x, values), false, true));
  }

  lemma {:induction false} UseTaken(env: Env, s: Sofar, name: string, pre: seq<string>, x: string, post: seq<string>)
    requires PlainText(name) && env.validName(name) && PlainArgList(pre) && PlainArgList(post)
    ensures Took(env, 0, s, Leaf(name, pre + [Reference(x)] + post))
            == Some(s.(nodes := s.nodes + [Leaf(name, pre + (if x in s.macros then s.macros[x] else []) + post)]))
  {
    ReferenceReplaced(s.macros, env.substitute, pre, x, post);
    PlainName(name);
    assert !IsReference(name);
  }

  /**
   The file `$(x) = values`, `name pre $(x) post` means `name pre values post`; without the first line it
   means `name pre post`.
   */
  lemma {:induction false} MacroMeaning(env: Env, x: string, values: seq<string>, name: string, pre: seq<string>,
                                        post: seq<string>, depth: nat)
    requires x != "" && !IsReference(x) && values != [] && PlainArgList(values)
    requires PlainText(name) && env.validName(name) && name != IMPORT && PlainArgList(pre) && PlainArgList(post)
    ensures var decl, use := Leaf(Reference(x), ["="] + values), Leaf(name, pre + [Reference(x)] + post);
            && FileMeaning(env, [decl, use], depth) == Some([Leaf(name, pre + values + post)])
            && FileMeaning(env, [use], depth) == Some([Leaf(name, pre + post)])
  {
    var decl, use := Leaf(Reference(x), ["="] + values), Leaf(name, pre + [Reference(x)] + post);
    var known := NOTHING.(macros := map[x := values]);
    MacroTaken(env, NOTHING, x, values);
    UseTaken(env, known, name, pre, x, post);
    UseTaken(env, NOTHING, name, pre, x, post);
    TwoTaken(env, decl, use, known);
    OneTaken(env, use);
    assert pre + [] == pre;
    FreeStays(map[], [Leaf(name, pre + values + post)], Budget(depth));
    FreeStays(map[], [Leaf(name, pre + post)], Budget(depth));
  }

  lemma {:induction false} OneTaken(env: Env, node: Node)
    ensures TookAll(env, 0, NOTHING, [node]) == Took(env, 0, NOTHING, node)
  {
    assert [node][..0] == [];
  }

  lemma {:induction false} TwoTaken(env: Env, a: Node, b: Node, s: Sofar)
    requires Took(env, 0, NOTHING, a) == Some(s)
    ensures TookAll(env, 0, NOTHING, [a, b]) == Took(env, 0, s, b)
  {
    OneTaken(env, a);
    assert [a, b][..1] == [a];
  }

  // ---- Errors ----

  /** In a block no snippet and no macro is declared: such a name there makes the file an error. */
  lemma {:induction false} DeclarationsOnTopOnly(env: Env, nodes: seq<Node>, i: nat, j: nat, depth: nat)
    requires i < |nodes| && nodes[i].Block? && j < |nodes[i].children|
    requires IsSnippet(nodes[i].children[j].name) || HasPrefix(nodes[i].children[j].name, "$(")
    ensures FileMeaning(env, nodes, depth).None?
  {
    var block := nodes[i].children;
    var front := TookAll(env, 0, NOTHING, nodes[..i]);
    if front.None? {
      TookFails(env, 0, NOTHING, nodes, i);
    } else {
      var s := front.value.(nodes := []);
      if TookAll(env, 1, s, block[..j]).Some? {
        TookMore(env, 1, s, block, j);
        NotDeclared(env, 1, TookAll(env, 1, s, block[..j]).value, block[j]);
        TookFails(env, 1, s, block, j + 1);
      } else {
        TookFails(env, 1, s, block, j);
      }
      TookMore(env, 0, NOTHING, nodes, i);
      TookFails(env, 0, NOTHING, nodes, i + 1);
    }
  }

  lemma {:induction false} NotDeclared(env: Env, nesting: int, s: Sofar, node: Node)
    requires nesting != 0 && (IsSnippet(node.name) || HasPrefix(node.name, "$("))
    ensures Took(env, nesting, s, node).None?
  {
    var inner := WithBlock(env, nesting, s, node);
    if inner.Some? {
      assert inner.value.name == node.name;
      if h :| Named(env, inner.value) == Some(h) { assert Kept(env, nesting, s, h).None?; }
    }
  }

  /** Blocks in blocks, so many deep. */
  function Nested(name: string, n: nat): Node {
    if n == 0 then Leaf(name, []) else Block(name, [], [Nested(name, n - 1)])
  }

  lemma {:induction false} NestedTaken(env: Env, s: Sofar, nesting: nat, name: string, n: nat)
    requires PlainText(name) && env.validName(name)
    ensures Took(env, nesting, s, Nested(name, n))
            == if n == 0 || nesting + n <= 256 then Some(s.(nodes := s.nodes + [Nested(name, n)])) else None
    decreases n
  {
    var node := Nested(name, n);
    PlainName(name);
    assert !IsReference(name);
    if n == 0 {
    } else {
      var inner, s0 := Nested(name, n - 1), s.(nodes := []);
      NestedTaken(env, s0, nesting + 1, name, n - 1);
      assert [inner][..0] == [];
      assert TookAll(env, nesting + 1, s0, [inner]) == Took(env, nesting + 1, s0, inner);
      assert [] + [inner] == [inner];
      NestedExpands(s.macros, env.substitute, name, n);
    }
  }

  lemma {:induction false} NestedExpands(macros: Macros, sub: (Macros, string) -> Option<string>, name: string, n: nat)
    requires PlainText(name)
    ensures ExpandNode(macros, sub, Nested(name, n)) == Some(Nested(name, n))
  {
    PlainName(name);
    assert !IsReference(name);
    if n == 0 {
      assert ReplaceArgs(macros, sub, []) == Some([]);
    } else {
      NestedExpands(macros, sub, name, n - 1);
      BlockExpands(macros, sub, name, Nested(name, n - 1));
    }
  }

  lemma {:induction false} BlockExpands(macros: Macros, sub: (Macros, string) -> Option<string>, name: string,
                                        inner: Node)
    requires !IsReference(name) && ExpandNode(macros, sub, inner) == Some(inner)
    ensures ExpandNode(macros, sub, Block(name, [], [inner])) == Some(Block(name, [], [inner]))
  {
    var list := [inner];
    assert list[..0] == [] && ExpandAll(macros, sub, list[..0]) == Some([]);
    assert ExpandAll(macros, sub, list) == Some([] + [inner]);
    assert [] + [inner] == list && ReplaceArgs(macros, sub, []) == Some([]);
  }

  /** Up to 256 blocks can be open. */
  lemma {:induction false} DepthIff(env: Env, name: string, n: nat, depth: nat)
    requires PlainText(name) && env.validName(name) && name != IMPORT
    ensures FileMeaning(env, [Nested(name, n)], depth) == if n <= 256 then Some([Nested(name, n)]) else None
  {
    OneTaken(env, Nested(name, n));
    NestedTaken(env, NOTHING, 0, name, n);
    NestedFree(name, n);
    FreeStays(map[], [Nested(name, n)], Budget(depth));
  }

  lemma {:induction false} NestedFree(name: string, n: nat)
    requires name != IMPORT
    ensures ImportFree(Nested(name, n))
  {
    if n == 0 {
    } else {
      NestedFree(name, n - 1);
    }
  }
}
