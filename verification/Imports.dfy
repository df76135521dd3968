/**
 Import expansion in the configuration parser (framework/cfgparser/imports.go): passes over the
 tree that splice in snippets until no import is left, bounded by a depth counter. The reference is
 direct inlining: replace each import by its inlined snippet, once.
 */
module Imports {
  import opened Uids

  /** A directive without a block, or with one. */
  datatype Node =
    | Leaf(name: string, args: seq<string>)
    | Block(name: string, args: seq<string>, children: seq<Node>)

  type Snippets = map<string, seq<Node>>

  const IMPORT := "import"
  const EXPANSION_LIMIT := 255

  predicate ImportFree(node: Node) {
    node.name != IMPORT && (node.Block? ==> forall i :: 0 <= i < |node.children| ==> ImportFree(node.children[i]))
  }

  predicate AllFree(nodes: seq<Node>) {
    forall i :: 0 <= i < |nodes| ==> ImportFree(nodes[i])
  }

  // ---- Direct inlining ----

  function Joined(a: Option<seq<Node>>, b: Option<seq<Node>>): Option<seq<Node>> {
    if a.Some? && b.Some? then Some(a.value + b.value) else None
  }

  /** What a snippet import stands for. */
  function Snippet(snips: Snippets, node: Node): Option<seq<Node>> {
    if |node.args| == 1 && node.args[0] in snips then Some(snips[node.args[0]]) else None
  }

  /**
   A list of nodes with every import replaced by its inlined snippet. On a way down to an import, each
   block entered and each import followed costs one of `budget`; what holds no import costs nothing.
   */
  function InlineList(snips: Snippets, nodes: seq<Node>, budget: nat): Option<seq<Node>>
    decreases budget, 1, |nodes|
  {
    if nodes == [] then Some([])
    else Joined(InlineList(snips, nodes[..|nodes| - 1], budget), InlineOne(snips, nodes[|nodes| - 1], budget))
  }

  function InlineOne(snips: Snippets, node: Node, budget: nat): Option<seq<Node>>
    decreases budget, 0, 0
  {
    if ImportFree(node) then Some([node])
    else if budget == 0 then None
    else
      var inner := InlineNode(snips, node, budget - 1);
      if inner.None? then None
      else if node.name != IMPORT then Some([inner.value])
      else if Snippet(snips, node).None? then None
      else InlineList(snips, Snippet(snips, node).value, budget - 1)
  }

  /** The node itself stays; its block, if it has one, is inlined. */
  function InlineNode(snips: Snippets, node: Node, budget: nat): Option<Node>
    decreases budget, 2, 0
  {
    match node
    case Leaf(_, _) => Some(node)
    case Block(name, args, children) =>
      var inner := InlineList(snips, children, budget);
      if inner.None? then None else Some(Block(name, args, inner.value))
  }

  // ---- Facts about inlining ----

  lemma {:induction false} InlineConcat(snips: Snippets, a: seq<Node>, b: seq<Node>, budget: nat)
    ensures InlineList(snips, a + b, budget) == Joined(InlineList(snips, a, budget), InlineList(snips, b, budget))
    decreases |b|
  {
    if b == [] {
      assert a + b == a;
      JoinedEmpty(InlineList(snips, a, budget));
    } else {
      var front, last := b[..|b| - 1], b[|b| - 1];
      assert (a + b)[..|a + b| - 1] == a + front;
      InlineConcat(snips, a, front, budget);
      JoinedAssoc(InlineList(snips, a, budget), InlineList(snips, front, budget), InlineOne(snips, last, budget));
    }
  }

  lemma JoinedEmpty(a: Option<seq<Node>>)
    ensures Joined(a, Some([])) == a
  {
    if a.Some? { assert a.value + [] == a.value; }
  }

  lemma JoinedAssoc(a: Option<seq<Node>>, b: Option<seq<Node>>, c: Option<seq<Node>>)
    ensures Joined(Joined(a, b), c) == Joined(a, Joined(b, c))
  {
    if a.Some? && b.Some? && c.Some? {
      assert a.value + b.value + c.value == a.value + (b.value + c.value);
    }
  }

  lemma {:induction false} FreeStays(snips: Snippets, nodes: seq<Node>, budget: nat)
    requires AllFree(nodes)
    ensures InlineList(snips, nodes, budget) == Some(nodes)
    decreases |nodes|
  {
    if nodes == [] {
    } else {
      FreeStays(snips, nodes[..|nodes| - 1], budget);
      assert nodes == nodes[..|nodes| - 1] + [nodes[|nodes| - 1]];
    }
  }

  lemma {:induction false} FreeNodeStays(snips: Snippets, node: Node, budget: nat)
    requires node.Block? ==> AllFree(node.children)
    ensures InlineNode(snips, node, budget) == Some(node)
  {
    if node.Block? { FreeStays(snips, node.children, budget); }
  }

  /** No import is left, at any depth. */
  lemma {:induction false} InlinedIsFree(snips: Snippets, nodes: seq<Node>, budget: nat)
    requires InlineList(snips, nodes, budget).Some?
    ensures AllFree(InlineList(snips, nodes, budget).value)
    decreases budget, |nodes|
  {
    if nodes == [] {
    } else {
      var front, last := nodes[..|nodes| - 1], nodes[|nodes| - 1];
      InlinedIsFree(snips, front, budget);
      assert AllFree(InlineOne(snips, last, budget).value) by {
        if !ImportFree(last) {
          assert InlineNode(snips, last, budget - 1).Some?;
          if last.name == IMPORT {
            InlinedIsFree(snips, Snippet(snips, last).value, budget - 1);
          } else if last.Block? {
            InlinedIsFree(snips, last.children, budget - 1);
          }
        }
      }
    }
  }

  lemma {:induction false} InlinedNodeIsFree(snips: Snippets, node: Node, budget: nat)
    requires InlineNode(snips, node, budget).Some?
    ensures var r := InlineNode(snips, node, budget).value;
            && r.name == node.name && r.args == node.args && (r.Block? <==> node.Block?)
            && (r.Block? ==> AllFree(r.children))
  {
    if node.Block? { InlinedIsFree(snips, node.children, budget); }
  }

  /** A larger budget never changes a result. */
  lemma {:induction false} BudgetGrows(snips: Snippets, nodes: seq<Node>, budget: nat, more: nat)
    requires InlineList(snips, nodes, budget).Some? && budget <= more
    ensures InlineList(snips, nodes, more) == InlineList(snips, nodes, budget)
    decreases budget, |nodes|
  {
    if nodes == [] {
    } else {
      var last := nodes[|nodes| - 1];
      BudgetGrows(snips, nodes[..|nodes| - 1], budget, more);
      if !ImportFree(last) {
        assert InlineNode(snips, last, budget - 1).Some?;
        assert InlineNode(snips, last, more - 1) == InlineNode(snips, last, budget - 1) by {
          if last.Block? { BudgetGrows(snips, last.children, budget - 1, more - 1); }
        }
        if last.name == IMPORT { BudgetGrows(snips, Snippet(snips, last).value, budget - 1, more - 1); }
      }
    }
  }

  // ---- The expansion ----

  /** What is left to spend at a depth: imports are followed down to depth 255. */
  function Budget(depth: nat): nat {
    if depth > EXPANSION_LIMIT then 0 else EXPANSION_LIMIT + 1 - depth
  }

  lemma {:induction false} ChildFails(snips: Snippets, children: seq<Node>, i: nat, budget: nat)
    requires i < |children| && InlineOne(snips, children[i], budget).None?
    ensures InlineList(snips, children, budget).None?
  {
    PrefixFails(snips, children, i + 1, budget);
  }

  lemma {:induction false} PrefixFails(snips: Snippets, children: seq<Node>, i: nat, budget: nat)
    requires 0 < i <= |children| && InlineOne(snips, children[i - 1], budget).None?
    ensures InlineList(snips, children, budget).None?
    decreases |children|
  {
    if i == |children| {
    } else {
      PrefixFails(snips, children[..|children| - 1], i, budget);
    }
  }

  /** One child of a pass: what it contributes now, and what that still needs. */
  lemma {:induction false} ChildPass(snips: Snippets, child: Node, depth: nat)
    ensures InlineNode(snips, child, Budget(depth + 1)).None? ==> InlineOne(snips, child, Budget(depth)).None?
    ensures InlineNode(snips, child, Budget(depth + 1)).Some? && child.name != IMPORT ==>
              InlineOne(snips, child, Budget(depth)) == Some([InlineNode(snips, child, Budget(depth + 1)).value])
    ensures child.name == IMPORT && (depth > EXPANSION_LIMIT || Snippet(snips, child).None?) ==>
              InlineOne(snips, child, Budget(depth)).None?
    ensures InlineNode(snips, child, Budget(depth + 1)).Some? && child.name == IMPORT && depth <= EXPANSION_LIMIT
            && Snippet(snips, child).Some? ==>
              InlineOne(snips, child, Budget(depth))
              == InlineList(snips, Snippet(snips, child).value, Budget(depth + 1))
  {
    if ImportFree(child) {
      FreeNodeStays(snips, child, Budget(depth + 1));
    } else if depth > EXPANSION_LIMIT && child.name != IMPORT {
      NoBudget(snips, child);
    }
  }

  lemma {:induction false} NoBudget(snips: Snippets, node: Node)
    requires !ImportFree(node) && node.name != IMPORT
    ensures InlineNode(snips, node, 0).None?
  {
    var i :| 0 <= i < |node.children| && !ImportFree(node.children[i]);
    ChildFails(snips, node.children, i, 0);
  }

  /** A pass that has gone through `done` takes one more child, which contributes `added`. */
  lemma {:induction false} PassOn(snips: Snippets, done: seq<Node>, child: Node, result: seq<Node>, added: seq<Node>,
                                  budget: nat, next: nat)
    requires InlineList(snips, done, budget) == InlineList(snips, result, next)
    requires InlineOne(snips, child, budget) == InlineList(snips, added, next)
    ensures InlineList(snips, done + [child], budget) == InlineList(snips, result + added, next)
  {
    assert (done + [child])[..|done|] == done;
    InlineConcat(snips, result, added, next);
  }

  /** Where a pass stands: what it has made of the first children, and whether an import was among them. */
  ghost predicate Passing(snips: Snippets, done: seq<Node>, result: seq<Node>, depth: nat, imports: bool) {
    && InlineList(snips, done, Budget(depth)) == InlineList(snips, result, Budget(depth + 1))
    && (if imports then depth <= EXPANSION_LIMIT else AllFree(result))
  }

  lemma {:induction false} PassChild(snips: Snippets, children: seq<Node>, i: nat, result: seq<Node>, added: seq<Node>,
                                     depth: nat, imports: bool, isImport: bool)
    requires i < |children| && Passing(snips, children[..i], result, depth, imports)
    requires InlineOne(snips, children[i], Budget(depth)) == InlineList(snips, added, Budget(depth + 1))
    requires if isImport then depth <= EXPANSION_LIMIT else AllFree(added)
    ensures Passing(snips, children[..i + 1], result + added, depth, imports || isImport)
  {
    OneMore(children, i);
    PassOn(snips, children[..i], children[i], result, added, Budget(depth), Budget(depth + 1));
    if !imports && !isImport { FreeConcat(result, added); }
  }

  lemma OneMore(children: seq<Node>, i: nat)
    requires i < |children|
    ensures children[..i + 1] == children[..i] + [children[i]]
  {
  }

  lemma {:induction false} FreeConcat(a: seq<Node>, b: seq<Node>)
    requires AllFree(a) && AllFree(b)
    ensures AllFree(a + b)
  {
  }

  /** One child of a pass: expanded itself and, if it is an import, replaced by its snippet. */
  method ExpandChild(snips: Snippets, node: Node, depth: nat) returns (added: Option<seq<Node>>, isImport: bool)
    ensures added.None? ==> InlineOne(snips, node, Budget(depth)).None?
    ensures added.Some? ==> InlineOne(snips, node, Budget(depth)) == InlineList(snips, added.value, Budget(depth + 1))
    ensures added.Some? && !isImport ==> AllFree(added.value)
    ensures isImport ==> depth <= EXPANSION_LIMIT
    decreases Budget(depth), node, 2
  {
    ChildPass(snips, node, depth);
    var child := ExpandImports(snips, node, depth + 1);
    if child.None? {
      return None, false;
    }
    InlinedNodeIsFree(snips, node, Budget(depth + 1));
    if child.value.name == IMPORT {
      if depth > EXPANSION_LIMIT {
        return None, false;
      }
      if |child.value.args| != 1 || child.value.args[0] !in snips {
        return None, true;
      }
      return Some(snips[child.value.args[0]]), true;
    }
    FreeStays(snips, [child.value], Budget(depth + 1));
    return Some([child.value]), false;
  }

  /** One pass over the children of a block. */
  method Pass(snips: Snippets, node: Node, depth: nat) returns (result: Option<seq<Node>>, containsImports: bool)
    requires node.Block?
    ensures result.None? ==> InlineList(snips, node.children, Budget(depth)).None?
    ensures result.Some? ==> Passing(snips, node.children, result.value, depth, containsImports)
    decreases Budget(depth), node, 0
  {
    var newChildren: seq<Node> := [];
    containsImports := false;
    for i := 0 to |node.children|
      invariant Passing(snips, node.children[..i], newChildren, depth, containsImports)
    {
      var added, isImport := ExpandChild(snips, node.children[i], depth);
      if added.None? {
        ChildFails(snips, node.children, i, Budget(depth));
        return None, containsImports;
      }
      PassChild(snips, node.children, i, newChildren, added.value, depth, containsImports, isImport);
      containsImports := containsImports || isImport;
      newChildren := newChildren + added.value;
    }
    assert node.children[..|node.children|] == node.children;
    result := Some(newChildren);
  }

  /**
   Passes over the tree. Nothing but direct inlining within the budget of the depth: same result,
   and an error in the same cases.
   */
  method ExpandImports(snips: Snippets, node: Node, depth: nat) returns (r: Option<Node>)
    ensures r == InlineNode(snips, node, Budget(depth))
    decreases Budget(depth), node, 1
  {
    if node.Leaf? {
      return Some(node);
    }
    var newChildren, containsImports := Pass(snips, node, depth);
    if newChildren.None? {
      return None;
    }
    if containsImports {
      r := ExpandImports(snips, Block(node.name, node.args, newChildren.value), depth + 1);
      return;
    }
    FreeStays(snips, newChildren.value, Budget(depth + 1));
    r := Some(Block(node.name, node.args, newChildren.value));
  }

  // ---- Which imports can be expanded ----

  /** Somewhere in the tree one of these names is imported. */
  predicate Mentions(node: Node, names: set<string>) {
    || (node.name == IMPORT && |node.args| == 1 && node.args[0] in names)
    || (node.Block? && exists i :: 0 <= i < |node.children| && Mentions(node.children[i], names))
  }

  predicate AnyMentions(nodes: seq<Node>, names: set<string>) {
    exists i :: 0 <= i < |nodes| && Mentions(nodes[i], names)
  }

  /** Names that lead back among themselves, or nowhere. */
  predicate Trap(snips: Snippets, names: set<string>) {
    forall name :: name in names && name in snips ==> AnyMentions(snips[name], names)
  }

  lemma {:induction false} MentionsImport(node: Node, names: set<string>)
    requires Mentions(node, names)
    ensures !ImportFree(node)
    decreases node
  {
    if node.name != IMPORT {
      var i :| 0 <= i < |node.children| && Mentions(node.children[i], names);
      MentionsImport(node.children[i], names);
    }
  }

  lemma {:induction false} TrapFails(snips: Snippets, names: set<string>, nodes: seq<Node>, budget: nat)
    requires Trap(snips, names) && AnyMentions(nodes, names)
    ensures InlineList(snips, nodes, budget).None?
    decreases budget
  {
    var i :| 0 <= i < |nodes| && Mentions(nodes[i], names);
    MentionsImport(nodes[i], names);
    if budget > 0 {
      if nodes[i].name == IMPORT && |nodes[i].args| == 1 && nodes[i].args[0] in names {
        if nodes[i].args[0] in snips {
          TrapFails(snips, names, snips[nodes[i].args[0]], budget - 1);
        }
      } else {
        TrapFails(snips, names, nodes[i].children, budget - 1);
        assert InlineNode(snips, nodes[i], budget - 1).None?;
      }
    }
    ChildFails(snips, nodes, i, budget);
  }

  /** A cycle of snippets that is reached from the tree, or an unknown name, is an error at any depth. */
  lemma {:induction false} CyclesFail(snips: Snippets, names: set<string>, node: Node, depth: nat)
    requires Trap(snips, names) && node.Block? && AnyMentions(node.children, names)
    ensures InlineNode(snips, node, Budget(depth)).None?
  {
    TrapFails(snips, names, node.children, Budget(depth));
  }

  /** Every import names one known snippet of a rank below `k`. */
  predicate Below(snips: Snippets, rank: map<string, nat>, node: Node, k: nat) {
    && (node.name == IMPORT ==>
          |node.args| == 1 && node.args[0] in snips && node.args[0] in rank && rank[node.args[0]] < k)
    && (node.Block? ==> forall i :: 0 <= i < |node.children| ==> Below(snips, rank, node.children[i], k))
  }

  predicate AllBelow(snips: Snippets, rank: map<string, nat>, nodes: seq<Node>, k: nat) {
    forall i :: 0 <= i < |nodes| ==> Below(snips, rank, nodes[i], k)
  }

  /** No snippet leads back to itself: imports go down in rank. */
  predicate Acyclic(snips: Snippets, rank: map<string, nat>) {
    forall name :: name in snips && name in rank ==> AllBelow(snips, rank, snips[name], rank[name])
  }

  /** Without cycles and unknown names, some budget is enough. */
  lemma {:induction false} AcyclicInlines(snips: Snippets, rank: map<string, nat>, nodes: seq<Node>, k: nat)
    returns (budget: nat)
    requires Acyclic(snips, rank) && AllBelow(snips, rank, nodes, k)
    ensures InlineList(snips, nodes, budget).Some?
    decreases k, nodes
  {
    budget := 0;
    var done: seq<Node> := [];
    for i := 0 to |nodes|
      invariant done == nodes[..i] && InlineList(snips, done, budget).Some?
    {
      var one := AcyclicOne(snips, rank, nodes[i], k);
      var more := if one < budget then budget else one;
      BudgetGrows(snips, done, budget, more);
      BudgetGrows(snips, [nodes[i]], one, more);
      InlineConcat(snips, done, [nodes[i]], more);
      budget := more;
      done := done + [nodes[i]];
      assert done == nodes[..i + 1];
    }
    assert done == nodes;
  }

  lemma {:induction false} AcyclicOne(snips: Snippets, rank: map<string, nat>, node: Node, k: nat) returns (budget: nat)
    requires Acyclic(snips, rank) && Below(snips, rank, node, k)
    ensures InlineList(snips, [node], budget).Some?
    decreases k, node
  {
    if ImportFree(node) {
      FreeStays(snips, [node], 0);
      return 0;
    }
    var inner, outer := 0, 0;
    if node.Block? {
      inner := AcyclicInlines(snips, rank, node.children, k);
    }
    if node.name == IMPORT {
      outer := AcyclicInlines(snips, rank, snips[node.args[0]], rank[node.args[0]]);
    }
    budget := 1 + if inner < outer then outer else inner;
    if node.Block? { BudgetGrows(snips, node.children, inner, budget - 1); }
    assert InlineNode(snips, node, budget - 1).Some?;
    if node.name == IMPORT { BudgetGrows(snips, snips[node.args[0]], outer, budget - 1); }
    assert InlineOne(snips, node, budget).Some?;
    assert [node][..0] == [];
  }

  // ---- How far imports can be followed ----

  /** The names a, aa, aaa, ... */
  function ChainName(k: nat): string {
    seq(k + 1, _ => 'a')
  }

  /** Each of these snippets imports the one before; the first is empty. */
  function Chain(n: nat): Snippets {
    if n == 0 then map[ChainName(0) := []] else Chain(n - 1)[ChainName(n) := [Leaf(IMPORT, [ChainName(n - 1)])]]
  }

  lemma {:induction false} ChainHas(n: nat, k: nat)
    requires k <= n
    ensures ChainName(k) in Chain(n)
    ensures Chain(n)[ChainName(k)] == if k == 0 then [] else [Leaf(IMPORT, [ChainName(k - 1)])]
    decreases n
  {
    if k < n {
      assert |ChainName(k)| != |ChainName(n)|;
      ChainHas(n - 1, k);
    }
  }

  lemma {:induction false} ChainInlines(n: nat, k: nat, budget: nat)
    requires k <= n
    ensures InlineList(Chain(n), [Leaf(IMPORT, [ChainName(k)])], budget) == if k < budget then Some([]) else None
    decreases k
  {
    var call := Leaf(IMPORT, [ChainName(k)]);
    ChainHas(n, k);
    assert [call][..0] == [] && InlineList(Chain(n), [call][..0], budget) == Some([]);
    assert !ImportFree(call);
    if budget > 0 {
      if k > 0 { ChainInlines(n, k - 1, budget - 1); }
      assert InlineNode(Chain(n), call, budget - 1) == Some(call);
      assert InlineOne(Chain(n), call, budget) == InlineList(Chain(n), Chain(n)[ChainName(k)], budget - 1);
      assert Joined(Some([]), Some([])) == Some([]) by { var none: seq<Node> := []; assert none + none == none; }
    }
  }

  /** From the top of a file 256 imports can be followed one into the other, and no more. */
  lemma {:induction false} ChainIff(n: nat)
    ensures InlineList(Chain(n), [Leaf(IMPORT, [ChainName(n)])], Budget(0)) == if n < 256 then Some([]) else None
  {
    ChainInlines(n, n, Budget(0));
  }
}
