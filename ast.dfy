/**
 * The parsed stylesheet tree and the traversals over it (src/utils/ast.ts).
 * A node has a type, the fields the rules read, and up to four links that the
 * walkers follow: the `children` list, `prelude`, `block` and `value`.
 */
module Ast {
  import opened Wrappers
  import opened Strings

  datatype NodeType =
    | StyleSheet | Rule | Atrule | AtrulePrelude | Block | Declaration | Value
    | FunctionNode | StringNode | Raw | SelectorList | Selector | PseudoClassSelector
    | Identifier | Other

  datatype Position = Position(line: nat, column: nat, offset: nat)
  datatype Loc = Loc(start: Position, end: Position)

  /**
   * A node. `name` is the name of an at-rule, function or pseudo-class;
   * `property` and `important` belong to declarations; `str` is the value of
   * a string node. `hasChildren` says whether the node has a `children` array.
   */
  datatype Node = Node(
    kind: NodeType,
    name: string,
    property: string,
    important: bool,
    str: string,
    hasChildren: bool,
    children: seq<Node>,
    prelude: Option<Node>,
    block: Option<Node>,
    value: Option<Node>,
    loc: Option<Loc>)

  /** One call of the visitor: the node, and its parent (none for the root). */
  datatype Visit = Visit(node: Node, parent: Option<Node>)

  /** The nodes that `walk` and `getChildrenOfType` descend into from `n`, in order. */
  function Links(n: Node): seq<Node>
  {
    (if n.hasChildren then n.children else [])
    + (if n.prelude.Some? then [n.prelude.value] else [])
    + (if n.block.Some? then [n.block.value] else [])
    + (if n.value.Some? then [n.value.value] else [])
  }

  /**
   * `walk(node, visitor, parent)`: the visitor calls in order. The node comes
   * first, then the walks of its children in array order, then of the
   * prelude, the block and the value.
   */
  function Walk(n: Node, parent: Option<Node>): (r: seq<Visit>)
    ensures |r| >= 1 && r[0] == Visit(n, parent)
    decreases n, 2
  {
    [Visit(n, parent)] + WalkBelow(n)
  }

  /** The visits below `n`: its links' walks, each with parent `n`. */
  function WalkBelow(n: Node): seq<Visit>
    decreases n, 1
  {
    (if n.hasChildren then WalkAll(n.children, n) else []) + WalkLinks(n)
  }

  /** The walks of the prelude, the block and the value, in that order. */
  function WalkLinks(n: Node): seq<Visit>
    decreases n, 0
  {
    WalkOpt(n.prelude, n) + WalkOpt(n.block, n) + WalkOpt(n.value, n)
  }

  function WalkOpt(o: Option<Node>, p: Node): seq<Visit>
    decreases o
  {
    if o.Some? then Walk(o.value, Some(p)) else []
  }

  /** The walks of the nodes of `cs`, one after the other, all with parent `p`. */
  function WalkAll(cs: seq<Node>, p: Node): (r: seq<Visit>)
    decreases cs
  {
    if cs == [] then [] else Walk(cs[0], Some(p)) + WalkAll(cs[1..], p)
  }

  /** Every visit in `vs` receives, as parent, a node that links to it. */
  predicate ParentsLink(vs: seq<Visit>)
  {
    forall i :: 0 <= i < |vs| ==> vs[i].parent.Some? && vs[i].node in Links(vs[i].parent.value)
  }

  lemma ParentsLinkConcat(a: seq<Visit>, b: seq<Visit>)
    requires ParentsLink(a) && ParentsLink(b)
    ensures ParentsLink(a + b)
  {
    forall i | 0 <= i < |a + b| ensures (a + b)[i].parent.Some? && (a + b)[i].node in Links((a + b)[i].parent.value) {
      if i < |a| { assert (a + b)[i] == a[i]; } else { assert (a + b)[i] == b[i - |a|]; }
    }
  }

  /** The walk of a node linked from `p`, called with parent `p`. */
  lemma LinkedWalkParents(c: Node, p: Node)
    requires c in Links(p)
    ensures ParentsLink(Walk(c, Some(p)))
    decreases c, 3
  {
    var w := Walk(c, Some(p));
    WalkParents(c, Some(p));
    assert w == [w[0]] + w[1..];
    ParentsLinkConcat([w[0]], w[1..]);
  }

  /** Every visit but the first receives, as parent, a node that links to it. */
  lemma {:induction false} WalkParents(n: Node, parent: Option<Node>)
    ensures ParentsLink(Walk(n, parent)[1..])
    decreases n, 2
  {
    assert Walk(n, parent)[1..] == WalkBelow(n);
    WalkBelowParents(n);
  }

  lemma {:induction false} WalkBelowParents(n: Node)
    ensures ParentsLink(WalkBelow(n))
    decreases n, 1
  {
    var c := if n.hasChildren then WalkAll(n.children, n) else [];
    if n.hasChildren { WalkAllParents(n.children, n); }
    WalkLinksParents(n);
    ParentsLinkConcat(c, WalkLinks(n));
  }

  lemma {:induction false} WalkLinksParents(n: Node)
    ensures ParentsLink(WalkLinks(n))
    decreases n, 0
  {
    WalkOptParents(n.prelude, n);
    WalkOptParents(n.block, n);
    WalkOptParents(n.value, n);
    ParentsLinkConcat(WalkOpt(n.prelude, n), WalkOpt(n.block, n));
    ParentsLinkConcat(WalkOpt(n.prelude, n) + WalkOpt(n.block, n), WalkOpt(n.value, n));
  }

  lemma {:induction false} WalkOptParents(o: Option<Node>, p: Node)
    requires o == p.prelude || o == p.block || o == p.value
    ensures ParentsLink(WalkOpt(o, p))
    decreases o
  {
    if o.Some? {
      assert o.value in Links(p);
      LinkedWalkParents(o.value, p);
    }
  }

  lemma {:induction false} WalkAllParents(cs: seq<Node>, p: Node)
    requires p.hasChildren && forall k :: 0 <= k < |cs| ==> cs[k] in p.children
    ensures ParentsLink(WalkAll(cs, p))
    decreases cs
  {
    if cs != [] {
      assert cs[0] in Links(p);
      LinkedWalkParents(cs[0], p);
      WalkAllParents(cs[1..], p);
      ParentsLinkConcat(Walk(cs[0], Some(p)), WalkAll(cs[1..], p));
    }
  }

  /** The nodes reached from `n`, in walk order. */
  function Nodes(n: Node): (r: seq<Node>)
    ensures |r| >= 1 && r[0] == n
    decreases n, 2
  {
    [n] + NodesBelow(n)
  }

  function NodesBelow(n: Node): seq<Node>
    decreases n, 1
  {
    (if n.hasChildren then NodesAll(n.children) else []) + NodesLinks(n)
  }

  /** The nodes under the prelude, the block and the value, in that order. */
  function NodesLinks(n: Node): seq<Node>
    decreases n, 0
  {
    NodesOpt(n.prelude) + NodesOpt(n.block) + NodesOpt(n.value)
  }

  function NodesOpt(o: Option<Node>): seq<Node>
    decreases o
  {
    if o.Some? then Nodes(o.value) else []
  }

  function NodesAll(cs: seq<Node>): seq<Node>
    decreases cs
  {
    if cs == [] then [] else Nodes(cs[0]) + NodesAll(cs[1..])
  }

  function VisitNodes(vs: seq<Visit>): (r: seq<Node>)
    ensures |r| == |vs|
    ensures forall i :: 0 <= i < |vs| ==> r[i] == vs[i].node
  {
    if vs == [] then [] else [vs[0].node] + VisitNodes(vs[1..])
  }

  lemma {:induction false} VisitNodesConcat(a: seq<Visit>, b: seq<Visit>)
    ensures VisitNodes(a + b) == VisitNodes(a) + VisitNodes(b)
  {
    var l, r := VisitNodes(a + b), VisitNodes(a) + VisitNodes(b);
    forall i | 0 <= i < |r| ensures l[i] == r[i] {
      if i < |a| { assert (a + b)[i] == a[i]; } else { assert (a + b)[i] == b[i - |a|]; }
    }
  }

  /** The nodes the visitor receives are exactly `Nodes(n)`, in that order, whatever the parent. */
  lemma {:induction false} WalkNodes(n: Node, parent: Option<Node>)
    ensures VisitNodes(Walk(n, parent)) == Nodes(n)
    decreases n, 2
  {
    WalkBelowNodes(n);
    VisitNodesConcat([Visit(n, parent)], WalkBelow(n));
  }

  lemma {:induction false} WalkBelowNodes(n: Node)
    ensures VisitNodes(WalkBelow(n)) == NodesBelow(n)
    decreases n, 1
  {
    var c := if n.hasChildren then WalkAll(n.children, n) else [];
    if n.hasChildren { WalkAllNodes(n.children, n); }
    WalkLinksNodes(n);
    VisitNodesConcat(c, WalkLinks(n));
  }

  lemma {:induction false} WalkLinksNodes(n: Node)
    ensures VisitNodes(WalkLinks(n)) == NodesLinks(n)
    decreases n, 0
  {
    var p, b, v := WalkOpt(n.prelude, n), WalkOpt(n.block, n), WalkOpt(n.value, n);
    WalkOptNodes(n.prelude, n);
    WalkOptNodes(n.block, n);
    WalkOptNodes(n.value, n);
    VisitNodesConcat(p + b, v);
    VisitNodesConcat(p, b);
  }

  lemma {:induction false} WalkOptNodes(o: Option<Node>, p: Node)
    ensures VisitNodes(WalkOpt(o, p)) == NodesOpt(o)
    decreases o
  {
    if o.Some? { WalkNodes(o.value, Some(p)); }
  }

  lemma {:induction false} WalkAllNodes(cs: seq<Node>, p: Node)
    ensures VisitNodes(WalkAll(cs, p)) == NodesAll(cs)
    decreases cs
  {
    if cs != [] {
      WalkNodes(cs[0], Some(p));
      WalkAllNodes(cs[1..], p);
      VisitNodesConcat(Walk(cs[0], Some(p)), WalkAll(cs[1..], p));
    }
  }

  /** The nodes of type `t` in `ns`, in order. */
  function OfType(ns: seq<Node>, t: NodeType): (r: seq<Node>)
  {
    if ns == [] then []
    else (if ns[0].kind == t then [ns[0]] else []) + OfType(ns[1..], t)
  }

  /** The filter keeps exactly the members of type `t`. */
  lemma {:induction false} OfTypeMembers(ns: seq<Node>, t: NodeType)
    ensures forall x :: x in OfType(ns, t) <==> x in ns && x.kind == t
  {
    if ns != [] {
      OfTypeMembers(ns[1..], t);
      assert ns == [ns[0]] + ns[1..];
    }
  }

  lemma {:induction false} OfTypeConcat(a: seq<Node>, b: seq<Node>, t: NodeType)
    ensures OfType(a + b, t) == OfType(a, t) + OfType(b, t)
  {
    if a == [] {
      assert a + b == b;
    } else {
      assert (a + b)[0] == a[0];
      assert (a + b)[1..] == a[1..] + b;
      OfTypeConcat(a[1..], b, t);
    }
  }

  /** The specification of `getChildrenOfType(n, t)`: the type-`t` nodes of the walk from `n`, `n` included. */
  function ChildrenOfType(n: Node, t: NodeType): (r: seq<Node>)
    ensures n.kind == t ==> r != [] && r[0] == n
    ensures forall x :: x in r <==> x in Nodes(n) && x.kind == t
  {
    OfTypeMembers(Nodes(n), t);
    OfType(Nodes(n), t)
  }

  /**
   * `getChildrenOfType`: the inner `traverse` pushes the node if it has the
   * type, then recurses into the links in walk order.
   */
  method GetChildrenOfType(n: Node, t: NodeType) returns (results: seq<Node>)
    ensures results == ChildrenOfType(n, t)
  {
    results := Traverse(n, t, []);
  }

  method Traverse(n: Node, t: NodeType, acc: seq<Node>) returns (results: seq<Node>)
    ensures results == acc + OfType(Nodes(n), t)
    decreases n, 2
  {
    results := acc;
    if n.kind == t {
      results := results + [n];
    }
    assert results == acc + OfType([n], t);
    results := TraverseBelow(n, t, results);
    OfTypeConcat([n], NodesBelow(n), t);
  }

  method TraverseBelow(n: Node, t: NodeType, acc: seq<Node>) returns (results: seq<Node>)
    ensures results == acc + OfType(NodesBelow(n), t)
    decreases n, 1
  {
    results := acc;
    if n.hasChildren {
      results := TraverseAll(n.children, t, results);
    }
    ghost var c := if n.hasChildren then NodesAll(n.children) else [];
    assert results == acc + OfType(c, t);
    results := TraverseLinks(n, t, results);
    OfTypeConcat(c, NodesLinks(n), t);
  }

  method TraverseLinks(n: Node, t: NodeType, acc: seq<Node>) returns (results: seq<Node>)
    ensures results == acc + OfType(NodesLinks(n), t)
    decreases n, 0
  {
    ghost var p, b, v := NodesOpt(n.prelude), NodesOpt(n.block), NodesOpt(n.value);
    results := TraverseOpt(n.prelude, t, acc);
    results := TraverseOpt(n.block, t, results);
    OfTypeConcat(p, b, t);
    results := TraverseOpt(n.value, t, results);
    OfTypeConcat(p + b, v, t);
  }

  method TraverseOpt(o: Option<Node>, t: NodeType, acc: seq<Node>) returns (results: seq<Node>)
    ensures results == acc + OfType(NodesOpt(o), t)
    decreases o
  {
    if o.Some? {
      results := Traverse(o.value, t, acc);
    } else {
      results := acc;
    }
  }

  method TraverseAll(cs: seq<Node>, t: NodeType, acc: seq<Node>) returns (results: seq<Node>)
    ensures results == acc + OfType(NodesAll(cs), t)
    decreases cs
  {
    results := acc;
    var i := 0;
    while i < |cs|
      invariant 0 <= i <= |cs|
      invariant results == acc + OfType(NodesAll(cs[..i]), t)
    {
      results := Traverse(cs[i], t, results);
      NodesAllSnoc(cs[..i], cs[i]);
      assert cs[..i + 1] == cs[..i] + [cs[i]];
      OfTypeConcat(NodesAll(cs[..i]), Nodes(cs[i]), t);
      i := i + 1;
    }
    assert cs[..i] == cs;
  }

  lemma {:induction false} NodesAllSnoc(cs: seq<Node>, c: Node)
    ensures NodesAll(cs + [c]) == NodesAll(cs) + Nodes(c)
    decreases cs
  {
    if cs == [] {
      assert [c][1..] == [];
    } else {
      assert (cs + [c])[1..] == cs[1..] + [c];
      NodesAllSnoc(cs[1..], c);
    }
  }

  /** `getNodeText`: empty without a location, else the source text between the two offsets. */
  function GetNodeText(n: Node, text: string): (r: string)
    ensures n.loc.None? ==> r == []
    ensures n.loc.Some? && n.loc.value.start.offset <= n.loc.value.end.offset <= |text|
      ==> r == text[n.loc.value.start.offset..n.loc.value.end.offset]
  {
    if n.loc.None? then [] else Slice(text, n.loc.value.start.offset, n.loc.value.end.offset)
  }

  /** `isNodeType(node, type)`. */
  predicate IsNodeType(n: Option<Node>, t: NodeType)
  {
    n.Some? && n.value.kind == t
  }

  /**
   * `isAtRule(node, name)`. The name is optional and tested for
   * truthiness, so the empty name, like a missing one, accepts every at-rule.
   */
  function IsAtRule(n: Option<Node>, name: string): (r: bool)
    ensures r <==> n.Some? && n.value.kind == Atrule && (name == [] || n.value.name == name)
  {
    if !IsNodeType(n, Atrule) then false
    else if name != [] then n.value.name == name
    else true
  }

  /** `getDeclarations`: none without a block, else every declaration at any depth under the block. */
  function GetDeclarations(n: Node): (r: seq<Node>)
    ensures n.block.None? ==> r == []
    ensures n.block.Some? ==> forall x :: x in r <==> x in Nodes(n.block.value) && x.kind == Declaration
  {
    if n.block.None? then [] else ChildrenOfType(n.block.value, Declaration)
  }

  /** `getFunctions`: the function nodes at or under `v`. */
  function GetFunctions(v: Option<Node>): (r: seq<Node>)
    ensures v.None? ==> r == []
    ensures v.Some? ==> forall x :: x in r <==> x in Nodes(v.value) && x.kind == FunctionNode
  {
    if v.None? then [] else ChildrenOfType(v.value, FunctionNode)
  }

  /** `hasFunction(value, name)`: some function node at or under `value` has that name. */
  function HasFunction(v: Option<Node>, f: string): (r: bool)
    ensures r <==> v.Some? && exists x :: x in Nodes(v.value) && x.kind == FunctionNode && x.name == f
  {
    var fs := GetFunctions(v);
    exists i :: 0 <= i < |fs| && fs[i].name == f
  }

  /** `hasPseudoClass(selector, name)`: some pseudo-class node at or under the selector has that name. */
  function HasPseudoClass(sel: Option<Node>, pc: string): (r: bool)
    ensures r <==> sel.Some? && exists x :: x in Nodes(sel.value) && x.kind == PseudoClassSelector && x.name == pc
  {
    if sel.None? then false
    else
      var ps := ChildrenOfType(sel.value, PseudoClassSelector);
      exists i :: 0 <= i < |ps| && ps[i].name == pc
  }
}
