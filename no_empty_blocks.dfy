/**
 * The `no-empty-blocks` rule (src/rules/no-empty-blocks.ts): a style rule
 * with an empty block, and an at-rule whose block is present but empty, get
 * `emptyBlock`; block-less at-rules are never reported.
 */
module NoEmptyBlocks {
  import opened Wrappers
  import opened Ast
  import opened Lint

  /** `isEmptyBlock`: no block, a block without a `children` array, or no children. */
  predicate IsEmptyBlock(block: Option<Node>)
  {
    block.None? || !block.value.hasChildren || block.value.children == []
  }

  function EmptyBlock(n: Node, kind: string): Report
  {
    Report("emptyBlock", map["type" := kind], OnNode(n), None)
  }

  /** The `Rule` and `Atrule` visitors on one node. */
  function CheckNode(n: Node): seq<Report>
  {
    if n.kind == Rule && IsEmptyBlock(n.block) then [EmptyBlock(n, "rule")]
    else if n.kind == Atrule && n.block.Some? && IsEmptyBlock(n.block) then [EmptyBlock(n, "@" + n.name)]
    else []
  }

  /** The reports for a whole stylesheet, in walk order. */
  function Check(root: Node): seq<Report>
  {
    ConcatMap(Nodes(root), CheckNode)
  }

  /** The nodes the rule reports: rules with an empty block, at-rules with a present empty block. */
  predicate Reported(n: Node)
  {
    (n.kind == Rule && IsEmptyBlock(n.block))
    || (n.kind == Atrule && n.block.Some? && (!n.block.value.hasChildren || n.block.value.children == []))
  }

  /** At most one report per node: with type `rule` on a rule, `@` and the name on an at-rule, iff the node is `Reported`. */
  lemma NodeReport(n: Node)
    ensures |CheckNode(n)| <= 1
    ensures CheckNode(n) != [] <==> Reported(n)
    ensures CheckNode(n) != [] ==> CheckNode(n)[0] == EmptyBlock(n, if n.kind == Rule then "rule" else "@" + n.name)
  {
  }

  /** A node of the walk is reported iff it is `Reported`, and every report is on such a node. */
  lemma ReportedIff(root: Node, n: Node)
    requires n in Nodes(root)
    ensures (exists r :: r in Check(root) && r.at == OnNode(n)) <==> Reported(n)
  {
    var ns := Nodes(root);
    if Reported(n) {
      ReportOfNode(ns, n);
    }
    if exists r :: r in ConcatMap(ns, CheckNode) && r.at == OnNode(n) {
      var r :| r in ConcatMap(ns, CheckNode) && r.at == OnNode(n);
      ConcatMapFrom(ns, CheckNode, r);
      var i :| 0 <= i < |ns| && r in CheckNode(ns[i]);
      NodeReport(ns[i]);
    }
  }

  /** A `Reported` node of the walk has its report among the reports. */
  lemma ReportOfNode(ns: seq<Node>, n: Node)
    requires n in ns && Reported(n)
    ensures exists r :: r in ConcatMap(ns, CheckNode) && r.at == OnNode(n)
  {
    NodeReport(n);
    var i :| 0 <= i < |ns| && ns[i] == n;
    ConcatMapHas(ns, CheckNode, i, CheckNode(n)[0]);
    assert CheckNode(n)[0].at == OnNode(n);
  }

  /** An at-rule without a block, such as `@import "x";`, is never reported. */
  lemma BlocklessAtRule(root: Node, n: Node)
    requires n.kind == Atrule && n.block.None?
    ensures forall r :: r in Check(root) ==> r.at != OnNode(n)
  {
    forall r | r in Check(root) ensures r.at != OnNode(n) {
      ConcatMapFrom(Nodes(root), CheckNode, r);
    }
  }
}
