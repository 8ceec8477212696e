/**
 * The `no-important` rule (src/rules/no-important.ts): the walk of the
 * stylesheet reports `avoidImportant` on every declaration marked
 * `!important`, in walk order.
 */
module NoImportant {
  import opened Wrappers
  import opened Ast
  import opened Lint

  predicate IsImportantDeclaration(n: Node)
  {
    n.kind == Declaration && n.important
  }

  function AvoidImportant(n: Node): Report
  {
    Report("avoidImportant", map[], OnNode(n), None)
  }

  /** The walk callback. */
  function CheckNode(n: Node): seq<Report>
  {
    if IsImportantDeclaration(n) then [AvoidImportant(n)] else []
  }

  /** The `StyleSheet` visitor: the callback on every node of the walk. */
  function Check(root: Node): seq<Report>
  {
    ConcatMap(Nodes(root), CheckNode)
  }

  /** The important declarations of `ns`, in order. */
  function ImportantIn(ns: seq<Node>): (r: seq<Node>)
    ensures forall x :: x in r <==> x in ns && IsImportantDeclaration(x)
  {
    if ns == [] then [] else (if IsImportantDeclaration(ns[0]) then [ns[0]] else []) + ImportantIn(ns[1..])
  }

  /** The reports are exactly one `avoidImportant` per important declaration, in the order of `ns`. */
  lemma {:induction false} ReportsOfImportant(ns: seq<Node>)
    ensures |ConcatMap(ns, CheckNode)| == |ImportantIn(ns)|
    ensures forall i :: 0 <= i < |ImportantIn(ns)| ==> ConcatMap(ns, CheckNode)[i] == AvoidImportant(ImportantIn(ns)[i])
  {
    if ns != [] {
      ReportsOfImportant(ns[1..]);
    }
  }

  /** One report per important declaration of the walk, in walk order. */
  lemma OneReportPerImportant(root: Node)
    ensures |Check(root)| == |ImportantIn(Nodes(root))|
    ensures forall i :: 0 <= i < |Check(root)| ==> Check(root)[i] == AvoidImportant(ImportantIn(Nodes(root))[i])
  {
    ReportsOfImportant(Nodes(root));
  }

  /** An important declaration anywhere in the tree is reported, and only important declarations are. */
  lemma ReportedIff(root: Node, n: Node)
    requires n in Nodes(root)
    ensures AvoidImportant(n) in Check(root) <==> IsImportantDeclaration(n)
  {
    if IsImportantDeclaration(n) {
      var i :| 0 <= i < |Nodes(root)| && Nodes(root)[i] == n;
      ConcatMapHas(Nodes(root), CheckNode, i, AvoidImportant(n));
    }
    if AvoidImportant(n) in Check(root) {
      ConcatMapFrom(Nodes(root), CheckNode, AvoidImportant(n));
    }
  }

  /** Every report is on an important declaration of the walk. */
  lemma ReportsOnImportant(root: Node, r: Report)
    requires r in Check(root)
    ensures r.at.OnNode? && r.at.node in Nodes(root) && IsImportantDeclaration(r.at.node)
    ensures r == AvoidImportant(r.at.node)
  {
    ConcatMapFrom(Nodes(root), CheckNode, r);
  }
}
