/**
 * The `no-invalid-at-rules` rule (src/rules/no-invalid-at-rules.ts): an
 * unknown at-rule name is reported on its name, with the first suggestion
 * when there is one; a known name is checked against its block expectation.
 */
module NoInvalidAtRules {
  import opened Wrappers
  import opened Strings
  import opened Ast
  import opened Lint
  import opened AtRules

  /** The span of the name: on the start line, just after the `@`. */
  function NameSpan(name: string, start: Position): (w: Where)
    ensures w.OnSpan? && w.line == start.line
    ensures w.endColumn - w.startColumn == |name| && w.startColumn == start.column + 1
  {
    OnSpan(start.line, start.column + 1, start.column + 1 + |name|)
  }

  /** The report for an unknown name, given its suggestions. */
  function UnknownNameReport(name: string, suggestions: seq<string>, start: Position): Report
  {
    if |suggestions| > 0 then
      Report("invalidAtRuleWithSuggestion", map["name" := name, "suggestion" := suggestions[0]], NameSpan(name, start), None)
    else
      Report("invalidAtRule", map["name" := name], NameSpan(name, start), None)
  }

  /** The block-structure report for a known name, if any. */
  function BlockReports(n: Node, loc: Loc): seq<Report>
  {
    var expectation := ShouldHaveBlock(n.name);
    if expectation == Some(true) && n.block.None? then
      [Report("missingBlock", map["name" := n.name], OnLoc(loc), None)]
    else if expectation == Some(false) && n.block.Some? then
      [Report("unexpectedBlock", map["name" := n.name], OnLoc(loc), None)]
    else []
  }

  /** The walk callback on one node. */
  function CheckNode(n: Node, ignoreAtRules: seq<string>): seq<Report>
  {
    if n.kind != Atrule || n.name in ignoreAtRules || n.loc.None? then []
    else if !IsValidAtRule(n.name) then [UnknownNameReport(n.name, SimilarAtRules(n.name), n.loc.value.start)]
    else BlockReports(n, n.loc.value)
  }

  /** The reports for a whole stylesheet, in walk order. */
  function Check(root: Node, ignoreAtRules: seq<string>): seq<Report>
  {
    ConcatMap(Nodes(root), n => CheckNode(n, ignoreAtRules))
  }

  /** Ignored names, and at-rules without a location, give nothing. */
  lemma IgnoredOrUnlocated(n: Node, ignoreAtRules: seq<string>)
    requires n.name in ignoreAtRules || n.loc.None?
    ensures CheckNode(n, ignoreAtRules) == []
  {
  }

  /**
   * An unknown name gives exactly one report on the name span: with the
   * first suggestion when there are suggestions, and without one otherwise.
   * Its block is not examined.
   */
  lemma UnknownName(n: Node, ignoreAtRules: seq<string>)
    requires n.kind == Atrule && n.name !in ignoreAtRules && n.loc.Some? && !IsValidAtRule(n.name)
    ensures |CheckNode(n, ignoreAtRules)| == 1
    ensures var r := CheckNode(n, ignoreAtRules)[0];
      && r.at == NameSpan(n.name, n.loc.value.start) && r.fix.None?
      && (r.messageId == "invalidAtRuleWithSuggestion" <==> SimilarAtRules(n.name) != [])
      && (r.messageId == "invalidAtRuleWithSuggestion" ==> r.data == map["name" := n.name, "suggestion" := SimilarAtRules(n.name)[0]])
      && (r.messageId != "invalidAtRuleWithSuggestion" ==> r.messageId == "invalidAtRule" && r.data == map["name" := n.name])
  {
  }

  /** For a known name, `missingBlock` iff a block is expected and absent. */
  lemma MissingBlock(n: Node, ignoreAtRules: seq<string>)
    requires n.kind == Atrule && n.name !in ignoreAtRules && n.loc.Some? && IsValidAtRule(n.name)
    ensures CheckNode(n, ignoreAtRules) == [Report("missingBlock", map["name" := n.name], OnLoc(n.loc.value), None)]
      <==> n.name in AtRulesWithBlock && n.block.None?
  {
  }

  /** For a known name, `unexpectedBlock` iff a block is present and not allowed. */
  lemma UnexpectedBlock(n: Node, ignoreAtRules: seq<string>)
    requires n.kind == Atrule && n.name !in ignoreAtRules && n.loc.Some? && IsValidAtRule(n.name)
    ensures CheckNode(n, ignoreAtRules) == [Report("unexpectedBlock", map["name" := n.name], OnLoc(n.loc.value), None)]
      <==> n.name in AtRulesWithoutBlock && n.block.Some?
  {
  }

  /** A known name with an undefined expectation, such as `@layer utilities;`, is never reported. */
  lemma UndefinedExpectation(n: Node, ignoreAtRules: seq<string>)
    requires IsValidAtRule(n.name) && ShouldHaveBlock(n.name) == None
    ensures CheckNode(n, ignoreAtRules) == []
  {
  }

  /** `@layer` and `@variant` are never reported, with or without a block. */
  lemma LayerAndVariant(n: Node, ignoreAtRules: seq<string>)
    requires n.name == "layer" || n.name == "variant"
    ensures CheckNode(n, ignoreAtRules) == []
  {
    OptionalBlockUndefined();
    assert IsValidAtRule("layer") && IsValidAtRule("variant");
    UndefinedExpectation(n, ignoreAtRules);
  }

  /** At most one report per node, hence per stylesheet at most one per node of the walk. */
  lemma AtMostOnePerNode(root: Node, ignoreAtRules: seq<string>)
    ensures forall n :: |CheckNode(n, ignoreAtRules)| <= 1
    ensures |Check(root, ignoreAtRules)| <= |Nodes(root)|
  {
    ConcatMapAtMostOne(Nodes(root), n => CheckNode(n, ignoreAtRules));
  }

  /** Every report of the stylesheet is the report of one at-rule node of the walk. */
  lemma ReportsFromAtRules(root: Node, ignoreAtRules: seq<string>, r: Report)
    requires r in Check(root, ignoreAtRules)
    ensures exists i :: 0 <= i < |Nodes(root)| && Nodes(root)[i].kind == Atrule && r in CheckNode(Nodes(root)[i], ignoreAtRules)
  {
    ConcatMapFrom(Nodes(root), n => CheckNode(n, ignoreAtRules), r);
  }
}
