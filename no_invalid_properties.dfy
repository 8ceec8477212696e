/**
 * The `no-invalid-properties` rule (src/rules/no-invalid-properties.ts): an
 * unknown declaration property is reported on the property name, with the
 * first suggestion when there is one.
 */
module NoInvalidProperties {
  import opened Wrappers
  import opened Strings
  import opened Ast
  import opened Lint
  import opened CssProperties

  /** From the declaration start to `|property|` columns further on the same line. */
  function PropertySpan(property: string, start: Position): (w: Where)
    ensures w.OnSpan? && w.line == start.line && w.startColumn == start.column
    ensures w.endColumn == start.column + |property|
  {
    OnSpan(start.line, start.column, start.column + |property|)
  }

  /** The report for an unknown property, given its suggestions. */
  function UnknownPropertyReport(property: string, suggestions: seq<string>, start: Position): Report
  {
    if |suggestions| > 0 then
      Report("invalidPropertyWithSuggestion", map["property" := property, "suggestion" := suggestions[0]], PropertySpan(property, start), None)
    else
      Report("invalidProperty", map["property" := property], PropertySpan(property, start), None)
  }

  /**
   * The walk callback on a declaration whose property has validity `valid`
   * and suggestions `suggestions`. A declaration is reported iff its
   * property is not ignored, not valid, and it has a location, and then
   * exactly once, on the property name, with the first suggestion exactly
   * when there are suggestions.
   */
  function CheckDeclaration(n: Node, ignoreProperties: seq<string>, valid: bool, suggestions: seq<string>): (r: seq<Report>)
    ensures |r| <= 1
    ensures r != [] <==> n.kind == Declaration && n.property !in ignoreProperties && !valid && n.loc.Some?
    ensures r != [] ==> r[0].at == PropertySpan(n.property, n.loc.value.start) && r[0].fix.None?
    ensures r != [] ==> (r[0].messageId == "invalidPropertyWithSuggestion" <==> suggestions != [])
    ensures r != [] && suggestions != [] ==> r[0].data == map["property" := n.property, "suggestion" := suggestions[0]]
    ensures r != [] && suggestions == [] ==> r[0].messageId == "invalidProperty" && r[0].data == map["property" := n.property]
  {
    if n.kind != Declaration || n.property in ignoreProperties || valid || n.loc.None? then []
    else [UnknownPropertyReport(n.property, suggestions, n.loc.value.start)]
  }

  /** The walk callback on one node. */
  function CheckNode(n: Node, ignoreProperties: seq<string>): seq<Report>
  {
    CheckDeclaration(n, ignoreProperties, IsValidProperty(n.property), SimilarProperties(n.property))
  }

  /** The reports for a whole stylesheet, in walk order. */
  function Check(root: Node, ignoreProperties: seq<string>): seq<Report>
  {
    ConcatMap(Nodes(root), n => CheckNode(n, ignoreProperties))
  }

  /** A custom property is never reported. */
  lemma CustomPropertyNotReported(n: Node, ignoreProperties: seq<string>)
    requires StartsWith(n.property, "--")
    ensures CheckNode(n, ignoreProperties) == []
  {
    CustomPropertyValid(n.property);
  }

  /** At most one report per node of the walk. */
  lemma AtMostOnePerNode(root: Node, ignoreProperties: seq<string>)
    ensures |Check(root, ignoreProperties)| <= |Nodes(root)|
  {
    ConcatMapAtMostOne(Nodes(root), n => CheckNode(n, ignoreProperties));
  }

  /** Each report of the stylesheet comes from one declaration of the walk. */
  lemma ReportsFromDeclarations(root: Node, ignoreProperties: seq<string>, r: Report)
    requires r in Check(root, ignoreProperties)
    ensures exists i :: 0 <= i < |Nodes(root)| && Nodes(root)[i].kind == Declaration && r in CheckNode(Nodes(root)[i], ignoreProperties)
  {
    ConcatMapFrom(Nodes(root), n => CheckNode(n, ignoreProperties), r);
    var i :| 0 <= i < |Nodes(root)| && r in (n => CheckNode(n, ignoreProperties))(Nodes(root)[i]);
    var n := Nodes(root)[i];
    assert r in CheckNode(n, ignoreProperties);
    assert n.kind == Declaration;
  }
}
