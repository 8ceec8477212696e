/**
 * The `require-reference-in-vue` rule (src/rules/require-reference-in-vue.ts):
 * in the style block of a Vue single-file component, a stylesheet without any
 * `@reference` at-rule gets one `missingReference` report at line 1, column 1,
 * whose fix inserts `@reference "<fallback>";` before the first top-level node.
 */
module RequireReferenceInVue {
  import opened Wrappers
  import opened Strings
  import opened Ast
  import opened Lint

  predicate IsReference(n: Node)
  {
    n.kind == Atrule && n.name == "reference"
  }

  /** The `@reference` at-rules of `ns`, in order. */
  function ReferencesIn(ns: seq<Node>): (r: seq<Node>)
    ensures forall x :: x in r <==> x in ns && IsReference(x)
  {
    if ns == [] then []
    else ReferencesIn(ns[..|ns| - 1]) + (if IsReference(ns[|ns| - 1]) then [ns[|ns| - 1]] else [])
  }

  /** The walk that pushes every `@reference` at-rule onto `referenceRules`. */
  method CollectReferences(root: Node) returns (referenceRules: seq<Node>)
    ensures referenceRules == ReferencesIn(Nodes(root))
  {
    var nodes := Nodes(root);
    referenceRules := [];
    for i := 0 to |nodes|
      invariant referenceRules == ReferencesIn(nodes[..i])
    {
      assert nodes[..i + 1][..i] == nodes[..i];
      if IsReference(nodes[i]) {
        referenceRules := referenceRules + [nodes[i]];
      }
    }
    assert nodes[..|nodes|] == nodes;
  }

  /** `options.fallbackReference || 'tailwindcss'`: a missing or empty option falls back. */
  function FallbackReference(option: Option<string>): (r: string)
    ensures r != []
    ensures option.Some? && option.value != [] ==> r == option.value
  {
    if option.Some? && option.value != [] then option.value else "tailwindcss"
  }

  /** The directive the fix inserts. */
  function Directive(fallback: string): string
  {
    "@reference \"" + fallback + "\";"
  }

  /**
   * The fix: before the first top-level node when it has a location, with a
   * blank line after the directive; otherwise at offset 0 with one newline.
   */
  function InsertionFix(root: Node, fallback: string): Edit
  {
    if root.hasChildren && root.children != [] && root.children[0].loc.Some? then
      var offset := root.children[0].loc.value.start.offset;
      Edit(offset, offset, Directive(fallback) + "\n\n")
    else
      Edit(0, 0, Directive(fallback) + "\n")
  }

  function MissingReference(root: Node, fallback: string): Report
  {
    Report("missingReference", map[], OnSpan(1, 1, 1), Some(InsertionFix(root, fallback)))
  }

  /**
   * The rule on one stylesheet. Without a CSS context, or outside a Vue
   * file, there are no visitors; otherwise one report when there is no
   * `@reference` at-rule.
   */
  function Check(root: Node, isCss: bool, isVue: bool, fallbackOption: Option<string>): seq<Report>
  {
    if !isCss || !isVue then []
    else if ReferencesIn(Nodes(root)) == [] then [MissingReference(root, FallbackReference(fallbackOption))]
    else []
  }

  /** The `StyleSheet` visitor: collect the references, then report when there are none. */
  method StyleSheet(root: Node, isCss: bool, isVue: bool, fallbackOption: Option<string>) returns (reports: seq<Report>)
    ensures reports == Check(root, isCss, isVue, fallbackOption)
  {
    reports := [];
    if !isCss || !isVue {
      return;
    }
    var fallbackReference := FallbackReference(fallbackOption);
    var referenceRules := CollectReferences(root);
    if |referenceRules| == 0 {
      reports := [MissingReference(root, fallbackReference)];
    }
  }

  /**
   * In a Vue file there is exactly one report iff no node of the tree is a
   * `@reference` at-rule, and none otherwise; outside a Vue file there is none.
   */
  lemma MissingIff(root: Node, isCss: bool, isVue: bool, fallbackOption: Option<string>)
    ensures |Check(root, isCss, isVue, fallbackOption)| <= 1
    ensures Check(root, isCss, isVue, fallbackOption) != []
      <==> isCss && isVue && forall n :: n in Nodes(root) ==> !IsReference(n)
    ensures Check(root, isCss, isVue, fallbackOption) != []
      ==> Check(root, isCss, isVue, fallbackOption)[0].at == OnSpan(1, 1, 1)
  {
    if isCss && isVue && ReferencesIn(Nodes(root)) != [] {
      assert ReferencesIn(Nodes(root))[0] in ReferencesIn(Nodes(root));
    }
  }

  /**
   * Applying the fix puts the directive at the insertion point and keeps the
   * rest of the text: at the first node's start, followed by a blank line, or
   * at the very beginning.
   */
  lemma FixInserts(root: Node, fallback: string, text: string)
    requires root.hasChildren && root.children != [] && root.children[0].loc.Some?
      ==> root.children[0].loc.value.start.offset <= |text|
    ensures var e := InsertionFix(root, fallback);
      && e.start == e.end <= |text|
      && ApplyEdit(text, e) == text[..e.start] + e.text + text[e.start..]
      && (root.hasChildren && root.children != [] && root.children[0].loc.Some?
          ==> e.start == root.children[0].loc.value.start.offset && e.text == Directive(fallback) + "\n\n")
      && (!(root.hasChildren && root.children != [] && root.children[0].loc.Some?)
          ==> e.start == 0 && e.text == Directive(fallback) + "\n" && StartsWith(ApplyEdit(text, e), Directive(fallback)))
  {
    var e := InsertionFix(root, fallback);
    if !(root.hasChildren && root.children != [] && root.children[0].loc.Some?) {
      var d := Directive(fallback);
      assert text[..0] == [] && text[0..] == text;
      assert ApplyEdit(text, e) == d + ("\n" + text);
      assert ApplyEdit(text, e)[..|d|] == d;
    }
  }

  /** With no option, or an empty one, the directive names `tailwindcss`. */
  lemma DefaultFallback(option: Option<string>)
    requires option.None? || option.value == []
    ensures Directive(FallbackReference(option)) == "@reference \"tailwindcss\";"
  {
  }
}
