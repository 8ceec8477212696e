/**
 * The `no-duplicate-reference` rule (src/rules/no-duplicate-reference.ts):
 * in a CSS context, the target of every `@reference` is read off its trimmed
 * prelude, in the string form or the `url()` form; the first at-rule with a
 * target is remembered, and every later one with the same target gets
 * `duplicateReference`.
 */
module NoDuplicateReference {
  import opened Wrappers
  import opened Strings
  import opened Ast
  import opened Lint
  import opened FirstSeen
  import NoDuplicateImports

  /**
   * `["']?\s*` matched against all of `x`: only spaces, or a quote followed
   * by only spaces.
   */
  predicate QuoteSpaces(x: string)
  {
    NoDuplicateImports.AllSpace(x) || (x != [] && IsQuote(x[0]) && NoDuplicateImports.AllSpace(x[1..]))
  }

  /**
   * The lazy group `(.+?)` on `r`, from length `l` on: the shortest prefix of
   * at least `l` characters, none a line terminator, after which the rest
   * matches `["']?\s*`.
   */
  function LazyFrom(r: string, l: nat): (c: Option<string>)
    requires l >= 1
    ensures c.Some? ==> l <= |c.value| <= |r| && c.value == r[..|c.value|] && QuoteSpaces(r[|c.value|..])
    decreases |r| - l
  {
    if l > |r| then None
    else if IsLineTerminator(r[l - 1]) then None
    else if QuoteSpaces(r[l..]) then Some(r[..l])
    else LazyFrom(r, l + 1)
  }

  /** The capture when the group starts at `start` of the argument. */
  function BodyFrom(inner: string, start: nat): Option<string>
  {
    if start > |inner| then None else LazyFrom(inner[start..], 1)
  }

  /** `\s*` backtracking from `w` spaces down to none, with `["']?` matching nothing. */
  function BodyDown(inner: string, w: nat): Option<string>
  {
    var b := BodyFrom(inner, w);
    if b.Some? || w == 0 then b else BodyDown(inner, w - 1)
  }

  /**
   * `\s*["']?(.+?)["']?\s*` on the argument of `url(...)`, in backtracking
   * order: all leading spaces and the optional quote first, then all
   * leading spaces without it, then ever fewer spaces.
   */
  function UrlBody(inner: string): Option<string>
  {
    var w := LeadingSpace(inner);
    var quoted := if w < |inner| && IsQuote(inner[w]) then BodyFrom(inner, w + 1) else None;
    if quoted.Some? then quoted else BodyDown(inner, w)
  }

  /** The target of a trimmed prelude: the string form first, then `url(...)`. */
  function ReferenceOfText(t: string): Option<string>
  {
    var s := NoDuplicateImports.QuotedBody(t);
    if s.Some? then s
    else
      match NoDuplicateImports.UrlArgument(t)
      case None => None
      case Some(inner) => UrlBody(inner)
  }

  /** The target of an at-rule: only `@reference` with a prelude, whose source text is trimmed. */
  function ReferenceValue(node: Node, text: string): Option<string>
  {
    if node.name != "reference" || node.prelude.None? then None
    else ReferenceOfText(Trim(GetNodeText(node.prelude.value, text)))
  }

  function ReferenceKey(text: string): Key
  {
    n => ReferenceValue(n, text)
  }

  function DuplicateReference(node: Node, reference: string): Report
  {
    Report("duplicateReference", map["reference" := reference], OnNode(node), None)
  }

  /** The state of the rule for one CSS file: the first at-rule of each target. */
  class ReferenceTracker {
    const text: string
    var referenceMap: map<string, Node>
    /** The at-rules visited so far. */
    ghost var visited: seq<Node>

    ghost predicate Valid()
      reads this
    {
      referenceMap == Stored(visited, ReferenceKey(text))
    }

    constructor(text: string)
      ensures this.text == text && referenceMap == map[] && visited == []
      ensures Valid()
    {
      this.text := text;
      referenceMap := map[];
      visited := [];
    }

    /**
     * The `Atrule` visitor: an at-rule without a target changes nothing; a
     * target already stored is reported and the stored entry stays; a new
     * target is stored with this at-rule.
     */
    method Atrule(node: Node) returns (reports: seq<Report>)
      requires Valid()
      modifies this
      ensures Valid() && visited == old(visited) + [node]
      ensures ReferenceValue(node, text).None? ==> referenceMap == old(referenceMap) && reports == []
      ensures ReferenceValue(node, text).Some? && ReferenceValue(node, text).value in old(referenceMap)
        ==> referenceMap == old(referenceMap) && reports == [DuplicateReference(node, ReferenceValue(node, text).value)]
      ensures ReferenceValue(node, text).Some? && ReferenceValue(node, text).value !in old(referenceMap)
        ==> referenceMap == old(referenceMap)[ReferenceValue(node, text).value := node] && reports == []
      ensures Duplicates(visited, ReferenceKey(text), DuplicateReference)
        == Duplicates(old(visited), ReferenceKey(text), DuplicateReference) + reports
    {
      visited := visited + [node];
      assert visited[..|visited| - 1] == old(visited);
      reports := [];
      var referenceValue := ReferenceValue(node, text);
      if referenceValue.None? {
        return;
      }
      if referenceValue.value in referenceMap {
        reports := [DuplicateReference(node, referenceValue.value)];
      } else {
        referenceMap := referenceMap[referenceValue.value := node];
      }
    }
  }

  /** The rule on one stylesheet: no visitor outside a CSS context, else the `Atrule` visitor on every at-rule in walk order. */
  method LintFile(root: Node, text: string, isCss: bool) returns (reports: seq<Report>)
    ensures !isCss ==> reports == []
    ensures isCss ==> reports == Duplicates(ChildrenOfType(root, Atrule), ReferenceKey(text), DuplicateReference)
  {
    reports := [];
    if !isCss {
      return;
    }
    var atRules := ChildrenOfType(root, Atrule);
    var tracker := new ReferenceTracker(text);
    ghost var key := ReferenceKey(text);
    for i := 0 to |atRules|
      invariant tracker.Valid() && tracker.text == text && tracker.visited == atRules[..i]
      invariant reports == Duplicates(atRules[..i], key, DuplicateReference)
    {
      var more := tracker.Atrule(atRules[i]);
      reports := reports + more;
      PrefixStep(atRules, i);
    }
    assert atRules[..|atRules|] == atRules;
  }

  /** A captured target is never empty, so the `!referenceValue` test only skips preludes that give none. */
  lemma ReferenceNonEmpty(t: string)
    ensures ReferenceOfText(t).Some? ==> ReferenceOfText(t).value != []
  {
    var s := NoDuplicateImports.QuotedBody(t);
    if s.None? {
      match NoDuplicateImports.UrlArgument(t)
      case None =>
      case Some(inner) =>
        var w := LeadingSpace(inner);
        if w < |inner| && IsQuote(inner[w]) && BodyFrom(inner, w + 1).Some? {
        } else {
          BodyDownNonEmpty(inner, w);
        }
    }
  }

  lemma {:induction false} BodyDownNonEmpty(inner: string, w: nat)
    ensures BodyDown(inner, w).Some? ==> BodyDown(inner, w).value != []
  {
    if BodyFrom(inner, w).None? && w > 0 {
      BodyDownNonEmpty(inner, w - 1);
    }
  }

  /**
   * The lazy group stops at the first length `n` from which the rest is
   * `["']?\s*`, provided no character before it is a line terminator.
   */
  lemma {:induction false} LazyStops(r: string, l: nat, n: nat)
    requires 1 <= l <= n <= |r|
    requires forall j :: l - 1 <= j < n ==> !IsLineTerminator(r[j])
    requires forall j :: l <= j < n ==> !QuoteSpaces(r[j..])
    requires QuoteSpaces(r[n..])
    ensures LazyFrom(r, l) == Some(r[..n])
    decreases n - l
  {
    if l < n {
      LazyStops(r, l + 1, n);
    }
  }

  /** In a run without quotes that ends in a non-space, no suffix before the end is `["']?\s*`. */
  lemma RunSuffixes(u: string, tail: string)
    requires u != [] && !IsSpace(u[|u| - 1])
    requires forall k :: 0 <= k < |u| ==> !IsQuote(u[k])
    ensures forall j :: 0 <= j < |u| ==> !QuoteSpaces((u + tail)[j..])
  {
    var r := u + tail;
    forall j | 0 <= j < |u| ensures !QuoteSpaces(r[j..]) {
      assert r[j..][0] == u[j];
      assert r[j..][|u| - 1 - j] == u[|u| - 1];
    }
  }

  /** A run without quotes, line terminators or trailing space. */
  predicate PlainTarget(u: string)
  {
    u != [] && !IsSpace(u[0]) && !IsSpace(u[|u| - 1])
    && (forall k :: 0 <= k < |u| ==> !IsQuote(u[k]) && !IsLineTerminator(u[k]))
  }

  /** `url(q u q')` names `u`, whichever quotes open and close it. */
  lemma QuotedUrlForm(u: string, q: char, q': char)
    requires PlainTarget(u) && IsQuote(q) && IsQuote(q')
    ensures ReferenceOfText("url(" + [q] + u + [q'] + ")") == Some(u)
  {
    var inner := [q] + u + [q'];
    assert "url(" + [q] + u + [q'] + ")" == "url(" + inner + ")";
    NoDuplicateImports.UrlCall(inner);
    QuotedBody(u, q, q');
  }

  /** On a quoted run, the first candidate, after the opening quote, captures the run. */
  lemma QuotedBody(u: string, q: char, q': char)
    requires PlainTarget(u) && IsQuote(q) && IsQuote(q')
    ensures UrlBody([q] + u + [q']) == Some(u)
  {
    var inner := [q] + u + [q'];
    assert LeadingSpace(inner) == 0;
    var r := inner[1..];
    assert r == u + [q'];
    RunSuffixes(u, [q']);
    assert r[|u|..] == [q'];
    LazyStops(r, 1, |u|);
    assert r[..|u|] == u;
  }

  /** `url(u)` names `u`. */
  lemma UnquotedUrlForm(u: string)
    requires PlainTarget(u)
    ensures ReferenceOfText("url(" + u + ")") == Some(u)
  {
    NoDuplicateImports.UrlCall(u);
    assert LeadingSpace(u) == 0;
    assert u == u + [];
    RunSuffixes(u, []);
    assert u[0..] == u && u[..|u|] == u && u[|u|..] == [];
    LazyStops(u, 1, |u|);
  }

  /** `"u"`, `'u'` and the mixed `"u'` all name `u`. */
  lemma StringForm(u: string, q: char, q': char)
    requires PlainTarget(u) && IsQuote(q) && IsQuote(q')
    ensures ReferenceOfText([q] + u + [q']) == Some(u)
  {
    var t := [q] + u + [q'];
    assert t[1..|t| - 1] == u;
  }

  /** So `@reference "u"` and `@reference url('u')` are duplicates of each other. */
  lemma FormsAgree(u: string)
    requires PlainTarget(u)
    ensures ReferenceOfText("\"" + u + "\"") == ReferenceOfText("url('" + u + "')") == ReferenceOfText("url(" + u + ")")
  {
    StringForm(u, '"', '"');
    assert "\"" + u + "\"" == ['"'] + u + ['"'];
    QuotedUrlForm(u, '\'', '\'');
    assert "url('" + u + "')" == "url(" + ['\''] + u + ['\''] + ")";
    UnquotedUrlForm(u);
  }

  /** The reports number the at-rules with a target less the distinct targets. */
  lemma ReportCount(root: Node, text: string)
    ensures var ats := ChildrenOfType(root, Atrule);
      |Duplicates(ats, ReferenceKey(text), DuplicateReference)| == Keyed(ats, ReferenceKey(text)) - |Stored(ats, ReferenceKey(text))|
  {
    DuplicateCount(ChildrenOfType(root, Atrule), ReferenceKey(text), DuplicateReference);
  }
}
