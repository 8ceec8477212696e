/**
 * The `no-duplicate-imports` rule (src/rules/no-duplicate-imports.ts): the
 * URL of every `@import` is read off its trimmed prelude, in the string form
 * or the `url()` form; the first at-rule with a URL is remembered, and every
 * later one with the same URL gets `duplicateImport`.
 */
module NoDuplicateImports {
  import opened Wrappers
  import opened Strings
  import opened Ast
  import opened Lint
  import opened FirstSeen

  predicate NoLineTerminator(s: string)
  {
    forall i :: 0 <= i < |s| ==> !IsLineTerminator(s[i])
  }

  predicate AllSpace(s: string)
  {
    forall i :: 0 <= i < |s| ==> IsSpace(s[i])
  }

  /**
   * `^["'](.+?)["']$`: a quote, one or more characters other than line
   * terminators, and a quote that ends the text; the capture is everything
   * between the first and the last character.
   */
  function QuotedBody(t: string): (r: Option<string>)
    ensures r.Some? <==> |t| >= 3 && IsQuote(t[0]) && IsQuote(t[|t| - 1]) && NoLineTerminator(t[1..|t| - 1])
    ensures r.Some? ==> r.value == t[1..|t| - 1]
  {
    if |t| >= 3 && IsQuote(t[0]) && IsQuote(t[|t| - 1]) && NoLineTerminator(t[1..|t| - 1]) then Some(t[1..|t| - 1]) else None
  }

  /** `^url\s*\(` ... `\)$`: the text between the opening parenthesis and the final `)`. */
  function UrlArgument(t: string): (r: Option<string>)
    ensures r.Some? ==> StartsWith(t, "url") && |t| >= 5 && t[|t| - 1] == ')'
  {
    if !StartsWith(t, "url") then None
    else
      var p := 3 + LeadingSpace(t[3..]);
      if p + 1 < |t| && t[p] == '(' && t[|t| - 1] == ')' then Some(t[p + 1..|t| - 1]) else None
  }

  /**
   * The first alternative `\s*["']([^"']+)["']\s*` on the argument: after
   * the spaces a quote, a non-empty run without quotes, a quote, and only
   * spaces to the end; the capture is the run.
   */
  function QuotedArgument(inner: string): (r: Option<string>)
    ensures r.Some? ==> r.value != [] && forall k :: 0 <= k < |r.value| ==> !IsQuote(r.value[k])
  {
    var w := LeadingSpace(inner);
    if w < |inner| && IsQuote(inner[w]) then
      var rest := inner[w + 1..];
      var k := QuoteIndex(rest);
      if k >= 1 && AllSpace(rest[k + 1..]) then Some(rest[..k]) else None
    else None
  }

  /**
   * The URL of a trimmed prelude: the string form first; then the `url()`
   * form, whose quoted alternative gives the quoted run and whose unquoted
   * alternative `\s*([^)]+)\s*` (an argument without `)`) gives the trimmed
   * argument. An empty URL counts as none.
   */
  function UrlOfText(t: string): (r: Option<string>)
    ensures r.Some? ==> r.value != []
  {
    var s := QuotedBody(t);
    if s.Some? then s
    else
      match UrlArgument(t)
      case None => None
      case Some(inner) =>
        var q := QuotedArgument(inner);
        if q.Some? then q
        else if inner != [] && ')' !in inner && Trim(inner) != [] then Some(Trim(inner))
        else None
  }

  /** The URL of an at-rule: only `@import` with a prelude, whose source text is trimmed. */
  function ImportUrl(node: Node, text: string): Option<string>
  {
    if node.name != "import" || node.prelude.None? then None
    else UrlOfText(Trim(GetNodeText(node.prelude.value, text)))
  }

  function UrlKey(text: string): Key
  {
    n => ImportUrl(n, text)
  }

  function DuplicateImport(node: Node, url: string): Report
  {
    Report("duplicateImport", map["url" := url], OnNode(node), None)
  }

  /** The state of the rule for one file: the first at-rule of each URL. */
  class ImportTracker {
    const text: string
    var importedUrls: map<string, Node>
    /** The at-rules visited so far. */
    ghost var visited: seq<Node>

    ghost predicate Valid()
      reads this
    {
      importedUrls == Stored(visited, UrlKey(text))
    }

    constructor(text: string)
      ensures this.text == text && importedUrls == map[] && visited == []
      ensures Valid()
    {
      this.text := text;
      importedUrls := map[];
      visited := [];
    }

    /**
     * The `Atrule` visitor: an at-rule without a URL changes nothing; a URL
     * already stored is reported and the stored entry stays; a new URL is
     * stored with this at-rule.
     */
    method Atrule(node: Node) returns (reports: seq<Report>)
      requires Valid()
      modifies this
      ensures Valid() && visited == old(visited) + [node]
      ensures ImportUrl(node, text).None? ==> importedUrls == old(importedUrls) && reports == []
      ensures ImportUrl(node, text).Some? && ImportUrl(node, text).value in old(importedUrls)
        ==> importedUrls == old(importedUrls) && reports == [DuplicateImport(node, ImportUrl(node, text).value)]
      ensures ImportUrl(node, text).Some? && ImportUrl(node, text).value !in old(importedUrls)
        ==> importedUrls == old(importedUrls)[ImportUrl(node, text).value := node] && reports == []
      ensures Duplicates(visited, UrlKey(text), DuplicateImport) == Duplicates(old(visited), UrlKey(text), DuplicateImport) + reports
    {
      visited := visited + [node];
      assert visited[..|visited| - 1] == old(visited);
      reports := [];
      var url := ImportUrl(node, text);
      if url.None? {
        return;
      }
      if url.value in importedUrls {
        reports := [DuplicateImport(node, url.value)];
      } else {
        importedUrls := importedUrls[url.value := node];
      }
    }
  }

  /** The rule on one stylesheet: a fresh tracker, then the `Atrule` visitor on every at-rule in walk order. */
  method LintFile(root: Node, text: string) returns (reports: seq<Report>)
    ensures reports == Duplicates(ChildrenOfType(root, Atrule), UrlKey(text), DuplicateImport)
  {
    var atRules := ChildrenOfType(root, Atrule);
    var tracker := new ImportTracker(text);
    ghost var key := UrlKey(text);
    reports := [];
    for i := 0 to |atRules|
      invariant tracker.Valid() && tracker.text == text && tracker.visited == atRules[..i]
      invariant reports == Duplicates(atRules[..i], key, DuplicateImport)
    {
      var more := tracker.Atrule(atRules[i]);
      reports := reports + more;
      PrefixStep(atRules, i);
    }
    assert atRules[..|atRules|] == atRules;
  }

  /** `"u"`, `'u'` and `url(u)`, for a URL without quotes, `)`, line terminators or surrounding spaces, name the same URL. */
  lemma StringForm(u: string, q: char, q': char)
    requires u != [] && IsQuote(q) && IsQuote(q') && NoLineTerminator(u)
    ensures UrlOfText([q] + u + [q']) == Some(u)
  {
    var t := [q] + u + [q'];
    assert t[1..|t| - 1] == u;
  }

  /** `url(x)` is not in the string form, and its argument is `x`. */
  lemma UrlCall(x: string)
    ensures QuotedBody("url(" + x + ")") == None
    ensures UrlArgument("url(" + x + ")") == Some(x)
  {
    var t := "url(" + x + ")";
    assert !IsQuote(t[0]);
    assert t[3..][0] == '(';
    assert LeadingSpace(t[3..]) == 0;
    assert t[4..|t| - 1] == x;
  }

  lemma UnquotedUrlForm(u: string)
    requires u != [] && !IsSpace(u[0]) && !IsSpace(u[|u| - 1]) && ')' !in u
    requires forall k :: 0 <= k < |u| ==> !IsQuote(u[k])
    ensures UrlOfText("url(" + u + ")") == Some(u)
  {
    UrlCall(u);
    assert LeadingSpace(u) == 0;
    assert TrailingSpace(u) == 0;
    assert u[0..] == u && u[..|u|] == u;
  }

  lemma QuotedUrlForm(u: string, q: char, q': char)
    requires u != [] && IsQuote(q) && IsQuote(q')
    requires forall k :: 0 <= k < |u| ==> !IsQuote(u[k])
    ensures UrlOfText("url(" + [q] + u + [q'] + ")") == Some(u)
  {
    var inner := [q] + u + [q'];
    assert "url(" + [q] + u + [q'] + ")" == "url(" + inner + ")";
    UrlCall(inner);
    QuotedRun(u, q, q');
  }

  /** `\s*["']([^"']+)["']\s*` on a quoted run without spaces around it captures the run. */
  lemma QuotedRun(u: string, q: char, q': char)
    requires u != [] && IsQuote(q) && IsQuote(q')
    requires forall k :: 0 <= k < |u| ==> !IsQuote(u[k])
    ensures QuotedArgument([q] + u + [q']) == Some(u)
  {
    var inner := [q] + u + [q'];
    assert LeadingSpace(inner) == 0;
    assert inner[1..] == u + [q'];
    QuoteIndexAfterRun(u, [q']);
    assert (u + [q'])[|u| + 1..] == [];
    assert (u + [q'])[..|u|] == u;
  }

  /** The first quote of `u + rest`, when `u` has none and `rest` starts with one, is at `|u|`. */
  lemma QuoteIndexAfterRun(u: string, rest: string)
    requires forall k :: 0 <= k < |u| ==> !IsQuote(u[k])
    requires rest != [] && IsQuote(rest[0])
    ensures QuoteIndex(u + rest) == |u|
  {
    var s := u + rest;
    assert IsQuote(s[|u|]);
    assert forall k :: 0 <= k < |u| ==> s[k] == u[k];
  }

  /** So `@import "u"`, `@import url("u")` and `@import url(u)` are duplicates of each other. */
  lemma FormsAgree(u: string)
    requires u != [] && !IsSpace(u[0]) && !IsSpace(u[|u| - 1]) && ')' !in u && NoLineTerminator(u)
    requires forall k :: 0 <= k < |u| ==> !IsQuote(u[k])
    ensures UrlOfText("\"" + u + "\"") == UrlOfText("url(\"" + u + "\")") == UrlOfText("url(" + u + ")") == Some(u)
  {
    StringForm(u, '"', '"');
    assert "\"" + u + "\"" == ['"'] + u + ['"'];
    QuotedUrlForm(u, '"', '"');
    assert "url(\"" + u + "\")" == "url(" + ['"'] + u + ['"'] + ")";
    UnquotedUrlForm(u);
  }

  /** A URL imported three times is reported twice: in general, the reports are the keyed at-rules less the distinct URLs. */
  lemma ReportCount(root: Node, text: string)
    ensures var ats := ChildrenOfType(root, Atrule);
      |Duplicates(ats, UrlKey(text), DuplicateImport)| == Keyed(ats, UrlKey(text)) - |Stored(ats, UrlKey(text))|
  {
    DuplicateCount(ChildrenOfType(root, Atrule), UrlKey(text), DuplicateImport);
  }
}
