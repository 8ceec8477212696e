/**
 * The `valid-theme-function` rule (src/rules/valid-theme-function.ts): every
 * `theme()` call must have an argument, a quoted path, and a path that names
 * a token of the stylesheet's `@theme` blocks; unknown paths get up to three
 * similar tokens, and a fix when there is exactly one.
 */
module ValidThemeFunction {
  import opened Wrappers
  import opened Strings
  import opened Ast
  import opened Lint
  import opened Theme

  /** The end of the run of `\s` characters starting at `i`. */
  function SkipSpaces(s: string, i: nat): (j: nat)
    requires i <= |s|
    ensures i <= j <= |s|
    ensures forall k :: i <= k < j ==> IsSpace(s[k])
    ensures j == |s| || !IsSpace(s[j])
    decreases |s| - i
  {
    if i < |s| && IsSpace(s[i]) then SkipSpaces(s, i + 1) else i
  }

  /** A match of `theme\s*\(\s*["']([^"']+)["']\s*\)`: the matched range `[start, end)` and the captured path. */
  datatype PathMatch = PathMatch(start: nat, end: nat, path: string)

  /** The match of the path pattern that begins exactly at `i`, if there is one. */
  function MatchAt(s: string, i: nat): (r: Option<PathMatch>)
    requires i <= |s|
    ensures r.Some? ==> r.value.start == i < r.value.end <= |s| && i + 5 <= |s| && s[i..i + 5] == "theme"
    ensures r.Some? ==> r.value.path != [] && forall k :: 0 <= k < |r.value.path| ==> !IsQuote(r.value.path[k])
    ensures r.Some? ==> s[r.value.end - 1] == ')'
  {
    if !(i + 5 <= |s| && s[i..i + 5] == "theme") then None
    else
      var open := SkipSpaces(s, i + 5);
      if open >= |s| || s[open] != '(' then None
      else
        var quote := SkipSpaces(s, open + 1);
        if quote >= |s| || !IsQuote(s[quote]) then None
        else QuotedPath(s, i, quote)
  }

  /** The rest of a match begun at `i` once its opening quote at `quote` is found: the path up to the next quote, then `)`. */
  function QuotedPath(s: string, i: nat, quote: nat): (r: Option<PathMatch>)
    requires i < quote < |s|
    ensures r.Some? ==> r.value.start == i < r.value.end <= |s|
    ensures r.Some? ==> r.value.path != [] && forall k :: 0 <= k < |r.value.path| ==> !IsQuote(r.value.path[k])
    ensures r.Some? ==> s[r.value.end - 1] == ')'
  {
    var rest := s[quote + 1..];
    var k := QuoteIndex(rest);
    if k <= 0 then None
    else
      var close := quote + 1 + k;
      var paren := SkipSpaces(s, close + 1);
      if paren >= |s| || s[paren] != ')' then None
      else Some(PathMatch(i, paren + 1, rest[..k]))
  }

  /** `s.match(pattern)` searching from `i`: the leftmost match. */
  function FirstMatch(s: string, i: nat): (r: Option<PathMatch>)
    requires i <= |s|
    ensures r.None? <==> forall j :: i <= j <= |s| ==> MatchAt(s, j).None?
    ensures r.Some? ==> i <= r.value.start <= |s| && MatchAt(s, r.value.start) == r
    ensures r.Some? ==> forall j :: i <= j < r.value.start ==> MatchAt(s, j).None?
    decreases |s| - i
  {
    var here := MatchAt(s, i);
    if here.Some? then here
    else if i == |s| then None
    else FirstMatch(s, i + 1)
  }

  /** The message data listing the suggestions: each quoted, joined with `", "`. */
  function SuggestionText(suggestions: seq<string>): string
  {
    Join(Quoted(Take(suggestions, 3)), ", ")
  }

  function Quoted(xs: seq<string>): (r: seq<string>)
    ensures |r| == |xs| && forall i :: 0 <= i < |xs| ==> r[i] == "\"" + xs[i] + "\""
  {
    if xs == [] then [] else ["\"" + xs[0] + "\""] + Quoted(xs[1..])
  }

  /** The call rewritten to `theme("token")`, the rest of the function text kept. */
  function FixedText(functionText: string, m: PathMatch, token: string): string
    requires m.start <= m.end <= |functionText|
  {
    functionText[..m.start] + "theme(\"" + token + "\")" + functionText[m.end..]
  }

  /** The fix: only when there is exactly one suggestion. */
  function FixFor(n: Node, functionText: string, m: PathMatch, suggestions: seq<string>): Option<Edit>
    requires m.start <= m.end <= |functionText|
  {
    if |suggestions| == 1 then ReplaceNode(n, FixedText(functionText, m, suggestions[0])) else None
  }

  /** `validateThemeFunction` on a `theme` function node. */
  function ValidateThemeFunction(n: Node, themeValues: seq<ThemeValue>, text: string): seq<Report>
  {
    var functionText := GetNodeText(n, text);
    if !n.hasChildren || n.children == [] then
      [Report("emptyThemeFunction", map[], OnNode(n), None)]
    else
      match FirstMatch(functionText, 0)
      case None =>
        if '(' in functionText && ')' in functionText then [Report("invalidThemeSyntax", map[], OnNode(n), None)] else []
      case Some(m) =>
        if IsValidThemePath(m.path, themeValues) then []
        else
          var suggestions := SimilarTokens(m.path, themeValues, 3);
          if |suggestions| > 0 then
            [Report("invalidThemePathWithSuggestion", map["path" := m.path, "suggestions" := SuggestionText(suggestions)],
                    OnNode(n), FixFor(n, functionText, m, suggestions))]
          else
            [Report("invalidThemePath", map["path" := m.path], OnNode(n), None)]
  }

  /** The walk callback: `theme` function nodes are validated. */
  function CheckNode(n: Node, themeValues: seq<ThemeValue>, text: string): seq<Report>
  {
    if n.kind == FunctionNode && n.name == "theme" then ValidateThemeFunction(n, themeValues, text) else []
  }

  /** The rule on a stylesheet: nothing when `checkPaths` is off; otherwise the theme values, then the walk. */
  function Check(root: Node, text: string, checkPaths: bool): seq<Report>
  {
    if !checkPaths then []
    else
      var themeValues := ThemeValues(root, text);
      ConcatMap(Nodes(root), n => CheckNode(n, themeValues, text))
  }

  /** The `StyleSheet` visitor: extract the theme values once, then visit every node. */
  method StyleSheet(root: Node, text: string, checkPaths: bool) returns (reports: seq<Report>)
    ensures reports == Check(root, text, checkPaths)
  {
    reports := [];
    if !checkPaths {
      return;
    }
    var themeValues := ExtractThemeValues(root, text);
    var nodes := Nodes(root);
    var check := n => CheckNode(n, themeValues, text);
    for i := 0 to |nodes|
      invariant reports == ConcatMap(nodes[..i], check)
    {
      ConcatMapStep(nodes, i, check);
      reports := reports + CheckNode(nodes[i], themeValues, text);
    }
    assert nodes[..|nodes|] == nodes;
  }

  /** With `checkPaths: false` nothing is reported. */
  lemma PathsUnchecked(root: Node, text: string)
    ensures Check(root, text, false) == []
  {
  }

  /** A `theme` function without arguments reports only `emptyThemeFunction`. */
  lemma EmptyCall(n: Node, themeValues: seq<ThemeValue>, text: string)
    requires n.kind == FunctionNode && n.name == "theme" && (!n.hasChildren || n.children == [])
    ensures CheckNode(n, themeValues, text) == [Report("emptyThemeFunction", map[], OnNode(n), None)]
  {
  }

  /**
   * With arguments but no quoted path, `invalidThemeSyntax` is reported iff
   * the text has both parentheses; nothing is reported otherwise.
   */
  lemma UnquotedCall(n: Node, themeValues: seq<ThemeValue>, text: string)
    requires n.kind == FunctionNode && n.name == "theme" && n.hasChildren && n.children != []
    requires FirstMatch(GetNodeText(n, text), 0).None?
    ensures CheckNode(n, themeValues, text) == if '(' in GetNodeText(n, text) && ')' in GetNodeText(n, text)
      then [Report("invalidThemeSyntax", map[], OnNode(n), None)] else []
  {
  }

  /** A quoted path that names a token is not reported. */
  lemma KnownPath(n: Node, themeValues: seq<ThemeValue>, text: string)
    requires n.kind == FunctionNode && n.name == "theme" && n.hasChildren && n.children != []
    requires FirstMatch(GetNodeText(n, text), 0).Some?
    requires IsValidThemePath(FirstMatch(GetNodeText(n, text), 0).value.path, themeValues)
    ensures CheckNode(n, themeValues, text) == []
  {
  }

  /**
   * An unknown path gives one report on the node: with the quoted
   * suggestions when there are any, otherwise without.
   */
  lemma UnknownPath(n: Node, themeValues: seq<ThemeValue>, text: string)
    requires n.kind == FunctionNode && n.name == "theme" && n.hasChildren && n.children != []
    requires FirstMatch(GetNodeText(n, text), 0).Some?
    requires !IsValidThemePath(FirstMatch(GetNodeText(n, text), 0).value.path, themeValues)
    ensures var m := FirstMatch(GetNodeText(n, text), 0).value;
      var suggestions := SimilarTokens(m.path, themeValues, 3);
      var r := CheckNode(n, themeValues, text);
      && |r| == 1 && r[0].at == OnNode(n)
      && (r[0].messageId == "invalidThemePathWithSuggestion" <==> suggestions != [])
      && (suggestions != [] ==> r[0].data == map["path" := m.path, "suggestions" := SuggestionText(suggestions)])
      && (suggestions == [] ==> r[0] == Report("invalidThemePath", map["path" := m.path], OnNode(n), None))
  {
    var ft := GetNodeText(n, text);
    var m := FirstMatch(ft, 0).value;
    var suggestions := SimilarTokens(m.path, themeValues, 3);
    if suggestions != [] {
      assert CheckNode(n, themeValues, text) == [Report("invalidThemePathWithSuggestion",
        map["path" := m.path, "suggestions" := SuggestionText(suggestions)], OnNode(n), FixFor(n, ft, m, suggestions))];
    } else {
      assert CheckNode(n, themeValues, text) == [Report("invalidThemePath", map["path" := m.path], OnNode(n), None)];
    }
  }

  /**
   * For an unknown path a fix is offered only with exactly one suggestion
   * and a known node location, and it rewrites the matched call to
   * `theme("<token>")` over the node's range.
   */
  lemma UnknownPathFix(n: Node, themeValues: seq<ThemeValue>, text: string)
    requires n.kind == FunctionNode && n.name == "theme" && n.hasChildren && n.children != []
    requires FirstMatch(GetNodeText(n, text), 0).Some?
    requires !IsValidThemePath(FirstMatch(GetNodeText(n, text), 0).value.path, themeValues)
    ensures var ft := GetNodeText(n, text);
      var m := FirstMatch(ft, 0).value;
      var suggestions := SimilarTokens(m.path, themeValues, 3);
      var r := CheckNode(n, themeValues, text);
      && |r| == 1
      && (r[0].fix.Some? <==> |suggestions| == 1 && n.loc.Some?)
      && (r[0].fix.Some? ==> r[0].fix.value == Edit(n.loc.value.start.offset, n.loc.value.end.offset, FixedText(ft, m, suggestions[0])))
  {
    var ft := GetNodeText(n, text);
    var m := FirstMatch(ft, 0).value;
    var suggestions := SimilarTokens(m.path, themeValues, 3);
    if suggestions != [] {
      assert CheckNode(n, themeValues, text) == [Report("invalidThemePathWithSuggestion",
        map["path" := m.path, "suggestions" := SuggestionText(suggestions)], OnNode(n), FixFor(n, ft, m, suggestions))];
    } else {
      assert CheckNode(n, themeValues, text) == [Report("invalidThemePath", map["path" := m.path], OnNode(n), None)];
    }
  }

  /** Every report of a node is on the node, and there is at most one. */
  lemma OneReportOnNode(n: Node, themeValues: seq<ThemeValue>, text: string)
    ensures |CheckNode(n, themeValues, text)| <= 1
    ensures forall r :: r in CheckNode(n, themeValues, text) ==> r.at == OnNode(n)
  {
  }

  /** The first quote of `t + rest`, when `t` has none and `rest` starts with one, is at `|t|`. */
  lemma QuoteIndexAfter(t: string, rest: string)
    requires forall k :: 0 <= k < |t| ==> !IsQuote(t[k])
    requires rest != [] && IsQuote(rest[0])
    ensures QuoteIndex(t + rest) == |t|
  {
    var s := t + rest;
    assert IsQuote(s[|t|]);
    assert forall k :: 0 <= k < |t| ==> s[k] == t[k];
  }

  /** The path pattern matches `theme("t")` at its start, as a whole, capturing `t`. */
  lemma MatchAtQuoted(t: string)
    requires t != [] && forall k :: 0 <= k < |t| ==> !IsQuote(t[k])
    ensures MatchAt("theme(\"" + t + "\")", 0) == Some(PathMatch(0, |t| + 9, t))
  {
    var s := "theme(\"" + t + "\")";
    assert s[0..5] == "theme";
    assert s[5] == '(' && s[6] == '"';
    assert SkipSpaces(s, 5) == 5;
    assert SkipSpaces(s, 6) == 6;
    assert s[7..] == t + "\")";
    QuoteIndexAfter(t, "\")");
    assert s[|t| + 8] == ')';
    assert SkipSpaces(s, |t| + 8) == |t| + 8;
    assert s[7..7 + |t|] == t;
  }

  /** `theme("t")`, with a non-empty path free of quotes, matches as a whole and captures `t`. */
  lemma QuotedCallMatches(t: string)
    requires t != [] && forall k :: 0 <= k < |t| ==> !IsQuote(t[k])
    ensures FirstMatch("theme(\"" + t + "\")", 0) == Some(PathMatch(0, |t| + 9, t))
  {
    MatchAtQuoted(t);
  }

  /**
   * The fix writes the raw token name, such as `--color-primary`, as the
   * path; in a map whose only token is that name the rewritten call fails
   * the path check, since every candidate name is longer than the token.
   */
  lemma RawTokenRejected(v: ThemeValue)
    requires '.' !in v.name
    ensures !IsValidThemePath(v.name, [v])
  {
    ValidThemePathIff(v.name, [v]);
    assert Keys([v]) == [v.name];
  }
}
