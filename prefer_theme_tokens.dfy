/**
 * The `prefer-theme-tokens` rule (src/rules/prefer-theme-tokens.ts): a
 * hard-coded colour or spacing value of a mapped property whose category is
 * enabled should use a theme token; when a token of that category has
 * exactly that value, it is suggested and the fix writes `theme("<path>")`.
 */
module PreferThemeTokens {
  import opened Wrappers
  import opened Strings
  import opened Ast
  import opened Lint
  import opened Records
  import opened Theme
  import ValidThemeFunction

  // ---------------------------------------------------------------------
  // isColorValue and isSpacingValue

  predicate IsHexDigit(c: char)
  {
    IsDigit(c) || ('a' <= c <= 'f') || ('A' <= c <= 'F')
  }

  /** `^#[0-9a-fA-F]{3,8}$`. */
  predicate IsHexColor(v: string)
  {
    4 <= |v| <= 9 && v[0] == '#' && forall i :: 1 <= i < |v| ==> IsHexDigit(v[i])
  }

  /** The names of `^(red|blue|green|yellow|black|white|gray|grey)$`, matched without regard to case. */
  const NamedColors: seq<string> := ["red", "blue", "green", "yellow", "black", "white", "gray", "grey"]

  /** `isColorValue`: on the trimmed value, a hex colour, an `rgb(`/`rgba(`/`hsl(`/`hsla(` prefix, or a named colour. */
  predicate IsColorValue(value: string)
  {
    var v := Trim(value);
    IsHexColor(v)
    || StartsWith(v, "rgb(") || StartsWith(v, "rgba(")
    || StartsWith(v, "hsl(") || StartsWith(v, "hsla(")
    || ToLower(v) in NamedColors
  }

  const SpacingUnits: seq<string> := ["px", "rem", "em", "vh", "vw", "%"]

  /** The end of the run of decimal digits that starts at index `i`. */
  function DigitsFrom(s: string, i: nat): (r: nat)
    requires i <= |s|
    ensures i <= r <= |s| && (forall j :: i <= j < r ==> IsDigit(s[j])) && (r == |s| || !IsDigit(s[r]))
    decreases |s| - i
  {
    if i < |s| && IsDigit(s[i]) then DigitsFrom(s, i + 1) else i
  }

  /** `\d+(\.\d+)?(px|rem|em|vh|vw|%)` against the whole of `w`. */
  predicate IsUnsignedLength(w: string)
  {
    var k := DigitsFrom(w, 0);
    k > 0 &&
    var unit := if k < |w| && w[k] == '.' && DigitsFrom(w, k + 1) > k + 1 then w[DigitsFrom(w, k + 1)..] else w[k..];
    unit in SpacingUnits
  }

  /** `isSpacingValue`: `^-?\d+(\.\d+)?(px|rem|em|vh|vw|%)$` on the trimmed value. */
  predicate IsSpacingValue(value: string)
  {
    var v := Trim(value);
    if |v| > 0 && v[0] == '-' then IsUnsignedLength(v[1..]) || IsUnsignedLength(v) else IsUnsignedLength(v)
  }

  /** The strings of the spacing pattern, built from its parts. */
  predicate IsLengthOf(w: string, digits: string, fraction: string, unit: string)
  {
    w == digits + fraction + unit && digits != [] && AllDigits(digits)
    && (fraction == [] || (|fraction| >= 2 && fraction[0] == '.' && AllDigits(fraction[1..])))
    && unit in SpacingUnits
  }

  lemma UnitNotDigit(unit: string)
    requires unit in SpacingUnits
    ensures unit != [] && !IsDigit(unit[0]) && unit[0] != '.'
  {
  }

  /** A run of digits that ends at `j` is the run the scanner finds. */
  lemma {:induction false} DigitsFromOf(s: string, i: nat, j: nat)
    requires i <= j <= |s| && (forall t :: i <= t < j ==> IsDigit(s[t])) && (j == |s| || !IsDigit(s[j]))
    ensures DigitsFrom(s, i) == j
    decreases j - i
  {
    if i < j {
      DigitsFromOf(s, i + 1, j);
    }
  }

  /** The parts of a scanned length with a fraction `w[k..e]`. */
  lemma ScannedFraction(w: string, k: nat, e: nat)
    requires 0 < k < e <= |w| && w[k] == '.' && k + 1 < e
    requires forall t :: 0 <= t < k ==> IsDigit(w[t])
    requires forall t :: k + 1 <= t < e ==> IsDigit(w[t])
    requires w[e..] in SpacingUnits
    ensures IsLengthOf(w, w[..k], w[k..e], w[e..])
  {
    var d, f, u := w[..k], w[k..e], w[e..];
    assert AllDigits(d) by {
      forall t | 0 <= t < |d| ensures IsDigit(d[t]) { assert d[t] == w[t]; }
    }
    assert AllDigits(f[1..]) by {
      forall t | 0 <= t < |f[1..]| ensures IsDigit(f[1..][t]) { assert f[1..][t] == w[k + 1 + t]; }
    }
    assert w == d + f + u;
  }

  lemma ScannedLength(w: string)
    requires IsUnsignedLength(w)
    ensures exists d, f, u :: IsLengthOf(w, d, f, u)
  {
    var k := DigitsFrom(w, 0);
    if k < |w| && w[k] == '.' && DigitsFrom(w, k + 1) > k + 1 {
      var e := DigitsFrom(w, k + 1);
      ScannedFraction(w, k, e);
    } else {
      var d, u := w[..k], w[k..];
      assert AllDigits(d) by {
        forall t | 0 <= t < |d| ensures IsDigit(d[t]) { assert d[t] == w[t]; }
      }
      assert w == d + [] + u;
      assert IsLengthOf(w, d, [], u);
    }
  }

  lemma BuiltLength(w: string, d: string, f: string, u: string)
    requires IsLengthOf(w, d, f, u)
    ensures IsUnsignedLength(w)
  {
    UnitNotDigit(u);
    var k := |d|;
    assert forall t :: 0 <= t < k ==> w[t] == d[t];
    assert w[k..] == f + u;
    if f != [] {
      assert w[k] == '.';
      DigitsFromOf(w, 0, k);
      var e := k + |f|;
      assert forall t :: k + 1 <= t < e ==> w[t] == f[1..][t - k - 1];
      assert e == |w| || w[e] == u[0];
      DigitsFromOf(w, k + 1, e);
      assert w[e..] == u;
    } else {
      assert k == |w| || w[k] == u[0];
      DigitsFromOf(w, 0, k);
    }
  }

  /** The scanner accepts exactly the strings built from the parts of the pattern. */
  lemma UnsignedLengthIff(w: string)
    ensures IsUnsignedLength(w) <==> exists d, f, u :: IsLengthOf(w, d, f, u)
  {
    if IsUnsignedLength(w) {
      ScannedLength(w);
    }
    if exists d, f, u :: IsLengthOf(w, d, f, u) {
      var d, f, u :| IsLengthOf(w, d, f, u);
      BuiltLength(w, d, f, u);
    }
  }

  /** Spacing values: an optional minus sign, then a decimal length with a unit, as in `16px`, `-0.5rem` or `50%`. */
  lemma SpacingValueIff(value: string)
    ensures IsSpacingValue(value) <==>
      (exists d, f, u :: IsLengthOf(Trim(value), d, f, u))
      || (|Trim(value)| > 0 && Trim(value)[0] == '-' && exists d, f, u :: IsLengthOf(Trim(value)[1..], d, f, u))
  {
    var v := Trim(value);
    UnsignedLengthIff(v);
    if |v| > 0 && v[0] == '-' {
      UnsignedLengthIff(v[1..]);
      assert !IsUnsignedLength(v) by { assert DigitsFrom(v, 0) == 0; }
    }
  }

  // ---------------------------------------------------------------------
  // getPropertyCategory

  /** The entries of `propertyMappings`, in declaration order. */
  const PropertyMappings: seq<(string, Category)> :=
    [("color", Colors), ("background-color", Colors), ("border-color", Colors), ("outline-color", Colors),
     ("text-decoration-color", Colors), ("caret-color", Colors),
     ("padding", Spacing), ("padding-top", Spacing), ("padding-right", Spacing), ("padding-bottom", Spacing),
     ("padding-left", Spacing), ("margin", Spacing), ("margin-top", Spacing), ("margin-right", Spacing),
     ("margin-bottom", Spacing), ("margin-left", Spacing), ("gap", Spacing), ("row-gap", Spacing),
     ("column-gap", Spacing)]
    + [("width", Sizing), ("height", Sizing), ("min-width", Sizing), ("min-height", Sizing),
       ("max-width", Sizing), ("max-height", Sizing),
       ("font-size", Typography), ("line-height", Typography), ("letter-spacing", Typography),
       ("border-radius", Borders), ("border-width", Borders),
       ("box-shadow", Effects), ("opacity", Effects)]

  /** `getPropertyCategory`: the mapped category of a property, if it has one of its own. */
  function PropertyCategory(property: string): (r: Option<Category>)
  {
    Lookup(PropertyMappings, property)
  }

  // ---------------------------------------------------------------------
  // findMatchingToken and shouldUseToken

  /** `token.replace(/^--/, '').replaceAll('-', '.')`. */
  function DottedPath(token: string): string
  {
    var bare := if StartsWith(token, "--") then token[2..] else token;
    ReplaceChar(bare, '-', ".")
  }

  /** The dotted path of a dot-free token leads back to it: `"--"` plus the path with `.` replaced by `-`. */
  lemma DottedPathRoundTrip(token: string)
    requires StartsWith(token, "--") && '.' !in token
    ensures "--" + ReplaceChar(DottedPath(token), '.', "-") == token
  {
    assert '.' !in token[2..];
    ReplaceCharInverse(token[2..], '-', '.');
    assert token == "--" + token[2..];
  }

  /** A dotted path of a key is a valid `theme()` path for the same map. */
  lemma DottedPathValid(token: string, themeValues: seq<ThemeValue>)
    requires token in Keys(themeValues) && StartsWith(token, "--") && '.' !in token
    ensures IsValidThemePath(DottedPath(token), themeValues)
  {
    DottedPathRoundTrip(token);
    ValidThemePathIff(DottedPath(token), themeValues);
  }

  /** The entry has the category and exactly the value. */
  predicate IsMatch(v: ThemeValue, value: string, category: Category)
  {
    ThemeCategory(v.name) == category && v.value == value
  }

  /** The index of the first entry, in map order, of the category whose value is exactly `value`, or -1. */
  function FirstMatching(themeValues: seq<ThemeValue>, value: string, category: Category): int
  {
    FirstIndex(themeValues, v => IsMatch(v, value, category))
  }

  /** `findMatchingToken(value, category)`. */
  function MatchingToken(themeValues: seq<ThemeValue>, value: string, category: Category): (r: Option<string>)
    ensures r.None? <==> forall i :: 0 <= i < |themeValues| ==> !IsMatch(themeValues[i], value, category)
    ensures r.Some? ==>
      (exists i :: 0 <= i < |themeValues| && IsMatch(themeValues[i], value, category) && (forall j :: 0 <= j < i ==> !IsMatch(themeValues[j], value, category)) && r.value == DottedPath(themeValues[i].name))
  {
    var k := FirstMatching(themeValues, value, category);
    if k == -1 then None else Some(DottedPath(themeValues[k].name))
  }

  datatype TokenSuggestion = TokenSuggestion(category: Category, possibleToken: Option<string>)

  /** `shouldUseToken`: a colour or spacing value of a mapped property in an enabled category. */
  function ShouldUseToken(themeValues: seq<ThemeValue>, enabledCategories: set<Category>, property: string, value: string): (r: Option<TokenSuggestion>)
    ensures r.Some? <==> ((IsColorValue(value) || IsSpacingValue(value))
      && PropertyCategory(property).Some? && PropertyCategory(property).value in enabledCategories)
    ensures r.Some? ==> r.value == TokenSuggestion(PropertyCategory(property).value,
      MatchingToken(themeValues, value, PropertyCategory(property).value))
  {
    var category := PropertyCategory(property);
    if IsColorValue(value) && category.Some? && category.value in enabledCategories then
      Some(TokenSuggestion(category.value, MatchingToken(themeValues, value, category.value)))
    else if IsSpacingValue(value) && category.Some? && category.value in enabledCategories then
      Some(TokenSuggestion(category.value, MatchingToken(themeValues, value, category.value)))
    else None
  }

  /** The report on a flagged value: with the suggestion and its fix when the token is non-empty. */
  function ValueReport(valueNode: Node, valueText: string, property: string, possibleToken: Option<string>): seq<Report>
  {
    if possibleToken.Some? && possibleToken.value != [] then
      [Report("useThemeTokenWithSuggestion",
              map["value" := valueText, "property" := property, "suggestion" := possibleToken.value],
              OnNode(valueNode), ReplaceNode(valueNode, "theme(\"" + possibleToken.value + "\")"))]
    else
      [Report("useThemeToken", map["value" := valueText, "property" := property], OnNode(valueNode), None)]
  }

  /** The `Declaration` visitor on node `n`. */
  function DeclarationReports(themeValues: seq<ThemeValue>, enabledCategories: set<Category>, ignoredProperties: set<string>,
                              n: Node, text: string): seq<Report>
  {
    if n.property in ignoredProperties || n.value.None? then []
    else
      var valueNode := n.value.value;
      var valueText := GetNodeText(valueNode, text);
      if HasThemeReference(valueText) then []
      else
        match ShouldUseToken(themeValues, enabledCategories, n.property, valueText)
        case None => []
        case Some(s) => ValueReport(valueNode, valueText, n.property, s.possibleToken)
  }

  /** The visitors on one node of the walk: only declarations are visited. */
  function CheckNode(themeValues: seq<ThemeValue>, enabledCategories: set<Category>, ignoredProperties: set<string>,
                     n: Node, text: string): seq<Report>
  {
    if n.kind == Declaration then DeclarationReports(themeValues, enabledCategories, ignoredProperties, n, text) else []
  }

  /** `CheckNode` with the rule's state and the source text fixed. */
  function Visitor(themeValues: seq<ThemeValue>, enabledCategories: set<Category>, ignoredProperties: set<string>,
                   text: string): Node -> seq<Report>
  {
    n => CheckNode(themeValues, enabledCategories, ignoredProperties, n, text)
  }

  /** The rule on a stylesheet: the theme values, then each declaration of the walk. */
  function Check(root: Node, text: string, enabledCategories: set<Category>, ignoredProperties: set<string>): seq<Report>
  {
    ConcatMap(Nodes(root), Visitor(ThemeValues(root, text), enabledCategories, ignoredProperties, text))
  }

  // ---------------------------------------------------------------------
  // Properties of the declaration check

  /** A declaration whose value the rule flags: not ignored, no theme reference, colour- or spacing-like, in an enabled category. */
  predicate Reportable(enabledCategories: set<Category>, ignoredProperties: set<string>, n: Node, text: string)
  {
    n.property !in ignoredProperties && n.value.Some?
    && var valueText := GetNodeText(n.value.value, text);
    && !HasThemeReference(valueText)
    && (IsColorValue(valueText) || IsSpacingValue(valueText))
    && PropertyCategory(n.property).Some? && PropertyCategory(n.property).value in enabledCategories
  }

  /** At most one report per declaration, and one exactly when it is reportable. */
  lemma DeclarationReportIff(themeValues: seq<ThemeValue>, enabledCategories: set<Category>, ignoredProperties: set<string>,
                             n: Node, text: string)
    ensures |DeclarationReports(themeValues, enabledCategories, ignoredProperties, n, text)| <= 1
    ensures DeclarationReports(themeValues, enabledCategories, ignoredProperties, n, text) != []
      <==> Reportable(enabledCategories, ignoredProperties, n, text)
  {
  }

  /** Ignored properties are never reported, whatever their value. */
  lemma IgnoredNeverReported(themeValues: seq<ThemeValue>, enabledCategories: set<Category>, ignoredProperties: set<string>,
                             n: Node, text: string)
    requires n.property in ignoredProperties
    ensures CheckNode(themeValues, enabledCategories, ignoredProperties, n, text) == []
  {
  }

  /** A value that already has a theme reference is skipped. */
  lemma ReferenceSkipped(themeValues: seq<ThemeValue>, enabledCategories: set<Category>, ignoredProperties: set<string>,
                         n: Node, text: string)
    requires n.value.Some? && HasThemeReference(GetNodeText(n.value.value, text))
    ensures CheckNode(themeValues, enabledCategories, ignoredProperties, n, text) == []
  {
  }

  /**
   * The report on a flagged value: at the value node, with the value and
   * property as data; with a non-empty token it is the suggestion and the fix
   * writes `theme("<token>")` over the value.
   */
  lemma ValueReportContents(valueNode: Node, valueText: string, property: string, token: Option<string>)
    ensures var reports := ValueReport(valueNode, valueText, property, token);
      && |reports| == 1 && reports[0].at == OnNode(valueNode)
      && "value" in reports[0].data && reports[0].data["value"] == valueText
      && "property" in reports[0].data && reports[0].data["property"] == property
      && (reports[0].messageId == "useThemeTokenWithSuggestion" <==> token.Some? && token.value != [])
      && (reports[0].messageId == "useThemeTokenWithSuggestion" ==>
            "suggestion" in reports[0].data && reports[0].data["suggestion"] == token.value
            && reports[0].fix == ReplaceNode(valueNode, "theme(\"" + token.value + "\")"))
      && (reports[0].messageId != "useThemeTokenWithSuggestion" ==>
            reports[0].messageId == "useThemeToken" && reports[0].fix.None?)
  {
  }

  /** A reportable declaration gets the value report whose token is the first matching theme token. */
  lemma DeclarationReportContents(themeValues: seq<ThemeValue>, enabledCategories: set<Category>, ignoredProperties: set<string>,
                                  n: Node, text: string)
    requires Reportable(enabledCategories, ignoredProperties, n, text)
    ensures var valueText := GetNodeText(n.value.value, text);
      DeclarationReports(themeValues, enabledCategories, ignoredProperties, n, text)
      == ValueReport(n.value.value, valueText, n.property, MatchingToken(themeValues, valueText, PropertyCategory(n.property).value))
  {
  }

  /** A report of the visitors on one node is the one report of a reportable declaration. */
  lemma NodeReport(themeValues: seq<ThemeValue>, enabledCategories: set<Category>, ignoredProperties: set<string>,
                   n: Node, text: string, r: Report)
    requires r in CheckNode(themeValues, enabledCategories, ignoredProperties, n, text)
    ensures n.kind == Declaration && Reportable(enabledCategories, ignoredProperties, n, text)
    ensures DeclarationReports(themeValues, enabledCategories, ignoredProperties, n, text) == [r]
  {
    DeclarationReportIff(themeValues, enabledCategories, ignoredProperties, n, text);
  }

  /** Each report of the rule comes from a reportable declaration of the walk. */
  lemma CheckReportFrom(root: Node, text: string, enabledCategories: set<Category>, ignoredProperties: set<string>, r: Report)
    requires r in Check(root, text, enabledCategories, ignoredProperties)
    ensures exists n :: (n in Nodes(root) && n.kind == Declaration && Reportable(enabledCategories, ignoredProperties, n, text)
      && DeclarationReports(ThemeValues(root, text), enabledCategories, ignoredProperties, n, text) == [r])
  {
    var themeValues := ThemeValues(root, text);
    var check := Visitor(themeValues, enabledCategories, ignoredProperties, text);
    ConcatMapFrom(Nodes(root), check, r);
    var i :| 0 <= i < |Nodes(root)| && r in check(Nodes(root)[i]);
    var n := Nodes(root)[i];
    NodeReport(themeValues, enabledCategories, ignoredProperties, n, text, r);
  }

  /** Theme names as custom properties are written: no `.`, no `)` and no quote. */
  predicate PlainNames(themeValues: seq<ThemeValue>)
  {
    forall i :: 0 <= i < |themeValues| ==> var k := themeValues[i].name;
      '.' !in k && ')' !in k && '"' !in k && '\'' !in k
  }

  /** The dotted path keeps the characters it does not rewrite out. */
  lemma DottedPathPlain(token: string, x: char)
    requires x !in token && x != '.'
    ensures x !in DottedPath(token)
  {
    var bare := if StartsWith(token, "--") then token[2..] else token;
    assert bare <= token || bare == token[2..];
    if x in DottedPath(token) {
      ReplaceCharMembers(bare, '-', ".", x);
    }
  }

  /** `theme("<token>")` is a theme reference. */
  lemma CallIsReference(token: string)
    requires ')' !in token
    ensures HasThemeReference("theme(\"" + token + "\")")
  {
    QuotedCallIsReference("", token, "");
    assert "" + "theme(\"" + token + "\")" + "" == "theme(\"" + token + "\")";
  }

  /** The fix's replacement text has a theme reference, so a second run skips the declaration. */
  lemma FixIsThemeReference(themeValues: seq<ThemeValue>, enabledCategories: set<Category>, ignoredProperties: set<string>,
                            n: Node, text: string, r: Report)
    requires PlainNames(themeValues)
    requires r in DeclarationReports(themeValues, enabledCategories, ignoredProperties, n, text) && r.fix.Some?
    ensures HasThemeReference(r.fix.value.text)
  {
    DeclarationReportIff(themeValues, enabledCategories, ignoredProperties, n, text);
    DeclarationReportContents(themeValues, enabledCategories, ignoredProperties, n, text);
    var valueText := GetNodeText(n.value.value, text);
    var token := MatchingToken(themeValues, valueText, PropertyCategory(n.property).value);
    ValueReportContents(n.value.value, valueText, n.property, token);
    var i :| 0 <= i < |themeValues| && token.value == DottedPath(themeValues[i].name);
    DottedPathPlain(themeValues[i].name, ')');
    CallIsReference(token.value);
  }

  /** A suggestion of the rule is the non-empty dotted path of one of the stylesheet's theme names. */
  lemma SuggestionIsToken(root: Node, text: string, enabledCategories: set<Category>, ignoredProperties: set<string>, r: Report)
    requires r in Check(root, text, enabledCategories, ignoredProperties) && r.messageId == "useThemeTokenWithSuggestion"
    ensures "suggestion" in r.data && r.data["suggestion"] != []
    ensures exists i :: 0 <= i < |ThemeValues(root, text)| && r.data["suggestion"] == DottedPath(ThemeValues(root, text)[i].name)
  {
    var themeValues := ThemeValues(root, text);
    CheckReportFrom(root, text, enabledCategories, ignoredProperties, r);
    var n :| n in Nodes(root) && n.kind == Declaration && Reportable(enabledCategories, ignoredProperties, n, text)
      && DeclarationReports(themeValues, enabledCategories, ignoredProperties, n, text) == [r];
    DeclarationReportContents(themeValues, enabledCategories, ignoredProperties, n, text);
    var valueText := GetNodeText(n.value.value, text);
    ValueReportContents(n.value.value, valueText, n.property, MatchingToken(themeValues, valueText, PropertyCategory(n.property).value));
  }

  /** The dotted path of a plain custom-property name, written as `theme("<path>")`, passes `valid-theme-function`. */
  lemma DottedTokenAccepted(themeValues: seq<ThemeValue>, i: nat, f: Node, fixedText: string)
    requires PlainNames(themeValues) && i < |themeValues| && StartsWith(themeValues[i].name, "--")
    requires DottedPath(themeValues[i].name) != []
    requires f.kind == FunctionNode && f.name == "theme" && f.hasChildren && f.children != []
    requires GetNodeText(f, fixedText) == "theme(\"" + DottedPath(themeValues[i].name) + "\")"
    ensures IsValidThemePath(DottedPath(themeValues[i].name), themeValues)
    ensures ValidThemeFunction.CheckNode(f, themeValues, fixedText) == []
  {
    var name := themeValues[i].name;
    assert Keys(themeValues)[i] == name;
    DottedPathValid(name, themeValues);
    DottedPathPlain(name, '"');
    DottedPathPlain(name, '\'');
    ValidThemeFunction.QuotedCallMatches(DottedPath(name));
    ValidThemeFunction.KnownPath(f, themeValues, fixedText);
  }

  /**
   * The suggested path is a valid `theme()` path for the same stylesheet, and
   * the fix text `theme("<path>")`, read by `valid-theme-function`, reports nothing.
   */
  lemma SuggestionAccepted(root: Node, text: string, enabledCategories: set<Category>, ignoredProperties: set<string>,
                           r: Report, f: Node, fixedText: string)
    requires r in Check(root, text, enabledCategories, ignoredProperties) && r.messageId == "useThemeTokenWithSuggestion"
    requires PlainNames(ThemeValues(root, text))
    requires f.kind == FunctionNode && f.name == "theme" && f.hasChildren && f.children != []
    requires "suggestion" in r.data && GetNodeText(f, fixedText) == "theme(\"" + r.data["suggestion"] + "\")"
    ensures IsValidThemePath(r.data["suggestion"], ThemeValues(root, text))
    ensures ValidThemeFunction.CheckNode(f, ThemeValues(root, text), fixedText) == []
  {
    var themeValues := ThemeValues(root, text);
    SuggestionIsToken(root, text, enabledCategories, ignoredProperties, r);
    var i :| 0 <= i < |themeValues| && r.data["suggestion"] == DottedPath(themeValues[i].name);
    ThemeNamesCustom(root, text);
    DottedTokenAccepted(themeValues, i, f, fixedText);
  }

  /** The rule instance: its options, and the theme values of the current stylesheet. */
  class PreferThemeTokensRule {
    const enabledCategories: set<Category>
    const ignoredProperties: set<string>
    var themeValues: seq<ThemeValue>

    /** `create`: the options, with their defaults. */
    constructor (categories: Option<seq<Category>>, ignoreProperties: Option<seq<string>>)
      ensures enabledCategories == if categories.Some? then set c | c in categories.value else {Colors, Spacing, Sizing}
      ensures ignoredProperties == if ignoreProperties.Some? then set p | p in ignoreProperties.value
        else {"content", "counter-reset", "counter-increment"}
      ensures themeValues == []
    {
      enabledCategories := if categories.Some? then set c | c in categories.value else {Colors, Spacing, Sizing};
      ignoredProperties := if ignoreProperties.Some? then set p | p in ignoreProperties.value
        else {"content", "counter-reset", "counter-increment"};
      themeValues := [];
    }

    /** The `StyleSheet` visitor: extract the theme values once for the file. */
    method OnStyleSheet(root: Node, text: string)
      modifies this
      ensures themeValues == ThemeValues(root, text)
    {
      themeValues := ExtractThemeValues(root, text);
    }

    /** `findMatchingToken`: the first entry of the category with exactly this value, as a dotted path. */
    method FindMatchingToken(value: string, category: Category) returns (token: Option<string>)
      ensures token == MatchingToken(themeValues, value, category)
    {
      var i := FindFirst(themeValues, v => IsMatch(v, value, category));
      if i == -1 {
        return None;
      }
      return Some(DottedPath(themeValues[i].name));
    }

    /** `shouldUseToken`. */
    method ShouldUse(property: string, value: string) returns (suggestion: Option<TokenSuggestion>)
      ensures suggestion == ShouldUseToken(themeValues, enabledCategories, property, value)
    {
      if IsColorValue(value) {
        var category := PropertyCategory(property);
        if category.Some? && category.value in enabledCategories {
          var token := FindMatchingToken(value, category.value);
          return Some(TokenSuggestion(category.value, token));
        }
      }
      if IsSpacingValue(value) {
        var category := PropertyCategory(property);
        if category.Some? && category.value in enabledCategories {
          var token := FindMatchingToken(value, category.value);
          return Some(TokenSuggestion(category.value, token));
        }
      }
      return None;
    }

    /** The `Declaration` visitor. */
    method OnDeclaration(n: Node, text: string) returns (reports: seq<Report>)
      ensures reports == DeclarationReports(themeValues, enabledCategories, ignoredProperties, n, text)
    {
      if n.property in ignoredProperties || n.value.None? {
        return [];
      }
      var valueNode := n.value.value;
      var valueText := GetNodeText(valueNode, text);
      if HasThemeReference(valueText) {
        return [];
      }
      var suggestion := ShouldUse(n.property, valueText);
      if suggestion.None? {
        return [];
      }
      var possibleToken := suggestion.value.possibleToken;
      if possibleToken.Some? && possibleToken.value != [] {
        reports := [Report("useThemeTokenWithSuggestion",
                           map["value" := valueText, "property" := n.property, "suggestion" := possibleToken.value],
                           OnNode(valueNode), ReplaceNode(valueNode, "theme(\"" + possibleToken.value + "\")"))];
      } else {
        reports := [Report("useThemeToken", map["value" := valueText, "property" := n.property], OnNode(valueNode), None)];
      }
    }

    /** The visitors on one node: only declarations are visited. */
    method Visit(n: Node, text: string) returns (reports: seq<Report>)
      ensures reports == CheckNode(themeValues, enabledCategories, ignoredProperties, n, text)
    {
      reports := [];
      if n.kind == Declaration {
        reports := OnDeclaration(n, text);
      }
    }

    /** The visitors on each node of a walk, in order. */
    method VisitAll(nodes: seq<Node>, text: string) returns (reports: seq<Report>)
      ensures reports == ConcatMap(nodes, Visitor(themeValues, enabledCategories, ignoredProperties, text))
    {
      var check := Visitor(themeValues, enabledCategories, ignoredProperties, text);
      reports := [];
      for i := 0 to |nodes|
        invariant reports == ConcatMap(nodes[..i], check)
      {
        ConcatMapStep(nodes, i, check);
        var found := Visit(nodes[i], text);
        reports := reports + found;
      }
      assert nodes[..|nodes|] == nodes;
    }

    /** One stylesheet: the `StyleSheet` visitor first, then the `Declaration` visitor on each declaration in walk order. */
    method Run(root: Node, text: string) returns (reports: seq<Report>)
      modifies this
      ensures themeValues == ThemeValues(root, text)
      ensures reports == Check(root, text, enabledCategories, ignoredProperties)
    {
      OnStyleSheet(root, text);
      reports := VisitAll(Nodes(root), text);
    }
  }
}
