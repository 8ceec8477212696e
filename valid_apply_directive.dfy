/**
 * The `valid-apply-directive` rule (src/rules/valid-apply-directive.ts):
 * every `@apply` at-rule must list utilities, not too many of them, none
 * written as a CSS declaration and each of a plausible shape; an `@apply`
 * inside another is reported, and so is one inside a media query. Two
 * flags, `inApply` and `inMediaQuery`, are set when such an at-rule is
 * entered and cleared when one is left.
 */
module ValidApplyDirective {
  import opened Wrappers
  import opened Strings
  import opened Ast
  import opened Lint
  import opened Tailwind
  import opened Traversal

  // ---------------------------------------------------------------------
  // isValidModifierSyntax

  /** `[a-zA-Z0-9-[\]()]`: the characters of a modifier. */
  predicate IsModifierChar(c: char)
  {
    IsLetter(c) || IsDigit(c) || c == '-' || c == '[' || c == ']' || c == '(' || c == ')'
  }

  /** `/^[a-zA-Z0-9-[\]()]+$/.test(modifier)`. */
  predicate ModifierPartOk(p: string)
  {
    p != [] && forall k :: 0 <= k < |p| ==> IsModifierChar(p[k])
  }

  /**
   * The colon-separated parts of the utility: at least two, not just a name
   * and a blank, and every part but the last a well-formed modifier.
   */
  predicate ValidModifierSyntax(utility: string)
  {
    var parts := Split(utility, ':');
    |parts| >= 2
    && !(|parts| == 2 && Trim(parts[1]) == [])
    && forall i :: 0 <= i < |parts| - 1 ==> ModifierPartOk(parts[i])
  }

  /** `isValidModifierSyntax`, with its loop over the modifier parts. */
  method IsValidModifierSyntax(utility: string) returns (ok: bool)
    ensures ok == ValidModifierSyntax(utility)
  {
    var parts := Split(utility, ':');
    if |parts| < 2 {
      return false;
    }
    if |parts| == 2 && Trim(parts[1]) == [] {
      return false;
    }
    for i := 0 to |parts| - 1
      invariant forall j :: 0 <= j < i ==> ModifierPartOk(parts[j])
    {
      if !ModifierPartOk(parts[i]) {
        return false;
      }
    }
    return true;
  }

  /** Without a colon there is only one part, so no modifier syntax. */
  lemma ModifierSyntaxNeedsColon(utility: string)
    ensures ValidModifierSyntax(utility) ==> ':' in utility
  {
    if ':' !in utility {
      assert IndexOf(utility, ':') == -1;
      assert Split(utility, ':') == [utility];
    }
  }

  /** `m:t`, for a well-formed modifier and a non-blank utility without colons, is valid modifier syntax. */
  lemma ModifiedUtility(m: string, t: string)
    requires ModifierPartOk(m) && ':' !in m && ':' !in t && Trim(t) != []
    ensures ValidModifierSyntax(m + [':'] + t)
  {
    SplitPair(m, ':', t);
  }

  /** `p:` and `p:  `, a name and nothing after its colon, are not modifier syntax. */
  lemma PropertyShapeRejected(p: string, blank: string)
    requires ':' !in p && ':' !in blank && forall k :: 0 <= k < |blank| ==> IsSpace(blank[k])
    ensures !ValidModifierSyntax(p + [':'] + blank)
  {
    SplitPair(p, ':', blank);
  }

  // ---------------------------------------------------------------------
  // isValidUtilityFormat

  /** `[a-zA-Z0-9-._[\]()/]`: the characters of a base utility. */
  predicate IsBaseChar(c: char)
  {
    IsLetter(c) || IsDigit(c) || c == '-' || c == '.' || c == '_' || c == '[' || c == ']' || c == '(' || c == ')' || c == '/'
  }

  predicate AllBaseChars(b: string)
  {
    forall k :: 0 <= k < |b| ==> IsBaseChar(b[k])
  }

  predicate IsLowerOrDash(c: char)
  {
    IsLower(c) || c == '-'
  }

  /** The length of the longest prefix of lower-case letters and dashes. */
  function LowerRun(b: string): (n: nat)
    ensures n <= |b|
    ensures forall k :: 0 <= k < n ==> IsLowerOrDash(b[k])
    ensures n < |b| ==> !IsLowerOrDash(b[n])
  {
    if b == [] || !IsLowerOrDash(b[0]) then 0 else 1 + LowerRun(b[1..])
  }

  /**
   * `/^[a-z-]+\s*:/`: a run of lower-case letters and dashes, spaces, then
   * a colon. The three classes are disjoint, so the greedy run is the only
   * one that can be followed by the spaces and the colon.
   */
  predicate CssPropertyPrefix(b: string)
  {
    var n := LowerRun(b);
    var s := LeadingSpace(b[n..]);
    n >= 1 && n + s < |b| && b[n + s] == ':'
  }

  predicate IsDashOrDot(c: char) { c == '-' || c == '.' }

  /** `/[-.]{2,}/`: two dashes or dots in a row. */
  predicate HasSpecialRun(b: string)
  {
    exists i :: 0 <= i < |b| - 1 && IsDashOrDot(b[i]) && IsDashOrDot(b[i + 1])
  }

  /**
   * `/^[0-9]+(?![a-zA-Z])/`, as the regular expression reads: some
   * non-empty run of leading digits that no letter follows.
   */
  predicate LeadingNumberMatch(b: string)
  {
    exists n :: 1 <= n <= |b| && AllDigits(b[..n]) && (n == |b| || !IsLetter(b[n]))
  }

  /**
   * The same test without the search: a leading digit not followed by a
   * letter. With backtracking, `12xl` matches (on `1`, followed by `2`),
   * while `2xl` does not.
   */
  predicate StartsWithBareNumber(b: string)
  {
    |b| >= 1 && IsDigit(b[0]) && !(|b| >= 2 && IsLetter(b[1]))
  }

  lemma BareNumberIff(b: string)
    ensures StartsWithBareNumber(b) <==> LeadingNumberMatch(b)
  {
    if StartsWithBareNumber(b) {
      assert AllDigits(b[..1]) && (1 == |b| || !IsLetter(b[1]));
    }
    if LeadingNumberMatch(b) {
      var n :| 1 <= n <= |b| && AllDigits(b[..n]) && (n == |b| || !IsLetter(b[n]));
      assert IsDigit(b[..n][0]);
      assert n >= 2 ==> IsDigit(b[..n][1]);
    }
  }

  predicate IsBracket(c: char) { c == '[' || c == ']' }

  /** The first bracket of the text, if any. */
  function FirstBracket(s: string): Option<char>
  {
    if s == [] then None
    else if IsBracket(s[0]) then Some(s[0])
    else FirstBracket(s[1..])
  }

  /** The last bracket of the text, if any. */
  function LastBracket(s: string): Option<char>
  {
    if s == [] then None
    else if IsBracket(s[|s| - 1]) then Some(s[|s| - 1])
    else LastBracket(s[..|s| - 1])
  }

  /** `/^[^[]*\]/`: a `]` with no `[` before it. */
  predicate CloseUnopened(s: string)
  {
    exists i :: 0 <= i < |s| && s[i] == ']' && '[' !in s[..i]
  }

  /** `/\[[^\]]*$/`: a `[` with no `]` after it. */
  predicate OpenUnclosed(s: string)
  {
    exists i :: 0 <= i < |s| && s[i] == '[' && ']' !in s[i + 1..]
  }

  lemma {:induction false} FirstBracketIff(s: string)
    ensures FirstBracket(s) == Some(']') <==> CloseUnopened(s)
  {
    if s == [] {
    } else if IsBracket(s[0]) {
      if s[0] == ']' {
        assert s[..0] == [];
      } else {
        forall i | 0 <= i < |s| && s[i] == ']' ensures '[' in s[..i] {
          assert s[..i][0] == '[';
        }
      }
    } else {
      var t := s[1..];
      FirstBracketIff(t);
      if CloseUnopened(t) {
        var i :| 0 <= i < |t| && t[i] == ']' && '[' !in t[..i];
        assert s[..i + 1] == [s[0]] + t[..i];
        assert s[i + 1] == ']';
      }
      if CloseUnopened(s) {
        var i :| 0 <= i < |s| && s[i] == ']' && '[' !in s[..i];
        assert i >= 1;
        assert s[..i] == [s[0]] + t[..i - 1];
        assert t[i - 1] == ']' && '[' !in t[..i - 1];
      }
    }
  }

  lemma {:induction false} LastBracketIff(s: string)
    ensures LastBracket(s) == Some('[') <==> OpenUnclosed(s)
  {
    if s == [] {
    } else if IsBracket(s[|s| - 1]) {
      if s[|s| - 1] == '[' {
        assert s[|s|..] == [];
      } else {
        forall i | 0 <= i < |s| && s[i] == '[' ensures ']' in s[i + 1..] {
          assert s[i + 1..][|s| - 1 - (i + 1)] == ']';
        }
      }
    } else {
      var t := s[..|s| - 1];
      LastBracketIff(t);
      if OpenUnclosed(t) {
        var i :| 0 <= i < |t| && t[i] == '[' && ']' !in t[i + 1..];
        assert s[i + 1..] == t[i + 1..] + [s[|s| - 1]];
      }
      if OpenUnclosed(s) {
        var i :| 0 <= i < |s| && s[i] == '[' && ']' !in s[i + 1..];
        assert i < |s| - 1;
        assert s[i + 1..] == t[i + 1..] + [s[|s| - 1]];
        assert t[i] == '[';
      }
    }
  }

  /** `/\[[^\]]*$|^[^[]*\]/`, decided by the first and the last bracket. */
  predicate UnclosedBracket(b: string)
  {
    LastBracket(b) == Some('[') || FirstBracket(b) == Some(']')
  }

  lemma UnclosedBracketIff(b: string)
    ensures UnclosedBracket(b) <==> OpenUnclosed(b) || CloseUnopened(b)
  {
    FirstBracketIff(b);
    LastBracketIff(b);
  }

  /** `baseUtility.includes('[') && baseUtility.includes(']')` with unequal counts. */
  predicate UnbalancedBrackets(b: string)
  {
    '[' in b && ']' in b && Count(b, '[') != Count(b, ']')
  }

  /** `isValidUtilityFormat`: every test the function makes, on the utility without its modifiers. */
  predicate IsValidUtilityFormat(utility: string)
  {
    var b := Parse(utility).utility;
    b != []
    && AllBaseChars(b)
    && !CssPropertyPrefix(b)
    && !HasSpecialRun(b)
    && !StartsWithBareNumber(b)
    && !UnclosedBracket(b)
    && !UnbalancedBrackets(b)
  }

  /**
   * The property pattern can never fire: the character test before it
   * already rejects colons, and no space is a base character either.
   */
  lemma CssPatternUnreachable(b: string)
    requires AllBaseChars(b)
    ensures !CssPropertyPrefix(b)
  {
    var n := LowerRun(b);
    var s := LeadingSpace(b[n..]);
    if n >= 1 && n + s < |b| {
      assert IsBaseChar(b[n + s]);
    }
  }

  /** A text with brackets of one kind only has an unclosed bracket. */
  lemma OneSidedBracketUnclosed(b: string)
    ensures ('[' in b) != (']' in b) ==> UnclosedBracket(b)
  {
    UnclosedBracketIff(b);
    if '[' in b && ']' !in b {
      var i := IndexOf(b, '[');
      assert b[i] == '[' && ']' !in b[i + 1..];
    } else if ']' in b && '[' !in b {
      var i := IndexOf(b, ']');
      assert b[i] == ']' && '[' !in b[..i];
    }
  }

  /** A base utility that passes has as many `[` as `]`, and only allowed characters. */
  lemma ValidFormatBalanced(utility: string)
    requires IsValidUtilityFormat(utility)
    ensures var b := Parse(utility).utility;
      b != [] && AllBaseChars(b) && Count(b, '[') == Count(b, ']')
  {
    OneSidedBracketUnclosed(Parse(utility).utility);
  }

  // ---------------------------------------------------------------------
  // validateUtility

  /** Where a utility's report goes: `node.prelude || node`. */
  function UtilityTarget(node: Node): Node
  {
    if node.prelude.Some? then node.prelude.value else node
  }

  /** `parts.length === 2 && (parts[1] === '' || parts[1].startsWith(' '))`, for a utility with a colon. */
  predicate CssPropertyShape(utility: string)
  {
    var parts := Split(utility, ':');
    ':' in utility && |parts| == 2 && (parts[1] == [] || StartsWith(parts[1], " "))
  }

  function InvalidUtility(node: Node, utility: string): Report
  {
    Report("invalidUtility", map["utility" := utility], OnNode(UtilityTarget(node)), None)
  }

  /**
   * `validateUtility`: a CSS declaration is reported with its property;
   * otherwise a utility with a colon must be modifier syntax, and any
   * utility must have a valid format.
   */
  function ValidateUtility(utility: string, node: Node): (r: seq<Report>)
    ensures |r| <= 1
    ensures r != [] ==> r[0].at == OnNode(UtilityTarget(node)) && r[0].fix == None
    ensures r != [] ==> (r[0].messageId == "cssPropertyInApply" <==> CssPropertyShape(utility))
    ensures r != [] && r[0].messageId != "cssPropertyInApply" ==> r[0] == InvalidUtility(node, utility)
  {
    if CssPropertyShape(utility) then
      [Report("cssPropertyInApply", map["property" := Split(utility, ':')[0]], OnNode(UtilityTarget(node)), None)]
    else if ':' in utility && !ValidModifierSyntax(utility) then [InvalidUtility(node, utility)]
    else if !IsValidUtilityFormat(utility) then [InvalidUtility(node, utility)]
    else []
  }

  /** A utility passes exactly when it is no declaration, is modifier syntax if it has a colon, and has a valid format. */
  lemma ValidateUtilityIff(utility: string, node: Node)
    ensures ValidateUtility(utility, node) == []
      <==> !CssPropertyShape(utility)
           && (':' in utility ==> ValidModifierSyntax(utility))
           && IsValidUtilityFormat(utility)
  {
  }

  /** `color:` is a declaration: reported with `color` as the property. */
  lemma DeclarationInApply(p: string, node: Node)
    requires ':' !in p
    ensures ValidateUtility(p + [':'], node)
      == [Report("cssPropertyInApply", map["property" := p], OnNode(UtilityTarget(node)), None)]
  {
    SplitPair(p, ':', []);
    assert p + [':'] + [] == p + [':'];
    assert (p + [':'])[|p|] == ':';
  }

  /** The reports of the utilities, in order. */
  function ValidateEach(utilities: seq<string>, node: Node): (r: seq<Report>)
    ensures |r| <= |utilities|
  {
    if utilities == [] then []
    else ValidateEach(utilities[..|utilities| - 1], node) + ValidateUtility(utilities[|utilities| - 1], node)
  }

  /** Every report of the utilities is about one of them, on the prelude or the at-rule. */
  lemma {:induction false} ValidateEachReports(utilities: seq<string>, node: Node, r: Report)
    requires r in ValidateEach(utilities, node)
    ensures r.at == OnNode(UtilityTarget(node))
    ensures r.messageId == "cssPropertyInApply" || r.messageId == "invalidUtility"
  {
    if utilities != [] {
      var init := utilities[..|utilities| - 1];
      if r in ValidateEach(init, node) {
        ValidateEachReports(init, node, r);
      }
    }
  }

  /** The loop of the `Atrule` visitor over the utilities, `validateUtility` on each. */
  method ValidateUtilities(utilities: seq<string>, node: Node) returns (reports: seq<Report>)
    ensures reports == ValidateEach(utilities, node)
  {
    reports := [];
    for i := 0 to |utilities|
      invariant reports == ValidateEach(utilities[..i], node)
    {
      SnocPrefix(utilities, i);
      reports := reports + ValidateUtility(utilities[i], node);
    }
    assert utilities[..|utilities|] == utilities;
  }

  // ---------------------------------------------------------------------
  // The visitors

  datatype ApplyOptions = ApplyOptions(allowEmpty: bool, maxUtilities: int)

  /** `options.allowEmpty || false` and `options.maxUtilities || 20`: a maximum of 0 means the default. */
  function ResolveOptions(allowEmpty: Option<bool>, maxUtilities: Option<int>): (o: ApplyOptions)
    ensures o.allowEmpty <==> allowEmpty == Some(true)
    ensures o.maxUtilities != 0
    ensures maxUtilities.Some? && maxUtilities.value != 0 ==> o.maxUtilities == maxUtilities.value
    ensures maxUtilities.None? ==> o.maxUtilities == 20
  {
    ApplyOptions(allowEmpty == Some(true), if maxUtilities.Some? && maxUtilities.value != 0 then maxUtilities.value else 20)
  }

  /** `String(n)` for an integer. */
  function IntToString(n: int): (r: string)
    ensures r != []
    ensures n >= 0 ==> r == NatToString(n)
    ensures n < 0 ==> r[0] == '-' && r[1..] == NatToString(-n)
  {
    if n >= 0 then NatToString(n) else "-" + NatToString(-n)
  }

  function Plain(id: string, node: Node): Report
  {
    Report(id, map[], OnNode(node), None)
  }

  function TooManyUtilities(prelude: Node, count: nat, max: int): Report
  {
    Report("tooManyUtilities", map["count" := NatToString(count), "max" := IntToString(max)], OnNode(prelude), None)
  }

  /** The flags the visitors keep between calls. */
  datatype Flags = Flags(inApply: bool, inMediaQuery: bool)

  const Initial := Flags(false, false)

  /** The flags after `Atrule`: a `@media` sets `inMediaQuery`, an `@apply` sets `inApply`. */
  function EnterFlags(node: Node, f: Flags): (g: Flags)
    ensures g.inApply <==> f.inApply || node.name == "apply"
    ensures g.inMediaQuery <==> f.inMediaQuery || node.name == "media"
  {
    Flags(f.inApply || node.name == "apply", f.inMediaQuery || node.name == "media")
  }

  /** The flags after `Atrule:exit`: leaving a `@media` or an `@apply` clears its flag, whatever encloses it. */
  function ExitFlags(node: Node, f: Flags): (g: Flags)
    ensures g.inApply <==> f.inApply && node.name != "apply"
    ensures g.inMediaQuery <==> f.inMediaQuery && node.name != "media"
  {
    Flags(f.inApply && node.name != "apply", f.inMediaQuery && node.name != "media")
  }

  /** The reports of a first-level `@apply` after the media check: emptiness, the count, then each utility. */
  function ApplyBody(node: Node, text: string, o: ApplyOptions): seq<Report>
  {
    if node.prelude.None? then (if o.allowEmpty then [] else [Plain("emptyApply", node)])
    else
      var utilities := ExtractUtilitiesFromApply(node.prelude, text);
      if |utilities| == 0 && !o.allowEmpty then [Plain("emptyApply", node.prelude.value)]
      else
        (if |utilities| > o.maxUtilities then [TooManyUtilities(node.prelude.value, |utilities|, o.maxUtilities)] else [])
        + ValidateEach(utilities, node)
  }

  /** The part of the `Atrule` visitor after `inApply` is set, which ends with the loop over the utilities. */
  method ApplyBodyReports(node: Node, text: string, o: ApplyOptions) returns (reports: seq<Report>)
    ensures reports == ApplyBody(node, text, o)
  {
    if node.prelude.None? {
      reports := if o.allowEmpty then [] else [Plain("emptyApply", node)];
      return;
    }
    var utilities := ExtractUtilitiesFromApply(node.prelude, text);
    if |utilities| == 0 && !o.allowEmpty {
      return [Plain("emptyApply", node.prelude.value)];
    }
    reports := [];
    if |utilities| > o.maxUtilities {
      reports := [TooManyUtilities(node.prelude.value, |utilities|, o.maxUtilities)];
    }
    var more := ValidateUtilities(utilities, node);
    reports := reports + more;
  }

  /** The reports of the `Atrule` visitor, given the flags before it. */
  function EnterReports(node: Node, text: string, o: ApplyOptions, f: Flags): seq<Report>
  {
    if !IsAtRule(Some(node), "apply") then []
    else if f.inApply then [Plain("nestedApply", node)]
    else (if f.inMediaQuery then [Plain("applyInMediaQuery", node)] else []) + ApplyBody(node, text, o)
  }

  /** The state of the rule for one file. */
  class ApplyChecker {
    const text: string
    const options: ApplyOptions
    var inApply: bool
    var inMediaQuery: bool

    function State(): Flags
      reads this
    {
      Flags(inApply, inMediaQuery)
    }

    constructor(text: string, options: ApplyOptions)
      ensures this.text == text && this.options == options && State() == Initial
    {
      this.text := text;
      this.options := options;
      inApply := false;
      inMediaQuery := false;
    }

    /** The `Atrule` visitor. */
    method Atrule(node: Node) returns (reports: seq<Report>)
      requires node.kind.Atrule?
      modifies this
      ensures reports == EnterReports(node, text, options, old(State()))
      ensures State() == EnterFlags(node, old(State()))
    {
      reports := [];
      if node.name == "media" {
        inMediaQuery := true;
      }
      if !IsAtRule(Some(node), "apply") {
        return;
      }
      if inApply {
        reports := [Plain("nestedApply", node)];
        return;
      }
      if inMediaQuery {
        reports := [Plain("applyInMediaQuery", node)];
      }
      inApply := true;
      var body := ApplyBodyReports(node, text, options);
      reports := reports + body;
    }

    /** The `Atrule:exit` visitor. */
    method AtruleExit(node: Node)
      requires node.kind.Atrule?
      modifies this
      ensures State() == ExitFlags(node, old(State()))
    {
      if node.name == "media" {
        inMediaQuery := false;
      }
      if IsAtRule(Some(node), "apply") {
        inApply := false;
      }
    }
  }

  // ---------------------------------------------------------------------
  // A whole file

  /** The flags after a step of the traversal: only at-rules are visited. */
  function Step(f: Flags, e: Event): Flags
  {
    if e.node.kind != Atrule then f
    else if e.Enter? then EnterFlags(e.node, f)
    else ExitFlags(e.node, f)
  }

  function StepReports(f: Flags, e: Event, text: string, o: ApplyOptions): seq<Report>
  {
    if e.Enter? && e.node.kind == Atrule then EnterReports(e.node, text, o, f) else []
  }

  /** The flags after the events, from a fresh file. */
  function FlagsAfter(es: seq<Event>): Flags
  {
    if es == [] then Initial else Step(FlagsAfter(es[..|es| - 1]), es[|es| - 1])
  }

  /** The reports of the events, in order. */
  function ReportsOf(es: seq<Event>, text: string, o: ApplyOptions): seq<Report>
  {
    if es == [] then []
    else ReportsOf(es[..|es| - 1], text, o) + StepReports(FlagsAfter(es[..|es| - 1]), es[|es| - 1], text, o)
  }

  /** The rule on one stylesheet: a fresh checker, then its visitors on every enter and exit of an at-rule. */
  method LintFile(root: Node, text: string, o: ApplyOptions) returns (reports: seq<Report>)
    ensures reports == ReportsOf(Events(root), text, o)
  {
    var es := Events(root);
    var checker := new ApplyChecker(text, o);
    reports := [];
    for i := 0 to |es|
      invariant checker.text == text && checker.options == o
      invariant checker.State() == FlagsAfter(es[..i])
      invariant reports == ReportsOf(es[..i], text, o)
    {
      SnocPrefix(es, i);
      var e := es[i];
      if e.node.kind == Atrule {
        if e.Enter? {
          var more := checker.Atrule(e.node);
          reports := reports + more;
        } else {
          checker.AtruleExit(e.node);
        }
      }
    }
    assert es[..|es|] == es;
  }

  // ---------------------------------------------------------------------
  // Properties

  /** Entering and leaving an at-rule gives back the flags it found, unless its flag was already set. */
  lemma EnterExitRestores(node: Node, f: Flags)
    requires node.name == "apply" ==> !f.inApply
    requires node.name == "media" ==> !f.inMediaQuery
    ensures ExitFlags(node, EnterFlags(node, f)) == f
  {
  }

  /** After entering an `@apply`, any `@apply` entered before it is left is reported as nested, and only that. */
  lemma NestedApplyReported(es: seq<Event>, outer: Node, inner: Node, text: string, o: ApplyOptions)
    requires outer.kind == Atrule && outer.name == "apply"
    requires inner.kind == Atrule && inner.name == "apply"
    ensures FlagsAfter(es + [Enter(outer)]).inApply
    ensures StepReports(FlagsAfter(es + [Enter(outer)]), Enter(inner), text, o) == [Plain("nestedApply", inner)]
  {
    var es' := es + [Enter(outer)];
    assert es'[..|es'| - 1] == es;
  }

  /**
   * The media flag is a flag, not a depth: once an inner `@media` is left,
   * an `@apply` still inside the outer one is not reported.
   */
  lemma MediaFlagNotNested(m1: Node, m2: Node, a: Node, text: string, o: ApplyOptions)
    requires m1.kind == Atrule && m1.name == "media"
    requires m2.kind == Atrule && m2.name == "media"
    requires a.kind == Atrule && a.name == "apply"
    ensures FlagsAfter([Enter(m1)]).inMediaQuery
    ensures Plain("applyInMediaQuery", a) in StepReports(FlagsAfter([Enter(m1)]), Enter(a), text, o)
    ensures !FlagsAfter([Enter(m1), Enter(m2), Exit(m2)]).inMediaQuery
    ensures StepReports(FlagsAfter([Enter(m1), Enter(m2), Exit(m2)]), Enter(a), text, o)
      == ApplyBody(a, text, o)
  {
    var es := [Enter(m1), Enter(m2), Exit(m2)];
    assert es[..2] == [Enter(m1), Enter(m2)];
    assert es[..2][..1] == [Enter(m1)];
    assert [Enter(m1)][..0] == [];
    assert FlagsAfter([Enter(m1)]) == Flags(false, true);
    assert FlagsAfter(es) == Flags(false, false);
  }

  /** An `@apply` neither nested nor in a media query gets exactly the reports of its body. */
  lemma FirstLevelApply(node: Node, text: string, o: ApplyOptions)
    requires node.kind == Atrule && node.name == "apply"
    ensures EnterReports(node, text, o, Initial) == ApplyBody(node, text, o)
  {
    assert [] + ApplyBody(node, text, o) == ApplyBody(node, text, o);
  }

  /**
   * The count check: `tooManyUtilities` is reported exactly when the
   * at-rule has a prelude whose utilities are more than the maximum, and
   * the empty check did not end the visit first.
   */
  lemma TooManyIff(node: Node, text: string, o: ApplyOptions)
    ensures var us := ExtractUtilitiesFromApply(node.prelude, text);
      (exists r :: r in ApplyBody(node, text, o) && r.messageId == "tooManyUtilities")
      <==> node.prelude.Some? && |us| > o.maxUtilities && (|us| != 0 || o.allowEmpty)
  {
    var us := ExtractUtilitiesFromApply(node.prelude, text);
    if node.prelude.Some? && |us| > o.maxUtilities && (|us| != 0 || o.allowEmpty) {
      var t := TooManyUtilities(node.prelude.value, |us|, o.maxUtilities);
      assert t in ApplyBody(node, text, o);
    }
    if r :| r in ApplyBody(node, text, o) && r.messageId == "tooManyUtilities" {
      if r in ValidateEach(us, node) {
        ValidateEachReports(us, node, r);
      }
    }
  }

  /**
   * The empty check: `emptyApply` is reported exactly when empty lists are
   * not allowed and the at-rule has no prelude or no utilities in it.
   */
  lemma EmptyApplyIff(node: Node, text: string, o: ApplyOptions)
    ensures var us := ExtractUtilitiesFromApply(node.prelude, text);
      (exists r :: r in ApplyBody(node, text, o) && r.messageId == "emptyApply")
      <==> !o.allowEmpty && (node.prelude.None? || |us| == 0)
  {
    var us := ExtractUtilitiesFromApply(node.prelude, text);
    if !o.allowEmpty && (node.prelude.None? || |us| == 0) {
      assert ApplyBody(node, text, o)[0].messageId == "emptyApply";
    }
    if r :| r in ApplyBody(node, text, o) && r.messageId == "emptyApply" {
      if r in ValidateEach(us, node) {
        ValidateEachReports(us, node, r);
      }
    }
  }

  /** The events up to any point report nothing when no at-rule entered so far is an `@apply`. */
  lemma {:induction false} ReportsWithoutApply(es: seq<Event>, text: string, o: ApplyOptions)
    requires forall k :: 0 <= k < |Entered(es)| ==> Entered(es)[k].name != "apply"
    ensures ReportsOf(es, text, o) == []
  {
    if es != [] {
      var init := es[..|es| - 1];
      var last := es[|es| - 1];
      assert es == init + [last];
      EnteredConcat(init, [last]);
      assert [last][1..] == [];
      assert forall k :: 0 <= k < |Entered(init)| ==> Entered(init)[k] == Entered(es)[k];
      ReportsWithoutApply(init, text, o);
      if last.Enter? {
        assert Entered(es)[|Entered(init)|] == last.node;
      }
    }
  }

  /** A stylesheet without `@apply` at-rules gets no reports, whatever its media queries. */
  lemma NoApplyNoReports(root: Node, text: string, o: ApplyOptions)
    requires forall k :: 0 <= k < |Nodes(root)| ==> Nodes(root)[k].name != "apply"
    ensures ReportsOf(Events(root), text, o) == []
  {
    EnteredInWalkOrder(root);
    ReportsWithoutApply(Events(root), text, o);
  }
}
