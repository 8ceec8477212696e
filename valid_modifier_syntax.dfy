/**
 * The `valid-modifier-syntax` rule (src/rules/valid-modifier-syntax.ts):
 * every modifier of every utility in an `@apply` is checked against the
 * built-in and allowed names, the arbitrary `[...]` form, the `nth-*(...)`
 * form and the compound `group-`/`peer-`/`not-`/`in-` forms.
 */
module ValidModifierSyntax {
  import opened Wrappers
  import opened Strings
  import opened Ast
  import opened Lint
  import opened Tailwind

  /** The outcome of one modifier check; `reason` is `""` where the source sets none. */
  datatype Verdict = Valid | Invalid(messageId: string, reason: string)

  const BuiltInModifiers: seq<string> := [
    "hover", "focus", "active", "visited", "disabled", "enabled", "checked", "indeterminate",
    "required", "optional", "valid", "invalid", "in-range", "out-of-range", "placeholder-shown",
    "autofill", "read-only", "before", "after", "first-letter", "first-line", "marker",
    "selection", "file", "backdrop", "placeholder", "sm", "md", "lg", "xl", "2xl", "dark",
    "light", "motion-safe", "motion-reduce", "print", "ltr", "rtl", "group-hover", "group-focus",
    "peer-hover", "peer-focus", "peer-checked", "peer-disabled", "first", "last", "odd", "even",
    "only", "empty", "default", "focus-within", "focus-visible", "inert", "target", "open",
    "starting", "popover-open"]

  const NthModifiers: seq<string> := ["nth-child", "nth-last-child", "nth-of-type", "nth-last-of-type"]

  const ArbitraryReason: string := "Invalid arbitrary modifier syntax"
  const ArbitraryCharsReason: string := "Invalid characters in modifier"
  const PlainCharsReason: string := "Modifiers should only contain letters, numbers, hyphens, brackets, and parentheses"
  const UnknownReason: string := "Unknown modifier. Use arbitrary modifier syntax [&:...] for custom selectors"

  // ---------------------------------------------------------------------
  // validateArbitraryModifier

  /** `modifier.slice(1, -1)`. */
  function Inner(modifier: string): string
  {
    Slice(modifier, 1, if |modifier| == 0 then 0 else |modifier| - 1)
  }

  /** `/^[a-z-]+$/`. */
  predicate LowerDash(s: string)
  {
    s != [] && forall i :: 0 <= i < |s| ==> IsLower(s[i]) || s[i] == '-'
  }

  /** The running bracket depth of `content` goes above 1 at some point. */
  predicate DepthAboveOne(content: string)
  {
    exists k :: 0 <= k <= |content| && Depth(content, k) > 1
  }

  /** What `validateArbitraryModifier` decides for a `[...]` modifier. */
  function ArbitraryVerdict(modifier: string): Verdict
  {
    var content := Inner(modifier);
    if Contains(content, "[[") || Contains(content, "]]") || DepthAboveOne(content) then Invalid("nestedBrackets", "")
    else if StartsWith(content, "&") || LowerDash(content) then Valid
    else Invalid("invalidModifier", ArbitraryReason)
  }

  /** `validateArbitraryModifier`, with its depth-counting loop and early return. */
  method ValidateArbitraryModifier(modifier: string) returns (v: Verdict)
    ensures v == ArbitraryVerdict(modifier)
  {
    var content := Inner(modifier);
    if Contains(content, "[[") || Contains(content, "]]") {
      return Invalid("nestedBrackets", "");
    }
    var bracketDepth := 0;
    for i := 0 to |content|
      invariant bracketDepth == Depth(content, i)
      invariant forall k :: 0 <= k <= i ==> Depth(content, k) <= 1
    {
      if content[i] == '[' {
        bracketDepth := bracketDepth + 1;
        if bracketDepth > 1 {
          assert Depth(content, i + 1) > 1;
          return Invalid("nestedBrackets", "");
        }
      } else if content[i] == ']' {
        bracketDepth := bracketDepth - 1;
      }
    }
    if StartsWith(content, "&") {
      return Valid;
    }
    if LowerDash(content) {
      return Valid;
    }
    return Invalid("invalidModifier", ArbitraryReason);
  }

  /** The depth can only pass 1 after two opening brackets. */
  lemma {:induction false} DepthBound(s: string, k: nat)
    requires k <= |s|
    ensures Depth(s, k) <= Count(s[..k], '[')
  {
    if k > 0 {
      DepthBound(s, k - 1);
      assert s[..k] == s[..k - 1] + [s[k - 1]];
      CountSnoc(s[..k - 1], s[k - 1], '[');
    }
  }

  lemma {:induction false} CountSnoc(xs: string, x: char, v: char)
    ensures Count(xs + [x], v) == Count(xs, v) + (if x == v then 1 else 0)
    decreases |xs|
  {
    if xs == [] {
      assert [x][1..] == [];
    } else {
      assert (xs + [x])[1..] == xs[1..] + [x];
      CountSnoc(xs[1..], x, v);
    }
  }

  /** `nestedBrackets` from the depth test needs at least two `[` in the content. */
  lemma NestedNeedsTwoOpenings(content: string)
    requires DepthAboveOne(content)
    ensures Count(content, '[') >= 2
  {
    var k :| 0 <= k <= |content| && Depth(content, k) > 1;
    DepthBound(content, k);
    CountPrefix(content, k, '[');
  }

  lemma {:induction false} CountPrefix(s: string, k: nat, v: char)
    requires k <= |s|
    ensures Count(s[..k], v) <= Count(s, v)
    decreases |s| - k
  {
    if k == |s| {
      assert s[..k] == s;
    } else {
      CountPrefix(s, k + 1, v);
      assert s[..k + 1] == s[..k] + [s[k]];
      CountSnoc(s[..k], s[k], v);
    }
  }

  // ---------------------------------------------------------------------
  // validateParameterizedModifier

  function LeadingDigits(s: string): (n: nat)
    ensures n <= |s| && AllDigits(s[..n]) && (n < |s| ==> !IsDigit(s[n]))
  {
    if s == [] || !IsDigit(s[0]) then 0
    else
      var n := 1 + LeadingDigits(s[1..]);
      assert s[..n] == [s[0]] + s[1..][..n - 1];
      n
  }

  /** `(\s*[+-]\s*\d+)?$` on what follows the `n`. */
  predicate SignedOffset(r: string)
  {
    r == []
    || (var a := LeadingSpace(r);
        a < |r| && (r[a] == '+' || r[a] == '-')
        && var r2 := r[a + 1..];
        var b := LeadingSpace(r2);
        b < |r2| && AllDigits(r2[b..]))
  }

  /** `/^(\d+|odd|even|\d*n(\s*[+-]\s*\d+)?)$/`. */
  predicate NthParameter(t: string)
  {
    (t != [] && AllDigits(t)) || t == "odd" || t == "even"
    || (var d := LeadingDigits(t); d < |t| && t[d] == 'n' && SignedOffset(t[d + 1..]))
  }

  function ParameterizedVerdict(name: string, param: string): Verdict
  {
    if name !in NthModifiers then Invalid("invalidModifier", "\"" + name + "\" is not a valid parameterized modifier")
    else if !NthParameter(Trim(param)) then Invalid("invalidModifier", "Invalid parameter \"" + param + "\" for " + name)
    else Valid
  }

  /** `modifier.match(/^([a-z-]+)\(([^)]+)\)$/)`: the name and the parameter. */
  function ParamMatch(m: string): Option<(string, string)>
  {
    var k := IndexOf(m, '(');
    if 1 <= k && |m| >= k + 3 && m[|m| - 1] == ')' && LowerDash(m[..k]) && ')' !in m[k + 1..|m| - 1]
    then Some((m[..k], m[k + 1..|m| - 1]))
    else None
  }

  /** The match takes the modifier apart into `name(param)`... */
  lemma ParamMatchSplits(m: string)
    requires ParamMatch(m).Some?
    ensures var (name, param) := ParamMatch(m).value;
      m == name + "(" + param + ")" && LowerDash(name) && param != [] && ')' !in param
  {
    var k := IndexOf(m, '(');
    assert m == m[..k] + "(" + m[k + 1..|m| - 1] + ")";
  }

  /** ... and every `name(param)` of that shape matches with exactly those parts. */
  lemma ParamMatchBuilds(name: string, param: string)
    requires LowerDash(name) && param != [] && ')' !in param
    ensures ParamMatch(name + "(" + param + ")") == Some((name, param))
  {
    var m := name + "(" + param + ")";
    assert '(' !in name by {
      forall i | 0 <= i < |name| ensures name[i] != '(' { assert IsLower(name[i]) || name[i] == '-'; }
    }
    assert m[..|name|] == name;
    assert m[|name|] == '(';
    assert IndexOf(m, '(') == |name|;
    assert m[|name| + 1..|m| - 1] == param;
  }

  // ---------------------------------------------------------------------
  // validateModifier

  /** `/^[\w\s-[\]()&:>+~#.=,"']+$/i`. */
  predicate ArbitraryChar(c: char)
  {
    IsWordChar(c) || IsSpace(c) || c in "-[]()&:>+~#.=,\"'"
  }

  /** `/^[a-z0-9\-[\]()]+$/i`. */
  predicate PlainChar(c: char)
  {
    IsLetter(c) || IsDigit(c) || c in "-[]()"
  }

  predicate AllChars(s: string, arbitrary: bool)
  {
    forall i :: 0 <= i < |s| ==> if arbitrary then ArbitraryChar(s[i]) else PlainChar(s[i])
  }

  /** The `group-*`, `peer-*`, `not-*` and `in-*` forms, for a modifier with exactly one `-`. */
  predicate CompoundValid(m: string)
  {
    '-' in m
    && var parts := Split(m, '-');
    |parts| == 2
    && (((parts[0] == "group" || parts[0] == "peer") && parts[1] in BuiltInModifiers)
        || ((parts[0] == "not" || parts[0] == "in") && |parts[1]| > 0))
  }

  /** `validateModifier`: the checks in source order; the first that decides wins. */
  function ValidateModifier(m: string, allowed: seq<string>): Verdict
  {
    if m == "" || m == ":" then Invalid("emptyModifier", "")
    else if m in BuiltInModifiers || m in allowed then Valid
    else if StartsWith(m, "[") && EndsWith(m, "]") then ArbitraryVerdict(m)
    else if ParamMatch(m).Some? then ParameterizedVerdict(ParamMatch(m).value.0, ParamMatch(m).value.1)
    else if CompoundValid(m) then Valid
    else if StartsWith(m, "[") || '(' in m then
      (if !AllChars(m, true) then Invalid("invalidCharacters", ArbitraryCharsReason) else Invalid("invalidModifier", UnknownReason))
    else if !AllChars(m, false) then Invalid("invalidCharacters", PlainCharsReason)
    else Invalid("invalidModifier", UnknownReason)
  }

  /** The message ids a verdict can carry. */
  lemma VerdictMessages(m: string, allowed: seq<string>)
    ensures ValidateModifier(m, allowed).Invalid? ==>
      ValidateModifier(m, allowed).messageId in ["emptyModifier", "nestedBrackets", "invalidModifier", "invalidCharacters"]
  {
  }

  /** The empty modifier is rejected first, even when it is in the allow list. */
  lemma EmptyModifierFirst(allowed: seq<string>)
    ensures ValidateModifier("", allowed) == Invalid("emptyModifier", "")
  {
  }

  /** Built-in and allowed names are valid; the lookup compares exactly. */
  lemma KnownModifierValid(m: string, allowed: seq<string>)
    requires m in BuiltInModifiers || m in allowed
    requires m != "" && m != ":"
    ensures ValidateModifier(m, allowed) == Valid
  {
  }

  /**
   * A modifier that no earlier check accepts and that has only plain
   * characters is unknown; the name lookup is exact, so `Hover` ends here.
   */
  lemma UnknownPlainModifier(m: string, allowed: seq<string>)
    requires m != "" && m != ":" && m !in BuiltInModifiers && m !in allowed
    requires m[0] != '[' && '(' !in m && !CompoundValid(m)
    ensures ValidateModifier(m, allowed)
      == if AllChars(m, false) then Invalid("invalidModifier", UnknownReason) else Invalid("invalidCharacters", PlainCharsReason)
  {
    assert !StartsWith(m, "[") by { assert m[..1] == [m[0]]; }
    assert IndexOf(m, '(') == -1;
  }

  /** An `nth-*` name with a parameter of the accepted shape is valid. */
  lemma NthValid(name: string, param: string, allowed: seq<string>)
    requires name in NthModifiers && param != [] && ')' !in param && NthParameter(Trim(param))
    ensures ValidateModifier(name + "(" + param + ")", allowed) == Valid
  {
    assert LowerDash(name);
    ParamMatchBuilds(name, param);
    assert (name + "(" + param + ")")[0] == name[0];
  }

  /** Any other name before the parentheses is rejected with the name in the reason. */
  lemma OtherParameterizedInvalid(name: string, param: string, allowed: seq<string>)
    requires LowerDash(name) && name !in NthModifiers && param != [] && ')' !in param
    requires name + "(" + param + ")" !in BuiltInModifiers && name + "(" + param + ")" !in allowed
    ensures ValidateModifier(name + "(" + param + ")", allowed)
      == Invalid("invalidModifier", "\"" + name + "\" is not a valid parameterized modifier")
  {
    ParamMatchBuilds(name, param);
    assert (name + "(" + param + ")")[0] == name[0];
    assert IsLower(name[0]) || name[0] == '-';
  }

  /** The shape facts about `prefix-suffix` that the compound lemmas below rely on. */
  lemma CompoundShape(prefix: string, suffix: string)
    requires prefix != [] && prefix[0] != '[' && '-' !in prefix && '(' !in prefix
    requires '-' !in suffix && '(' !in suffix
    ensures var m := prefix + "-" + suffix;
      m != "" && m != ":" && !StartsWith(m, "[") && ParamMatch(m).None? && '-' in m && Split(m, '-') == [prefix, suffix]
      && !('(' in m)
  {
    var m := prefix + "-" + suffix;
    SplitPair(prefix, '-', suffix);
    assert m == prefix + ['-'] + suffix;
    assert m[|prefix|] == '-';
    assert !StartsWith(m, "[") by { assert m[..1] == [prefix[0]]; }
    assert '(' !in m;
    assert IndexOf(m, '(') == -1;
  }

  /** `not-x` and `in-x` are valid for any suffix without `-` or `(`. */
  lemma NegationAndInValid(prefix: string, suffix: string, allowed: seq<string>)
    requires prefix == "not" || prefix == "in"
    requires suffix != [] && '-' !in suffix && '(' !in suffix
    ensures ValidateModifier(prefix + "-" + suffix, allowed) == Valid
  {
    CompoundShape(prefix, suffix);
  }

  /** `group-x` and `peer-x` are valid for a built-in suffix without `-`. */
  lemma GroupAndPeerValid(prefix: string, suffix: string, allowed: seq<string>)
    requires prefix == "group" || prefix == "peer"
    requires suffix in BuiltInModifiers && '-' !in suffix && '(' !in suffix
    ensures ValidateModifier(prefix + "-" + suffix, allowed) == Valid
  {
    CompoundShape(prefix, suffix);
    assert CompoundValid(prefix + "-" + suffix);
  }

  // ---------------------------------------------------------------------
  // The Atrule visitor

  function ModifierReport(m: string, v: Verdict, prelude: Node): seq<Report>
  {
    match v
    case Valid => []
    case Invalid(id, reason) => [Report(id, map["modifier" := m, "reason" := reason], OnNode(prelude), None)]
  }

  /** None of the reports carries a fix. */
  predicate NoFixes(rs: seq<Report>)
  {
    forall r :: r in rs ==> r.fix.None?
  }

  lemma ModifierReportNoFix(m: string, v: Verdict, prelude: Node)
    ensures NoFixes(ModifierReport(m, v, prelude))
  {
  }

  /** The check applied to a modifier not seen before in its utility. */
  function Validator(allowed: seq<string>): string -> Verdict
  {
    m => ValidateModifier(m, allowed)
  }

  /** A check never reports with the id the rule keeps for repeats. */
  ghost predicate NeverDuplicate(check: string -> Verdict)
  {
    forall m :: check(m).Invalid? ==> check(m).messageId != "duplicateModifier"
  }

  lemma ValidatorNeverDuplicate(allowed: seq<string>)
    ensures NeverDuplicate(Validator(allowed))
  {
    forall m ensures Validator(allowed)(m).Invalid? ==> Validator(allowed)(m).messageId != "duplicateModifier" {
      VerdictMessages(m, allowed);
    }
  }

  /** The reports for the first `i` modifiers of one utility: repeats are reported and not checked. */
  function ModifierReports(mods: seq<string>, i: nat, check: string -> Verdict, prelude: Node): seq<Report>
    requires i <= |mods|
  {
    if i == 0 then [] else ModifierReports(mods, i - 1, check, prelude) + ModifierStep(mods, i - 1, check, prelude)
  }

  /** The report for modifier `i`: a repeat is reported as such and not checked. */
  function ModifierStep(mods: seq<string>, i: nat, check: string -> Verdict, prelude: Node): seq<Report>
    requires i < |mods|
  {
    if mods[i] in mods[..i]
    then [Report("duplicateModifier", map["modifier" := mods[i]], OnNode(prelude), None)]
    else ModifierReport(mods[i], check(mods[i]), prelude)
  }

  function CountMessage(rs: seq<Report>, id: string): nat
  {
    if rs == [] then 0 else CountMessage(rs[..|rs| - 1], id) + (if rs[|rs| - 1].messageId == id then 1 else 0)
  }

  lemma {:induction false} CountMessageConcat(a: seq<Report>, b: seq<Report>, id: string)
    ensures CountMessage(a + b, id) == CountMessage(a, id) + CountMessage(b, id)
    decreases |b|
  {
    if b == [] {
      assert a + b == a;
    } else {
      assert (a + b)[..|a + b| - 1] == a + b[..|b| - 1];
      CountMessageConcat(a, b[..|b| - 1], id);
    }
  }

  /** How many of the first `i` modifiers repeat an earlier one. */
  function Repeats(mods: seq<string>, i: nat): nat
    requires i <= |mods|
  {
    if i == 0 then 0 else Repeats(mods, i - 1) + (if mods[i - 1] in mods[..i - 1] then 1 else 0)
  }

  /** The repeats are the modifiers beyond the distinct ones. */
  lemma {:induction false} RepeatsDedupe(mods: seq<string>, i: nat)
    requires i <= |mods|
    ensures Repeats(mods, i) == i - |Dedupe(mods[..i])|
  {
    if i > 0 {
      RepeatsDedupe(mods, i - 1);
      assert mods[..i] == mods[..i - 1] + [mods[i - 1]];
      DedupeSnoc(mods[..i - 1], mods[i - 1]);
    }
  }

  /** `duplicateModifier` is reported once for every repeat. */
  lemma {:induction false} DuplicateReports(mods: seq<string>, i: nat, check: string -> Verdict, prelude: Node)
    requires i <= |mods| && NeverDuplicate(check)
    ensures CountMessage(ModifierReports(mods, i, check, prelude), "duplicateModifier") == Repeats(mods, i)
  {
    if i > 0 {
      var prev := ModifierReports(mods, i - 1, check, prelude);
      var last := ModifierStep(mods, i - 1, check, prelude);
      calc {
        CountMessage(ModifierReports(mods, i, check, prelude), "duplicateModifier");
        CountMessage(prev + last, "duplicateModifier");
        { CountMessageConcat(prev, last, "duplicateModifier"); }
        CountMessage(prev, "duplicateModifier") + CountMessage(last, "duplicateModifier");
        { DuplicateReports(mods, i - 1, check, prelude); StepCount(mods, i - 1, check, prelude); }
        Repeats(mods, i);
      }
    }
  }

  /** `duplicateModifier` is reported once for every occurrence after the first. */
  lemma DuplicateModifierCount(mods: seq<string>, i: nat, check: string -> Verdict, prelude: Node)
    requires i <= |mods| && NeverDuplicate(check)
    ensures CountMessage(ModifierReports(mods, i, check, prelude), "duplicateModifier") == i - |Dedupe(mods[..i])|
  {
    DuplicateReports(mods, i, check, prelude);
    RepeatsDedupe(mods, i);
  }

  lemma StepCount(mods: seq<string>, i: nat, check: string -> Verdict, prelude: Node)
    requires i < |mods| && NeverDuplicate(check)
    ensures CountMessage(ModifierStep(mods, i, check, prelude), "duplicateModifier") == if mods[i] in mods[..i] then 1 else 0
  {
    var last := ModifierStep(mods, i, check, prelude);
    if mods[i] !in mods[..i] && last != [] {
      assert last[..0] == [];
      assert last[0].messageId != "duplicateModifier";
    }
  }

  /** No report of one utility carries a fix. */
  lemma {:induction false} ModifierReportsNoFix(mods: seq<string>, i: nat, check: string -> Verdict, prelude: Node)
    requires i <= |mods|
    ensures NoFixes(ModifierReports(mods, i, check, prelude))
  {
    if i > 0 {
      ModifierReportsNoFix(mods, i - 1, check, prelude);
      var step := ModifierStep(mods, i - 1, check, prelude);
      if mods[i - 1] !in mods[..i - 1] {
        ModifierReportNoFix(mods[i - 1], check(mods[i - 1]), prelude);
      }
      NoFixConcat(ModifierReports(mods, i - 1, check, prelude), step);
    }
  }

  /** The reports for the first `k` utilities of an `@apply`. */
  function UtilityReports(us: seq<string>, k: nat, check: string -> Verdict, prelude: Node): seq<Report>
    requires k <= |us|
  {
    if k == 0 then []
    else
      var mods := Parse(us[k - 1]).modifiers;
      UtilityReports(us, k - 1, check, prelude) + ModifierReports(mods, |mods|, check, prelude)
  }

  /** The reports of the `Atrule` visitor. */
  function CheckAtrule(node: Node, text: string, allowed: seq<string>): seq<Report>
  {
    if !IsAtRule(Some(node), "apply") || node.prelude.None? then []
    else
      var us := ExtractUtilitiesFromApply(node.prelude, text);
      UtilityReports(us, |us|, Validator(allowed), node.prelude.value)
  }

  lemma NoFixConcat(a: seq<Report>, b: seq<Report>)
    requires NoFixes(a) && NoFixes(b)
    ensures NoFixes(a + b)
  {
  }

  /** No report of the rule carries a fix. */
  lemma {:induction false} NoFix(us: seq<string>, k: nat, check: string -> Verdict, prelude: Node)
    requires k <= |us|
    ensures NoFixes(UtilityReports(us, k, check, prelude))
  {
    if k > 0 {
      NoFix(us, k - 1, check, prelude);
      var mods := Parse(us[k - 1]).modifiers;
      ModifierReportsNoFix(mods, |mods|, check, prelude);
      NoFixConcat(UtilityReports(us, k - 1, check, prelude), ModifierReports(mods, |mods|, check, prelude));
    }
  }

}

/** The rule's visitor, with the loops and the `seenModifiers` set of `create`. */
module ValidModifierSyntaxRule {
  import opened Wrappers
  import opened Ast
  import opened Lint
  import opened Tailwind
  import opened ValidModifierSyntax

  /** `seen` holds exactly the first `i` modifiers. */
  ghost predicate SeenExactly(seen: set<string>, mods: seq<string>, i: nat)
    requires i <= |mods|
  {
    forall x :: x in seen <==> x in mods[..i]
  }

  /** One round of the loop: the set answers the repeat test, and adding the modifier keeps it exact. */
  lemma SeenStep(seen: set<string>, mods: seq<string>, i: nat)
    requires i < |mods| && SeenExactly(seen, mods, i)
    ensures mods[i] in seen <==> mods[i] in mods[..i]
    ensures mods[i] in seen ==> SeenExactly(seen, mods, i + 1)
    ensures SeenExactly(seen + {mods[i]}, mods, i + 1)
  {
    assert mods[..i + 1] == mods[..i] + [mods[i]];
  }

  /** The per-utility loop with its `seenModifiers` set. */
  method CheckModifiers(modifiers: seq<string>, allowed: seq<string>, prelude: Node) returns (reports: seq<Report>)
    ensures reports == ModifierReports(modifiers, |modifiers|, Validator(allowed), prelude)
  {
    reports := [];
    var seenModifiers: set<string> := {};
    for i := 0 to |modifiers|
      invariant SeenExactly(seenModifiers, modifiers, i)
      invariant reports == ModifierReports(modifiers, i, Validator(allowed), prelude)
    {
      var modifier := modifiers[i];
      SeenStep(seenModifiers, modifiers, i);
      if modifier in seenModifiers {
        reports := reports + [Report("duplicateModifier", map["modifier" := modifier], OnNode(prelude), None)];
        continue;
      }
      seenModifiers := seenModifiers + {modifier};
      var validation := ValidateModifier(modifier, allowed);
      if !validation.Valid? {
        reports := reports + [Report(validation.messageId, map["modifier" := modifier, "reason" := validation.reason], OnNode(prelude), None)];
      }
    }
  }

  /** The `Atrule` visitor: each utility is parsed, then its modifiers are checked. */
  method VisitAtrule(node: Node, text: string, allowed: seq<string>) returns (reports: seq<Report>)
    ensures reports == CheckAtrule(node, text, allowed)
  {
    if !IsAtRule(Some(node), "apply") || node.prelude.None? {
      return [];
    }
    var utilities := ExtractUtilitiesFromApply(node.prelude, text);
    reports := [];
    for k := 0 to |utilities|
      invariant reports == UtilityReports(utilities, k, Validator(allowed), node.prelude.value)
    {
      var parsed := ParseUtilityClass(utilities[k]);
      var more := CheckModifiers(parsed.modifiers, allowed, node.prelude.value);
      reports := reports + more;
    }
  }
}
