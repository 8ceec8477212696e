/**
 * The `no-arbitrary-value-overuse` rule
 * (src/rules/no-arbitrary-value-overuse.ts): the arbitrary values of the
 * utilities of every `@apply` are counted, per at-rule and for the whole
 * file; a count above its maximum is reported, and so is every recorded
 * value that looks like a colour or a length that a theme token could
 * name.
 */
module NoArbitraryValueOveruse {
  import opened Wrappers
  import opened Strings
  import opened Ast
  import opened Lint
  import opened Tailwind
  import PreferThemeTokens

  // ---------------------------------------------------------------------
  // shouldSuggestToken

  /** The utilities whose values should come from the theme, matched as prefixes. */
  const TokenUtilities: seq<string> := [
    "text", "bg", "border", "ring", "p", "px", "py", "pt", "pr", "pb", "pl", "m",
    "mx", "my", "mt", "mr", "mb", "ml", "w", "h", "gap", "space-x", "space-y"
  ]

  /** `^(100|50|75|25)%$`. */
  const CommonSizes: seq<string> := ["100%", "50%", "75%", "25%"]

  /** `value.slice(1, -1)`: the value without its first and last character. */
  function CleanValue(value: string): (r: string)
    ensures |value| >= 2 ==> value == [value[0]] + r + [value[|value| - 1]]
    ensures |value| < 2 ==> r == []
  {
    if |value| >= 2 then value[1..|value| - 1] else []
  }

  /**
   * `^-?\d+(\.\d+)?(px|rem|em|vh|vw)$`. The sign must be taken when present,
   * since no digit is `-`; what follows is the unsigned length of the
   * spacing pattern, without the percent unit.
   */
  predicate IsTokenLength(v: string)
  {
    var w := if |v| > 0 && v[0] == '-' then v[1..] else v;
    PreferThemeTokens.IsUnsignedLength(w) && !EndsWith(w, "%")
  }

  /** The lengths of the pattern, built from its parts: a sign, digits, an optional fraction, a unit other than `%`. */
  predicate IsTokenLengthOf(v: string, sign: string, d: string, f: string, u: string)
  {
    (sign == [] || sign == "-") && |sign| <= |v| && v[..|sign|] == sign
    && PreferThemeTokens.IsLengthOf(v[|sign|..], d, f, u) && u != "%"
  }

  /** A length of the spacing pattern ends with `%` exactly when its unit is `%`. */
  lemma PercentUnit(w: string, d: string, f: string, u: string)
    requires PreferThemeTokens.IsLengthOf(w, d, f, u)
    ensures EndsWith(w, "%") <==> u == "%"
  {
    PreferThemeTokens.UnitNotDigit(u);
    assert w[|w| - 1] == u[|u| - 1];
    assert w[|w| - 1..] == [w[|w| - 1]];
  }

  /** A length of the spacing pattern starts with a digit, so never with `-`. */
  lemma LengthStartsWithDigit(w: string, d: string, f: string, u: string)
    requires PreferThemeTokens.IsLengthOf(w, d, f, u)
    ensures |w| > 0 && IsDigit(w[0])
  {
    assert w[0] == d[0];
  }

  /** The sign the pattern takes, and the unsigned rest. */
  function SignOf(v: string): (sign: string)
    ensures (sign == [] || sign == "-") && |sign| <= |v| && v[..|sign|] == sign
    ensures sign == "-" <==> |v| > 0 && v[0] == '-'
  {
    if |v| > 0 && v[0] == '-' then "-" else []
  }

  lemma TokenLengthSound(v: string)
    requires IsTokenLength(v)
    ensures exists sign, d, f, u :: IsTokenLengthOf(v, sign, d, f, u)
  {
    var sign := SignOf(v);
    var w := v[|sign|..];
    assert w == if |v| > 0 && v[0] == '-' then v[1..] else v;
    PreferThemeTokens.ScannedLength(w);
    var d, f, u :| PreferThemeTokens.IsLengthOf(w, d, f, u);
    PercentUnit(w, d, f, u);
    assert IsTokenLengthOf(v, sign, d, f, u);
  }

  lemma TokenLengthComplete(v: string, sign: string, d: string, f: string, u: string)
    requires IsTokenLengthOf(v, sign, d, f, u)
    ensures IsTokenLength(v)
  {
    var w := v[|sign|..];
    LengthStartsWithDigit(w, d, f, u);
    assert sign == SignOf(v);
    assert w == if |v| > 0 && v[0] == '-' then v[1..] else v;
    PreferThemeTokens.BuiltLength(w, d, f, u);
    PercentUnit(w, d, f, u);
  }

  /** The scan accepts exactly the strings built from the parts of the pattern. */
  lemma TokenLengthIff(v: string)
    ensures IsTokenLength(v) <==> exists sign, d, f, u :: IsTokenLengthOf(v, sign, d, f, u)
  {
    if IsTokenLength(v) {
      TokenLengthSound(v);
    }
    if exists sign, d, f, u :: IsTokenLengthOf(v, sign, d, f, u) {
      var sign, d, f, u :| IsTokenLengthOf(v, sign, d, f, u);
      TokenLengthComplete(v, sign, d, f, u);
    }
  }

  /** `shouldSuggestToken`: a utility of the token list, with a colour, a length or a common size in brackets. */
  predicate ShouldSuggestToken(value: string, utility: string)
  {
    var cv := CleanValue(value);
    AnyPrefix(utility, TokenUtilities)
    && (PreferThemeTokens.IsHexColor(cv) || StartsWith(cv, "rgb(") || StartsWith(cv, "hsl(")
        || IsTokenLength(cv) || cv in CommonSizes)
  }

  /** `bg-[#fff]` and `p-[16px]`: values a token should name. */
  lemma SuggestedExamples()
    ensures ShouldSuggestToken("[#fff]", "bg-")
    ensures ShouldSuggestToken("[50%]", "w-")
  {
    assert StartsWith("bg-", TokenUtilities[1]);
    assert CleanValue("[#fff]") == "#fff";
    assert StartsWith("w-", TokenUtilities[18]);
    assert CleanValue("[50%]") == "50%";
  }

  /** A utility outside the list gets no suggestion, whatever its value. */
  lemma NoSuggestionOutsideList(value: string, utility: string)
    requires forall i :: 0 <= i < |TokenUtilities| ==> !StartsWith(utility, TokenUtilities[i])
    ensures !ShouldSuggestToken(value, utility)
  {
  }

  // ---------------------------------------------------------------------
  // Options

  datatype OveruseOptions = OveruseOptions(maxPerFile: int, maxPerRule: int, allowedUtilities: set<string>)

  /** `maxPerFile ?? 10`, `maxPerRule ?? 3`, `new Set(allowedUtilities || [])`: a given 0 is kept. */
  function ResolveOptions(maxPerFile: Option<int>, maxPerRule: Option<int>, allowed: Option<seq<string>>): (o: OveruseOptions)
    ensures o.maxPerFile == (if maxPerFile.Some? then maxPerFile.value else 10)
    ensures o.maxPerRule == (if maxPerRule.Some? then maxPerRule.value else 3)
    ensures forall u :: u in o.allowedUtilities <==> allowed.Some? && u in allowed.value
  {
    OveruseOptions(
      if maxPerFile.Some? then maxPerFile.value else 10,
      if maxPerRule.Some? then maxPerRule.value else 3,
      if allowed.Some? then set u | u in allowed.value else {})
  }

  // ---------------------------------------------------------------------
  // The count of one `@apply`

  /** A value recorded for a utility, with the base utility it belongs to. */
  datatype Found = Found(value: string, utility: string)

  /** A value recorded for the file, with its at-rule. */
  datatype ValueEntry = ValueEntry(node: Node, value: string, utility: string)

  /** A utility with arbitrary values whose base utility is not allowed counts them. */
  predicate Counted(u: string, allowed: set<string>)
  {
    CountArbitraryValues(u) > 0 && Parse(u).utility !in allowed
  }

  function UtilityCount(u: string, allowed: set<string>): nat
  {
    if Counted(u, allowed) then CountArbitraryValues(u) else 0
  }

  /** The value recorded for a counted utility, when its parse has an arbitrary value. */
  function UtilityValue(u: string, allowed: set<string>): seq<Found>
  {
    var parsed := Parse(u);
    if Counted(u, allowed) && parsed.arbitraryValue.Some? then [Found(parsed.arbitraryValue.value, parsed.utility)] else []
  }

  /** A utility that is not counted adds nothing to the at-rule. */
  lemma Uncounted(u: string, allowed: set<string>)
    requires CountArbitraryValues(u) == 0 || Parse(u).utility in allowed
    ensures UtilityCount(u, allowed) == 0 && UtilityValue(u, allowed) == []
  {
  }

  /** A counted utility adds its arbitrary values, and its value when its parse has one. */
  lemma CountedStep(u: string, allowed: set<string>)
    requires CountArbitraryValues(u) > 0 && Parse(u).utility !in allowed
    ensures UtilityCount(u, allowed) == CountArbitraryValues(u)
    ensures UtilityValue(u, allowed)
      == if Parse(u).arbitraryValue.Some? then [Found(Parse(u).arbitraryValue.value, Parse(u).utility)] else []
  {
  }

  /** `ruleArbitraryCount` after the utilities. */
  function RuleCount(us: seq<string>, allowed: set<string>): nat
  {
    if us == [] then 0 else RuleCount(us[..|us| - 1], allowed) + UtilityCount(us[|us| - 1], allowed)
  }

  /** `ruleArbitraryValues` after the utilities. */
  function RuleValues(us: seq<string>, allowed: set<string>): seq<Found>
  {
    if us == [] then [] else RuleValues(us[..|us| - 1], allowed) + UtilityValue(us[|us| - 1], allowed)
  }

  /** The totals of the at-rule after one more utility. */
  lemma RuleStep(us: seq<string>, i: nat, allowed: set<string>)
    requires i < |us|
    ensures RuleCount(us[..i + 1], allowed) == RuleCount(us[..i], allowed) + UtilityCount(us[i], allowed)
    ensures RuleValues(us[..i + 1], allowed) == RuleValues(us[..i], allowed) + UtilityValue(us[i], allowed)
  {
    SnocPrefix(us, i);
  }

  /** Each recorded value comes with at least one counted arbitrary value. */
  lemma {:induction false} ValuesWithinCount(us: seq<string>, allowed: set<string>)
    ensures |RuleValues(us, allowed)| <= RuleCount(us, allowed)
  {
    if us != [] {
      ValuesWithinCount(us[..|us| - 1], allowed);
    }
  }

  /** Utilities whose base utilities are all allowed count nothing and record nothing. */
  lemma {:induction false} AllowedNotCounted(us: seq<string>, allowed: set<string>)
    requires forall i :: 0 <= i < |us| ==> Parse(us[i]).utility in allowed
    ensures RuleCount(us, allowed) == 0 && RuleValues(us, allowed) == []
  {
    if us != [] {
      var init := us[..|us| - 1];
      assert forall i :: 0 <= i < |init| ==> init[i] == us[i];
      AllowedNotCounted(init, allowed);
      assert !Counted(us[|us| - 1], allowed);
    }
  }

  /** The values of one at-rule as recorded for the file, each with the at-rule. */
  function Tag(node: Node, fs: seq<Found>): (r: seq<ValueEntry>)
    ensures |r| == |fs|
  {
    if fs == [] then [] else Tag(node, fs[..|fs| - 1]) + [ValueEntry(node, fs[|fs| - 1].value, fs[|fs| - 1].utility)]
  }

  lemma TagSnoc(node: Node, fs: seq<Found>, f: Found)
    ensures Tag(node, fs + [f]) == Tag(node, fs) + [ValueEntry(node, f.value, f.utility)]
  {
    assert (fs + [f])[..|fs|] == fs;
  }

  lemma {:induction false} TagConcat(node: Node, fs: seq<Found>, gs: seq<Found>)
    ensures Tag(node, fs + gs) == Tag(node, fs) + Tag(node, gs)
    decreases |gs|
  {
    if gs == [] {
      assert fs + gs == fs;
    } else {
      var init, g := gs[..|gs| - 1], gs[|gs| - 1];
      assert fs + gs == (fs + init) + [g];
      assert gs == init + [g];
      TagSnoc(node, fs + init, g);
      TagSnoc(node, init, g);
      TagConcat(node, fs, init);
    }
  }

  /** Each recorded entry is the value at the same place, with the at-rule. */
  lemma {:induction false} TagAt(node: Node, fs: seq<Found>, i: nat)
    requires i < |fs|
    ensures Tag(node, fs)[i] == ValueEntry(node, fs[i].value, fs[i].utility)
  {
    if i < |fs| - 1 {
      TagAt(node, fs[..|fs| - 1], i);
    }
  }

  // ---------------------------------------------------------------------
  // The reports

  function TooManyInRule(prelude: Node, count: nat, max: int): Report
  {
    Report("tooManyArbitraryValuesInRule", map["count" := NatToString(count), "max" := IntString(max)], OnNode(prelude), None)
  }

  /** `String(n)` for an integer. */
  function IntString(n: int): (r: string)
    ensures r != []
    ensures n >= 0 ==> r == NatToString(n)
  {
    if n >= 0 then NatToString(n) else "-" + NatToString(-n)
  }

  /** `considerThemeToken` for each recorded value that looks like a token, in order. */
  function Suggestions(prelude: Node, fs: seq<Found>): (r: seq<Report>)
    ensures |r| <= |fs|
    ensures forall k :: 0 <= k < |r| ==> r[k].messageId == "considerThemeToken" && r[k].at == OnNode(prelude)
  {
    if fs == [] then []
    else
      var f := fs[|fs| - 1];
      Suggestions(prelude, fs[..|fs| - 1])
      + (if ShouldSuggestToken(f.value, f.utility) then [Report("considerThemeToken", map["value" := f.value], OnNode(prelude), None)] else [])
  }

  /** The visited at-rule is an `@apply` with a prelude; the visitor ignores every other at-rule. */
  predicate Scanned(node: Node)
  {
    IsAtRule(Some(node), "apply") && node.prelude.Some?
  }

  function Utilities(node: Node, text: string): seq<string>
  {
    if Scanned(node) then ExtractUtilitiesFromApply(node.prelude, text) else []
  }

  /** The reports of the `Atrule` visitor: the count of the at-rule, then its suggestions. */
  function AtRuleReports(node: Node, text: string, o: OveruseOptions): seq<Report>
  {
    if !Scanned(node) then []
    else
      var us := Utilities(node, text);
      var count := RuleCount(us, o.allowedUtilities);
      (if count > o.maxPerRule then [TooManyInRule(node.prelude.value, count, o.maxPerRule)] else [])
      + Suggestions(node.prelude.value, RuleValues(us, o.allowedUtilities))
  }

  /** The suggestions are at most as many as the arbitrary values counted in the at-rule. */
  lemma SuggestionsWithinCount(node: Node, text: string, o: OveruseOptions)
    requires Scanned(node)
    ensures var us := Utilities(node, text);
      |Suggestions(node.prelude.value, RuleValues(us, o.allowedUtilities))| <= RuleCount(us, o.allowedUtilities)
  {
    ValuesWithinCount(Utilities(node, text), o.allowedUtilities);
  }

  // ---------------------------------------------------------------------
  // The whole file

  /** `fileArbitraryCount` after the at-rules. */
  function FileCount(ns: seq<Node>, text: string, allowed: set<string>): nat
  {
    if ns == [] then 0
    else FileCount(ns[..|ns| - 1], text, allowed) + RuleCount(Utilities(ns[|ns| - 1], text), allowed)
  }

  /** `arbitraryValues` after the at-rules. */
  function FileValues(ns: seq<Node>, text: string, allowed: set<string>): seq<ValueEntry>
  {
    if ns == [] then []
    else
      var n := ns[|ns| - 1];
      FileValues(ns[..|ns| - 1], text, allowed) + Tag(n, RuleValues(Utilities(n, text), allowed))
  }

  /** The file totals after one more at-rule. */
  lemma FileStep(ns: seq<Node>, n: Node, text: string, allowed: set<string>)
    ensures FileCount(ns + [n], text, allowed) == FileCount(ns, text, allowed) + RuleCount(Utilities(n, text), allowed)
    ensures FileValues(ns + [n], text, allowed) == FileValues(ns, text, allowed) + Tag(n, RuleValues(Utilities(n, text), allowed))
  {
    assert (ns + [n])[..|ns|] == ns;
  }

  /** The report of `StyleSheet:exit`: over the maximum, on the at-rule of the first recorded value. */
  function FileReport(count: nat, values: seq<ValueEntry>, o: OveruseOptions): seq<Report>
  {
    if count > o.maxPerFile && |values| > 0 then
      [Report("tooManyArbitraryValues", map["count" := NatToString(count), "max" := IntString(o.maxPerFile)], OnNode(values[0].node), None)]
    else []
  }

  lemma {:induction false} FileValuesWithinCount(ns: seq<Node>, text: string, allowed: set<string>)
    ensures |FileValues(ns, text, allowed)| <= FileCount(ns, text, allowed)
  {
    if ns != [] {
      FileValuesWithinCount(ns[..|ns| - 1], text, allowed);
      ValuesWithinCount(Utilities(ns[|ns| - 1], text), allowed);
    }
  }

  /**
   * The file report names the first at-rule that recorded a value: the
   * at-rules before it recorded none.
   */
  lemma {:induction false} FirstValueAtRule(ns: seq<Node>, text: string, allowed: set<string>) returns (k: nat)
    requires FileValues(ns, text, allowed) != []
    ensures k < |ns| && FileValues(ns, text, allowed)[0].node == ns[k]
    ensures RuleValues(Utilities(ns[k], text), allowed) != []
    ensures forall j :: 0 <= j < k ==> RuleValues(Utilities(ns[j], text), allowed) == []
  {
    var init := ns[..|ns| - 1];
    var n := ns[|ns| - 1];
    assert forall j :: 0 <= j < |init| ==> init[j] == ns[j];
    var fs := RuleValues(Utilities(n, text), allowed);
    assert FileValues(ns, text, allowed) == FileValues(init, text, allowed) + Tag(n, fs);
    if FileValues(init, text, allowed) != [] {
      k := FirstValueAtRule(init, text, allowed);
    } else {
      NoValuesBefore(init, text, allowed);
      TagAt(n, fs, 0);
      k := |ns| - 1;
    }
  }

  /** No recorded value in the file means none in any of its at-rules. */
  lemma {:induction false} NoValuesBefore(ns: seq<Node>, text: string, allowed: set<string>)
    requires FileValues(ns, text, allowed) == []
    ensures forall j :: 0 <= j < |ns| ==> RuleValues(Utilities(ns[j], text), allowed) == []
  {
    if ns != [] {
      var init, n := ns[..|ns| - 1], ns[|ns| - 1];
      var fs := RuleValues(Utilities(n, text), allowed);
      assert fs == [] by {
        assert FileValues(ns, text, allowed) == FileValues(init, text, allowed) + Tag(n, fs);
        assert |Tag(n, fs)| == 0;
      }
      NoValuesBefore(init, text, allowed);
      forall j | 0 <= j < |ns| ensures RuleValues(Utilities(ns[j], text), allowed) == [] {
        if j < |init| {
          assert ns[j] == init[j];
          assert RuleValues(Utilities(init[j], text), allowed) == [];
        } else {
          assert ns[j] == n;
        }
      }
    }
  }

  /**
   * The file report is made exactly when the count is over the maximum and
   * some value was recorded; arbitrary values that parse without one
   * (an arbitrary property such as `[mask-type:alpha]`) count but cannot
   * carry the report alone.
   */
  lemma FileReportIff(ns: seq<Node>, text: string, o: OveruseOptions)
    ensures var count, values := FileCount(ns, text, o.allowedUtilities), FileValues(ns, text, o.allowedUtilities);
      |FileReport(count, values, o)| == (if count > o.maxPerFile && values != [] then 1 else 0)
    ensures var count, values := FileCount(ns, text, o.allowedUtilities), FileValues(ns, text, o.allowedUtilities);
      FileReport(count, values, o) != [] ==> FileReport(count, values, o)[0].at == OnNode(values[0].node) && values[0].node in ns
  {
    var values := FileValues(ns, text, o.allowedUtilities);
    if values != [] {
      var k := FirstValueAtRule(ns, text, o.allowedUtilities);
    }
  }

  /** The state of the rule for one file. */
  class OveruseTracker {
    const text: string
    const options: OveruseOptions
    var fileArbitraryCount: nat
    var arbitraryValues: seq<ValueEntry>
    /** The at-rules visited so far. */
    ghost var visited: seq<Node>

    ghost predicate Valid()
      reads this
    {
      fileArbitraryCount == FileCount(visited, text, options.allowedUtilities)
      && arbitraryValues == FileValues(visited, text, options.allowedUtilities)
    }

    constructor(text: string, options: OveruseOptions)
      ensures this.text == text && this.options == options && visited == []
      ensures Valid()
    {
      this.text := text;
      this.options := options;
      fileArbitraryCount := 0;
      arbitraryValues := [];
      visited := [];
    }

    /**
     * One round of the loop of the `Atrule` visitor: a utility with
     * arbitrary values whose base utility is not allowed adds its count to
     * the file, and its value, when its parse has one, to the file's values.
     */
    method CountUtility(node: Node, utility: string) returns (added: nat, found: seq<Found>)
      modifies this
      ensures added == UtilityCount(utility, options.allowedUtilities)
      ensures found == UtilityValue(utility, options.allowedUtilities)
      ensures fileArbitraryCount == old(fileArbitraryCount) + added
      ensures arbitraryValues == old(arbitraryValues) + Tag(node, found)
      ensures visited == old(visited)
    {
      added, found := 0, [];
      var arbitraryCount := CountArbitraryValues(utility);
      if arbitraryCount > 0 {
        var parsed := Parse(utility);
        if parsed.utility in options.allowedUtilities {
          return;
        }
        added := arbitraryCount;
        fileArbitraryCount := fileArbitraryCount + arbitraryCount;
        if parsed.arbitraryValue.Some? {
          var f := Found(parsed.arbitraryValue.value, parsed.utility);
          found := [f];
          arbitraryValues := arbitraryValues + [ValueEntry(node, f.value, f.utility)];
          TagSnoc(node, [], f);
        }
      }
    }

    /** The loop of the `Atrule` visitor: the utilities of one `@apply`, added to the file totals as they are counted. */
    method CountUtilities(node: Node, utilities: seq<string>) returns (ruleCount: nat, ruleValues: seq<Found>)
      modifies this
      ensures ruleCount == RuleCount(utilities, options.allowedUtilities)
      ensures ruleValues == RuleValues(utilities, options.allowedUtilities)
      ensures fileArbitraryCount == old(fileArbitraryCount) + ruleCount
      ensures arbitraryValues == old(arbitraryValues) + Tag(node, ruleValues)
      ensures visited == old(visited)
    {
      ruleCount := 0;
      ruleValues := [];
      ghost var count0, values0 := fileArbitraryCount, arbitraryValues;
      for i := 0 to |utilities|
        invariant ruleCount == RuleCount(utilities[..i], options.allowedUtilities)
        invariant ruleValues == RuleValues(utilities[..i], options.allowedUtilities)
        invariant fileArbitraryCount == count0 + ruleCount
        invariant arbitraryValues == values0 + Tag(node, ruleValues)
        invariant visited == old(visited)
      {
        RuleStep(utilities, i, options.allowedUtilities);
        ghost var before := arbitraryValues;
        var added, found := CountUtility(node, utilities[i]);
        assert arbitraryValues == values0 + Tag(node, ruleValues + found) by {
          TagConcat(node, ruleValues, found);
          AppendAssoc(values0, Tag(node, ruleValues), Tag(node, found));
        }
        ruleCount := ruleCount + added;
        ruleValues := ruleValues + found;
      }
      assert utilities[..|utilities|] == utilities;
    }

    /** The `Atrule` visitor: the loop over the utilities updates the counts of the at-rule and of the file. */
    method Atrule(node: Node) returns (reports: seq<Report>)
      requires Valid()
      modifies this
      ensures Valid() && visited == old(visited) + [node]
      ensures reports == AtRuleReports(node, text, options)
    {
      var allowed := options.allowedUtilities;
      FileStep(visited, node, text, allowed);
      visited := visited + [node];
      reports := [];
      if !IsAtRule(Some(node), "apply") || node.prelude.None? {
        return;
      }
      var utilities := ExtractUtilitiesFromApply(node.prelude, text);
      assert utilities == Utilities(node, text);
      var ruleCount, ruleValues := CountUtilities(node, utilities);
      if ruleCount > options.maxPerRule {
        reports := [TooManyInRule(node.prelude.value, ruleCount, options.maxPerRule)];
      }
      var more := SuggestTokens(node.prelude.value, ruleValues);
      reports := reports + more;
    }

    /** The `StyleSheet:exit` visitor. */
    method StyleSheetExit() returns (reports: seq<Report>)
      requires Valid()
      ensures reports == FileReport(FileCount(visited, text, options.allowedUtilities), FileValues(visited, text, options.allowedUtilities), options)
    {
      reports := [];
      if fileArbitraryCount > options.maxPerFile && |arbitraryValues| > 0 {
        reports := [Report("tooManyArbitraryValues",
          map["count" := NatToString(fileArbitraryCount), "max" := IntString(options.maxPerFile)],
          OnNode(arbitraryValues[0].node), None)];
      }
    }
  }

  /** The second loop of the `Atrule` visitor: a suggestion for each recorded value that looks like a token. */
  method SuggestTokens(prelude: Node, fs: seq<Found>) returns (reports: seq<Report>)
    ensures reports == Suggestions(prelude, fs)
  {
    reports := [];
    for i := 0 to |fs|
      invariant reports == Suggestions(prelude, fs[..i])
    {
      SnocPrefix(fs, i);
      if ShouldSuggestToken(fs[i].value, fs[i].utility) {
        reports := reports + [Report("considerThemeToken", map["value" := fs[i].value], OnNode(prelude), None)];
      }
    }
    assert fs[..|fs|] == fs;
  }

  /** The reports of the `Atrule` visits, in order. */
  function AllAtRuleReports(ns: seq<Node>, text: string, o: OveruseOptions): seq<Report>
  {
    if ns == [] then [] else AllAtRuleReports(ns[..|ns| - 1], text, o) + AtRuleReports(ns[|ns| - 1], text, o)
  }

  /** The rule on one stylesheet: the `Atrule` visitor on every at-rule in walk order, then `StyleSheet:exit`. */
  method LintFile(root: Node, text: string, o: OveruseOptions) returns (reports: seq<Report>)
    ensures var ats := ChildrenOfType(root, Atrule);
      reports == AllAtRuleReports(ats, text, o)
        + FileReport(FileCount(ats, text, o.allowedUtilities), FileValues(ats, text, o.allowedUtilities), o)
  {
    var ats := ChildrenOfType(root, Atrule);
    var tracker := new OveruseTracker(text, o);
    reports := [];
    for i := 0 to |ats|
      invariant tracker.Valid() && tracker.text == text && tracker.options == o && tracker.visited == ats[..i]
      invariant reports == AllAtRuleReports(ats[..i], text, o)
    {
      var more := tracker.Atrule(ats[i]);
      SnocPrefix(ats, i);
      reports := reports + more;
    }
    assert ats[..|ats|] == ats;
    var last := tracker.StyleSheetExit();
    reports := reports + last;
  }
}
