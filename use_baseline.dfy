/**
 * The `use-baseline` rule (src/rules/use-baseline.ts): every declaration's
 * property, every function nested in a declaration value, every at-rule
 * (as `@name`) and every single-colon pseudo-class of a rule's selector is
 * classified by `getFeatureStatus`; a feature that is not widely available,
 * not ignored and within the strictness level is reported, with a message
 * chosen by vendor prefix and status and an optional suggestion.
 */
module UseBaseline {
  import opened Wrappers
  import opened Strings
  import opened Ast
  import opened Lint
  import opened BrowserCompat

  /**
   * The classification the rule consults, `getFeatureStatus` in the
   * plugin: the checks take it as a parameter, the lemmas that depend on
   * the feature tables pass `GetFeatureStatus` itself.
   */
  type Classifier = (string, FeatureType) -> Option<Feature>

  /** The `strictness` option. */
  datatype Strictness = Limited | Newly

  /** The rule options: both fields may be missing. */
  datatype Options = Options(strictness: Option<Strictness>, ignore: Option<seq<string>>)

  /** `options.strictness || 'limited'`. */
  function StrictnessOf(o: Options): (r: Strictness)
    ensures o.strictness.Some? ==> r == o.strictness.value
    ensures o.strictness.None? ==> r == Limited
  {
    if o.strictness.Some? then o.strictness.value else Limited
  }

  /** `new Set(options.ignore || [])`, as the list of its members. */
  function IgnoreList(o: Options): seq<string>
  {
    if o.ignore.Some? then o.ignore.value else []
  }

  /**
   * `shouldReport`: nothing whose feature name is ignored; under `limited`
   * only limited availability, under `newly` also newly-available features.
   * A widely-available feature is never reported.
   */
  function ShouldReport(feature: Feature, strictness: Strictness, ignore: seq<string>): (r: bool)
    ensures r <==> (feature.name !in ignore
      && (feature.status == LimitedAvailability || (strictness.Newly? && feature.status == NewlyAvailable)))
    ensures feature.status == WidelyAvailable ==> !r
  {
    if feature.name in ignore then false
    else if strictness.Limited? then feature.status == LimitedAvailability
    else feature.status == LimitedAvailability || feature.status == NewlyAvailable
  }

  /** `getMessageId`. */
  function MessageId(feature: Feature, isVendorPrefixed: bool): (r: string)
    ensures r == "vendorPrefix" <==> isVendorPrefixed
    ensures !isVendorPrefixed ==> (r == "limitedAvailability" <==> feature.status == LimitedAvailability)
    ensures r in ["vendorPrefix", "limitedAvailability", "newlyAvailable"]
  {
    if isVendorPrefixed then "vendorPrefix"
    else if feature.status == LimitedAvailability then "limitedAvailability"
    else "newlyAvailable"
  }

  /** The `suggestion` data: a space and the alternative when it is a non-empty string, else empty. */
  function Suggestion(feature: Feature): (r: string)
    ensures r == [] <==> feature.alternativeSuggestion.None? || feature.alternativeSuggestion.value == []
    ensures r != [] ==> r[0] == ' ' && r[1..] == feature.alternativeSuggestion.value
  {
    if feature.alternativeSuggestion.Some? && feature.alternativeSuggestion.value != [] then
      " " + feature.alternativeSuggestion.value
    else ""
  }

  /** `reportFeature`: the vendor-prefix test is made on the reported name. */
  function ReportFeature(node: Node, feature: Feature, kind: string, actualName: string): Report
  {
    Report(MessageId(feature, HasVendorPrefix(actualName)),
           map["type" := kind, "name" := actualName, "suggestion" := Suggestion(feature)],
           OnNode(node), None)
  }

  /** The shared body of the four `check*` functions: classify `name`, and report it as `actualName`. */
  function CheckFeature(classify: Classifier, node: Node, name: string, t: FeatureType, kind: string, actualName: string, o: Options): seq<Report>
  {
    var feature := classify(name, t);
    if feature.Some? && ShouldReport(feature.value, StrictnessOf(o), IgnoreList(o)) then
      [ReportFeature(node, feature.value, kind, actualName)]
    else []
  }

  /** `checkProperty`. */
  function CheckProperty(classify: Classifier, declaration: Node, o: Options): seq<Report>
  {
    CheckFeature(classify, declaration, declaration.property, PropertyFeature, "property", declaration.property, o)
  }

  /** `checkAtRule`: looked up and reported as `@name`. */
  function CheckAtRule(classify: Classifier, atrule: Node, o: Options): seq<Report>
  {
    var name := "@" + atrule.name;
    CheckFeature(classify, atrule, name, AtRuleFeature, "at-rule", name, o)
  }

  /** `checkPseudoClass`. */
  function CheckPseudoClass(classify: Classifier, rule: Node, pseudoClass: string, o: Options): seq<Report>
  {
    CheckFeature(classify, rule, pseudoClass, PseudoClassFeature, "pseudo-class", pseudoClass, o)
  }

  /** `checkFunction`: looked up by its name, reported as `name()`. */
  function CheckFunction(classify: Classifier, node: Node, o: Options): seq<Report>
  {
    CheckFeature(classify, node, node.name, FunctionFeature, "function", node.name + "()", o)
  }

  // ---------------------------------------------------------------------
  // Reports of one check

  /**
   * A report carries the kind and the reported name, and comes from a
   * feature that is neither widely available nor ignored; its message is
   * `vendorPrefix` exactly when the reported name has a vendor prefix.
   */
  lemma ReportOfFeature(classify: Classifier, node: Node, name: string, t: FeatureType, kind: string, actualName: string, o: Options, r: Report)
    requires r in CheckFeature(classify, node, name, t, kind, actualName, o)
    ensures classify(name, t).Some?
    ensures classify(name, t).value.status != WidelyAvailable
    ensures classify(name, t).value.name !in IgnoreList(o)
    ensures r.at == OnNode(node) && r.fix == None
    ensures "type" in r.data && r.data["type"] == kind && "name" in r.data && r.data["name"] == actualName
    ensures r.messageId == "vendorPrefix" <==> HasVendorPrefix(actualName)
    ensures r.messageId == "newlyAvailable" ==> StrictnessOf(o) == Newly
  {
  }

  /** A property starting with `--` is a widely-available custom property and never reported. */
  lemma CustomPropertiesNotReported(declaration: Node, o: Options)
    requires StartsWith(declaration.property, "--")
    ensures CheckProperty(GetFeatureStatus, declaration, o) == []
  {
    CustomPropertyStatus(declaration.property);
  }

  /**
   * A vendor-prefixed property is reported as `vendorPrefix`, with the
   * unprefixed name in the suggestion, unless the prefixed name is ignored.
   */
  lemma VendorPrefixedProperty(declaration: Node, o: Options, p: string)
    requires p in VendorPrefixes && StartsWith(declaration.property, p)
    ensures CheckProperty(GetFeatureStatus, declaration, o)
      == if declaration.property in IgnoreList(o) then []
         else [Report("vendorPrefix",
                 map["type" := "property", "name" := declaration.property,
                     "suggestion" := " Use standard '" + declaration.property[|p|..] + "' property instead of vendor prefix"],
                 OnNode(declaration), None)]
  {
    VendorPrefixFirst(declaration.property, PropertyFeature, p);
    PrefixedPropertyReport(GetFeatureStatus, declaration, o, p);
  }

  /** The report of a property classified as vendor-prefixed, whatever the classifier. */
  lemma PrefixedPropertyReport(classify: Classifier, declaration: Node, o: Options, p: string)
    requires p in VendorPrefixes && StartsWith(declaration.property, p)
    requires classify(declaration.property, PropertyFeature)
      == Some(PrefixedFeature(declaration.property, declaration.property[|p|..]))
    ensures CheckProperty(classify, declaration, o)
      == if declaration.property in IgnoreList(o) then []
         else [Report("vendorPrefix",
                 map["type" := "property", "name" := declaration.property,
                     "suggestion" := " Use standard '" + declaration.property[|p|..] + "' property instead of vendor prefix"],
                 OnNode(declaration), None)]
  {
    var f := PrefixedFeature(declaration.property, declaration.property[|p|..]);
    assert Suggestion(f) == " Use standard '" + declaration.property[|p|..] + "' property instead of vendor prefix";
  }

  /** Appending `()` keeps a vendor prefix and does not create one. */
  lemma VendorPrefixCall(name: string)
    ensures HasVendorPrefix(name + "()") <==> HasVendorPrefix(name)
  {
    var s := name + "()";
    forall p | p in VendorPrefixes
      ensures StartsWith(s, p) <==> StartsWith(name, p)
    {
      if |name| >= |p| {
        assert s[..|p|] == name[..|p|];
      } else if |p| <= |s| {
        assert s[|p| - 1] in "()";
        assert s[|p| - 1] != p[|p| - 1];
      }
    }
  }

  /**
   * A vendor-prefixed function is reported as `vendorPrefix` under its
   * `name()`, while the ignore list is compared with the bare name.
   */
  lemma VendorPrefixedFunction(node: Node, o: Options, p: string)
    requires p in VendorPrefixes && StartsWith(node.name, p)
    ensures CheckFunction(GetFeatureStatus, node, o) != [] <==> node.name !in IgnoreList(o)
    ensures forall r :: r in CheckFunction(GetFeatureStatus, node, o) ==> r.messageId == "vendorPrefix" && r.data["name"] == node.name + "()"
  {
    VendorPrefixFirst(node.name, FunctionFeature, p);
    VendorPrefixUnique(node.name, p);
    VendorPrefixCall(node.name);
  }

  /** A function found in the table is ignored by its display name `name()`, not by its bare name. */
  lemma FunctionIgnoredByCall(node: Node, o: Options)
    requires !HasVendorPrefix(node.name) && GetFeatureStatus(node.name, FunctionFeature).Some?
    requires node.name + "()" in IgnoreList(o)
    ensures CheckFunction(GetFeatureStatus, node, o) == []
  {
    FeatureShape(node.name, FunctionFeature);
  }

  /** The reported at-rule name starts with `@`, so an at-rule is never a `vendorPrefix` report. */
  lemma AtRuleNeverVendorPrefix(classify: Classifier, atrule: Node, o: Options)
    ensures forall r :: r in CheckAtRule(classify, atrule, o) ==> r.messageId != "vendorPrefix" && r.data["name"] == "@" + atrule.name
  {
    var name := "@" + atrule.name;
    assert !HasVendorPrefix(name) by {
      assert name[0] == '@';
    }
  }

  // ---------------------------------------------------------------------
  // Pseudo-classes of a selector

  /** The class `[\w-]`. */
  predicate IsNameChar(c: char)
  {
    IsWordChar(c) || c == '-'
  }

  /** The end of the run of colons of `s` from `i`. */
  function ColonEnd(s: string, i: nat): (j: nat)
    requires i <= |s|
    ensures i <= j <= |s|
    ensures forall k :: i <= k < j ==> s[k] == ':'
    ensures j < |s| ==> s[j] != ':'
    decreases |s| - i
  {
    if i < |s| && s[i] == ':' then ColonEnd(s, i + 1) else i
  }

  /** The end of the run of `[\w-]` characters of `s` from `i`. */
  function NameEnd(s: string, i: nat): (j: nat)
    requires i <= |s|
    ensures i <= j <= |s|
    ensures forall k :: i <= k < j ==> IsNameChar(s[k])
    ensures j < |s| ==> !IsNameChar(s[j])
    decreases |s| - i
  {
    if i < |s| && IsNameChar(s[i]) then NameEnd(s, i + 1) else i
  }

  /** The index of the first `)` of `s` from `i`, or `|s|` when there is none. */
  function CloseParen(s: string, i: nat): (j: nat)
    requires i <= |s|
    ensures i <= j <= |s|
    ensures forall k :: i <= k < j ==> s[k] != ')'
    ensures j < |s| ==> s[j] == ')'
    decreases |s| - i
  {
    if i < |s| && s[i] != ')' then CloseParen(s, i + 1) else i
  }

  /** Where the optional `(\([^)]*\))` group ends when tried at `e`: just past the first `)`, or `e` itself. */
  function GroupEnd(s: string, e: nat): (r: nat)
    requires e <= |s|
    ensures e <= r <= |s|
    ensures r > e ==> s[e] == '(' && s[r - 1] == ')'
  {
    if e < |s| && s[e] == '(' && CloseParen(s, e + 1) < |s| then CloseParen(s, e + 1) + 1 else e
  }

  /** A match starts at `i`: a colon, and a non-empty name after the run of colons. */
  predicate MatchStarts(s: string, i: nat)
  {
    i < |s| && s[i] == ':' && NameEnd(s, ColonEnd(s, i)) > ColonEnd(s, i)
  }

  /** The end of the match starting at `i`. */
  function MatchEnd(s: string, i: nat): (r: nat)
    requires MatchStarts(s, i)
    ensures i + 2 <= r <= |s|
  {
    GroupEnd(s, NameEnd(s, ColonEnd(s, i)))
  }

  /**
   * `s.matchAll(/:+[\w-]+(\([^)]*\))?/g)` from index `i`, as the matched
   * texts: at each position a run of colons, then a non-empty name run,
   * then the parenthesised group if a `)` closes it; where no match
   * starts, the search moves one character on.
   */
  function Matches(s: string, i: nat): (ms: seq<string>)
    decreases |s| - i
  {
    if i >= |s| then []
    else if !MatchStarts(s, i) then Matches(s, i + 1)
    else [s[i..MatchEnd(s, i)]] + Matches(s, MatchEnd(s, i))
  }

  /** `pseudo.split('(')[0]`. */
  function PseudoName(pseudo: string): string
  {
    Split(pseudo, '(')[0]
  }

  /** A pseudo-class name as checked: one colon, then a non-empty run of `[\w-]`. */
  predicate PseudoClassForm(p: string)
  {
    |p| >= 2 && p[0] == ':' && forall k :: 1 <= k < |p| ==> IsNameChar(p[k])
  }

  /** The part of `m` before the first `(`, when `m` has no `(` before index `n` and either ends or has `(` there. */
  lemma SplitBefore(m: string, n: nat)
    requires n <= |m| && '(' !in m[..n]
    requires n == |m| || m[n] == '('
    ensures PseudoName(m) == m[..n]
  {
    if n == |m| {
      assert m[..n] == m;
    } else {
      assert IndexOf(m, '(') == n;
    }
  }

  /** The match at `i`, unless it starts with `::`, names a pseudo-class of the checked form: the text up to the name's end. */
  lemma MatchForm(s: string, i: nat)
    requires MatchStarts(s, i)
    requires !StartsWith(s[i..MatchEnd(s, i)], "::")
    ensures PseudoName(s[i..MatchEnd(s, i)]) == s[i..NameEnd(s, i + 1)]
    ensures PseudoClassForm(s[i..NameEnd(s, i + 1)])
  {
    SingleColon(s, i);
    var n := NameEnd(s, i + 1);
    var m := s[i..GroupEnd(s, n)];
    forall k | 0 <= k < n - i
      ensures m[k] != '('
    {
      assert m[k] == s[i + k];
    }
    assert m[..n - i] == s[i..n];
    if GroupEnd(s, n) > n {
      assert m[n - i] == s[n];
    }
    SplitBefore(m, n - i);
    NameForm(s, i);
  }

  /** A colon at `i` and the name run after it form a pseudo-class name. */
  lemma NameForm(s: string, i: nat)
    requires i < |s| && s[i] == ':' && NameEnd(s, i + 1) > i + 1
    ensures PseudoClassForm(s[i..NameEnd(s, i + 1)])
  {
    var p := s[i..NameEnd(s, i + 1)];
    forall k | 1 <= k < |p| ensures IsNameChar(p[k]) {
      assert p[k] == s[i + k];
    }
  }

  /** A match that does not start with `::` has a single colon. */
  lemma SingleColon(s: string, i: nat)
    requires MatchStarts(s, i)
    requires !StartsWith(s[i..MatchEnd(s, i)], "::")
    ensures ColonEnd(s, i) == i + 1
    ensures MatchEnd(s, i) == GroupEnd(s, NameEnd(s, i + 1))
  {
    var m := s[i..MatchEnd(s, i)];
    assert m[..2] == [s[i], s[i + 1]];
    assert s[i + 1] != ':';
  }

  /** Every match that is not a pseudo-element names a pseudo-class of the checked form. */
  lemma {:induction false} MatchesPseudoClassForm(s: string, i: nat)
    ensures forall m :: m in Matches(s, i) && !StartsWith(m, "::") ==> PseudoClassForm(PseudoName(m))
    decreases |s| - i
  {
    if i < |s| {
      if !MatchStarts(s, i) {
        MatchesPseudoClassForm(s, i + 1);
      } else {
        MatchesPseudoClassForm(s, MatchEnd(s, i));
        if !StartsWith(s[i..MatchEnd(s, i)], "::") {
          MatchForm(s, i);
        }
      }
    }
  }

  /** A run of colons stops where the colons end. */
  lemma {:induction false} ColonEndAt(s: string, i: nat, j: nat)
    requires i <= j <= |s|
    requires forall k :: i <= k < j ==> s[k] == ':'
    requires j == |s| || s[j] != ':'
    ensures ColonEnd(s, i) == j
    decreases j - i
  {
    if i < j {
      ColonEndAt(s, i + 1, j);
    }
  }

  /** A name run stops where the name characters end. */
  lemma {:induction false} NameEndAt(s: string, i: nat, j: nat)
    requires i <= j <= |s|
    requires forall k :: i <= k < j ==> IsNameChar(s[k])
    requires j == |s| || !IsNameChar(s[j])
    ensures NameEnd(s, i) == j
    decreases j - i
  {
    if i < j {
      NameEndAt(s, i + 1, j);
    }
  }

  /** The first `)` is where the characters other than `)` end. */
  lemma {:induction false} CloseParenAt(s: string, i: nat, j: nat)
    requires i <= j < |s| && s[j] == ')'
    requires forall k :: i <= k < j ==> s[k] != ')'
    ensures CloseParen(s, i) == j
    decreases j - i
  {
    if i < j {
      CloseParenAt(s, i + 1, j);
    }
  }

  /** Colons on `[i, c)` and name characters on `[c, e)` make a match at `i` whose name run ends at `e`. */
  lemma MatchAt(s: string, i: nat, c: nat, e: nat)
    requires i < c < e <= |s|
    requires forall k :: i <= k < c ==> s[k] == ':'
    requires forall k :: c <= k < e ==> IsNameChar(s[k])
    requires e == |s| || !IsNameChar(s[e])
    ensures MatchStarts(s, i) && MatchEnd(s, i) == GroupEnd(s, e)
    ensures Matches(s, i) == [s[i..GroupEnd(s, e)]] + Matches(s, GroupEnd(s, e))
  {
    assert IsNameChar(s[c]);
    ColonEndAt(s, i, c);
    NameEndAt(s, c, e);
  }

  /** A colon, a name run up to `e`, and a group from `e` closed by the last character, is the one match of `s`. */
  lemma CallMatchAt(s: string, e: nat)
    requires 1 < e < |s| - 1 && s[0] == ':' && s[e] == '(' && s[|s| - 1] == ')'
    requires forall k :: 1 <= k < e ==> IsNameChar(s[k])
    requires forall k :: e < k < |s| - 1 ==> s[k] != ')'
    ensures Matches(s, 0) == [s]
    ensures PseudoName(s) == s[..e]
  {
    CloseParenAt(s, e + 1, |s| - 1);
    assert GroupEnd(s, e) == |s|;
    MatchAt(s, 0, 1, e);
    assert Matches(s, |s|) == [];
    assert s[0..|s|] == s;
    assert '(' !in s[..e] by {
      forall k | 0 <= k < e ensures s[..e][k] != '(' {
        assert s[..e][k] == s[k];
      }
    }
    SplitBefore(s, e);
  }

  /** A single-colon name with an argument in parentheses is one match, and its checked name stops at `(`. */
  lemma CallMatch(name: string, arg: string)
    requires name != [] && forall k :: 0 <= k < |name| ==> IsNameChar(name[k])
    requires ')' !in arg
    ensures Matches(":" + name + "(" + arg + ")", 0) == [":" + name + "(" + arg + ")"]
    ensures PseudoName(":" + name + "(" + arg + ")") == ":" + name
  {
    var s := ":" + name + "(" + arg + ")";
    CallText(name, arg);
    CallMatchAt(s, 1 + |name|);
  }

  /** The characters of `:name(arg)`. */
  lemma CallText(name: string, arg: string)
    requires name != [] && forall k :: 0 <= k < |name| ==> IsNameChar(name[k])
    requires ')' !in arg
    ensures var s := ":" + name + "(" + arg + ")";
      && |s| == |name| + |arg| + 3 && s[0] == ':' && s[1 + |name|] == '(' && s[|s| - 1] == ')'
      && (forall k :: 1 <= k < 1 + |name| ==> IsNameChar(s[k]))
      && (forall k :: 1 + |name| < k < |s| - 1 ==> s[k] != ')')
      && s[..1 + |name|] == ":" + name
  {
    var s := ":" + name + "(" + arg + ")";
    var e := 1 + |name|;
    forall k | 1 <= k < e ensures IsNameChar(s[k]) {
      assert s[k] == name[k - 1];
    }
    forall k | e < k < |s| - 1 ensures s[k] != ')' {
      assert s[k] == arg[k - e - 1];
    }
    assert s[..e] == ":" + name;
  }

  /** `:not(:disabled)` is one match, so only `:not` is checked. */
  lemma NotDisabled()
    ensures Matches(":not(:disabled)", 0) == [":not(:disabled)"]
    ensures PseudoName(":not(:disabled)") == ":not"
  {
    var s := ":not(:disabled)";
    assert s[..4] == ":not" && s[5..14] == ":disabled";
    forall k | 1 <= k < 4 ensures IsNameChar(s[k]) {
      assert s[k] == s[..4][k];
    }
    forall k | 4 < k < |s| - 1 ensures s[k] != ')' {
      assert s[k] == s[5..14][k - 5];
    }
    CallMatchAt(s, 4);
  }

  /** A colon and a name run up to `e`, then two colons and a name run to the end, are two matches. */
  lemma PseudoThenElementAt(s: string, e: nat)
    requires 1 < e && e + 2 < |s| && s[0] == ':' && s[e] == ':' && s[e + 1] == ':'
    requires forall k :: 1 <= k < e ==> IsNameChar(s[k])
    requires forall k :: e + 2 <= k < |s| ==> IsNameChar(s[k])
    ensures Matches(s, 0) == [s[..e], s[e..]]
  {
    assert !IsNameChar(':');
    MatchAt(s, 0, 1, e);
    assert GroupEnd(s, e) == e;
    LastMatch(s, e, e + 2);
  }

  /** Colons on `[i, c)` and name characters from `c` to the end make the last match of `s`. */
  lemma LastMatch(s: string, i: nat, c: nat)
    requires i < c < |s|
    requires forall k :: i <= k < c ==> s[k] == ':'
    requires forall k :: c <= k < |s| ==> IsNameChar(s[k])
    ensures Matches(s, i) == [s[i..]]
  {
    MatchAt(s, i, c, |s|);
    assert GroupEnd(s, |s|) == |s|;
    assert Matches(s, |s|) == [];
    assert s[i..|s|] == s[i..];
  }

  /** A pseudo-class followed by a pseudo-element gives two matches; the second starts with `::` and is skipped. */
  lemma PseudoThenElement(a: string, b: string)
    requires a != [] && forall k :: 0 <= k < |a| ==> IsNameChar(a[k])
    requires b != [] && forall k :: 0 <= k < |b| ==> IsNameChar(b[k])
    ensures Matches(":" + a + "::" + b, 0) == [":" + a, "::" + b]
  {
    PseudoElementText(a, b);
    PseudoThenElementAt(":" + a + "::" + b, 1 + |a|);
  }

  /** The characters of `:a::b`. */
  lemma PseudoElementText(a: string, b: string)
    requires a != [] && forall k :: 0 <= k < |a| ==> IsNameChar(a[k])
    requires b != [] && forall k :: 0 <= k < |b| ==> IsNameChar(b[k])
    ensures var s := ":" + a + "::" + b;
      && |s| == |a| + |b| + 3 && s[0] == ':' && s[1 + |a|] == ':' && s[2 + |a|] == ':'
      && (forall k :: 1 <= k < 1 + |a| ==> IsNameChar(s[k]))
      && (forall k :: 3 + |a| <= k < |s| ==> IsNameChar(s[k]))
      && s[..1 + |a|] == ":" + a && s[1 + |a|..] == "::" + b
  {
    var s := ":" + a + "::" + b;
    var e := 1 + |a|;
    forall k | 1 <= k < e ensures IsNameChar(s[k]) {
      assert s[k] == a[k - 1];
    }
    forall k | e + 2 <= k < |s| ensures IsNameChar(s[k]) {
      assert s[k] == b[k - e - 2];
    }
    assert s[..e] == ":" + a;
    assert s[e..] == "::" + b;
  }

  /** `:hover::before`: only `:hover` is checked. */
  lemma HoverBefore()
    ensures Matches(":hover::before", 0) == [":hover", "::before"]
  {
    var s := ":hover::before";
    assert s[..6] == ":hover" && s[6..] == "::before" && s[8..] == "before";
    forall k | 1 <= k < 6 ensures IsNameChar(s[k]) {
      assert s[k] == s[..6][k];
    }
    forall k | 8 <= k < |s| ensures IsNameChar(s[k]) {
      assert s[k] == s[8..][k - 8];
    }
    PseudoThenElementAt(s, 6);
  }

  /** The pseudo-class reports of the matches `ms`, in order, skipping pseudo-elements. */
  function PseudoReports(classify: Classifier, ms: seq<string>, rule: Node, o: Options): seq<Report>
  {
    if ms == [] then []
    else
      var pseudo := ms[|ms| - 1];
      PseudoReports(classify, ms[..|ms| - 1], rule, o)
      + (if StartsWith(pseudo, "::") then [] else CheckPseudoClass(classify, rule, PseudoName(pseudo), o))
  }

  /** What `checkSelector` reports: nothing without a prelude that has children. */
  function SelectorChecks(classify: Classifier, rule: Node, text: string, o: Options): seq<Report>
  {
    if rule.prelude.None? || !rule.prelude.value.hasChildren then []
    else PseudoReports(classify, Matches(GetNodeText(rule.prelude.value, text), 0), rule, o)
  }

  /** `checkSelector`: the loop over the matches of the selector text. */
  method CheckSelector(classify: Classifier, rule: Node, text: string, o: Options) returns (reports: seq<Report>)
    ensures reports == SelectorChecks(classify, rule, text, o)
  {
    reports := [];
    if rule.prelude.None? || !rule.prelude.value.hasChildren {
      return;
    }
    var selectorText := GetNodeText(rule.prelude.value, text);
    var pseudoMatches := Matches(selectorText, 0);
    for i := 0 to |pseudoMatches|
      invariant reports == PseudoReports(classify, pseudoMatches[..i], rule, o)
    {
      SnocPrefix(pseudoMatches, i);
      var pseudo := pseudoMatches[i];
      if StartsWith(pseudo, "::") {
        continue;
      }
      var pseudoName := PseudoName(pseudo);
      reports := reports + CheckPseudoClass(classify, rule, pseudoName, o);
    }
    assert pseudoMatches[..|pseudoMatches|] == pseudoMatches;
  }

  /** Each pseudo-class report comes from a match that is not a pseudo-element. */
  lemma {:induction false} PseudoReportFrom(classify: Classifier, ms: seq<string>, rule: Node, o: Options, r: Report)
    requires r in PseudoReports(classify, ms, rule, o)
    ensures exists m :: m in ms && !StartsWith(m, "::") && r in CheckPseudoClass(classify, rule, PseudoName(m), o)
  {
    var pseudo := ms[|ms| - 1];
    var init := ms[..|ms| - 1];
    if r in PseudoReports(classify, init, rule, o) {
      PseudoReportFrom(classify, init, rule, o, r);
      var m :| m in init && !StartsWith(m, "::") && r in CheckPseudoClass(classify, rule, PseudoName(m), o);
      assert m in ms;
    }
  }

  /**
   * Every selector report names a single-colon pseudo-class of the selector
   * text, which is never a `vendorPrefix` report.
   */
  lemma SelectorReportShape(classify: Classifier, rule: Node, text: string, o: Options, r: Report)
    requires r in SelectorChecks(classify, rule, text, o)
    ensures "name" in r.data && PseudoClassForm(r.data["name"])
    ensures r.messageId != "vendorPrefix"
  {
    var ms := Matches(GetNodeText(rule.prelude.value, text), 0);
    PseudoReportFrom(classify, ms, rule, o, r);
    var m :| m in ms && !StartsWith(m, "::") && r in CheckPseudoClass(classify, rule, PseudoName(m), o);
    MatchesPseudoClassForm(GetNodeText(rule.prelude.value, text), 0);
    var name := PseudoName(m);
    assert PseudoClassForm(name);
    NoVendorPrefix(name);
    ReportOfFeature(classify, rule, name, PseudoClassFeature, "pseudo-class", name, o, r);
  }

  // ---------------------------------------------------------------------
  // The walk

  /** The nested walk over a declaration value: the functions it reaches. */
  function CheckValueNode(classify: Classifier, n: Node, o: Options): seq<Report>
  {
    if n.kind == FunctionNode then CheckFunction(classify, n, o) else []
  }

  /** The function reports of a declaration: only when its value has children. */
  function ValueChecks(classify: Classifier, declaration: Node, o: Options): seq<Report>
  {
    if declaration.value.Some? && declaration.value.value.hasChildren then
      ConcatMap(Nodes(declaration.value.value), n => CheckValueNode(classify, n, o))
    else []
  }

  /** The walk callback: declarations, then at-rules, then rules. */
  function CheckNode(classify: Classifier, child: Node, text: string, o: Options): seq<Report>
  {
    (if child.kind == Declaration then CheckProperty(classify, child, o) + ValueChecks(classify, child, o) else [])
    + (if child.kind == Atrule then CheckAtRule(classify, child, o) else [])
    + (if child.kind == Rule then SelectorChecks(classify, child, text, o) else [])
  }

  /** The `StyleSheet` visitor: the callback on every node of the walk. */
  function Check(classify: Classifier, root: Node, text: string, o: Options): seq<Report>
  {
    ConcatMap(Nodes(root), n => CheckNode(classify, n, text, o))
  }

  /**
   * Every function at any depth in the value of a declaration of the walk
   * is checked, such as `anchor()` inside `max()`.
   */
  lemma NestedFunctionChecked(classify: Classifier, root: Node, declaration: Node, f: Node, text: string, o: Options, r: Report)
    requires declaration in Nodes(root) && declaration.kind == Declaration
    requires declaration.value.Some? && declaration.value.value.hasChildren
    requires f in Nodes(declaration.value.value) && f.kind == FunctionNode
    requires r in CheckFunction(classify, f, o)
    ensures r in Check(classify, root, text, o)
  {
    var vs := Nodes(declaration.value.value);
    var j :| 0 <= j < |vs| && vs[j] == f;
    ConcatMapHas(vs, n => CheckValueNode(classify, n, o), j, r);
    assert r in CheckNode(classify, declaration, text, o);
    var i :| 0 <= i < |Nodes(root)| && Nodes(root)[i] == declaration;
    ConcatMapHas(Nodes(root), n => CheckNode(classify, n, text, o), i, r);
  }

  /** Every report of the walk is that of a node of the walk. */
  lemma ReportFromNode(classify: Classifier, root: Node, text: string, o: Options, r: Report)
    requires r in Check(classify, root, text, o)
    ensures exists n :: n in Nodes(root) && n.kind in {Declaration, Atrule, Rule} && r in CheckNode(classify, n, text, o)
  {
    ConcatMapFrom(Nodes(root), n => CheckNode(classify, n, text, o), r);
    var i :| 0 <= i < |Nodes(root)| && r in CheckNode(classify, Nodes(root)[i], text, o);
    assert Nodes(root)[i] in Nodes(root);
  }
}
