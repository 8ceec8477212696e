/**
 * The `no-conflicting-utilities` rule (src/rules/no-conflicting-utilities.ts):
 * inside one `@apply`, repeated utilities and pairs of utilities that set the
 * same CSS property are reported, each with a fix that rewrites the utility list.
 */
module NoConflictingUtilities {
  import opened Wrappers
  import opened Strings
  import opened Ast
  import opened Lint
  import opened Tailwind
  import opened ConflictPairs

  // ---------------------------------------------------------------------
  // groupUtilitiesByProperty

  /** The shapes of the patterns in the property table. */
  datatype Pattern =
    | OneOf(words: seq<string>)                       // ^(w1|w2|...)$
    | PrefixOneOf(prefix: string, words: seq<string>) // ^prefix(w1|w2|...)$
    | Prefix(prefix: string)                          // ^prefix
    | GrowShrink                                      // ^(grow|shrink)(-\d+)?$

  datatype Mapping = Mapping(pattern: Pattern, property: string)

  const Places: seq<string> := ["start", "end", "center", "between", "around", "evenly"]
  const OverflowValues: seq<string> := ["auto", "hidden", "visible", "scroll"]

  /** The table, in the order it is tried. */
  const PropertyMappings: seq<Mapping> := [
    Mapping(OneOf(["block", "inline-block", "inline", "flex", "grid", "hidden", "flow-root"]), "display"),
    Mapping(OneOf(["static", "fixed", "absolute", "relative", "sticky"]), "position"),
    Mapping(PrefixOneOf("flex-", ["row", "col", "row-reverse", "col-reverse"]), "flex-direction"),
    Mapping(PrefixOneOf("flex-", ["wrap", "nowrap", "wrap-reverse"]), "flex-wrap"),
    Mapping(PrefixOneOf("flex-", ["1", "auto", "initial", "none"]), "flex"),
    Mapping(GrowShrink, "flex-grow/shrink"),
    Mapping(PrefixOneOf("justify-", Places), "justify-content"),
    Mapping(PrefixOneOf("items-", ["start", "end", "center", "baseline", "stretch"]), "align-items"),
    Mapping(PrefixOneOf("content-", Places + ["stretch"]), "align-content"),
    Mapping(Prefix("w-"), "width"),
    Mapping(Prefix("h-"), "height"),
    Mapping(Prefix("min-w-"), "min-width"),
    Mapping(Prefix("min-h-"), "min-height"),
    Mapping(Prefix("max-w-"), "max-width"),
    Mapping(Prefix("max-h-"), "max-height"),
    Mapping(Prefix("p-"), "padding"),
    Mapping(Prefix("px-"), "padding-x"),
    Mapping(Prefix("py-"), "padding-y"),
    Mapping(Prefix("pt-"), "padding-top"),
    Mapping(Prefix("pr-"), "padding-right"),
    Mapping(Prefix("pb-"), "padding-bottom"),
    Mapping(Prefix("pl-"), "padding-left"),
    Mapping(Prefix("m-"), "margin"),
    Mapping(Prefix("mx-"), "margin-x"),
    Mapping(Prefix("my-"), "margin-y"),
    Mapping(Prefix("mt-"), "margin-top"),
    Mapping(Prefix("mr-"), "margin-right"),
    Mapping(Prefix("mb-"), "margin-bottom"),
    Mapping(Prefix("ml-"), "margin-left"),
    Mapping(PrefixOneOf("text-", ["left", "center", "right", "justify"]), "text-align"),
    Mapping(PrefixOneOf("text-", ["xs", "sm", "base", "lg", "xl", "2xl", "3xl", "4xl", "5xl", "6xl", "7xl", "8xl", "9xl"]), "font-size"),
    Mapping(PrefixOneOf("font-", ["thin", "extralight", "light", "normal", "medium", "semibold", "bold", "extrabold", "black"]), "font-weight"),
    Mapping(Prefix("text-"), "color"),
    Mapping(Prefix("bg-"), "background-color"),
    Mapping(Prefix("border-"), "border-color"),
    Mapping(PrefixOneOf("overflow-", OverflowValues), "overflow"),
    Mapping(PrefixOneOf("overflow-x-", OverflowValues), "overflow-x"),
    Mapping(PrefixOneOf("overflow-y-", OverflowValues), "overflow-y")]

  /** `pattern.test(base)`. */
  predicate Matches(p: Pattern, base: string)
  {
    match p
    case OneOf(ws) => base in ws
    case PrefixOneOf(pre, ws) => StartsWith(base, pre) && base[|pre|..] in ws
    case Prefix(pre) => StartsWith(base, pre)
    case GrowShrink =>
      base == "grow" || base == "shrink"
      || (StartsWith(base, "grow-") && |base| > 5 && AllDigits(base[5..]))
      || (StartsWith(base, "shrink-") && |base| > 7 && AllDigits(base[7..]))
  }

  /** The property of the first entry of `table` from index `k` on whose pattern matches. */
  function FirstMapping(table: seq<Mapping>, base: string, k: nat): (r: Option<string>)
    requires k <= |table|
    decreases |table| - k
  {
    if k == |table| then None
    else if Matches(table[k].pattern, base) then Some(table[k].property)
    else FirstMapping(table, base, k + 1)
  }

  /** The property group of a base under the table. */
  function PropertyOf(base: string): Option<string>
  {
    FirstMapping(PropertyMappings, base, 0)
  }

  /** Entry `j` matches, and it is the first from `k` on that does. */
  predicate FirstAt(table: seq<Mapping>, base: string, k: nat, j: nat)
  {
    k <= j < |table| && Matches(table[j].pattern, base)
    && forall i :: k <= i < j ==> !Matches(table[i].pattern, base)
  }

  /** The search finds nothing exactly when no entry matches, and otherwise the first entry that does. */
  lemma {:induction false} FirstMappingSpec(table: seq<Mapping>, base: string, k: nat)
    requires k <= |table|
    ensures FirstMapping(table, base, k).None? <==> forall j :: k <= j < |table| ==> !Matches(table[j].pattern, base)
    ensures FirstMapping(table, base, k).Some? ==>
      exists j: nat :: FirstAt(table, base, k, j) && FirstMapping(table, base, k).value == table[j].property
    decreases |table| - k
  {
    if k < |table| {
      if Matches(table[k].pattern, base) {
        assert FirstAt(table, base, k, k);
      } else {
        FirstMappingSpec(table, base, k + 1);
        if FirstMapping(table, base, k).Some? {
          var j: nat :| FirstAt(table, base, k + 1, j) && FirstMapping(table, base, k + 1).value == table[j].property;
          assert FirstAt(table, base, k, j);
        }
      }
    }
  }

  /** The group of a utility is decided by its parsed base. */
  function UtilityProperty(u: string): Option<string>
  {
    PropertyOf(Parse(u).utility)
  }

  /** The position of the group for `p`, or -1. */
  function GroupIndex(gs: seq<Group>, p: string): (k: int)
    ensures -1 <= k < |gs|
    ensures k == -1 <==> forall i :: 0 <= i < |gs| ==> gs[i].property != p
    ensures k >= 0 ==> gs[k].property == p
  {
    if gs == [] then -1
    else if gs[|gs| - 1].property == p && GroupIndex(gs[..|gs| - 1], p) == -1 then |gs| - 1
    else GroupIndex(gs[..|gs| - 1], p)
  }

  /** One step of the loop: the utility joins the group of its property, created at the end if new. */
  function AddTo(gs: seq<Group>, u: string): seq<Group>
  {
    match UtilityProperty(u)
    case None => gs
    case Some(p) =>
      var k := GroupIndex(gs, p);
      if k == -1 then gs + [Group(p, [u])]
      else gs[k := Group(p, gs[k].members + [u])]
  }

  /** The groups record, in key-creation order. */
  function Groups(us: seq<string>): seq<Group>
  {
    if us == [] then [] else AddTo(Groups(us[..|us| - 1]), us[|us| - 1])
  }

  /** `groupUtilitiesByProperty`, with the inner search that stops at the first matching entry. */
  method GroupUtilitiesByProperty(utilities: seq<string>) returns (groups: seq<Group>)
    ensures groups == Groups(utilities)
  {
    groups := [];
    for i := 0 to |utilities|
      invariant groups == Groups(utilities[..i])
    {
      var utility := utilities[i];
      var parsed := ParseUtilityClass(utility);
      var baseUtility := parsed.utility;
      var found: Option<string> := None;
      var k := 0;
      while k < |PropertyMappings|
        invariant 0 <= k <= |PropertyMappings|
        invariant found.None? && PropertyOf(baseUtility) == FirstMapping(PropertyMappings, baseUtility, k)
      {
        if Matches(PropertyMappings[k].pattern, baseUtility) {
          found := Some(PropertyMappings[k].property);
          break;
        }
        k := k + 1;
      }
      assert found == UtilityProperty(utility);
      if found.Some? {
        var g := GroupIndex(groups, found.value);
        if g == -1 {
          groups := groups + [Group(found.value, [utility])];
        } else {
          groups := groups[g := Group(found.value, groups[g].members + [utility])];
        }
      }
      assert utilities[..i + 1][..i] == utilities[..i];
    }
    assert utilities[..|utilities|] == utilities;
  }

  /** The properties of the utilities that have one, in list order. */
  function PropertiesOf(us: seq<string>): seq<string>
  {
    if us == [] then []
    else PropertiesOf(us[..|us| - 1]) + (match UtilityProperty(us[|us| - 1]) case Some(p) => [p] case None => [])
  }

  /** The utilities whose property is `p`, in list order. */
  function WithProperty(us: seq<string>, p: string): seq<string>
  {
    if us == [] then []
    else WithProperty(us[..|us| - 1], p) + (if UtilityProperty(us[|us| - 1]) == Some(p) then [us[|us| - 1]] else [])
  }

  function GroupProperties(gs: seq<Group>): (r: seq<string>)
    ensures |r| == |gs| && forall i :: 0 <= i < |gs| ==> r[i] == gs[i].property
  {
    if gs == [] then [] else [gs[0].property] + GroupProperties(gs[1..])
  }

  lemma {:induction false} WithPropertyAbsent(us: seq<string>, p: string)
    requires p !in PropertiesOf(us)
    ensures WithProperty(us, p) == []
  {
    if us != [] { WithPropertyAbsent(us[..|us| - 1], p); }
  }

  /** The groups are created in first-appearance order of the properties, one per property. */
  lemma {:induction false} GroupsOrder(us: seq<string>)
    ensures GroupProperties(Groups(us)) == Dedupe(PropertiesOf(us))
  {
    if us != [] {
      var init, u := us[..|us| - 1], us[|us| - 1];
      GroupsOrder(init);
      var gs := Groups(init);
      match UtilityProperty(u)
      case None =>
        assert Groups(us) == gs;
        assert PropertiesOf(us) == PropertiesOf(init);
      case Some(p) =>
        DedupeSnoc(PropertiesOf(init), p);
        AddProperty(gs, p, u);
    }
  }

  /** Joining or creating the group of `p` adds `p` to the group properties only when it is new. */
  lemma AddProperty(gs: seq<Group>, p: string, u: string)
    ensures var k := GroupIndex(gs, p);
      GroupProperties(if k == -1 then gs + [Group(p, [u])] else gs[k := Group(p, gs[k].members + [u])])
      == if p in GroupProperties(gs) then GroupProperties(gs) else GroupProperties(gs) + [p]
  {
    var k := GroupIndex(gs, p);
    if k == -1 {
      assert p !in GroupProperties(gs);
      assert GroupProperties(gs + [Group(p, [u])]) == GroupProperties(gs) + [p];
    } else {
      assert p in GroupProperties(gs);
      var gs' := gs[k := Group(p, gs[k].members + [u])];
      assert GroupProperties(gs') == GroupProperties(gs);
    }
  }

  /** Each group holds exactly the utilities of its property, in list order. */
  lemma {:induction false} GroupsMembers(us: seq<string>)
    ensures forall k :: 0 <= k < |Groups(us)| ==> Groups(us)[k].members == WithProperty(us, Groups(us)[k].property)
  {
    if us != [] {
      var init, u := us[..|us| - 1], us[|us| - 1];
      GroupsMembers(init);
      GroupsOrder(init);
      var gs := Groups(init);
      match UtilityProperty(u)
      case None =>
      case Some(p) =>
        var k := GroupIndex(gs, p);
        if k == -1 {
          assert p !in Dedupe(PropertiesOf(init)) by { assert p !in GroupProperties(gs); }
          WithPropertyAbsent(init, p);
        }
    }
  }

  /** No two groups share a property. */
  lemma GroupsDistinct(us: seq<string>)
    ensures forall i, j :: 0 <= i < j < |Groups(us)| ==> Groups(us)[i].property != Groups(us)[j].property
  {
    GroupsOrder(us);
    var gp := GroupProperties(Groups(us));
    assert forall i, j :: 0 <= i < j < |gp| ==> gp[i] != gp[j];
  }

  // ---------------------------------------------------------------------
  // findConflictingUtilities

  function Conflicts(us: seq<string>): seq<Conflict>
  {
    AllConflicts(Groups(us), |Groups(us)|, DoUtilitiesConflict)
  }

  /** `findConflictingUtilities`: per group in order, each pair `i < j` that conflicts. */
  method FindConflictingUtilities(utilities: seq<string>) returns (conflicts: seq<Conflict>)
    ensures conflicts == Conflicts(utilities)
  {
    var propertyGroups := GroupUtilitiesByProperty(utilities);
    conflicts := ScanGroups(propertyGroups, DoUtilitiesConflict);
  }

  /**
   * A reported pair is two entries `i < j` of one property group that
   * conflict, so both utilities have that pair's property.
   */
  lemma ConflictsWithinGroup(us: seq<string>, c: Conflict)
    requires c in Conflicts(us)
    ensures DoUtilitiesConflict(c.utility1, c.utility2)
    ensures UtilityProperty(c.utility1) == Some(c.property) && UtilityProperty(c.utility2) == Some(c.property)
  {
    var gs := Groups(us);
    AllConflictsMembers(gs, |gs|, DoUtilitiesConflict, c);
    var g :| 0 <= g < |gs| && c in GroupConflicts(gs[g], DoUtilitiesConflict);
    GroupConflictsMembers(gs[g], DoUtilitiesConflict, c);
    var i: nat, j: nat :| PairGives(gs[g].members, i, j, gs[g].property, DoUtilitiesConflict, c);
    GroupsMembers(us);
    WithPropertyMembers(us, gs[g].property);
    assert gs[g].members[i] in WithProperty(us, gs[g].property);
    assert gs[g].members[j] in WithProperty(us, gs[g].property);
  }

  lemma {:induction false} WithPropertyMembers(us: seq<string>, p: string)
    ensures forall x :: x in WithProperty(us, p) ==> UtilityProperty(x) == Some(p)
  {
    if us != [] { WithPropertyMembers(us[..|us| - 1], p); }
  }

  /** Conversely, every conflicting pair `i < j` inside a group is reported. */
  lemma ConflictsComplete(us: seq<string>, g: nat, i: nat, j: nat)
    requires g < |Groups(us)| && i < j < |Groups(us)[g].members|
    requires DoUtilitiesConflict(Groups(us)[g].members[i], Groups(us)[g].members[j])
    ensures Conflict(Groups(us)[g].members[i], Groups(us)[g].members[j], Groups(us)[g].property) in Conflicts(us)
  {
    var gs := Groups(us);
    var c := Conflict(gs[g].members[i], gs[g].members[j], gs[g].property);
    assert PairGives(gs[g].members, i, j, gs[g].property, DoUtilitiesConflict, c);
    GroupConflictsMembers(gs[g], DoUtilitiesConflict, c);
    AllConflictsMembers(gs, |gs|, DoUtilitiesConflict, c);
  }

  // ---------------------------------------------------------------------
  // The Atrule visitor: duplicates, then conflicts

  /** `utilities.filter((u, i) => u !== v || utilities.indexOf(u) === i)`: later copies of `v` dropped. */
  function KeepFirst(us: seq<string>, v: string): seq<string>
  {
    KeepFirstFrom(us, v, false)
  }

  function KeepFirstFrom(us: seq<string>, v: string, seenV: bool): seq<string>
  {
    if us == [] then []
    else if us[0] == v then (if seenV then [] else [v]) + KeepFirstFrom(us[1..], v, true)
    else [us[0]] + KeepFirstFrom(us[1..], v, seenV)
  }

  lemma {:induction false} KeepFirstFromSpec(us: seq<string>, v: string, seenV: bool)
    ensures Remove(KeepFirstFrom(us, v, seenV), v) == Remove(us, v)
    ensures Count(KeepFirstFrom(us, v, seenV), v) == if v in us && !seenV then 1 else 0
  {
    if us != [] {
      KeepFirstFromSpec(us[1..], v, seenV || us[0] == v);
      var rest := KeepFirstFrom(us[1..], v, seenV || us[0] == v);
      if us[0] == v {
        if seenV {
          assert KeepFirstFrom(us, v, seenV) == rest;
        } else {
          assert KeepFirstFrom(us, v, seenV) == [v] + rest;
          assert ([v] + rest)[1..] == rest;
        }
      } else {
        assert ([us[0]] + rest)[1..] == rest;
        assert v in us <==> v in us[1..];
      }
    }
  }

  /** The duplicate fix keeps exactly one copy of the utility and every other utility in order. */
  lemma KeepFirstSpec(us: seq<string>, v: string)
    requires v in us
    ensures Count(KeepFirst(us, v), v) == 1
    ensures Remove(KeepFirst(us, v), v) == Remove(us, v)
  {
    KeepFirstFromSpec(us, v, false);
  }

  /** Which side a conflict fix removes: the one whose first occurrence is earlier, else the second. */
  function ToRemove(us: seq<string>, c: Conflict): string
  {
    if IndexOf(us, c.utility1) < IndexOf(us, c.utility2) then c.utility1 else c.utility2
  }

  /** The conflict fix removes every copy of one side; for a pair of equal utilities, every copy of it. */
  lemma ConflictFixRemoves(us: seq<string>, c: Conflict)
    ensures ToRemove(us, c) !in Remove(us, ToRemove(us, c))
    ensures c.utility1 == c.utility2 ==> c.utility1 !in Remove(us, ToRemove(us, c))
    ensures c.utility1 in us && c.utility2 in us && IndexOf(us, c.utility1) < IndexOf(us, c.utility2)
      ==> c.utility2 in Remove(us, ToRemove(us, c))
  {
  }

  function DuplicateReport(us: seq<string>, u: string, prelude: Node): Report
  {
    Report("duplicateUtility", map["utility" := u], OnNode(prelude), ReplaceNode(prelude, Join(KeepFirst(us, u), " ")))
  }

  function ConflictReport(us: seq<string>, c: Conflict, prelude: Node): Report
  {
    Report("conflictingUtilities",
      map["utility1" := c.utility1, "utility2" := c.utility2, "property" := c.property],
      OnNode(prelude),
      ReplaceNode(prelude, Join(Remove(us, ToRemove(us, c)), " ")))
  }

  /** The duplicate reports for the first `i` utilities: one for each utility already seen. */
  function DuplicateReports(us: seq<string>, i: nat, prelude: Node): seq<Report>
    requires i <= |us|
  {
    if i == 0 then []
    else DuplicateReports(us, i - 1, prelude) + (if us[i - 1] in us[..i - 1] then [DuplicateReport(us, us[i - 1], prelude)] else [])
  }

  /** The duplicate scan of the visitor, with its `seen` set. */
  method ScanDuplicates(utilities: seq<string>, prelude: Node) returns (reports: seq<Report>)
    ensures reports == DuplicateReports(utilities, |utilities|, prelude)
  {
    reports := [];
    var seen: set<string> := {};
    for i := 0 to |utilities|
      invariant seen == set j | 0 <= j < i :: utilities[j]
      invariant reports == DuplicateReports(utilities, i, prelude)
    {
      var utility := utilities[i];
      assert utility in utilities[..i] <==> utility in seen by {
        assert forall x :: x in utilities[..i] <==> exists j :: 0 <= j < i && utilities[j] == x;
      }
      if utility in seen {
        reports := reports + [DuplicateReport(utilities, utility, prelude)];
      }
      seen := seen + {utility};
    }
  }

  /** There is one duplicate report for every utility that is not the first of its kind. */
  lemma {:induction false} DuplicateReportCount(us: seq<string>, i: nat, prelude: Node)
    requires i <= |us|
    ensures |DuplicateReports(us, i, prelude)| == i - |Dedupe(us[..i])|
  {
    if i > 0 {
      DuplicateReportCount(us, i - 1, prelude);
      assert us[..i] == us[..i - 1] + [us[i - 1]];
      DedupeSnoc(us[..i - 1], us[i - 1]);
    }
  }

  function ConflictReports(us: seq<string>, cs: seq<Conflict>, prelude: Node): (r: seq<Report>)
    ensures |r| == |cs|
  {
    if cs == [] then [] else [ConflictReport(us, cs[0], prelude)] + ConflictReports(us, cs[1..], prelude)
  }

  /** The reports of the `Atrule` visitor for one node. */
  function CheckAtrule(node: Node, text: string): (r: seq<Report>)
  {
    if !IsAtRule(Some(node), "apply") || node.prelude.None? then []
    else
      var utilities := ExtractUtilitiesFromApply(node.prelude, text);
      DuplicateReports(utilities, |utilities|, node.prelude.value)
      + ConflictReports(utilities, Conflicts(utilities), node.prelude.value)
  }

  /** At-rules other than `@apply`, and `@apply` without a prelude, are never reported. */
  lemma CheckAtruleSkips(node: Node, text: string)
    requires node.kind != Atrule || node.name != "apply" || node.prelude.None?
    ensures CheckAtrule(node, text) == []
  {
  }

  /** The reports for one `@apply`: one duplicate per repeated occurrence, then one per conflicting pair. */
  lemma CheckAtruleCounts(node: Node, text: string)
    requires node.kind == Atrule && node.name == "apply" && node.prelude.Some?
    ensures var us := ExtractUtilitiesFromApply(node.prelude, text);
      |CheckAtrule(node, text)| == |us| - |Dedupe(us)| + |Conflicts(us)|
  {
    var us := ExtractUtilitiesFromApply(node.prelude, text);
    DuplicateReportCount(us, |us|, node.prelude.value);
    assert us[..|us|] == us;
  }
}
