/**
 * The `consistent-spacing` rule (src/rules/consistent-spacing.ts): for each
 * declaration, the text between the end of the property name and the start
 * of the value is split at its first colon; the text before the colon and
 * the text after it are each checked against the option for that side
 * (`always`: exactly one space, `never`: nothing), and a report carries a fix
 * that replaces the whole side with what the option asks for.
 */
module ConsistentSpacing {
  import opened Wrappers
  import opened Strings
  import opened Ast
  import opened Lint

  datatype Spacing = Always | Never

  datatype SpacingOptions = SpacingOptions(afterColon: Spacing, beforeColon: Spacing)

  /** The options of the rule: `afterColon` defaults to `always`, `beforeColon` to `never`. */
  function ResolveOptions(afterColon: Option<Spacing>, beforeColon: Option<Spacing>): SpacingOptions
  {
    SpacingOptions(
      if afterColon.Some? then afterColon.value else Always,
      if beforeColon.Some? then beforeColon.value else Never)
  }

  /** Without options the rule asks for `prop: value`. */
  lemma DefaultOptions()
    ensures ResolveOptions(None, None) == SpacingOptions(Always, Never)
  {
  }

  /** The text a side must hold under its option: one space, or nothing. */
  function Required(s: Spacing): (r: string)
    ensures |r| <= 1 && ':' !in r
  {
    if s == Always then " " else ""
  }

  /** The outcome for one side of the colon: fine, or a message and the text that replaces the whole side. */
  datatype SideVerdict = Fine | Flag(messageId: string, replacement: string)

  /**
   * `checkBeforeColon` on the length of the text before the colon. A side
   * is flagged exactly when its length differs from what the option asks
   * for, and the fix puts in exactly that.
   */
  function BeforeVerdict(spaceLength: nat, option: Spacing): (v: SideVerdict)
    ensures v.Fine? <==> spaceLength == |Required(option)|
    ensures v.Flag? ==> v.replacement == Required(option)
  {
    if spaceLength == 0 && option == Always then Flag("expectedSpaceBeforeColon", " ")
    else if spaceLength == 1 && option == Never then Flag("unexpectedSpaceBeforeColon", "")
    else if spaceLength > 1 then Flag("multipleSpacesBeforeColon", if option == Always then " " else "")
    else Fine
  }

  /** `checkAfterColon` on the length of the text after the colon, with the same meaning. */
  function AfterVerdict(spaceLength: nat, option: Spacing): (v: SideVerdict)
    ensures v.Fine? <==> spaceLength == |Required(option)|
    ensures v.Flag? ==> v.replacement == Required(option)
  {
    if spaceLength == 0 && option == Always then Flag("expectedSpaceAfterColon", " ")
    else if spaceLength > 0 && option == Never then Flag("unexpectedSpaceAfterColon", "")
    else if spaceLength > 1 && option == Always then Flag("multipleSpacesAfterColon", " ")
    else Fine
  }

  /** Which message each case of the text before the colon gives. */
  lemma BeforeColonMessages(spaceLength: nat, option: Spacing)
    ensures spaceLength == 0 && option == Always ==> BeforeVerdict(spaceLength, option).messageId == "expectedSpaceBeforeColon"
    ensures spaceLength == 1 && option == Never ==> BeforeVerdict(spaceLength, option).messageId == "unexpectedSpaceBeforeColon"
    ensures spaceLength > 1 ==> BeforeVerdict(spaceLength, option).messageId == "multipleSpacesBeforeColon"
  {
  }

  /** Which message each case of the text after the colon gives. */
  lemma AfterColonMessages(spaceLength: nat, option: Spacing)
    ensures spaceLength == 0 && option == Always ==> AfterVerdict(spaceLength, option).messageId == "expectedSpaceAfterColon"
    ensures spaceLength > 0 && option == Never ==> AfterVerdict(spaceLength, option).messageId == "unexpectedSpaceAfterColon"
    ensures spaceLength > 1 && option == Always ==> AfterVerdict(spaceLength, option).messageId == "multipleSpacesAfterColon"
  {
  }

  /** Where the property name of a declaration ends and where its value starts. */
  datatype DeclarationInfo = DeclarationInfo(node: Node, propertyEnd: Position, valueStart: Position)

  /** The positions of a declaration, when it and its value have a location. */
  function InfoOf(d: Node): (r: Option<DeclarationInfo>)
    ensures r.Some? <==> d.loc.Some? && d.value.Some? && d.value.value.loc.Some?
    ensures r.Some? ==> (r.value.propertyEnd.offset == d.loc.value.start.offset + |d.property|
                         && r.value.valueStart == d.value.value.loc.value.start)
  {
    if d.loc.None? || d.value.None? || d.value.value.loc.None? then None
    else
      var start := d.loc.value.start;
      var p := |d.property|;
      Some(DeclarationInfo(d, Position(start.line, start.column + p, start.offset + p), d.value.value.loc.value.start))
  }

  /**
   * The report for the text before the colon: a point at the property end
   * when that text is empty, otherwise the span of that text on the
   * property's line. The fix replaces the text.
   */
  function CheckBeforeColon(info: DeclarationInfo, spaceLength: nat, options: SpacingOptions): (r: seq<Report>)
    ensures |r| <= 1
    ensures r == [] <==> spaceLength == |Required(options.beforeColon)|
    ensures r != [] ==> r[0].fix == Some(Edit(info.propertyEnd.offset, info.propertyEnd.offset + spaceLength, Required(options.beforeColon)))
  {
    var pe := info.propertyEnd;
    match BeforeVerdict(spaceLength, options.beforeColon)
    case Fine => []
    case Flag(id, replacement) =>
      var at := if spaceLength == 0 then AtPoint(pe.line, pe.column) else OnSpan(pe.line, pe.column, pe.column + spaceLength);
      [Report(id, map[], at, Some(Edit(pe.offset, pe.offset + spaceLength, replacement)))]
  }

  /**
   * The report for the text after the colon, which sits `colonIndex`
   * characters after the property end: a point just after the colon when
   * that text is empty (the fix inserts there), otherwise the range from
   * just after the colon to the value start (the fix replaces it).
   */
  function CheckAfterColon(info: DeclarationInfo, spaceLength: nat, colonIndex: nat, options: SpacingOptions): (r: seq<Report>)
    ensures |r| <= 1
    ensures r == [] <==> spaceLength == |Required(options.afterColon)|
    ensures r != [] ==> (r[0].fix.Some? && r[0].fix.value.start == info.propertyEnd.offset + colonIndex + 1
                         && r[0].fix.value.text == Required(options.afterColon))
    ensures r != [] && spaceLength == 0 ==> r[0].fix.value.end == info.propertyEnd.offset + colonIndex + 1
    ensures r != [] && spaceLength > 0 ==> r[0].fix.value.end == info.valueStart.offset
  {
    var pe, vs := info.propertyEnd, info.valueStart;
    var colonOffset := pe.offset + colonIndex;
    var column := pe.column + colonIndex + 1;
    match AfterVerdict(spaceLength, options.afterColon)
    case Fine => []
    case Flag(id, replacement) =>
      if spaceLength == 0 then
        [Report(id, map[], AtPoint(pe.line, column), Some(Edit(colonOffset + 1, colonOffset + 1, replacement)))]
      else
        [Report(id, map[], OnRange(pe.line, column, vs.line, vs.column), Some(Edit(colonOffset + 1, vs.offset, replacement)))]
  }

  /** The two checks on the text between property and value; nothing when it has no colon. */
  function CheckBetween(info: DeclarationInfo, between: string, options: SpacingOptions): (r: seq<Report>)
    ensures ':' !in between ==> r == []
    ensures |r| <= 2
  {
    var colonIndex := IndexOf(between, ':');
    if colonIndex == -1 then []
    else CheckBeforeColon(info, colonIndex, options) + CheckAfterColon(info, |between| - colonIndex - 1, colonIndex, options)
  }

  /** The text of the source between the end of the property name and the start of the value. */
  function Between(info: DeclarationInfo, text: string): string
  {
    Slice(text, info.propertyEnd.offset, info.valueStart.offset)
  }

  /** The walk callback: declarations with a location and a located value are checked. */
  function CheckDeclaration(d: Node, text: string, options: SpacingOptions): (r: seq<Report>)
    ensures d.kind != Declaration || d.loc.None? || d.value.None? || d.value.value.loc.None? ==> r == []
    ensures |r| <= 2
  {
    if d.kind != Declaration then []
    else
      match InfoOf(d)
      case None => []
      case Some(info) => CheckBetween(info, Between(info, text), options)
  }

  /** The `StyleSheet` visitor: the callback on every node of the walk. */
  function Check(root: Node, text: string, options: SpacingOptions): seq<Report>
  {
    ConcatMap(Nodes(root), d => CheckDeclaration(d, text, options))
  }

  /** At most one report per side, so at most two per declaration. */
  lemma AtMostTwoPerDeclaration(root: Node, text: string, options: SpacingOptions)
    ensures |Check(root, text, options)| <= 2 * |Nodes(root)|
  {
    AtMostTwo(Nodes(root), text, options);
  }

  lemma {:induction false} AtMostTwo(ns: seq<Node>, text: string, options: SpacingOptions)
    ensures |ConcatMap(ns, d => CheckDeclaration(d, text, options))| <= 2 * |ns|
  {
    if ns != [] {
      AtMostTwo(ns[1..], text, options);
    }
  }

  /**
   * The length counted on each side is that of all of its text, whatever
   * it holds: a comment between the property and the colon counts.
   */
  lemma CommentCounts(info: DeclarationInfo, before: string, after: string, options: SpacingOptions)
    requires ':' !in before
    ensures CheckBetween(info, before + ":" + after, options)
      == CheckBeforeColon(info, |before|, options) + CheckAfterColon(info, |after|, |before|, options)
  {
    ColonAt(before, after);
  }

  /** The first colon of `before + ":" + after`, when `before` has none, is the one between them. */
  lemma ColonAt(before: string, after: string)
    requires ':' !in before
    ensures IndexOf(before + ":" + after, ':') == |before|
    ensures (before + ":" + after)[..|before|] == before && (before + ":" + after)[|before| + 1..] == after
  {
    var s := before + ":" + after;
    assert s[|before|] == ':';
    assert s[..|before|] == before;
  }

  // ---------------------------------------------------------------------
  // The fixes

  /** A side after its fix: unchanged when fine, otherwise the replacement. */
  function FixSide(side: string, v: SideVerdict): string
  {
    if v.Flag? then v.replacement else side
  }

  /** The text between property and value once the fixes of both sides are made. */
  function FixedBetween(between: string, options: SpacingOptions): (r: string)
    requires ':' in between
  {
    var c := IndexOf(between, ':');
    FixSide(between[..c], BeforeVerdict(c, options.beforeColon)) + ":"
      + FixSide(between[c + 1..], AfterVerdict(|between| - c - 1, options.afterColon))
  }

  /**
   * Idempotence of the fixes: once both sides are fixed, the check finds
   * nothing more, wherever the declaration then sits.
   */
  lemma RerunClean(info: DeclarationInfo, info': DeclarationInfo, between: string, options: SpacingOptions)
    requires ':' in between
    ensures CheckBetween(info', FixedBetween(between, options), options) == []
  {
    var c := IndexOf(between, ':');
    var b := FixSide(between[..c], BeforeVerdict(c, options.beforeColon));
    var a := FixSide(between[c + 1..], AfterVerdict(|between| - c - 1, options.afterColon));
    assert |b| == |Required(options.beforeColon)| && ':' !in b;
    assert |a| == |Required(options.afterColon)|;
    assert FixedBetween(between, options) == b + ":" + a;
    CommentCounts(info', b, a, options);
  }

  /** The report before the colon replaces the `c` characters after the property end `pe` by the fixed side. */
  lemma BeforeSide(info: DeclarationInfo, text: string, pe: nat, c: nat, options: SpacingOptions)
    requires pe == info.propertyEnd.offset && pe + c <= |text|
    ensures FixesRange(text, CheckBeforeColon(info, c, options), pe, pe + c,
      FixSide(text[pe..pe + c], BeforeVerdict(c, options.beforeColon)))
  {
  }

  /** The report after the colon replaces the `n` characters from it to the value start `vs` by the fixed side. */
  lemma AfterSide(info: DeclarationInfo, text: string, pe: nat, c: nat, n: nat, vs: nat, options: SpacingOptions)
    requires pe == info.propertyEnd.offset && vs == info.valueStart.offset
    requires pe + c + 1 + n == vs <= |text|
    ensures FixesRange(text, CheckAfterColon(info, n, c, options), pe + c + 1, vs,
      FixSide(text[pe + c + 1..vs], AfterVerdict(n, options.afterColon)))
  {
  }

  /** The text between property end `pe` and value start `vs`, and its first colon `c`. */
  lemma SliceAtColon(text: string, between: string, pe: nat, vs: nat, c: nat)
    requires pe <= vs <= |text| && between == text[pe..vs]
    requires c < |between| && between[c] == ':'
    ensures pe + c + 1 <= vs
    ensures between[..c] == text[pe..pe + c] && between[c + 1..] == text[pe + c + 1..vs]
    ensures ":" == text[pe + c..pe + c + 1]
  {
    assert between[c] == text[pe + c];
  }

  /**
   * The text between property and value, cut at its first colon: the
   * reports `rb` and `ra` of its two sides fix the disjoint ranges before
   * and after the colon into `fb` and `fa`, which make its fixed form.
   */
  lemma SplitAtColon(info: DeclarationInfo, text: string, pe: nat, vs: nat, options: SpacingOptions)
    returns (c: nat, rb: seq<Report>, ra: seq<Report>, fb: string, fa: string)
    requires pe == info.propertyEnd.offset && vs == info.valueStart.offset
    requires pe <= vs <= |text| && ':' in Between(info, text)
    ensures pe + c + 1 <= vs
    ensures FixesRange(text, rb, pe, pe + c, fb) && FixesRange(text, ra, pe + c + 1, vs, fa)
    ensures CheckBetween(info, Between(info, text), options) == rb + ra
    ensures FixedBetween(Between(info, text), options) == fb + text[pe + c..pe + c + 1] + fa
  {
    var between := Between(info, text);
    c := IndexOf(between, ':');
    SliceAtColon(text, between, pe, vs, c);
    var n := vs - (pe + c + 1);
    rb, ra := CheckBeforeColon(info, c, options), CheckAfterColon(info, n, c, options);
    fb := FixSide(text[pe..pe + c], BeforeVerdict(c, options.beforeColon));
    fa := FixSide(text[pe + c + 1..vs], AfterVerdict(n, options.afterColon));
    assert FixesRange(text, rb, pe, pe + c, fb) by {
      BeforeSide(info, text, pe, c, options);
    }
    assert FixesRange(text, ra, pe + c + 1, vs, fa) by {
      AfterSide(info, text, pe, c, n, vs, options);
    }
    assert CheckBetween(info, between, options) == rb + ra by {
      assert n == |between| - c - 1;
    }
  }

  /**
   * Applying the fixes of a declaration's reports to the source gives the
   * source with the text between property and value replaced by its fixed
   * form.
   */
  lemma BetweenFixed(info: DeclarationInfo, text: string, options: SpacingOptions)
    requires info.propertyEnd.offset <= info.valueStart.offset <= |text|
    requires ':' in Between(info, text)
    ensures ApplyFixes(text, CheckBetween(info, Between(info, text), options))
      == text[..info.propertyEnd.offset] + FixedBetween(Between(info, text), options) + text[info.valueStart.offset..]
  {
    var pe, vs := info.propertyEnd.offset, info.valueStart.offset;
    assert ApplyFixes(text, CheckBetween(info, Between(info, text), options))
        == text[..pe] + FixedBetween(Between(info, text), options) + text[vs..] by {
      var c, rb, ra, fb, fa := SplitAtColon(info, text, pe, vs, options);
      ApplySplit(text, CheckBetween(info, Between(info, text), options), rb, ra, pe, pe + c, pe + c + 1, vs,
        fb, fa, FixedBetween(Between(info, text), options));
    }
  }

  /** The same, for the reports of a declaration node. */
  lemma FixesApplied(d: Node, text: string, options: SpacingOptions)
    requires d.kind == Declaration && InfoOf(d).Some?
    requires InfoOf(d).value.propertyEnd.offset <= InfoOf(d).value.valueStart.offset <= |text|
    requires ':' in Between(InfoOf(d).value, text)
    ensures var info := InfoOf(d).value;
      ApplyFixes(text, CheckDeclaration(d, text, options))
      == text[..info.propertyEnd.offset] + FixedBetween(Between(info, text), options) + text[info.valueStart.offset..]
  {
    var info := InfoOf(d).value;
    assert CheckDeclaration(d, text, options) == CheckBetween(info, Between(info, text), options);
    BetweenFixed(info, text, options);
  }

  /**
   * A re-run on the fixed source reports nothing for the declaration,
   * which keeps its property end and now has its value right after the
   * fixed text.
   */
  lemma FixIdempotent(d: Node, d': Node, text: string, options: SpacingOptions)
    requires d.kind == Declaration && InfoOf(d).Some?
    requires InfoOf(d).value.propertyEnd.offset <= InfoOf(d).value.valueStart.offset <= |text|
    requires ':' in Between(InfoOf(d).value, text)
    requires d'.kind == Declaration && InfoOf(d').Some?
    requires InfoOf(d').value.propertyEnd.offset == InfoOf(d).value.propertyEnd.offset
    requires InfoOf(d').value.valueStart.offset
      == InfoOf(d).value.propertyEnd.offset + |FixedBetween(Between(InfoOf(d).value, text), options)|
    ensures CheckDeclaration(d', ApplyFixes(text, CheckDeclaration(d, text, options)), options) == []
  {
    var info, info' := InfoOf(d).value, InfoOf(d').value;
    var fixed := FixedBetween(Between(info, text), options);
    var pe := info.propertyEnd.offset;
    FixesApplied(d, text, options);
    var t := ApplyFixes(text, CheckDeclaration(d, text, options));
    assert t == text[..pe] + fixed + text[info.valueStart.offset..];
    assert Between(info', t) == fixed by {
      assert t[pe..pe + |fixed|] == fixed;
    }
    RerunClean(info, info', Between(info, text), options);
  }
}
