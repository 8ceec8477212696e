/**
 * The at-rule vocabulary (src/utils/at-rules.ts): the Tailwind and standard
 * at-rule names, the block-expectation sets, and the three-stage suggestion
 * pipeline for unknown names (typo map, prefix match, edit distance).
 */
module AtRules {
  import opened Wrappers
  import opened Strings
  import opened Levenshtein
  import opened Records
  import opened Suggestions

  /** The keys of `TAILWIND_AT_RULE_DEFINITIONS`, in declaration order. */
  const TailwindAtRules: seq<string> := [
    "apply", "theme", "source", "utility", "variant", "custom-variant",
    "reference", "config", "plugin", "layer", "tailwind", "slot"]

  /** `STANDARD_AT_RULES`: core, conditional, descriptive, animation, layout and viewport rules, then the page-margin boxes. */
  const StandardAtRules: seq<string> :=
    ["charset", "import", "namespace", "media", "supports", "document",
     "font-face", "page", "font-feature-values", "font-palette-values", "counter-style", "property",
     "keyframes", "container", "scope", "starting-style", "layer", "viewport"]
    + ["top-left-corner", "top-left", "top-center", "top-right", "top-right-corner",
       "bottom-left-corner", "bottom-left", "bottom-center", "bottom-right", "bottom-right-corner",
       "left-top", "left-middle", "left-bottom", "right-top", "right-middle", "right-bottom"]

  const AtRulesWithBlock: seq<string> := [
    "theme", "utility", "custom-variant",
    "media", "supports", "document", "keyframes", "font-face", "page", "font-feature-values",
    "font-palette-values", "counter-style", "property", "container", "scope", "starting-style"]

  const AtRulesWithoutBlock: seq<string> := [
    "charset", "import", "namespace", "apply", "source", "reference", "config", "plugin",
    "tailwind", "slot"]

  const AtRulesOptionalBlock: seq<string> := ["variant", "layer"]

  /** `isValidAtRule`: a Tailwind or a standard at-rule name, compared exactly. */
  predicate IsValidAtRule(name: string)
  {
    name in TailwindAtRules || name in StandardAtRules
  }

  /**
   * `shouldHaveBlock`: `true` for the block set, `false` for the block-less
   * set, and undefined (`None`) for the optional set and any other name.
   */
  function ShouldHaveBlock(name: string): (r: Option<bool>)
    ensures r == Some(true) <==> name in AtRulesWithBlock
    ensures r == Some(false) <==> name in AtRulesWithoutBlock
    ensures r == None <==> name !in AtRulesWithBlock && name !in AtRulesWithoutBlock
  {
    BlockSetsDisjoint();
    if name in AtRulesWithBlock then Some(true)
    else if name in AtRulesWithoutBlock then Some(false)
    else if name in AtRulesOptionalBlock then None
    else None
  }

  /** No name is in two of the block-expectation sets. */
  lemma BlockSetsDisjoint()
    ensures forall n :: n in AtRulesWithBlock ==> n !in AtRulesWithoutBlock && n !in AtRulesOptionalBlock
    ensures forall n :: n in AtRulesWithoutBlock ==> n !in AtRulesOptionalBlock
  {
    WithBlockNotWithout();
    WithBlockNotOptional();
    WithoutNotOptional();
  }

  lemma WithBlockNotWithout()
    ensures forall n :: n in AtRulesWithBlock ==> n !in AtRulesWithoutBlock
  {
    forall n | n in AtRulesWithBlock ensures n !in AtRulesWithoutBlock {
      var i :| 0 <= i < |AtRulesWithBlock| && AtRulesWithBlock[i] == n;
    }
  }

  lemma WithBlockNotOptional()
    ensures forall n :: n in AtRulesWithBlock ==> n !in AtRulesOptionalBlock
  {
    forall n | n in AtRulesOptionalBlock ensures n !in AtRulesWithBlock {
      var i :| 0 <= i < |AtRulesOptionalBlock| && AtRulesOptionalBlock[i] == n;
    }
  }

  lemma WithoutNotOptional()
    ensures forall n :: n in AtRulesWithoutBlock ==> n !in AtRulesOptionalBlock
  {
    forall n | n in AtRulesOptionalBlock ensures n !in AtRulesWithoutBlock {
      var i :| 0 <= i < |AtRulesOptionalBlock| && AtRulesOptionalBlock[i] == n;
    }
  }

  /** Every name with a block expectation, including the optional ones, is a valid at-rule. */
  lemma BlockNamesValid()
    ensures forall n :: n in AtRulesWithBlock ==> IsValidAtRule(n)
    ensures forall n :: n in AtRulesWithoutBlock ==> IsValidAtRule(n)
    ensures forall n :: n in AtRulesOptionalBlock ==> IsValidAtRule(n)
  {
    forall n | n in AtRulesWithBlock ensures IsValidAtRule(n) {
      var i :| 0 <= i < |AtRulesWithBlock| && AtRulesWithBlock[i] == n;
    }
    forall n | n in AtRulesWithoutBlock ensures IsValidAtRule(n) {
      var i :| 0 <= i < |AtRulesWithoutBlock| && AtRulesWithoutBlock[i] == n;
    }
  }

  /** `@layer` and `@variant` may have a block or not: their expectation is undefined. */
  lemma OptionalBlockUndefined()
    ensures ShouldHaveBlock("layer") == None && ShouldHaveBlock("variant") == None
  {
  }

  // ---------------------------------------------------------------------
  // The typo map

  /** The entries of the local `typoMap`, in declaration order. */
  const TypoTable: seq<(string, string)> :=
    [("imoprt", "import"), ("improt", "import"), ("imort", "import"), ("impor", "import"),
     ("meida", "media"), ("meda", "media"), ("suports", "supports"), ("support", "supports"),
     ("keyframs", "keyframes"), ("keyframe", "keyframes"), ("fontface", "font-face"),
     ("font-faces", "font-face"), ("charst", "charset"), ("charsett", "charset"),
     ("namesapce", "namespace"), ("namepsace", "namespace")]
    + [("aply", "apply"), ("appli", "apply"), ("appl", "apply"), ("them", "theme"),
       ("themee", "theme"), ("utilty", "utility"), ("utiliti", "utility"), ("utilitie", "utility"),
       ("varaint", "variant"), ("vairant", "variant"), ("variants", "variant"),
       ("layar", "layer"), ("layers", "layer"), ("tailwnd", "tailwind"), ("tailwid", "tailwind")]

  /** `typoMap[normalized]` restricted to the map's own entries. */
  function TypoLookup(key: string): Option<string>
  {
    Lookup(TypoTable, key)
  }

  /** Every correction in the typo map is a valid at-rule. */
  lemma TypoTargetsValid()
    ensures forall i :: 0 <= i < |TypoTable| ==> IsValidAtRule(TypoTable[i].1)
  {
  }

  lemma TypoLookupValid(key: string)
    ensures TypoLookup(key).Some? ==> IsValidAtRule(TypoLookup(key).value)
  {
    if TypoLookup(key).Some? {
      TypoTargetsValid();
      var i :| 0 <= i < |TypoTable| && TypoTable[i] == (key, TypoLookup(key).value);
    }
  }

  /** `typoMap[normalized]` as written: a plain object lookup, which also sees inherited properties. */
  function TypoLookupAsWritten(key: string): (r: Option<string>)
    ensures TypoLookup(key).Some? ==> r == TypoLookup(key)
  {
    LookupAsWritten(TypoTable, key)
  }

  // ---------------------------------------------------------------------
  // getSimilarAtRules

  /** `[...TAILWIND_AT_RULES, ...STANDARD_AT_RULES]`; `layer` occurs in both. */
  function AllAtRules(): (r: seq<string>)
    ensures forall n :: n in r <==> IsValidAtRule(n)
  {
    TailwindAtRules + StandardAtRules
  }

  /** `getSimilarAtRules` with the corrected typo lookup; edit distance at most 2. */
  function SimilarAtRules(name: string): seq<string>
  {
    Similar(name, TypoLookup(ToLower(name)), AllAtRules(), 2)
  }

  /** `getSimilarAtRules` as written, with the inherited-property lookup. */
  function SimilarAtRulesAsWritten(name: string): seq<string>
  {
    Similar(name, TypoLookupAsWritten(ToLower(name)), AllAtRules(), 2)
  }

  /** `getSimilarAtRules` (corrected typo lookup). */
  method GetSimilarAtRules(name: string) returns (result: seq<string>)
    ensures result == SimilarAtRules(name)
  {
    var allAtRules := AllAtRules();
    var normalized := ToLower(name);
    result := Suggest(name, TypoLookup(normalized), allAtRules, 2);
  }

  /** At most three suggestions, all distinct, and each one a valid at-rule. */
  lemma SimilarAtRulesValid(name: string)
    ensures |SimilarAtRules(name)| <= 3
    ensures forall i, j :: 0 <= i < j < |SimilarAtRules(name)| ==> SimilarAtRules(name)[i] != SimilarAtRules(name)[j]
    ensures forall s :: s in SimilarAtRules(name) ==> IsValidAtRule(s)
  {
    TypoLookupValid(ToLower(name));
    SimilarShape(name, TypoLookup(ToLower(name)), AllAtRules(), 2);
  }

  /** A typo-map hit on the lower-cased name is the first suggestion. */
  lemma TypoComesFirst(name: string, fix: string)
    requires TypoLookup(ToLower(name)) == Some(fix)
    ensures SimilarAtRules(name) != [] && SimilarAtRules(name)[0] == fix
  {
    TypoFirst(name, fix, AllAtRules(), 2);
  }

  /** The typo map corrects `@imoprt` to `import` and `@meida` to `media`; by `TypoComesFirst` these are the first suggestions. */
  lemma KnownTypos()
    ensures ToLower("imoprt") == "imoprt" && TypoLookup("imoprt") == Some("import")
    ensures ToLower("meida") == "meida" && TypoLookup("meida") == Some("media")
  {
    ToLowerUnchanged("imoprt");
    ToLowerUnchanged("meida");
    assert TypoTable[0] == ("imoprt", "import");
    MediaTypo();
  }

  /** `meida` is the fifth key of the typo map, and the first four start with `i`. */
  lemma MediaTypo()
    ensures TypoLookup("meida") == Some("media")
  {
    assert TypoTable[4] == ("meida", "media");
    forall j | 0 <= j < 4 ensures TypoTable[j].0 != "meida" {
      assert TypoTable[j].0[0] == 'i';
    }
    FirstHit(TypoTable, 4, "meida");
  }

  /** As written, an inherited-property hit is the first suggestion. */
  lemma InheritedComesFirst(name: string, s: string)
    requires TypoLookupAsWritten(ToLower(name)) == Some(s)
    ensures SimilarAtRulesAsWritten(name) != [] && SimilarAtRulesAsWritten(name)[0] == s
  {
    TypoFirst(name, s, AllAtRules(), 2);
  }

  /**
   * As written, the lookup for `@constructor` (or `@Constructor`) finds the
   * inherited `Object.prototype.constructor`, whose rendering is not an
   * at-rule; by `ConstructorLowerCase` and `InheritedComesFirst` it becomes the first suggestion.
   */
  lemma ConstructorLookupAsWritten()
    ensures TypoLookupAsWritten("constructor") == Some("function Object() { [native code] }")
    ensures TypoLookup("constructor") == None
    ensures !IsValidAtRule("function Object() { [native code] }")
  {
    TypoKeysShort();
    AtRuleNamesShort();
    assert |"function Object() { [native code] }"| > 20;
  }

  /** No at-rule name is longer than twenty characters. */
  lemma AtRuleNamesShort()
    ensures forall n :: IsValidAtRule(n) ==> |n| <= 20
  {
    assert forall i :: 0 <= i < |TailwindAtRules| ==> |TailwindAtRules[i]| <= 20;
    assert forall i :: 0 <= i < |StandardAtRules| ==> |StandardAtRules[i]| <= 20;
  }

  /** No key of the typo map is longer than ten characters. */
  lemma TypoKeysShort()
    ensures forall i :: 0 <= i < |TypoTable| ==> |TypoTable[i].0| <= 10
  {
  }

}
