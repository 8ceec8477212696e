/** The standard property names of src/utils/css-properties.ts, kept apart from the operations on them. */
module CssPropertyTable {
  /** `CSS_PROPERTIES`, in insertion order; the second `column-gap` of the source list adds nothing to the set. */
  const CssPropertyNames: seq<string> :=
    ["display", "position", "top", "right", "bottom", "left", "z-index", "float", "clear",
      "overflow", "overflow-x", "overflow-y", "overflow-wrap", "visibility", "clip", "clip-path",
      "width", "height", "min-width", "min-height"]
    + ["max-width", "max-height", "margin", "margin-top", "margin-right", "margin-bottom",
      "margin-left", "padding", "padding-top", "padding-right", "padding-bottom", "padding-left",
      "box-sizing", "border", "border-width", "border-style", "border-color", "border-top",
      "border-right", "border-bottom"]
    + ["border-left", "border-radius", "border-top-left-radius", "border-top-right-radius",
      "border-bottom-right-radius", "border-bottom-left-radius", "border-image", "border-collapse",
      "border-spacing", "background", "background-color", "background-image",
      "background-position", "background-size", "background-repeat", "background-attachment",
      "background-origin", "background-clip", "background-blend-mode", "color"]
    + ["font", "font-family", "font-size", "font-weight", "font-style", "font-variant",
      "font-stretch", "line-height", "letter-spacing", "word-spacing", "text-align",
      "text-decoration", "text-transform", "text-indent", "text-shadow", "vertical-align",
      "white-space", "word-break", "word-wrap", "hyphens"]
    + ["direction", "unicode-bidi", "writing-mode", "flex", "flex-direction", "flex-wrap",
      "flex-flow", "justify-content", "align-items", "align-content", "align-self", "flex-grow",
      "flex-shrink", "flex-basis", "order", "gap", "row-gap", "column-gap", "grid",
      "grid-template"]
    + ["grid-template-columns", "grid-template-rows", "grid-template-areas", "grid-auto-columns",
      "grid-auto-rows", "grid-auto-flow", "grid-column", "grid-column-start", "grid-column-end",
      "grid-row", "grid-row-start", "grid-row-end", "grid-area", "justify-items", "justify-self",
      "place-items", "place-content", "place-self", "list-style", "list-style-type"]
    + ["list-style-position", "list-style-image", "table-layout", "caption-side", "empty-cells",
      "transform", "transform-origin", "transform-style", "perspective", "perspective-origin",
      "backface-visibility", "transition", "transition-property", "transition-duration",
      "transition-timing-function", "transition-delay", "animation", "animation-name",
      "animation-duration", "animation-timing-function"]
    + ["animation-delay", "animation-iteration-count", "animation-direction", "animation-fill-mode",
      "animation-play-state", "cursor", "resize", "user-select", "pointer-events", "outline",
      "outline-width", "outline-style", "outline-color", "outline-offset", "opacity", "filter",
      "backdrop-filter", "mix-blend-mode", "isolation", "fill"]
    + ["stroke", "stroke-width", "stroke-linecap", "stroke-linejoin", "stroke-dasharray",
      "stroke-dashoffset", "content", "quotes", "counter-reset", "counter-increment",
      "page-break-before", "page-break-after", "page-break-inside", "orphans", "widows",
      "object-fit", "object-position", "will-change", "appearance", "box-shadow"]
    + ["text-overflow", "touch-action", "scroll-behavior", "scroll-snap-type", "scroll-snap-align",
      "overscroll-behavior", "inline-size", "block-size", "min-inline-size", "min-block-size",
      "max-inline-size", "max-block-size", "margin-inline", "margin-inline-start",
      "margin-inline-end", "margin-block", "margin-block-start", "margin-block-end",
      "padding-inline", "padding-inline-start"]
    + ["padding-inline-end", "padding-block", "padding-block-start", "padding-block-end",
      "border-inline", "border-inline-start", "border-inline-end", "border-block",
      "border-block-start", "border-block-end", "inset", "inset-inline", "inset-inline-start",
      "inset-inline-end", "inset-block", "inset-block-start", "inset-block-end", "container",
      "container-type", "container-name"]
    + ["aspect-ratio", "scrollbar-width", "scrollbar-color", "page", "size", "marks", "bleed",
      "ruby-align", "ruby-position", "columns", "column-count", "column-width", "column-rule",
      "column-rule-width", "column-rule-style", "column-rule-color", "column-span", "column-fill",
      "break-before", "break-after"]
    + ["break-inside", "mask", "mask-image", "mask-mode", "mask-repeat", "mask-position",
      "mask-clip", "mask-origin", "mask-size", "mask-composite", "color-scheme",
      "forced-color-adjust", "print-color-adjust", "contain", "contain-intrinsic-size",
      "contain-intrinsic-width", "contain-intrinsic-height"]

}

/**
 * The CSS property vocabulary (src/utils/css-properties.ts): the standard
 * property names, vendor prefixes, custom properties, and the suggestion
 * pipeline for unknown names (edit distance at most 3).
 */
module CssProperties {
  import opened Wrappers
  import opened Strings
  import opened Levenshtein
  import opened Records
  import opened Suggestions
  import opened CssPropertyTable

  const VendorPrefixes: seq<string> := ["-webkit-", "-moz-", "-ms-", "-o-"]

  /** The property with the vendor prefix `k` removed, when it has that prefix and the rest is a standard property. */
  predicate PrefixedStandard(property: string, k: nat)
    requires k < |VendorPrefixes|
  {
    StartsWith(property, VendorPrefixes[k]) && property[|VendorPrefixes[k]|..] in CssPropertyNames
  }

  /**
   * `isValidProperty`: a custom property (`--` prefix), a standard property
   * (compared exactly), or a vendor prefix followed by a standard property.
   */
  predicate IsValidProperty(property: string)
  {
    StartsWith(property, "--")
    || property in CssPropertyNames
    || exists k: nat :: k < |VendorPrefixes| && PrefixedStandard(property, k)
  }

  /** `isValidProperty` with its early returns and its loop over the vendor prefixes. */
  method CheckProperty(property: string) returns (valid: bool)
    ensures valid == IsValidProperty(property)
  {
    if StartsWith(property, "--") {
      return true;
    }
    if property in CssPropertyNames {
      return true;
    }
    valid := CheckVendorPrefixes(property);
  }

  /** The loop of `isValidProperty` over the vendor prefixes. */
  method CheckVendorPrefixes(property: string) returns (found: bool)
    ensures found <==> exists k: nat :: k < |VendorPrefixes| && PrefixedStandard(property, k)
  {
    for k := 0 to |VendorPrefixes|
      invariant forall k': nat :: k' < k ==> !PrefixedStandard(property, k')
    {
      var prefix := VendorPrefixes[k];
      if StartsWith(property, prefix) {
        var unprefixed := property[|prefix|..];
        if unprefixed in CssPropertyNames {
          assert PrefixedStandard(property, k);
          return true;
        }
      }
    }
    return false;
  }

  /** The typo map of `getSimilarProperties`, in declaration order. */
  const TypoTable: seq<(string, string)> := [
    ("colour", "color"), ("bg", "background"), ("bg-color", "background-color"),
    ("z", "z-index"), ("align", "text-align"), ("valign", "vertical-align")]

  /** `typoMap[normalizedInput]` restricted to the map's own entries. */
  function TypoLookup(key: string): Option<string>
  {
    Lookup(TypoTable, key)
  }

  /** `typoMap[normalizedInput]` as written: a plain object lookup, which also sees inherited properties. */
  function TypoLookupAsWritten(key: string): (r: Option<string>)
    ensures TypoLookup(key).Some? ==> r == TypoLookup(key)
  {
    LookupAsWritten(TypoTable, key)
  }

  /** Every correction in the typo map is a standard property. */
  lemma TypoTargetsValid()
    ensures forall i :: 0 <= i < |TypoTable| ==> TypoTable[i].1 in CssPropertyNames
  {
    assert CssPropertyNames[59] == "color" && CssPropertyNames[49] == "background";
    assert CssPropertyNames[50] == "background-color" && CssPropertyNames[6] == "z-index";
    assert CssPropertyNames[70] == "text-align" && CssPropertyNames[75] == "vertical-align";
  }

  /** `getSimilarProperties` with the corrected typo lookup. */
  function SimilarProperties(property: string): seq<string>
  {
    Similar(property, TypoLookup(ToLower(property)), CssPropertyNames, 3)
  }

  /** `getSimilarProperties` as written, with the inherited-property lookup. */
  function SimilarPropertiesAsWritten(property: string): seq<string>
  {
    Similar(property, TypoLookupAsWritten(ToLower(property)), CssPropertyNames, 3)
  }

  /** `getSimilarProperties` (corrected typo lookup). */
  method GetSimilarProperties(property: string) returns (result: seq<string>)
    ensures result == SimilarProperties(property)
  {
    var normalizedInput := ToLower(property);
    result := Suggest(property, TypoLookup(normalizedInput), CssPropertyNames, 3);
  }

  /** Every correction in the typo map, hit by any key, is a standard property. */
  lemma TypoLookupInNames(key: string)
    ensures TypoLookup(key).Some? ==> TypoLookup(key).value in CssPropertyNames
  {
    if TypoLookup(key).Some? {
      TypoTargetsValid();
      var i :| 0 <= i < |TypoTable| && TypoTable[i] == (key, TypoLookup(key).value);
    }
  }

  /** At most three suggestions, all distinct. */
  lemma SimilarPropertiesShape(property: string)
    ensures |SimilarProperties(property)| <= 3
    ensures forall i, j :: 0 <= i < j < |SimilarProperties(property)| ==> SimilarProperties(property)[i] != SimilarProperties(property)[j]
  {
    var typo := TypoLookup(ToLower(property));
    assert SimilarProperties(property) == Similar(property, typo, CssPropertyNames, 3);
    SimilarShape(property, typo, CssPropertyNames, 3);
  }

  /** Every suggestion is a standard property, so by `StandardNamesValid` a valid one. */
  lemma SimilarPropertiesValid(property: string)
    ensures forall s :: s in SimilarProperties(property) ==> s in CssPropertyNames
  {
    var typo := TypoLookup(ToLower(property));
    assert SimilarProperties(property) == Similar(property, typo, CssPropertyNames, 3);
    TypoLookupInNames(ToLower(property));
    SimilarWithin(property, typo, CssPropertyNames, 3);
  }

  /** Every standard property passes `isValidProperty`. */
  lemma StandardNamesValid()
    ensures forall s :: s in CssPropertyNames ==> IsValidProperty(s)
  {
  }

  /** A typo-map hit on the lower-cased input is the first suggestion. */
  lemma TypoComesFirst(property: string, fix: string)
    requires TypoLookup(ToLower(property)) == Some(fix)
    ensures SimilarProperties(property) != [] && SimilarProperties(property)[0] == fix
  {
    assert SimilarProperties(property) == Similar(property, Some(fix), CssPropertyNames, 3);
    TypoFirst(property, fix, CssPropertyNames, 3);
  }

  /** `colour`, `bg` and `bg-color` are in the typo map. */
  lemma KnownTypos()
    ensures ToLower("colour") == "colour" && TypoLookup("colour") == Some("color")
    ensures ToLower("bg") == "bg" && TypoLookup("bg") == Some("background")
    ensures ToLower("bg-color") == "bg-color" && TypoLookup("bg-color") == Some("background-color")
  {
    ToLowerUnchanged("colour");
    ToLowerUnchanged("bg");
    ToLowerUnchanged("bg-color");
    assert TypoTable[1].0 == "bg" && TypoTable[2].0 == "bg-color";
  }

  /** An entry that extends the lower-cased input is a candidate, which is how `Background-Color` reaches `background-color`. */
  lemma PrefixCandidate(property: string, s: string)
    requires s in CssPropertyNames && StartsWith(s, ToLower(property)) && s != property
    ensures |SimilarProperties(property)| == 3 || s in SimilarProperties(property)
  {
    assert SimilarProperties(property) == Similar(property, TypoLookup(ToLower(property)), CssPropertyNames, 3);
    SimilarShape(property, TypoLookup(ToLower(property)), CssPropertyNames, 3);
  }

  /** Any name starting with `--` is valid. */
  lemma CustomPropertyValid(property: string)
    requires StartsWith(property, "--")
    ensures IsValidProperty(property)
  {
  }

  /** `-webkit-transition` is valid through its prefix. */
  lemma PrefixedValid()
    ensures IsValidProperty("-webkit-transition")
  {
    assert "transition" in CssPropertyNames;
    assert "-webkit-transition"[|VendorPrefixes[0]|..] == "transition";
    assert PrefixedStandard("-webkit-transition", 0);
  }

  /** As written, an inherited-property hit is the first suggestion. */
  lemma InheritedComesFirst(property: string, s: string)
    requires TypoLookupAsWritten(ToLower(property)) == Some(s)
    ensures SimilarPropertiesAsWritten(property) != [] && SimilarPropertiesAsWritten(property)[0] == s
  {
    assert SimilarPropertiesAsWritten(property) == Similar(property, Some(s), CssPropertyNames, 3);
    TypoFirst(property, s, CssPropertyNames, 3);
  }

  /**
   * As written, the lookup for `constructor` finds `Object.prototype.constructor`,
   * whose rendering is not one of the map's corrections; by
   * `ConstructorLowerCase` and `InheritedComesFirst` it becomes the first suggestion.
   */
  lemma ConstructorLookupAsWritten()
    ensures TypoLookupAsWritten("constructor") == Some("function Object() { [native code] }")
    ensures TypoLookup("constructor") == None
    ensures forall i :: 0 <= i < |TypoTable| ==> TypoTable[i].1 != "function Object() { [native code] }"
  {
    assert TypoLookup("constructor") == None;
  }
}
