/**
 * The browser-compatibility data (src/utils/browser-compat.ts): four
 * feature maps, one per kind of feature (property, at-rule, pseudo-class,
 * function), each entry carrying a display name, a Baseline status and,
 * for limited-availability features, an alternative; vendor-prefix
 * detection; and `getFeatureStatus`, which classifies a name of a given kind.
 */
module BrowserCompat {
  import opened Wrappers
  import opened Strings

  datatype Status = LimitedAvailability | NewlyAvailable | WidelyAvailable

  /** A `CSSFeature`. */
  datatype Feature = Feature(name: string, status: Status, alternativeSuggestion: Option<string>)

  /** The `type` argument of `getFeatureStatus`. */
  datatype FeatureType = AtRuleFeature | FunctionFeature | PropertyFeature | PseudoClassFeature

  /** No entry of `t` has the key. */
  predicate Absent(t: seq<(string, Feature)>, key: string)
  {
    forall i :: 0 <= i < |t| ==> t[i].0 != key
  }

  /** No entry of `t` from index `k` on has the key. */
  predicate AbsentFrom(t: seq<(string, Feature)>, key: string, k: nat)
  {
    forall j :: k <= j < |t| ==> t[j].0 != key
  }

  /**
   * `map.get(key)` on a `Map` built from `entries`: a later entry with the
   * same key replaces an earlier one, so the value is that of the last
   * entry with the key.
   */
  function MapGet(entries: seq<(string, Feature)>, key: string): (r: Option<Feature>)
  {
    if entries == [] then None
    else if entries[|entries| - 1].0 == key then Some(entries[|entries| - 1].1)
    else MapGet(entries[..|entries| - 1], key)
  }

  lemma {:induction false} MapGetFacts(entries: seq<(string, Feature)>, key: string)
    ensures MapGet(entries, key).None? <==> Absent(entries, key)
    ensures MapGet(entries, key).Some? ==> (key, MapGet(entries, key).value) in entries
  {
    if entries != [] {
      var init := entries[..|entries| - 1];
      MapGetFacts(init, key);
      assert forall j :: 0 <= j < |init| ==> init[j] == entries[j];
    }
  }

  lemma {:induction false} MapGetAppend(a: seq<(string, Feature)>, b: seq<(string, Feature)>, key: string)
    ensures MapGet(a + b, key) == if MapGet(b, key).Some? then MapGet(b, key) else MapGet(a, key)
  {
    if b == [] {
      assert a + b == a;
    } else {
      assert (a + b)[..|a + b| - 1] == a + b[..|b| - 1];
      MapGetAppend(a, b[..|b| - 1], key);
    }
  }

  lemma {:induction false} LastHit(w: seq<(string, Feature)>, k: nat, key: string)
    requires k < |w| && w[k].0 == key
    requires AbsentFrom(w, key, k + 1)
    ensures MapGet(w, key) == Some(w[k].1)
    decreases |w|
  {
    if k + 1 < |w| {
      var init := w[..|w| - 1];
      assert forall j :: k + 1 <= j < |init| ==> init[j] == w[j];
      LastHit(init, k, key);
    }
  }

  lemma LookupBefore(a: seq<(string, Feature)>, b: seq<(string, Feature)>, key: string)
    requires Absent(b, key)
    ensures MapGet(a + b, key) == MapGet(a, key)
  {
    MapGetFacts(b, key);
    MapGetAppend(a, b, key);
  }

  lemma LookupAfter(a: seq<(string, Feature)>, b: seq<(string, Feature)>, key: string)
    requires !Absent(b, key)
    ensures MapGet(a + b, key) == MapGet(b, key)
  {
    MapGetFacts(b, key);
    MapGetAppend(a, b, key);
  }

  const PropertiesWidely1: seq<(string, Feature)> :=
    [("display", Feature("display", WidelyAvailable, None)),
     ("position", Feature("position", WidelyAvailable, None)),
     ("color", Feature("color", WidelyAvailable, None)),
     ("background", Feature("background", WidelyAvailable, None)),
     ("border", Feature("border", WidelyAvailable, None)),
     ("margin", Feature("margin", WidelyAvailable, None)),
     ("padding", Feature("padding", WidelyAvailable, None)),
     ("width", Feature("width", WidelyAvailable, None)),
     ("height", Feature("height", WidelyAvailable, None)),
     ("font-size", Feature("font-size", WidelyAvailable, None)),
     ("flex", Feature("flex", WidelyAvailable, None)),
     ("grid", Feature("grid", WidelyAvailable, None)),
     ("transform", Feature("transform", WidelyAvailable, None)),
     ("transition", Feature("transition", WidelyAvailable, None)),
     ("animation", Feature("animation", WidelyAvailable, None)),
     ("box-shadow", Feature("box-shadow", WidelyAvailable, None)),
     ("border-radius", Feature("border-radius", WidelyAvailable, None)),
     ("opacity", Feature("opacity", WidelyAvailable, None)),
     ("z-index", Feature("z-index", WidelyAvailable, None)),
     ("overflow", Feature("overflow", WidelyAvailable, None))]

  const PropertiesWidely2: seq<(string, Feature)> :=
    [("cursor", Feature("cursor", WidelyAvailable, None)),
     ("pointer-events", Feature("pointer-events", WidelyAvailable, None)),
     ("user-select", Feature("user-select", WidelyAvailable, None)),
     ("object-fit", Feature("object-fit", WidelyAvailable, None)),
     ("object-position", Feature("object-position", WidelyAvailable, None)),
     ("clip-path", Feature("clip-path", WidelyAvailable, None)),
     ("filter", Feature("filter", WidelyAvailable, None)),
     ("backdrop-filter", Feature("backdrop-filter", WidelyAvailable, None)),
     ("mix-blend-mode", Feature("mix-blend-mode", WidelyAvailable, None)),
     ("isolation", Feature("isolation", WidelyAvailable, None)),
     ("will-change", Feature("will-change", WidelyAvailable, None)),
     ("contain", Feature("contain", WidelyAvailable, None)),
     ("touch-action", Feature("touch-action", WidelyAvailable, None)),
     ("grid-template-columns", Feature("grid-template-columns", WidelyAvailable, None)),
     ("grid-template-rows", Feature("grid-template-rows", WidelyAvailable, None)),
     ("grid-template-areas", Feature("grid-template-areas", WidelyAvailable, None)),
     ("grid-column", Feature("grid-column", WidelyAvailable, None)),
     ("grid-row", Feature("grid-row", WidelyAvailable, None)),
     ("gap", Feature("gap", WidelyAvailable, None)),
     ("row-gap", Feature("row-gap", WidelyAvailable, None))]

  const PropertiesWidely3: seq<(string, Feature)> :=
    [("column-gap", Feature("column-gap", WidelyAvailable, None)),
     ("flex-direction", Feature("flex-direction", WidelyAvailable, None)),
     ("flex-wrap", Feature("flex-wrap", WidelyAvailable, None)),
     ("justify-content", Feature("justify-content", WidelyAvailable, None)),
     ("align-items", Feature("align-items", WidelyAvailable, None)),
     ("align-self", Feature("align-self", WidelyAvailable, None)),
     ("flex-grow", Feature("flex-grow", WidelyAvailable, None)),
     ("flex-shrink", Feature("flex-shrink", WidelyAvailable, None)),
     ("flex-basis", Feature("flex-basis", WidelyAvailable, None))]

  const PropertiesCustom: seq<(string, Feature)> :=
    [("--*", Feature("CSS Custom Properties", WidelyAvailable, None))]

  const PropertiesNewly1: seq<(string, Feature)> :=
    [("container", Feature("container", NewlyAvailable, None)),
     ("container-type", Feature("container-type", NewlyAvailable, None)),
     ("container-name", Feature("container-name", NewlyAvailable, None)),
     ("aspect-ratio", Feature("aspect-ratio", NewlyAvailable, None)),
     ("content-visibility", Feature("content-visibility", NewlyAvailable, None)),
     ("contain-intrinsic-size", Feature("contain-intrinsic-size", NewlyAvailable, None)),
     ("overscroll-behavior", Feature("overscroll-behavior", NewlyAvailable, None)),
     ("scroll-behavior", Feature("scroll-behavior", NewlyAvailable, None)),
     ("scroll-snap-type", Feature("scroll-snap-type", NewlyAvailable, None)),
     ("scroll-snap-align", Feature("scroll-snap-align", NewlyAvailable, None)),
     ("accent-color", Feature("accent-color", NewlyAvailable, None)),
     ("color-scheme", Feature("color-scheme", NewlyAvailable, None)),
     ("forced-color-adjust", Feature("forced-color-adjust", NewlyAvailable, None)),
     ("print-color-adjust", Feature("print-color-adjust", NewlyAvailable, None)),
     ("place-content", Feature("place-content", NewlyAvailable, None)),
     ("place-items", Feature("place-items", NewlyAvailable, None)),
     ("place-self", Feature("place-self", NewlyAvailable, None)),
     ("overflow-anchor", Feature("overflow-anchor", NewlyAvailable, None)),
     ("overscroll-behavior-x", Feature("overscroll-behavior-x", NewlyAvailable, None)),
     ("overscroll-behavior-y", Feature("overscroll-behavior-y", NewlyAvailable, None))]

  const PropertiesNewly2: seq<(string, Feature)> :=
    [("text-decoration-thickness", Feature("text-decoration-thickness", NewlyAvailable, None)),
     ("text-underline-offset", Feature("text-underline-offset", NewlyAvailable, None)),
     ("text-decoration-skip-ink", Feature("text-decoration-skip-ink", NewlyAvailable, None))]

  const PropertiesLimited1: seq<(string, Feature)> :=
    [("anchor-name", Feature("anchor-name", LimitedAvailability, Some("Use absolute positioning or JavaScript for anchor positioning"))),
     ("position-anchor", Feature("position-anchor", LimitedAvailability, Some("Use absolute positioning or JavaScript for anchor positioning"))),
     ("anchor-size", Feature("anchor-size", LimitedAvailability, Some("Use JavaScript to calculate sizes"))),
     ("position-try", Feature("position-try", LimitedAvailability, Some("Use JavaScript for dynamic positioning"))),
     ("position-try-order", Feature("position-try-order", LimitedAvailability, Some("Use JavaScript for dynamic positioning"))),
     ("position-try-options", Feature("position-try-options", LimitedAvailability, Some("Use JavaScript for dynamic positioning"))),
     ("animation-timeline", Feature("animation-timeline", LimitedAvailability, Some("Use JavaScript-based scroll animations"))),
     ("animation-range", Feature("animation-range", LimitedAvailability, Some("Use JavaScript-based scroll animations"))),
     ("animation-range-start", Feature("animation-range-start", LimitedAvailability, Some("Use JavaScript-based scroll animations"))),
     ("animation-range-end", Feature("animation-range-end", LimitedAvailability, Some("Use JavaScript-based scroll animations"))),
     ("timeline-scope", Feature("timeline-scope", LimitedAvailability, Some("Use JavaScript-based animations"))),
     ("view-timeline", Feature("view-timeline", LimitedAvailability, Some("Use Intersection Observer API"))),
     ("view-timeline-name", Feature("view-timeline-name", LimitedAvailability, Some("Use Intersection Observer API"))),
     ("view-timeline-axis", Feature("view-timeline-axis", LimitedAvailability, Some("Use Intersection Observer API"))),
     ("view-timeline-inset", Feature("view-timeline-inset", LimitedAvailability, Some("Use Intersection Observer API"))),
     ("scroll-timeline", Feature("scroll-timeline", LimitedAvailability, Some("Use JavaScript scroll event listeners"))),
     ("scroll-timeline-name", Feature("scroll-timeline-name", LimitedAvailability, Some("Use JavaScript scroll event listeners"))),
     ("scroll-timeline-axis", Feature("scroll-timeline-axis", LimitedAvailability, Some("Use JavaScript scroll event listeners"))),
     ("view-transition-name", Feature("view-transition-name", LimitedAvailability, Some("Use CSS animations or JavaScript transitions"))),
     ("view-transition-class", Feature("view-transition-class", LimitedAvailability, Some("Use CSS animations or JavaScript transitions")))]

  const PropertiesLimited2: seq<(string, Feature)> :=
    [("overlay", Feature("overlay", LimitedAvailability, Some("Use z-index for layering"))),
     ("field-sizing", Feature("field-sizing", LimitedAvailability, Some("Use width and height properties")))]

  /** The entries after the `--*` entry. */
  const PropertiesAfterCustom: seq<(string, Feature)> :=
    PropertiesNewly1 + (PropertiesNewly2 + (PropertiesLimited1 + PropertiesLimited2))

  const PropertiesTable: seq<(string, Feature)> :=
    PropertiesWidely1 + (PropertiesWidely2 + (PropertiesWidely3 + (PropertiesCustom + PropertiesAfterCustom)))

  const AtRuleFeaturesWidely: seq<(string, Feature)> :=
    [("@import", Feature("@import", WidelyAvailable, None)),
     ("@media", Feature("@media", WidelyAvailable, None)),
     ("@supports", Feature("@supports", WidelyAvailable, None)),
     ("@keyframes", Feature("@keyframes", WidelyAvailable, None)),
     ("@font-face", Feature("@font-face", WidelyAvailable, None)),
     ("@page", Feature("@page", WidelyAvailable, None)),
     ("@namespace", Feature("@namespace", WidelyAvailable, None)),
     ("@charset", Feature("@charset", WidelyAvailable, None)),
     ("@property", Feature("@property", WidelyAvailable, None))]

  const AtRuleFeaturesNewly: seq<(string, Feature)> :=
    [("@layer", Feature("@layer", NewlyAvailable, None)),
     ("@container", Feature("@container", NewlyAvailable, None)),
     ("@scope", Feature("@scope", NewlyAvailable, None))]

  const AtRuleFeaturesLimited: seq<(string, Feature)> :=
    [("@starting-style", Feature("@starting-style", LimitedAvailability, Some("Use CSS animations with from/to keyframes"))),
     ("@position-try", Feature("@position-try", LimitedAvailability, Some("Use JavaScript for dynamic positioning"))),
     ("@view-transition", Feature("@view-transition", LimitedAvailability, Some("Use CSS animations or JavaScript transitions")))]

  const AtRuleFeaturesTable: seq<(string, Feature)> :=
    AtRuleFeaturesWidely + (AtRuleFeaturesNewly + AtRuleFeaturesLimited)

  const PseudoClassesWidely: seq<(string, Feature)> :=
    [(":hover", Feature(":hover", WidelyAvailable, None)),
     (":active", Feature(":active", WidelyAvailable, None)),
     (":focus", Feature(":focus", WidelyAvailable, None)),
     (":visited", Feature(":visited", WidelyAvailable, None)),
     (":link", Feature(":link", WidelyAvailable, None)),
     (":first-child", Feature(":first-child", WidelyAvailable, None)),
     (":last-child", Feature(":last-child", WidelyAvailable, None)),
     (":nth-child", Feature(":nth-child", WidelyAvailable, None)),
     (":nth-of-type", Feature(":nth-of-type", WidelyAvailable, None)),
     (":not", Feature(":not", WidelyAvailable, None)),
     (":disabled", Feature(":disabled", WidelyAvailable, None)),
     (":checked", Feature(":checked", WidelyAvailable, None)),
     (":target", Feature(":target", WidelyAvailable, None)),
     (":root", Feature(":root", WidelyAvailable, None)),
     (":empty", Feature(":empty", WidelyAvailable, None))]

  const PseudoClassesNewly: seq<(string, Feature)> :=
    [(":is", Feature(":is", NewlyAvailable, None)),
     (":where", Feature(":where", NewlyAvailable, None)),
     (":has", Feature(":has", NewlyAvailable, None)),
     (":focus-visible", Feature(":focus-visible", NewlyAvailable, None)),
     (":focus-within", Feature(":focus-within", NewlyAvailable, None)),
     (":placeholder-shown", Feature(":placeholder-shown", NewlyAvailable, None))]

  const PseudoClassesLimited: seq<(string, Feature)> :=
    [(":user-valid", Feature(":user-valid", LimitedAvailability, Some("Use :valid with JavaScript validation"))),
     (":user-invalid", Feature(":user-invalid", LimitedAvailability, Some("Use :invalid with JavaScript validation"))),
     (":popover-open", Feature(":popover-open", LimitedAvailability, Some("Use class-based state management"))),
     (":state", Feature(":state", LimitedAvailability, Some("Use class-based state management")))]

  const PseudoClassesTable: seq<(string, Feature)> :=
    PseudoClassesWidely + (PseudoClassesNewly + PseudoClassesLimited)

  const FunctionsWidely1: seq<(string, Feature)> :=
    [("calc", Feature("calc()", WidelyAvailable, None)),
     ("var", Feature("var()", WidelyAvailable, None)),
     ("url", Feature("url()", WidelyAvailable, None)),
     ("rgb", Feature("rgb()", WidelyAvailable, None)),
     ("rgba", Feature("rgba()", WidelyAvailable, None)),
     ("hsl", Feature("hsl()", WidelyAvailable, None)),
     ("hsla", Feature("hsla()", WidelyAvailable, None)),
     ("linear-gradient", Feature("linear-gradient()", WidelyAvailable, None)),
     ("radial-gradient", Feature("radial-gradient()", WidelyAvailable, None)),
     ("conic-gradient", Feature("conic-gradient()", WidelyAvailable, None)),
     ("rotate", Feature("rotate()", WidelyAvailable, None)),
     ("scale", Feature("scale()", WidelyAvailable, None)),
     ("translate", Feature("translate()", WidelyAvailable, None)),
     ("matrix", Feature("matrix()", WidelyAvailable, None)),
     ("cubic-bezier", Feature("cubic-bezier()", WidelyAvailable, None)),
     ("steps", Feature("steps()", WidelyAvailable, None)),
     ("blur", Feature("blur()", WidelyAvailable, None)),
     ("brightness", Feature("brightness()", WidelyAvailable, None)),
     ("contrast", Feature("contrast()", WidelyAvailable, None)),
     ("grayscale", Feature("grayscale()", WidelyAvailable, None))]

  const FunctionsWidely2: seq<(string, Feature)> :=
    [("invert", Feature("invert()", WidelyAvailable, None)),
     ("opacity", Feature("opacity()", WidelyAvailable, None)),
     ("saturate", Feature("saturate()", WidelyAvailable, None)),
     ("sepia", Feature("sepia()", WidelyAvailable, None)),
     ("drop-shadow", Feature("drop-shadow()", WidelyAvailable, None)),
     ("minmax", Feature("minmax()", WidelyAvailable, None)),
     ("repeat", Feature("repeat()", WidelyAvailable, None)),
     ("fit-content", Feature("fit-content()", WidelyAvailable, None)),
     ("clamp", Feature("clamp()", WidelyAvailable, None)),
     ("min", Feature("min()", WidelyAvailable, None)),
     ("max", Feature("max()", WidelyAvailable, None)),
     ("env", Feature("env()", WidelyAvailable, None)),
     ("attr", Feature("attr()", WidelyAvailable, None))]

  const FunctionsNewly1: seq<(string, Feature)> :=
    [("hwb", Feature("hwb()", NewlyAvailable, None)),
     ("lab", Feature("lab()", NewlyAvailable, None)),
     ("lch", Feature("lch()", NewlyAvailable, None)),
     ("oklab", Feature("oklab()", NewlyAvailable, None)),
     ("oklch", Feature("oklch()", NewlyAvailable, None)),
     ("color", Feature("color()", NewlyAvailable, None)),
     ("color-mix", Feature("color-mix()", NewlyAvailable, None)),
     ("sin", Feature("sin()", NewlyAvailable, None)),
     ("cos", Feature("cos()", NewlyAvailable, None)),
     ("tan", Feature("tan()", NewlyAvailable, None)),
     ("asin", Feature("asin()", NewlyAvailable, None)),
     ("acos", Feature("acos()", NewlyAvailable, None)),
     ("atan", Feature("atan()", NewlyAvailable, None)),
     ("atan2", Feature("atan2()", NewlyAvailable, None)),
     ("pow", Feature("pow()", NewlyAvailable, None)),
     ("sqrt", Feature("sqrt()", NewlyAvailable, None)),
     ("hypot", Feature("hypot()", NewlyAvailable, None)),
     ("log", Feature("log()", NewlyAvailable, None)),
     ("exp", Feature("exp()", NewlyAvailable, None)),
     ("abs", Feature("abs()", NewlyAvailable, None))]

  const FunctionsNewly2: seq<(string, Feature)> :=
    [("sign", Feature("sign()", NewlyAvailable, None)),
     ("round", Feature("round()", NewlyAvailable, None)),
     ("mod", Feature("mod()", NewlyAvailable, None)),
     ("rem", Feature("rem()", NewlyAvailable, None))]

  const FunctionsLimited: seq<(string, Feature)> :=
    [("anchor", Feature("anchor()", LimitedAvailability, Some("Use JavaScript for dynamic positioning"))),
     ("anchor-size", Feature("anchor-size()", LimitedAvailability, Some("Use JavaScript to calculate sizes"))),
     ("toggle", Feature("toggle()", LimitedAvailability, Some("Use CSS custom properties with JavaScript"))),
     ("sibling-count", Feature("sibling-count()", LimitedAvailability, Some("Use JavaScript to count siblings"))),
     ("sibling-index", Feature("sibling-index()", LimitedAvailability, Some("Use JavaScript to get element index")))]

  const FunctionsTable: seq<(string, Feature)> :=
    FunctionsWidely1 + (FunctionsWidely2 + (FunctionsNewly1 + (FunctionsNewly2 + FunctionsLimited)))

  /** The four tables by kind. */
  function TableOf(t: FeatureType): seq<(string, Feature)>
  {
    match t
    case PropertyFeature => PropertiesTable
    case AtRuleFeature => AtRuleFeaturesTable
    case PseudoClassFeature => PseudoClassesTable
    case FunctionFeature => FunctionsTable
  }

  // ---------------------------------------------------------------------
  // Vendor prefixes

  /** The alternatives of `^-(webkit|moz|ms|o)-`, in order. */
  const VendorPrefixes: seq<string> := ["-webkit-", "-moz-", "-ms-", "-o-"]

  /** `hasVendorPrefix`: `^-(webkit|moz|ms|o)-` matches. */
  predicate HasVendorPrefix(property: string)
  {
    StartsWith(property, "-webkit-") || StartsWith(property, "-moz-")
    || StartsWith(property, "-ms-") || StartsWith(property, "-o-")
  }

  /** A name that does not start with `-` has no vendor prefix. */
  lemma NoVendorPrefix(name: string)
    requires name != [] && name[0] != '-'
    ensures !HasVendorPrefix(name)
  {
  }

  /** `getVendorPrefix`: the text the regular expression matches, tried in alternation order. */
  function GetVendorPrefix(property: string): (r: Option<string>)
    ensures r.Some? <==> HasVendorPrefix(property)
    ensures r.Some? <==> exists p :: p in VendorPrefixes && StartsWith(property, p)
    ensures r.Some? ==> r.value in VendorPrefixes && StartsWith(property, r.value)
  {
    if StartsWith(property, "-webkit-") then Some("-webkit-")
    else if StartsWith(property, "-moz-") then Some("-moz-")
    else if StartsWith(property, "-ms-") then Some("-ms-")
    else if StartsWith(property, "-o-") then Some("-o-")
    else None
  }

  /** The alternatives exclude each other, so the prefix is the one the name starts with, whichever the order. */
  lemma VendorPrefixUnique(property: string, p: string)
    requires p in VendorPrefixes && StartsWith(property, p)
    ensures GetVendorPrefix(property) == Some(p)
  {
    assert property[0] == '-';
    if p == "-moz-" {
      assert property[1] == 'm' && property[2] == 'o';
    } else if p == "-ms-" {
      assert property[1] == 'm' && property[2] == 's';
    } else if p == "-o-" {
      assert property[1] == 'o';
    }
  }

  // ---------------------------------------------------------------------
  // getFeatureStatus

  /** The synthetic entry for a vendor-prefixed name: limited availability, pointing at the unprefixed name. */
  function PrefixedFeature(name: string, unprefixed: string): Feature
  {
    Feature(name, LimitedAvailability, Some("Use standard '" + unprefixed + "' property instead of vendor prefix"))
  }

  /**
   * `getFeatureStatus`: a vendor prefix first (for every kind), then a
   * custom property (`--*`), then the lookup in the table of that kind.
   */
  function GetFeatureStatus(name: string, t: FeatureType): Option<Feature>
  {
    var prefix := GetVendorPrefix(name);
    if prefix.Some? then Some(PrefixedFeature(name, name[|prefix.value|..]))
    else if t == PropertyFeature && StartsWith(name, "--") then MapGet(PropertiesTable, "--*")
    else MapGet(TableOf(t), name)
  }

  /** A vendor-prefixed name of any kind is of limited availability, with the unprefixed name as the alternative; no table is consulted. */
  lemma VendorPrefixFirst(name: string, t: FeatureType, p: string)
    requires p in VendorPrefixes && StartsWith(name, p)
    ensures GetFeatureStatus(name, t) == Some(PrefixedFeature(name, name[|p|..]))
  {
    VendorPrefixUnique(name, p);
  }

  // ---------------------------------------------------------------------
  // The shape of the tables

  /** Every limited-availability entry carries an alternative. */
  predicate Suggests(e: (string, Feature))
  {
    e.1.status == LimitedAvailability ==> e.1.alternativeSuggestion.Some?
  }

  /** The display name is the key followed by `suffix`. */
  predicate NamedAs(e: (string, Feature), suffix: string)
  {
    e.1.name == e.0 + suffix
  }

  /** A property entry other than `--*` is named by its key, which starts with a lower-case letter. */
  predicate PropertyEntry(e: (string, Feature))
  {
    Suggests(e) && (e.0 != "--*" ==> NamedAs(e, "") && e.0 != [] && 'a' <= e.0[0] <= 'z')
  }

  predicate PlainEntry(e: (string, Feature))
  {
    Suggests(e) && NamedAs(e, "")
  }

  predicate FunctionEntry(e: (string, Feature))
  {
    Suggests(e) && NamedAs(e, "()")
  }

  predicate Every(t: seq<(string, Feature)>, p: ((string, Feature)) -> bool)
  {
    forall i :: 0 <= i < |t| ==> p(t[i])
  }

  lemma EveryAppend(a: seq<(string, Feature)>, b: seq<(string, Feature)>, p: ((string, Feature)) -> bool)
    requires Every(a, p) && Every(b, p)
    ensures Every(a + b, p)
  {
    forall i | 0 <= i < |a + b| ensures p((a + b)[i]) {
      if i >= |a| {
        assert (a + b)[i] == b[i - |a|];
      }
    }
  }

  /** The element at an index satisfies what every element satisfies. */
  lemma EveryAt(t: seq<(string, Feature)>, p: ((string, Feature)) -> bool, key: string, f: Feature)
    requires Every(t, p) && (key, f) in t
    ensures p((key, f))
  {
    var i :| 0 <= i < |t| && t[i] == (key, f);
  }

  lemma PropertiesWidely1Shape()
    ensures Every(PropertiesWidely1, PropertyEntry)
  {
  }

  lemma PropertiesWidely2Shape()
    ensures Every(PropertiesWidely2, PropertyEntry)
  {
  }

  lemma PropertiesWidely3Shape()
    ensures Every(PropertiesWidely3, PropertyEntry)
  {
  }

  lemma PropertiesCustomShape()
    ensures Every(PropertiesCustom, PropertyEntry)
  {
  }

  lemma PropertiesNewly1Shape()
    ensures Every(PropertiesNewly1, PropertyEntry)
  {
  }

  lemma PropertiesNewly2Shape()
    ensures Every(PropertiesNewly2, PropertyEntry)
  {
  }

  lemma PropertiesLimited1Shape()
    ensures Every(PropertiesLimited1, PropertyEntry)
  {
  }

  lemma PropertiesLimited2Shape()
    ensures Every(PropertiesLimited2, PropertyEntry)
  {
  }

  lemma AtRuleFeaturesWidelyShape()
    ensures Every(AtRuleFeaturesWidely, PlainEntry)
  {
  }

  lemma AtRuleFeaturesNewlyShape()
    ensures Every(AtRuleFeaturesNewly, PlainEntry)
  {
  }

  lemma AtRuleFeaturesLimitedShape()
    ensures Every(AtRuleFeaturesLimited, PlainEntry)
  {
  }

  lemma PseudoClassesWidelyShape()
    ensures Every(PseudoClassesWidely, PlainEntry)
  {
  }

  lemma PseudoClassesNewlyShape()
    ensures Every(PseudoClassesNewly, PlainEntry)
  {
  }

  lemma PseudoClassesLimitedShape()
    ensures Every(PseudoClassesLimited, PlainEntry)
  {
  }

  lemma FunctionsWidely1Shape()
    ensures Every(FunctionsWidely1, FunctionEntry)
  {
  }

  lemma FunctionsWidely2Shape()
    ensures Every(FunctionsWidely2, FunctionEntry)
  {
  }

  lemma FunctionsNewly1Shape()
    ensures Every(FunctionsNewly1, FunctionEntry)
  {
  }

  lemma FunctionsNewly2Shape()
    ensures Every(FunctionsNewly2, FunctionEntry)
  {
  }

  lemma FunctionsLimitedShape()
    ensures Every(FunctionsLimited, FunctionEntry)
  {
  }

  /** Every property entry but `--*` is named by its key, and every limited one has an alternative. */
  lemma PropertiesShape()
    ensures Every(PropertiesTable, PropertyEntry)
  {
    PropertiesCustomShape();
    PropertiesLaterShape();
    EveryAppend(PropertiesCustom, PropertiesAfterCustom, PropertyEntry);
    PropertiesWidely3Shape();
    EveryAppend(PropertiesWidely3, PropertiesCustom + PropertiesAfterCustom, PropertyEntry);
    PropertiesWidely2Shape();
    EveryAppend(PropertiesWidely2, PropertiesWidely3 + (PropertiesCustom + PropertiesAfterCustom), PropertyEntry);
    PropertiesWidely1Shape();
    EveryAppend(PropertiesWidely1, PropertiesWidely2 + (PropertiesWidely3 + (PropertiesCustom + PropertiesAfterCustom)), PropertyEntry);
  }

  lemma PropertiesLaterShape()
    ensures Every(PropertiesAfterCustom, PropertyEntry)
  {
    PropertiesLimited1Shape();
    PropertiesLimited2Shape();
    EveryAppend(PropertiesLimited1, PropertiesLimited2, PropertyEntry);
    PropertiesNewly2Shape();
    EveryAppend(PropertiesNewly2, PropertiesLimited1 + PropertiesLimited2, PropertyEntry);
    PropertiesNewly1Shape();
    EveryAppend(PropertiesNewly1, PropertiesNewly2 + (PropertiesLimited1 + PropertiesLimited2), PropertyEntry);
  }

  /** Every at-rule entry is named by its key, and every limited one has an alternative. */
  lemma AtRulesShape()
    ensures Every(AtRuleFeaturesTable, PlainEntry)
  {
    AtRuleFeaturesNewlyShape();
    AtRuleFeaturesLimitedShape();
    EveryAppend(AtRuleFeaturesNewly, AtRuleFeaturesLimited, PlainEntry);
    AtRuleFeaturesWidelyShape();
    EveryAppend(AtRuleFeaturesWidely, AtRuleFeaturesNewly + AtRuleFeaturesLimited, PlainEntry);
  }

  /** Every pseudo-class entry is named by its key, and every limited one has an alternative. */
  lemma PseudoClassesShape()
    ensures Every(PseudoClassesTable, PlainEntry)
  {
    PseudoClassesNewlyShape();
    PseudoClassesLimitedShape();
    EveryAppend(PseudoClassesNewly, PseudoClassesLimited, PlainEntry);
    PseudoClassesWidelyShape();
    EveryAppend(PseudoClassesWidely, PseudoClassesNewly + PseudoClassesLimited, PlainEntry);
  }

  /** Every function entry is named by its key and `()`, and every limited one has an alternative. */
  lemma FunctionsShape()
    ensures Every(FunctionsTable, FunctionEntry)
  {
    FunctionsNewly2Shape();
    FunctionsLimitedShape();
    EveryAppend(FunctionsNewly2, FunctionsLimited, FunctionEntry);
    FunctionsNewly1Shape();
    EveryAppend(FunctionsNewly1, FunctionsNewly2 + FunctionsLimited, FunctionEntry);
    FunctionsWidely2Shape();
    EveryAppend(FunctionsWidely2, FunctionsNewly1 + (FunctionsNewly2 + FunctionsLimited), FunctionEntry);
    FunctionsWidely1Shape();
    EveryAppend(FunctionsWidely1, FunctionsWidely2 + (FunctionsNewly1 + (FunctionsNewly2 + FunctionsLimited)), FunctionEntry);
  }

  // ---------------------------------------------------------------------
  // What getFeatureStatus returns

  /** The entry every name starting with `--` resolves to as a property. */
  const CustomProperties: Feature := Feature("CSS Custom Properties", WidelyAvailable, None)

  lemma AbsentAppend(a: seq<(string, Feature)>, b: seq<(string, Feature)>, key: string)
    requires Absent(a, key) && Absent(b, key)
    ensures Absent(a + b, key)
  {
    forall i | 0 <= i < |a + b| ensures (a + b)[i].0 != key {
      if i >= |a| {
        assert (a + b)[i] == b[i - |a|];
      }
    }
  }

  /** No standard property key starts with `-`, so no key after the `--*` entry is `--*`, and the lookup finds that entry. */
  lemma CustomEntry()
    ensures MapGet(PropertiesTable, "--*") == Some(CustomProperties)
  {
    var tail := PropertiesAfterCustom;
    PropertiesLaterShape();
    forall i | 0 <= i < |tail| ensures tail[i].0 != "--*" {
      assert PropertyEntry(tail[i]);
    }
    LookupBefore(PropertiesCustom, tail, "--*");
    LastHit(PropertiesCustom, 0, "--*");
    var r3 := PropertiesCustom + tail;
    MapGetAppend(PropertiesWidely3, r3, "--*");
    MapGetAppend(PropertiesWidely2, PropertiesWidely3 + r3, "--*");
    MapGetAppend(PropertiesWidely1, PropertiesWidely2 + (PropertiesWidely3 + r3), "--*");
  }

  /** A property starting with `--` is the widely-available custom property, whatever follows. */
  lemma CustomPropertyStatus(name: string)
    requires StartsWith(name, "--")
    ensures GetFeatureStatus(name, PropertyFeature) == Some(CustomProperties)
  {
    assert name[1] == '-';
    CustomEntry();
  }

  /** The kinds do not share a namespace: `color` is a widely-available property ... */
  lemma ColorPropertyStatus()
    ensures GetFeatureStatus("color", PropertyFeature) == Some(Feature("color", WidelyAvailable, None))
  {
    NoVendorPrefix("color");
    assert GetVendorPrefix("color") == None;
    assert GetFeatureStatus("color", PropertyFeature) == MapGet(PropertiesTable, "color") by {
      assert "color"[0] != '-';
    }
    ColorProperty();
  }

  /** ... but a newly-available function, named `color()`. */
  lemma ColorFunctionStatus()
    ensures GetFeatureStatus("color", FunctionFeature) == Some(Feature("color()", NewlyAvailable, None))
  {
    NoVendorPrefix("color");
    assert GetVendorPrefix("color") == None;
    assert GetFeatureStatus("color", FunctionFeature) == MapGet(FunctionsTable, "color") by {
      assert "color"[0] != '-';
    }
    ColorFunction();
  }

  lemma ColorAbsentWidely()
    ensures Absent(PropertiesWidely2, "color") && Absent(PropertiesWidely3, "color") && Absent(PropertiesCustom, "color")
  {
  }

  lemma ColorAbsentNewly()
    ensures Absent(PropertiesNewly1, "color") && Absent(PropertiesNewly2, "color")
  {
  }

  lemma ColorAbsentLimited()
    ensures Absent(PropertiesLimited1, "color") && Absent(PropertiesLimited2, "color")
  {
  }

  /** `color` is the third widely-available property, and no later entry has that key. */
  lemma ColorProperty()
    ensures MapGet(PropertiesTable, "color") == Some(Feature("color", WidelyAvailable, None))
  {
    var key := "color";
    var w := PropertiesWidely1;
    assert w[2] == (key, Feature("color", WidelyAvailable, None));
    assert forall j :: 3 <= j < |w| ==> w[j].0 != key;
    LastHit(w, 2, key);
    ColorAbsentWidely();
    ColorAbsentNewly();
    ColorAbsentLimited();
    AbsentAppend(PropertiesLimited1, PropertiesLimited2, key);
    AbsentAppend(PropertiesNewly2, PropertiesLimited1 + PropertiesLimited2, key);
    AbsentAppend(PropertiesNewly1, PropertiesNewly2 + (PropertiesLimited1 + PropertiesLimited2), key);
    var r3 := PropertiesCustom + PropertiesAfterCustom;
    AbsentAppend(PropertiesCustom, PropertiesAfterCustom, key);
    AbsentAppend(PropertiesWidely3, r3, key);
    AbsentAppend(PropertiesWidely2, PropertiesWidely3 + r3, key);
    LookupBefore(w, PropertiesWidely2 + (PropertiesWidely3 + r3), key);
  }

  lemma ColorAbsentLaterFunctions()
    ensures Absent(FunctionsNewly2, "color") && Absent(FunctionsLimited, "color")
  {
  }

  /** `color` is the sixth newly-available function, and no later entry has that key. */
  lemma ColorFunction()
    ensures MapGet(FunctionsTable, "color") == Some(Feature("color()", NewlyAvailable, None))
  {
    var key := "color";
    var n := FunctionsNewly1;
    assert n[5] == (key, Feature("color()", NewlyAvailable, None));
    assert forall j :: 6 <= j < |n| ==> n[j].0 != key;
    LastHit(n, 5, key);
    ColorAbsentLaterFunctions();
    AbsentAppend(FunctionsNewly2, FunctionsLimited, key);
    LookupBefore(n, FunctionsNewly2 + FunctionsLimited, key);
    MapGetAppend(FunctionsWidely2, n + (FunctionsNewly2 + FunctionsLimited), key);
    MapGetAppend(FunctionsWidely1, FunctionsWidely2 + (n + (FunctionsNewly2 + FunctionsLimited)), key);
  }

  /** Outside the prefix and custom-property cases, a name is classified iff its table has it as a key. */
  lemma TableLookup(name: string, t: FeatureType)
    requires !HasVendorPrefix(name) && !(t == PropertyFeature && StartsWith(name, "--"))
    ensures GetFeatureStatus(name, t).Some? <==> exists i :: 0 <= i < |TableOf(t)| && TableOf(t)[i].0 == name
    ensures GetFeatureStatus(name, t).Some? ==> (name, GetFeatureStatus(name, t).value) in TableOf(t)
  {
    MapGetFacts(TableOf(t), name);
  }

  /** The name a classified feature carries: the prefixed name, the custom-property name, or the key (with `()` for a function). */
  function DisplayName(name: string, t: FeatureType): string
  {
    if HasVendorPrefix(name) then name
    else if t == PropertyFeature && StartsWith(name, "--") then "CSS Custom Properties"
    else if t == FunctionFeature then name + "()"
    else name
  }

  /** Every classified feature carries its display name, and a limited one always carries an alternative. */
  lemma FeatureShape(name: string, t: FeatureType)
    ensures GetFeatureStatus(name, t).Some? ==> GetFeatureStatus(name, t).value.name == DisplayName(name, t)
    ensures GetFeatureStatus(name, t).Some? && GetFeatureStatus(name, t).value.status == LimitedAvailability
      ==> GetFeatureStatus(name, t).value.alternativeSuggestion.Some?
  {
    if !HasVendorPrefix(name) {
      if t == PropertyFeature && StartsWith(name, "--") {
        CustomPropertyStatus(name);
      } else {
        TableFeatureShape(name, t);
      }
    }
  }

  /** The same, for a name looked up in its table. */
  lemma TableFeatureShape(name: string, t: FeatureType)
    requires !HasVendorPrefix(name) && !(t == PropertyFeature && StartsWith(name, "--"))
    ensures GetFeatureStatus(name, t).Some? ==> GetFeatureStatus(name, t).value.name == DisplayName(name, t)
    ensures GetFeatureStatus(name, t).Some? && GetFeatureStatus(name, t).value.status == LimitedAvailability
      ==> GetFeatureStatus(name, t).value.alternativeSuggestion.Some?
  {
    var r := GetFeatureStatus(name, t);
    if r.Some? {
      TableLookup(name, t);
      match t
      case PropertyFeature =>
        PropertiesShape();
        EveryAt(PropertiesTable, PropertyEntry, name, r.value);
      case AtRuleFeature =>
        AtRulesShape();
        EveryAt(AtRuleFeaturesTable, PlainEntry, name, r.value);
      case PseudoClassFeature =>
        PseudoClassesShape();
        EveryAt(PseudoClassesTable, PlainEntry, name, r.value);
      case FunctionFeature =>
        FunctionsShape();
        EveryAt(FunctionsTable, FunctionEntry, name, r.value);
    }
  }
}
