/**
 * The suggestion pipeline shared by `getSimilarAtRules` and
 * `getSimilarProperties`: push the typo-map hit, then every vocabulary entry
 * that starts with the lower-cased input, then the entries within the edit
 * distance bound; then deduplicate and keep the first three.
 */
module Suggestions {
  import opened Wrappers
  import opened Strings
  import opened Levenshtein

  /** The vocabulary entries, in order, that start with `normalized` and differ from `name`. */
  function PrefixMatches(vocabulary: seq<string>, normalized: string, name: string): (r: seq<string>)
    ensures forall c :: c in r <==> c in vocabulary && StartsWith(c, normalized) && c != name
  {
    if vocabulary == [] then []
    else
      var last := vocabulary[|vocabulary| - 1];
      PrefixMatches(vocabulary[..|vocabulary| - 1], normalized, name)
      + (if StartsWith(last, normalized) && last != name then [last] else [])
  }

  /** The suggestions in push order. */
  function Candidates(name: string, typo: Option<string>, vocabulary: seq<string>, maxDistance: nat): seq<string>
  {
    (if typo.Some? then [typo.value] else [])
    + PrefixMatches(vocabulary, ToLower(name), name)
    + FindSimilarStrings(name, vocabulary, maxDistance)
  }

  /** `[...new Set(suggestions)].slice(0, 3)`. */
  function Similar(name: string, typo: Option<string>, vocabulary: seq<string>, maxDistance: nat): seq<string>
  {
    Take(Dedupe(Candidates(name, typo, vocabulary, maxDistance)), 3)
  }

  /** The pipeline, with the prefix loop pushing into `suggestions`. */
  method Suggest(name: string, typo: Option<string>, vocabulary: seq<string>, maxDistance: nat) returns (result: seq<string>)
    ensures result == Similar(name, typo, vocabulary, maxDistance)
  {
    var suggestions: seq<string> := [];
    var normalized := ToLower(name);
    if typo.Some? {
      suggestions := suggestions + [typo.value];
    }
    ghost var head := suggestions;
    assert head == if typo.Some? then [typo.value] else [];
    for i := 0 to |vocabulary|
      invariant suggestions == head + PrefixMatches(vocabulary[..i], normalized, name)
    {
      var entry := vocabulary[i];
      assert vocabulary[..i + 1][..i] == vocabulary[..i];
      if StartsWith(entry, normalized) && entry != name {
        suggestions := suggestions + [entry];
      }
    }
    assert vocabulary[..|vocabulary|] == vocabulary;
    var similar := FindSimilarStrings(name, vocabulary, maxDistance);
    suggestions := suggestions + similar;
    result := Take(Dedupe(suggestions), 3);
  }

  /** Why a vocabulary entry may be suggested: it extends the lower-cased input, or it is close to it. */
  predicate Related(name: string, s: string, maxDistance: nat)
  {
    (StartsWith(s, ToLower(name)) && s != name) || 0 < LowerDistance(name, s) <= maxDistance
  }

  /**
   * At most three distinct suggestions, each the typo hit or a related
   * vocabulary entry; with fewer than three, every related entry is there.
   */
  lemma SimilarShape(name: string, typo: Option<string>, vocabulary: seq<string>, maxDistance: nat)
    ensures var r := Similar(name, typo, vocabulary, maxDistance);
      && |r| <= 3
      && (forall i, j :: 0 <= i < j < |r| ==> r[i] != r[j])
      && (forall s :: s in r ==> typo == Some(s) || (s in vocabulary && Related(name, s, maxDistance)))
      && (|r| < 3 ==> forall s :: s in vocabulary && Related(name, s, maxDistance) ==> s in r)
  {
    var cs := Candidates(name, typo, vocabulary, maxDistance);
    SimilarMembers(name, vocabulary, maxDistance);
    assert forall s :: s in cs <==> typo == Some(s) || (s in vocabulary && Related(name, s, maxDistance));
  }

  /** The typo hit, when there is one, is the first suggestion. */
  lemma TypoFirst(name: string, fix: string, vocabulary: seq<string>, maxDistance: nat)
    ensures Similar(name, Some(fix), vocabulary, maxDistance) != []
    ensures Similar(name, Some(fix), vocabulary, maxDistance)[0] == fix
  {
    var cs := Candidates(name, Some(fix), vocabulary, maxDistance);
    assert cs[0] == fix;
    DedupeHead(cs);
  }

  /** When the typo hit is itself a vocabulary entry, every suggestion is one. */
  lemma SimilarWithin(name: string, typo: Option<string>, vocabulary: seq<string>, maxDistance: nat)
    requires typo.Some? ==> typo.value in vocabulary
    ensures forall s :: s in Similar(name, typo, vocabulary, maxDistance) ==> s in vocabulary
  {
    SimilarShape(name, typo, vocabulary, maxDistance);
  }
}
