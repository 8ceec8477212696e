/**
 * Utility-class analysis for Tailwind CSS v4 (src/utils/tailwind.ts):
 * the `@apply` token list, arbitrary values in brackets, the split of a
 * class into modifiers, base and arbitrary value, and the conflict test
 * between two classes.
 */
module Tailwind {
  import opened Wrappers
  import opened Strings
  import opened Ast

  // ---------------------------------------------------------------------
  // extractUtilitiesFromApply

  /**
   * `text.replaceAll(/\\(.)/g, '$1')`: scanning from the left, a backslash
   * followed by a character other than a line terminator is replaced by that
   * character; any other backslash is kept.
   */
  function Unescape(s: string): (r: string)
    ensures |r| <= |s|
    ensures '\\' !in s ==> r == s
    decreases |s|
  {
    if s == [] then []
    else if |s| >= 2 && s[0] == '\\' && !IsLineTerminator(s[1]) then [s[1]] + Unescape(s[2..])
    else [s[0]] + Unescape(s[1..])
  }

  /** Every character written with a backslash in front. */
  function Escape(s: string): (r: string)
    ensures |r| == 2 * |s|
  {
    if s == [] then [] else ['\\', s[0]] + Escape(s[1..])
  }

  /** Unescaping undoes escaping, for text without line terminators. */
  lemma {:induction false} UnescapeEscape(s: string)
    requires forall i :: 0 <= i < |s| ==> !IsLineTerminator(s[i])
    ensures Unescape(Escape(s)) == s
  {
    if s != [] {
      var e := Escape(s);
      assert e[2..] == Escape(s[1..]);
      UnescapeEscape(s[1..]);
    }
  }

  /**
   * The utilities of an `@apply`: none without a prelude or without a
   * location; otherwise the prelude's source text, unescaped and split on
   * whitespace, with empty pieces dropped.
   */
  function ExtractUtilitiesFromApply(prelude: Option<Node>, text: string): (r: seq<string>)
    ensures prelude.None? || prelude.value.loc.None? ==> r == []
    ensures forall i :: 0 <= i < |r| ==> r[i] != [] && forall j :: 0 <= j < |r[i]| ==> !IsSpace(r[i][j])
  {
    if prelude.None? || prelude.value.loc.None? then []
    else Words(Unescape(GetNodeText(prelude.value, text)))
  }

  lemma {:induction false} JoinNoBackslash(ws: seq<string>)
    requires forall i :: 0 <= i < |ws| ==> '\\' !in ws[i]
    ensures '\\' !in Join(ws, " ")
  {
    if |ws| > 1 {
      JoinNoBackslash(ws[1..]);
    }
  }

  /**
   * Round trip: a prelude whose source text is a list of utilities without
   * backslashes, separated by single spaces, gives back exactly that list.
   */
  lemma ApplyListRoundTrip(p: Node, text: string, ws: seq<string>)
    requires p.loc.Some? && p.loc.value.start.offset <= p.loc.value.end.offset <= |text|
    requires text[p.loc.value.start.offset..p.loc.value.end.offset] == Join(ws, " ")
    requires forall i :: 0 <= i < |ws| ==> IsWord(ws[i]) && '\\' !in ws[i]
    ensures ExtractUtilitiesFromApply(Some(p), text) == ws
  {
    JoinNoBackslash(ws);
    WordsJoin(ws);
  }

  // ---------------------------------------------------------------------
  // hasArbitraryValue, countArbitraryValues: the pattern /\[[^\]]+\]/

  /**
   * The pattern `\[[^\]]+\]` matches at `i`: `[` there, and the first `]`
   * after it is not the very next character.
   */
  predicate ArbitraryAt(s: string, i: nat)
  {
    i < |s| && s[i] == '[' && IndexOf(s[i + 1..], ']') >= 1
  }

  /** `/\[[^\]]+\]/.test(value)`. */
  predicate HasArbitraryValue(s: string)
  {
    exists i :: 0 <= i < |s| && ArbitraryAt(s, i)
  }

  /** Global matches counted from position `i`; after a match the search resumes past its `]`. */
  function CountFrom(s: string, i: nat): (n: nat)
    requires i <= |s|
    decreases |s| - i
  {
    if i == |s| then 0
    else if ArbitraryAt(s, i) then 1 + CountFrom(s, i + 1 + IndexOf(s[i + 1..], ']') + 1)
    else CountFrom(s, i + 1)
  }

  /** `value.match(/\[[^\]]+\]/g)?.length ?? 0`. */
  function CountArbitraryValues(s: string): (n: nat)
  {
    CountFrom(s, 0)
  }

  /** A match at or after `i` makes the count from `i` positive. */
  lemma {:induction false} CountFromWitness(s: string, i: nat, k: nat)
    requires i <= k < |s| && ArbitraryAt(s, k)
    ensures CountFrom(s, i) > 0
    decreases k - i
  {
    if !ArbitraryAt(s, i) {
      CountFromWitness(s, i + 1, k);
    }
  }

  /** A positive count from `i` comes from a match at or after `i`. */
  lemma {:induction false} CountFromFind(s: string, i: nat) returns (k: nat)
    requires i <= |s| && CountFrom(s, i) > 0
    ensures i <= k < |s| && ArbitraryAt(s, k)
    decreases |s| - i
  {
    if ArbitraryAt(s, i) {
      k := i;
    } else {
      k := CountFromFind(s, i + 1);
    }
  }

  lemma CountFromPositive(s: string, i: nat)
    requires i <= |s|
    ensures CountFrom(s, i) > 0 <==> exists k :: i <= k < |s| && ArbitraryAt(s, k)
  {
    if CountFrom(s, i) > 0 {
      var k := CountFromFind(s, i);
    } else if exists k :: i <= k < |s| && ArbitraryAt(s, k) {
      var k :| i <= k < |s| && ArbitraryAt(s, k);
      CountFromWitness(s, i, k);
    }
  }


  /** A value has an arbitrary part exactly when the global count is positive. */
  lemma HasIffCount(s: string)
    ensures HasArbitraryValue(s) <==> CountArbitraryValues(s) > 0
  {
    CountFromPositive(s, 0);
  }

  /** Every match consumes at least three characters, so the count is at most a third of the length. */
  lemma {:induction false} CountFromBound(s: string, i: nat)
    requires i <= |s|
    ensures 3 * CountFrom(s, i) <= |s| - i
    decreases |s| - i
  {
    if i < |s| {
      if ArbitraryAt(s, i) {
        CountFromBound(s, i + 1 + IndexOf(s[i + 1..], ']') + 1);
      } else {
        CountFromBound(s, i + 1);
      }
    }
  }

  // ---------------------------------------------------------------------
  // parseUtilityClass

  datatype ParsedUtility = ParsedUtility(modifiers: seq<string>, utility: string, arbitraryValue: Option<string>)

  /** Running bracket depth before position `i`: `[` adds one, `]` takes one away. */
  function Depth(s: string, i: nat): int
    requires i <= |s|
  {
    if i == 0 then 0
    else Depth(s, i - 1) + (if s[i - 1] == '[' then 1 else if s[i - 1] == ']' then -1 else 0)
  }

  predicate TopColonAt(s: string, k: nat)
  {
    k < |s| && s[k] == ':' && Depth(s, k) == 0
  }

  /** The scan of the inner loop, from position `i` with running depth `depth`. */
  function ScanColon(s: string, i: nat, depth: int): (k: int)
    requires i <= |s|
    ensures k == -1 || (i <= k < |s| && s[k] == ':')
    decreases |s| - i
  {
    if i == |s| then -1
    else if s[i] == '[' then ScanColon(s, i + 1, depth + 1)
    else if s[i] == ']' then ScanColon(s, i + 1, depth - 1)
    else if s[i] == ':' && depth == 0 then i
    else ScanColon(s, i + 1, depth)
  }

  /** Index of the first colon at bracket depth 0, or -1. */
  function TopColon(s: string): (k: int)
  {
    ScanColon(s, 0, 0)
  }

  lemma {:induction false} ScanColonSpec(s: string, i: nat)
    requires i <= |s|
    ensures var k := ScanColon(s, i, Depth(s, i));
      (k == -1 ==> forall j :: i <= j < |s| ==> !TopColonAt(s, j))
      && (k != -1 ==> TopColonAt(s, k) && forall j :: i <= j < k ==> !TopColonAt(s, j))
    decreases |s| - i
  {
    if i < |s| {
      assert Depth(s, i + 1) == Depth(s, i) + (if s[i] == '[' then 1 else if s[i] == ']' then -1 else 0);
      if s[i] == ':' && Depth(s, i) == 0 {
      } else {
        ScanColonSpec(s, i + 1);
      }
    }
  }

  /** The first depth-0 colon, characterised without the scan. */
  lemma TopColonSpec(s: string)
    ensures TopColon(s) == -1 ==> forall j :: 0 <= j < |s| ==> !TopColonAt(s, j)
    ensures TopColon(s) != -1 ==> TopColonAt(s, TopColon(s)) && forall j :: 0 <= j < TopColon(s) ==> !TopColonAt(s, j)
  {
    ScanColonSpec(s, 0);
  }

  /** The modifiers split off by the outer loop, and what remains after them. */
  function SplitModifiers(s: string): (r: (seq<string>, string))
    ensures |r.1| <= |s|
    decreases |s|
  {
    var k := TopColon(s);
    if k == -1 then ([], s)
    else
      var rest := SplitModifiers(s[k + 1..]);
      ([s[..k]] + rest.0, rest.1)
  }

  /** The match of `^([^[]+)(\[[^\]]+\])$` with its `[` at `p`. */
  predicate ArbitraryShape(u: string, p: nat)
  {
    1 <= p && p + 3 <= |u| && '[' !in u[..p] && u[p] == '[' && u[|u| - 1] == ']' && ']' !in u[p + 1..|u| - 1]
  }

  /** A match can only have its `[` at the first `[` of the string. */
  lemma ShapeAtFirstBracket(u: string, q: nat)
    requires ArbitraryShape(u, q)
    ensures IndexOf(u, '[') == q
  {
    assert u[q] == '[';
  }

  /** `utility.match(/^([^[]+)(\[[^\]]+\])$/)`, as the two groups. */
  function ArbitrarySplit(u: string): (r: Option<(string, string)>)
    ensures r.Some? ==> u == r.value.0 + r.value.1
  {
    var p := IndexOf(u, '[');
    if p >= 1 && p + 3 <= |u| && u[|u| - 1] == ']' && ']' !in u[p + 1..|u| - 1] then
      assert ArbitraryShape(u, p);
      Some((u[..p], u[p..]))
    else
      None
  }

  /** A split is a match of the pattern, with its `[` where the value begins. */
  lemma ArbitrarySplitSound(u: string)
    ensures ArbitrarySplit(u).Some? ==> ArbitraryShape(u, |ArbitrarySplit(u).value.0|)
  {
    if ArbitrarySplit(u).Some? {
      assert ArbitraryShape(u, IndexOf(u, '['));
    }
  }

  /** Every match of the pattern is the one found: the split is at its `[`. */
  lemma ArbitrarySplitComplete(u: string, q: nat)
    requires q < |u| && ArbitraryShape(u, q)
    ensures ArbitrarySplit(u) == Some((u[..q], u[q..]))
  {
    ShapeAtFirstBracket(u, q);
  }

  /** The model of `parseUtilityClass`. */
  function Parse(className: string): (r: ParsedUtility)
  {
    var (mods, rest) := SplitModifiers(className);
    match ArbitrarySplit(rest)
    case Some((base, arb)) => ParsedUtility(mods, base, Some(arb))
    case None => ParsedUtility(mods, rest, None)
  }

  /** The inner loop of `parseUtilityClass`: the first colon outside brackets, or -1. */
  method FindTopColon(remaining: string) returns (colonIndex: int)
    ensures colonIndex == TopColon(remaining)
  {
    colonIndex := -1;
    var bracketDepth := 0;
    var i := 0;
    while i < |remaining|
      invariant 0 <= i <= |remaining|
      invariant TopColon(remaining) == ScanColon(remaining, i, bracketDepth)
    {
      var element := remaining[i];
      if element == '[' {
        bracketDepth := bracketDepth + 1;
      } else if element == ']' {
        bracketDepth := bracketDepth - 1;
      } else if element == ':' && bracketDepth == 0 {
        colonIndex := i;
        return;
      }
      i := i + 1;
    }
  }

  /** The outer loop's invariant: `modifiers` are split off `className` and `remaining` is still to be split. */
  predicate SplitsAs(className: string, modifiers: seq<string>, remaining: string)
  {
    SplitModifiers(className).0 == modifiers + SplitModifiers(remaining).0
    && SplitModifiers(className).1 == SplitModifiers(remaining).1
  }

  /** One round of the outer loop keeps the invariant. */
  lemma SplitStep(className: string, modifiers: seq<string>, remaining: string, k: int)
    requires SplitsAs(className, modifiers, remaining) && k == TopColon(remaining) && k != -1
    ensures 0 <= k < |remaining|
    ensures SplitsAs(className, modifiers + [remaining[..k]], remaining[k + 1..])
  {
    var rest := SplitModifiers(remaining[k + 1..]);
    assert SplitModifiers(remaining) == ([remaining[..k]] + rest.0, rest.1);
    assert modifiers + ([remaining[..k]] + rest.0) == (modifiers + [remaining[..k]]) + rest.0;
  }


  /** After the last round, what remains is the remainder of the whole split. */
  lemma SplitDone(className: string, modifiers: seq<string>, remaining: string)
    requires SplitsAs(className, modifiers, remaining) && TopColon(remaining) == -1
    ensures SplitModifiers(className) == (modifiers, remaining)
  {
    assert SplitModifiers(remaining) == ([], remaining);
    assert modifiers + [] == modifiers;
  }

  /** The outer loop of `parseUtilityClass`: one modifier stripped per round. */
  method StripModifiers(className: string) returns (modifiers: seq<string>, remaining: string)
    ensures SplitModifiers(className) == (modifiers, remaining)
  {
    modifiers := [];
    remaining := className;
    while true
      invariant SplitsAs(className, modifiers, remaining)
      decreases |remaining|
    {
      var colonIndex := FindTopColon(remaining);
      if colonIndex == -1 {
        break;
      }
      SplitStep(className, modifiers, remaining, colonIndex);
      var modifier := remaining[..colonIndex];
      modifiers := modifiers + [modifier];
      remaining := remaining[colonIndex + 1..];
    }
    SplitDone(className, modifiers, remaining);
  }

  /** `parseUtilityClass`: the modifiers, then the arbitrary-value match on what remains. */
  method ParseUtilityClass(className: string) returns (p: ParsedUtility)
    ensures p == Parse(className)
  {
    var modifiers, utility := StripModifiers(className);
    var arbitraryMatch := ArbitrarySplit(utility);
    if arbitraryMatch.Some? {
      return ParsedUtility(modifiers, arbitraryMatch.value.0, Some(arbitraryMatch.value.1));
    }
    return ParsedUtility(modifiers, utility, None);
  }

  /** Each modifier followed by `:`, then the base and the arbitrary value. */
  function Rebuild(p: ParsedUtility): string
  {
    Reassemble(p.modifiers, p.utility + (match p.arbitraryValue case Some(v) => v case None => ""))
  }


  /** Modifiers and remainder put back together, each modifier followed by `:`. */
  function Reassemble(mods: seq<string>, rest: string): string
  {
    if mods == [] then rest else mods[0] + ":" + Reassemble(mods[1..], rest)
  }

  lemma {:induction false} ReassembleJoin(mods: seq<string>, rest: string)
    ensures Reassemble(mods, rest) == Join(mods, ":") + (if mods == [] then "" else ":") + rest
  {
    if |mods| > 1 {
      ReassembleJoin(mods[1..], rest);
      calc {
        Reassemble(mods, rest);
        mods[0] + ":" + Reassemble(mods[1..], rest);
        mods[0] + ":" + (Join(mods[1..], ":") + ":" + rest);
        (mods[0] + ":" + Join(mods[1..], ":")) + ":" + rest;
      }
    }
  }

  lemma {:induction false} SplitReassemble(s: string)
    ensures Reassemble(SplitModifiers(s).0, SplitModifiers(s).1) == s
    decreases |s|
  {
    var k := TopColon(s);
    if k != -1 {
      var t := s[k + 1..];
      SplitReassemble(t);
      var mods := [s[..k]] + SplitModifiers(t).0;
      assert SplitModifiers(s) == (mods, SplitModifiers(t).1);
      assert mods[1..] == SplitModifiers(t).0;
      calc {
        Reassemble(mods, SplitModifiers(t).1);
        s[..k] + ":" + Reassemble(SplitModifiers(t).0, SplitModifiers(t).1);
        s[..k] + ":" + t;
        { assert s == s[..k] + ":" + t; }
        s;
      }
    }
  }

  /** The modifiers joined with `:`, a `:` after them, and the remainder give back the class. */
  lemma RebuildModifiers(s: string)
    ensures var (mods, rest) := SplitModifiers(s);
      Join(mods, ":") + (if mods == [] then "" else ":") + rest == s
  {
    SplitReassemble(s);
    ReassembleJoin(SplitModifiers(s).0, SplitModifiers(s).1);
  }

  /** Reassembling the parts gives back the class exactly. */
  lemma ParseRoundTrip(s: string)
    ensures Rebuild(Parse(s)) == s
  {
    var rest := SplitModifiers(s).1;
    SplitReassemble(s);
    match ArbitrarySplit(rest)
    case Some((b, a)) =>
    case None =>
      assert rest + "" == rest;
  }


  /** What is left after the modifiers has no colon at bracket depth 0. */
  lemma RemainderHasNoTopColon(s: string)
    ensures forall j :: 0 <= j < |SplitModifiers(s).1| ==> !TopColonAt(SplitModifiers(s).1, j)
  {
    TopColonSpec(SplitModifiers(s).1);
  }

  /** No modifier has a colon at bracket depth 0 either. */
  lemma {:induction false} ModifiersHaveNoTopColon(s: string)
    ensures forall i :: 0 <= i < |SplitModifiers(s).0| ==> NoTopColon(SplitModifiers(s).0[i])
    decreases |s|
  {
    var k := TopColon(s);
    if k != -1 {
      TopColonSpec(s);
      ModifiersHaveNoTopColon(s[k + 1..]);
      var m := s[..k];
      forall j | 0 <= j < |m| ensures !TopColonAt(m, j) {
        DepthPrefix(s, k, j);
        assert !TopColonAt(s, j);
      }
      var mods := SplitModifiers(s).0;
      assert mods == [m] + SplitModifiers(s[k + 1..]).0;
      forall i | 0 <= i < |mods| ensures NoTopColon(mods[i]) {
        if i > 0 { assert mods[i] == SplitModifiers(s[k + 1..]).0[i - 1]; }
      }
    }
  }

  predicate NoTopColon(m: string)
  {
    forall j :: 0 <= j < |m| ==> !TopColonAt(m, j)
  }

  lemma {:induction false} DepthPrefix(s: string, k: nat, j: nat)
    requires j <= k <= |s|
    ensures Depth(s[..k], j) == Depth(s, j)
  {
    if j > 0 { DepthPrefix(s, k, j - 1); }
  }

  /** An arbitrary value splits off a non-empty base without `[` and a bracketed value with no inner `]`. */
  lemma ArbitraryValueShape(s: string)
    ensures var p := Parse(s);
      p.arbitraryValue.Some? ==>
        var v := p.arbitraryValue.value;
        p.utility != [] && '[' !in p.utility
        && |v| >= 3 && v[0] == '[' && v[|v| - 1] == ']' && ']' !in v[1..|v| - 1]
  {
    var rest := SplitModifiers(s).1;
    var r := ArbitrarySplit(rest);
    ArbitrarySplitSound(rest);
    if r.Some? {
      var (b, v) := r.value;
      assert rest == b + v;
      assert v == rest[|b|..];
      assert v[1..|v| - 1] == rest[|b| + 1..|rest| - 1];
    }
  }

  lemma {:induction false} ScanColonNoColon(s: string, i: nat, depth: int)
    requires i <= |s| && ':' !in s[i..]
    ensures ScanColon(s, i, depth) == -1
    decreases |s| - i
  {
    if i < |s| {
      assert s[i] == s[i..][0];
      assert s[i + 1..] == s[i..][1..];
      ScanColonNoColon(s, i + 1, if s[i] == '[' then depth + 1 else if s[i] == ']' then depth - 1 else depth);
    }
  }

  /** A class without colons and brackets is a bare base. */
  lemma PlainUtility(s: string)
    requires ':' !in s && '[' !in s
    ensures Parse(s) == ParsedUtility([], s, None)
  {
    assert s[0..] == s;
    ScanColonNoColon(s, 0, 0);
  }

  /** A class without colons whose only `[` opens a final bracketed value splits as base and value. */
  lemma BracketUtility(base: string, inner: string)
    requires base != [] && ':' !in base && '[' !in base
    requires inner != [] && ':' !in inner && ']' !in inner
    ensures Parse(base + "[" + inner + "]") == ParsedUtility([], base, Some("[" + inner + "]"))
  {
    var s := base + "[" + inner + "]";
    assert s[0..] == s;
    assert ':' !in s by {
      forall i | 0 <= i < |s| ensures s[i] != ':' {
        if i < |base| { assert s[i] == base[i]; }
        else if i > |base| && i < |s| - 1 { assert s[i] == inner[i - |base| - 1]; }
      }
    }
    ScanColonNoColon(s, 0, 0);
    assert SplitModifiers(s) == ([], s);
    assert s[..|base|] == base;
    assert s[|base|..] == "[" + inner + "]";
    assert ArbitraryShape(s, |base|) by {
      assert s[|base| + 1..|s| - 1] == inner;
    }
    ArbitrarySplitComplete(s, |base|);
  }


  // ---------------------------------------------------------------------
  // isValueAcceptingUtility

  const ValueAcceptingUtilities: seq<string> := [
    "text", "bg", "border", "ring", "outline", "shadow",
    "p", "px", "py", "pt", "pr", "pb", "pl",
    "m", "mx", "my", "mt", "mr", "mb", "ml",
    "w", "h", "min-w", "min-h", "max-w", "max-h",
    "gap", "space-x", "space-y", "translate-x", "translate-y",
    "rotate", "scale", "skew-x", "skew-y"]

  /** Some entry of `prefixes` begins `s`. */
  predicate AnyPrefix(s: string, prefixes: seq<string>)
  {
    exists i :: 0 <= i < |prefixes| && StartsWith(s, prefixes[i])
  }

  /** `VALUE_ACCEPTING_UTILITIES.some(prefix => utility.startsWith(prefix))`. */
  predicate IsValueAcceptingUtility(u: string)
  {
    AnyPrefix(u, ValueAcceptingUtilities)
  }

  /** Being value-accepting is inherited by every extension of the string. */
  lemma ValueAcceptingExtends(u: string, tail: string)
    requires IsValueAcceptingUtility(u)
    ensures IsValueAcceptingUtility(u + tail)
  {
    var i :| 0 <= i < |ValueAcceptingUtilities| && StartsWith(u, ValueAcceptingUtilities[i]);
    assert (u + tail)[..|ValueAcceptingUtilities[i]|] == u[..|ValueAcceptingUtilities[i]|];
  }

  // ---------------------------------------------------------------------
  // doUtilitiesConflict

  /** The property buckets, in declaration order: width, height, padding, margin, display, position, flexDirection, justifyContent, alignItems. */
  const PropertyGroups: seq<seq<string>> := [
    ["w"],
    ["h"],
    ["p", "px", "py", "pt", "pr", "pb", "pl"],
    ["m", "mx", "my", "mt", "mr", "mb", "ml"],
    ["block", "inline-block", "inline", "flex", "grid", "hidden"],
    ["static", "fixed", "absolute", "relative", "sticky"],
    ["flex-row", "flex-col", "flex-row-reverse", "flex-col-reverse"],
    ["justify-start", "justify-end", "justify-center", "justify-between", "justify-around", "justify-evenly"],
    ["items-start", "items-end", "items-center", "items-baseline", "items-stretch"]]

  /** `utilities.some(u => base === u || base.startsWith(u + '-'))`. */
  predicate InGroup(base: string, group: seq<string>)
  {
    exists i :: 0 <= i < |group| && (base == group[i] || StartsWith(base, group[i] + "-"))
  }

  predicate SameGroup(b1: string, b2: string)
  {
    exists g :: 0 <= g < |PropertyGroups| && InGroup(b1, PropertyGroups[g]) && InGroup(b2, PropertyGroups[g])
  }

  predicate InSomeGroup(base: string)
  {
    exists g :: 0 <= g < |PropertyGroups| && InGroup(base, PropertyGroups[g])
  }

  /** `doUtilitiesConflict`: the same modifier chain and bases in one bucket. */
  function DoUtilitiesConflict(u1: string, u2: string): (r: bool)
    ensures r ==> Join(Parse(u1).modifiers, ":") == Join(Parse(u2).modifiers, ":")
    ensures r ==> InSomeGroup(Parse(u1).utility) && InSomeGroup(Parse(u2).utility)
  {
    var p1 := Parse(u1);
    var p2 := Parse(u2);
    if Join(p1.modifiers, ":") != Join(p2.modifiers, ":") then false
    else SameGroup(p1.utility, p2.utility)
  }

  /** The conflict relation is symmetric. */
  lemma ConflictSymmetric(u1: string, u2: string)
    ensures DoUtilitiesConflict(u1, u2) == DoUtilitiesConflict(u2, u1)
  {
    if DoUtilitiesConflict(u1, u2) {
      var g :| 0 <= g < |PropertyGroups| && InGroup(Parse(u1).utility, PropertyGroups[g]) && InGroup(Parse(u2).utility, PropertyGroups[g]);
    }
  }

  /** A class that is in a bucket conflicts with itself. */
  lemma ConflictReflexive(u: string)
    requires InSomeGroup(Parse(u).utility)
    ensures DoUtilitiesConflict(u, u)
  {
  }
}
