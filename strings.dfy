/**
 * The fragment of JavaScript string semantics that the linter relies on:
 * the `\s` and line-terminator classes, `trim`, `startsWith`, `includes`,
 * `indexOf`, `split` on one character, `join`, `split(/\s+/)` with empty
 * pieces dropped, and first-occurrence deduplication (`[...new Set(xs)]`).
 */
module Strings {

  /** The characters matched by the regular-expression class `\s` (and stripped by `trim`). */
  predicate IsSpace(c: char)
  {
    c == ' ' || c == '\t' || c == '\n' || c == '\r' || c == '\U{B}' || c == '\U{C}'
    || c == '\U{A0}' || c == '\U{1680}' || ('\U{2000}' <= c <= '\U{200A}')
    || c == '\U{2028}' || c == '\U{2029}' || c == '\U{202F}' || c == '\U{205F}'
    || c == '\U{3000}' || c == '\U{FEFF}'
  }

  /** Characters that `.` does not match. */
  predicate IsLineTerminator(c: char)
  {
    c == '\n' || c == '\r' || c == '\U{2028}' || c == '\U{2029}'
  }

  /** The class `["']`. */
  predicate IsQuote(c: char) { c == '\'' || c == '"' }

  /** The index of the first quote character of `s`, or -1. */
  function QuoteIndex(s: string): (r: int)
    ensures -1 <= r < |s|
    ensures r == -1 <==> forall k :: 0 <= k < |s| ==> !IsQuote(s[k])
    ensures r >= 0 ==> IsQuote(s[r]) && forall k :: 0 <= k < r ==> !IsQuote(s[k])
  {
    if s == [] then -1
    else if IsQuote(s[0]) then 0
    else var k := QuoteIndex(s[1..]); if k == -1 then -1 else k + 1
  }

  predicate IsDigit(c: char) { '0' <= c <= '9' }
  predicate IsLower(c: char) { 'a' <= c <= 'z' }
  predicate IsUpper(c: char) { 'A' <= c <= 'Z' }
  predicate IsLetter(c: char) { IsLower(c) || IsUpper(c) }

  /** The class `\w`. */
  predicate IsWordChar(c: char) { IsLetter(c) || IsDigit(c) || c == '_' }

  predicate AllDigits(s: string) { forall i :: 0 <= i < |s| ==> IsDigit(s[i]) }

  function LowerChar(c: char): (r: char)
    ensures IsUpper(c) ==> IsLower(r)
    ensures !IsUpper(c) ==> r == c
  {
    if IsUpper(c) then (c as int + 32) as char else c
  }

  /** `toLowerCase`, on the ASCII letters. */
  function ToLower(s: string): (r: string)
    ensures |r| == |s|
    ensures forall i :: 0 <= i < |s| ==> r[i] == LowerChar(s[i])
  {
    if s == [] then [] else [LowerChar(s[0])] + ToLower(s[1..])
  }

  /** A string without upper-case letters is its own lower-case form. */
  lemma ToLowerUnchanged(s: string)
    requires forall i :: 0 <= i < |s| ==> !IsUpper(s[i])
    ensures ToLower(s) == s
  {
  }

  predicate StartsWith(s: string, p: string)
  {
    |p| <= |s| && s[..|p|] == p
  }

  predicate EndsWith(s: string, p: string)
  {
    |p| <= |s| && s[|s| - |p|..] == p
  }

  /** `s.includes(sub)`. */
  predicate Contains(s: string, sub: string)
    decreases |s|
  {
    StartsWith(s, sub) || (s != [] && Contains(s[1..], sub))
  }

  predicate HasChar(s: string, c: char) { c in s }

  /** Number of leading whitespace characters. */
  function LeadingSpace(s: string): (n: nat)
    ensures n <= |s|
    ensures forall i :: 0 <= i < n ==> IsSpace(s[i])
    ensures n < |s| ==> !IsSpace(s[n])
  {
    if s == [] || !IsSpace(s[0]) then 0 else 1 + LeadingSpace(s[1..])
  }

  /** Number of trailing whitespace characters. */
  function TrailingSpace(s: string): (n: nat)
    ensures n <= |s|
    ensures forall i :: |s| - n <= i < |s| ==> IsSpace(s[i])
    ensures n < |s| ==> !IsSpace(s[|s| - n - 1])
  {
    if s == [] || !IsSpace(s[|s| - 1]) then 0 else 1 + TrailingSpace(s[..|s| - 1])
  }

  /** `trim()`: the string without leading and trailing whitespace. */
  function Trim(s: string): (r: string)
    ensures r == [] || (!IsSpace(r[0]) && !IsSpace(r[|r| - 1]))
    ensures LeadingSpace(s) + |r| <= |s| && s[LeadingSpace(s)..LeadingSpace(s) + |r|] == r
    ensures forall i :: LeadingSpace(s) + |r| <= i < |s| ==> IsSpace(s[i])
    ensures r == [] <==> forall i :: 0 <= i < |s| ==> IsSpace(s[i])
  {
    var a := LeadingSpace(s);
    var rest := s[a..];
    var b := TrailingSpace(rest);
    TrimFacts(s, a, rest, b);
    rest[..|rest| - b]
  }

  lemma TrimFacts(s: string, a: nat, rest: string, b: nat)
    requires a == LeadingSpace(s) && rest == s[a..] && b == TrailingSpace(rest)
    ensures forall i :: a + (|rest| - b) <= i < |s| ==> IsSpace(s[i])
    ensures rest[..|rest| - b] == [] <==> forall i :: 0 <= i < |s| ==> IsSpace(s[i])
  {
    TrimTail(s, a, rest, b);
    TrimEmpty(s, a, rest, b);
    AllLeading(s);
  }

  lemma TrimTail(s: string, a: nat, rest: string, b: nat)
    requires a <= |s| && rest == s[a..] && b == TrailingSpace(rest)
    ensures forall i :: a + (|rest| - b) <= i < |s| ==> IsSpace(s[i])
  {
    forall i | a + (|rest| - b) <= i < |s| ensures IsSpace(s[i]) {
      assert s[i] == rest[i - a];
    }
  }

  lemma TrimEmpty(s: string, a: nat, rest: string, b: nat)
    requires a == LeadingSpace(s) && rest == s[a..] && b == TrailingSpace(rest)
    ensures rest[..|rest| - b] == [] <==> a == |s|
  {
    if a < |s| {
      assert rest[0] == s[a];
      TrailingShort(rest);
    }
  }

  /** A string is all whitespace exactly when its leading whitespace is all of it. */
  lemma AllLeading(s: string)
    ensures LeadingSpace(s) == |s| <==> forall i :: 0 <= i < |s| ==> IsSpace(s[i])
  {
    var n := LeadingSpace(s);
    if n < |s| {
      assert !IsSpace(s[n]);
    }
  }

  /** A string that starts with a non-space has fewer trailing spaces than characters. */
  lemma {:induction false} TrailingShort(s: string)
    requires s != [] && !IsSpace(s[0])
    ensures TrailingSpace(s) < |s|
  {
    if IsSpace(s[|s| - 1]) {
      var init := s[..|s| - 1];
      assert init[0] == s[0];
      TrailingShort(init);
    }
  }

  /** `s.indexOf(c)`, as an option. */
  function IndexOf<T(==)>(s: seq<T>, c: T): (r: int)
    ensures -1 <= r < |s|
    ensures r == -1 <==> c !in s
    ensures r >= 0 ==> s[r] == c && c !in s[..r]
  {
    if s == [] then -1
    else if s[0] == c then 0
    else var k := IndexOf(s[1..], c); if k == -1 then -1 else k + 1
  }

  /** `xs.findIndex(p)`: the index of the first element satisfying `p`, or -1. */
  function FirstIndex<T>(xs: seq<T>, p: T -> bool): (r: int)
    ensures -1 <= r < |xs|
    ensures r == -1 <==> forall i :: 0 <= i < |xs| ==> !p(xs[i])
    ensures r >= 0 ==> p(xs[r]) && forall i :: 0 <= i < r ==> !p(xs[i])
  {
    if xs == [] then -1
    else if p(xs[0]) then 0
    else
      var k := FirstIndex(xs[1..], p);
      assert forall i :: 1 <= i < |xs| ==> xs[i] == xs[1..][i - 1];
      if k == -1 then -1 else k + 1
  }

  /** A `for ... of` loop that returns at the first element satisfying `p`. */
  method FindFirst<T>(xs: seq<T>, p: T -> bool) returns (r: int)
    ensures r == FirstIndex(xs, p)
  {
    for i := 0 to |xs|
      invariant forall j :: 0 <= j < i ==> !p(xs[j])
    {
      if p(xs[i]) {
        return i;
      }
    }
    return -1;
  }

  /** `s.split(sep)` for a one-character separator: the pieces between separators. */
  function Split(s: string, sep: char): (r: seq<string>)
    ensures |r| >= 1
    ensures forall i :: 0 <= i < |r| ==> sep !in r[i]
    decreases |s|
  {
    var k := IndexOf(s, sep);
    if k == -1 then [s] else [s[..k]] + Split(s[k + 1..], sep)
  }

  /** A string with one separator splits into the two sides. */
  lemma SplitPair(a: string, sep: char, b: string)
    requires sep !in a && sep !in b
    ensures Split(a + [sep] + b, sep) == [a, b]
  {
    var s := a + [sep] + b;
    assert IndexOf(s, sep) == |a| by {
      assert s[|a|] == sep;
      assert s[..|a|] == a;
    }
    assert s[..|a|] == a && s[|a| + 1..] == b;
  }

  /** `parts.join(sep)`. */
  function Join(parts: seq<string>, sep: string): (r: string)
  {
    if parts == [] then []
    else if |parts| == 1 then parts[0]
    else parts[0] + sep + Join(parts[1..], sep)
  }

  /** Splitting on a separator and joining with it gives back the string. */
  lemma {:induction false} JoinSplit(s: string, sep: char)
    ensures Join(Split(s, sep), [sep]) == s
    decreases |s|
  {
    var k := IndexOf(s, sep);
    if k != -1 {
      calc {
        Join(Split(s, sep), [sep]);
        { JoinSplitStep(s, sep, [sep], k); }
        s[..k] + [sep] + Join(Split(s[k + 1..], sep), [sep]);
        { JoinSplit(s[k + 1..], sep); }
        s[..k] + [sep] + s[k + 1..];
        { assert s[k] == sep; }
        s;
      }
    }
  }

  /** `s.replaceAll(c, t)` for a one-character pattern. */
  function ReplaceChar(s: string, c: char, t: string): (r: string)
    ensures c !in s ==> r == s
  {
    if s == [] then [] else (if s[0] == c then t else [s[0]]) + ReplaceChar(s[1..], c, t)
  }

  lemma {:induction false} ReplaceCharConcat(a: string, b: string, c: char, t: string)
    ensures ReplaceChar(a + b, c, t) == ReplaceChar(a, c, t) + ReplaceChar(b, c, t)
  {
    if a == [] {
      assert a + b == b;
    } else {
      assert (a + b)[0] == a[0];
      assert (a + b)[1..] == a[1..] + b;
      ReplaceCharConcat(a[1..], b, c, t);
    }
  }

  lemma ReplaceCharAround(a: string, sep: char, rest: string, t: string)
    requires sep !in a
    ensures ReplaceChar(a + [sep] + rest, sep, t) == a + t + ReplaceChar(rest, sep, t)
  {
    var r := [sep] + rest;
    calc {
      ReplaceChar(a + [sep] + rest, sep, t);
      { assert a + [sep] + rest == a + r; }
      ReplaceChar(a + r, sep, t);
      { ReplaceCharConcat(a, r, sep, t); }
      ReplaceChar(a, sep, t) + ReplaceChar(r, sep, t);
      { assert r[0] == sep && r[1..] == rest; }
      a + (t + ReplaceChar(rest, sep, t));
    }
  }

  lemma JoinCons(a: string, ps: seq<string>, t: string)
    requires |ps| >= 1
    ensures Join([a] + ps, t) == a + t + Join(ps, t)
  {
    assert ([a] + ps)[1..] == ps;
  }

  /** Both sides unfolded once at the first separator, at index `k`. */
  lemma JoinSplitStep(s: string, sep: char, t: string, k: int)
    requires k == IndexOf(s, sep) && k != -1
    ensures Join(Split(s, sep), t) == s[..k] + t + Join(Split(s[k + 1..], sep), t)
  {
    var rest := Split(s[k + 1..], sep);
    calc {
      Join(Split(s, sep), t);
      Join([s[..k]] + rest, t);
      { JoinCons(s[..k], rest, t); }
      s[..k] + t + Join(rest, t);
    }
  }

  lemma ReplaceCharStep(s: string, sep: char, t: string, k: int)
    requires k == IndexOf(s, sep) && k != -1
    ensures ReplaceChar(s, sep, t) == s[..k] + t + ReplaceChar(s[k + 1..], sep, t)
  {
    var a, rest := s[..k], s[k + 1..];
    assert s == a + [sep] + rest by {
      assert s[k..] == [sep] + rest by { assert s[k] == sep; }
      assert s == a + s[k..];
    }
    ReplaceCharAround(a, sep, rest, t);
  }

  /** Splitting on `sep` and joining with `t` replaces every `sep` by `t`. */
  lemma {:induction false} JoinSplitReplace(s: string, sep: char, t: string)
    ensures Join(Split(s, sep), t) == ReplaceChar(s, sep, t)
    decreases |s|
  {
    var k := IndexOf(s, sep);
    if k != -1 {
      JoinSplitReplace(s[k + 1..], sep, t);
      JoinSplitStep(s, sep, t, k);
      ReplaceCharStep(s, sep, t, k);
    }
  }

  /** Every character of the result comes from the string or from the replacement. */
  lemma {:induction false} ReplaceCharMembers(s: string, c: char, t: string, x: char)
    requires x in ReplaceChar(s, c, t)
    ensures x in s || x in t
  {
    if s != [] {
      var head := if s[0] == c then t else [s[0]];
      if x !in head {
        ReplaceCharMembers(s[1..], c, t, x);
        if x in s[1..] {
          var j :| 0 <= j < |s[1..]| && s[1..][j] == x;
          assert s[j + 1] == x;
        }
      }
    }
  }

  /** Replacing `a` by `b` and then `b` by `a` gives back a string without `b`. */
  lemma {:induction false} ReplaceCharInverse(s: string, a: char, b: char)
    requires b !in s
    ensures ReplaceChar(ReplaceChar(s, a, [b]), b, [a]) == s
  {
    if s != [] {
      ReplaceCharInverse(s[1..], a, b);
      var head := if s[0] == a then [b] else [s[0]];
      ReplaceCharConcat(head, ReplaceChar(s[1..], a, [b]), b, [a]);
      assert ReplaceChar(head, b, [a]) == [s[0]] by {
        assert ReplaceChar(head, b, [a]) == (if head[0] == b then [a] else [head[0]]) + ReplaceChar([], b, [a]);
      }
      assert s == [s[0]] + s[1..];
    }
  }

  /** `s.replaceAll(/[...]/g, '')`: `s` without the characters of `cs`. */
  function DropChars(s: string, cs: string): (r: string)
    ensures |r| <= |s|
    ensures forall i :: 0 <= i < |r| ==> r[i] !in cs
  {
    if s == [] then [] else (if s[0] in cs then [] else [s[0]]) + DropChars(s[1..], cs)
  }

  /** `s.split(/\s+/).filter(Boolean)`: the maximal runs of non-whitespace characters. */
  function Words(s: string): (r: seq<string>)
    ensures forall i :: 0 <= i < |r| ==> r[i] != [] && forall j :: 0 <= j < |r[i]| ==> !IsSpace(r[i][j])
    decreases |s|
  {
    var a := LeadingSpace(s);
    if a == |s| then []
    else
      var rest := s[a..];
      var w := WordLength(rest);
      [rest[..w]] + Words(rest[w..])
  }

  /** Length of the leading run of non-whitespace characters. */
  function WordLength(s: string): (n: nat)
    ensures n <= |s|
    ensures forall i :: 0 <= i < n ==> !IsSpace(s[i])
    ensures n < |s| ==> IsSpace(s[n])
  {
    if s == [] || IsSpace(s[0]) then 0 else 1 + WordLength(s[1..])
  }

  /** A string without whitespace is split into itself alone (or nothing, if empty). */
  lemma {:induction false} WordsOfWord(w: string)
    requires forall j :: 0 <= j < |w| ==> !IsSpace(w[j])
    ensures Words(w) == if w == [] then [] else [w]
  {
    if w != [] {
      assert !IsSpace(w[0]);
      assert LeadingSpace(w) == 0;
      assert w[0..] == w;
      WordLengthAll(w);
      assert w[..|w|] == w;
      assert Words(w[|w|..]) == [];
    }
  }

  lemma {:induction false} WordLengthAll(w: string)
    requires forall j :: 0 <= j < |w| ==> !IsSpace(w[j])
    ensures WordLength(w) == |w|
  {
    if w != [] { WordLengthAll(w[1..]); }
  }

  /** Words are unchanged by a leading space. */
  lemma SpaceThenWords(t: string)
    ensures Words(" " + t) == Words(t)
  {
    var s := " " + t;
    assert s[1..] == t;
    assert LeadingSpace(s) == 1 + LeadingSpace(t);
    assert s[LeadingSpace(s)..] == t[LeadingSpace(t)..];
  }

  /** A word followed by a space-led text splits as that word, then the text's words. */
  lemma WordThenSpace(w: string, t: string)
    requires w != [] && forall j :: 0 <= j < |w| ==> !IsSpace(w[j])
    requires t != [] && IsSpace(t[0])
    ensures Words(w + t) == [w] + Words(t)
  {
    var s := w + t;
    assert s[0] == w[0];
    assert LeadingSpace(s) == 0;
    assert s[0..] == s;
    WordLengthPrefix(w, t);
    assert s[..|w|] == w;
    assert s[|w|..] == t;
  }

  /** A non-empty run of non-whitespace characters. */
  predicate IsWord(w: string)
  {
    w != [] && forall j :: 0 <= j < |w| ==> !IsSpace(w[j])
  }

  /** Joining with single spaces and splitting on whitespace gives back the words. */
  lemma {:induction false} WordsJoin(ws: seq<string>)
    requires forall i :: 0 <= i < |ws| ==> IsWord(ws[i])
    ensures Words(Join(ws, " ")) == ws
  {
    if |ws| == 1 {
      assert IsWord(ws[0]);
      WordsOfWord(ws[0]);
    } else if |ws| > 1 {
      forall i | 0 <= i < |ws[1..]| ensures IsWord(ws[1..][i]) {
        assert ws[1..][i] == ws[i + 1];
      }
      WordsJoin(ws[1..]);
      assert IsWord(ws[0]);
      WordsJoinStep(ws);
    }
  }

  /** One word in front of the rest, joined by a space. */
  lemma WordsJoinStep(ws: seq<string>)
    requires |ws| > 1 && IsWord(ws[0]) && Words(Join(ws[1..], " ")) == ws[1..]
    ensures Words(Join(ws, " ")) == ws
  {
    var rest := Join(ws[1..], " ");
    calc {
      Words(Join(ws, " "));
      { assert Join(ws, " ") == ws[0] + (" " + rest); }
      Words(ws[0] + (" " + rest));
      { WordThenSpace(ws[0], " " + rest); }
      [ws[0]] + Words(" " + rest);
      { SpaceThenWords(rest); }
      [ws[0]] + ws[1..];
      ws;
    }
  }

  lemma {:induction false} WordLengthPrefix(w: string, t: string)
    requires forall j :: 0 <= j < |w| ==> !IsSpace(w[j])
    requires t != [] && IsSpace(t[0])
    ensures WordLength(w + t) == |w|
  {
    if w == [] {
      assert w + t == t;
    } else {
      assert (w + t)[0] == w[0];
      assert (w + t)[1..] == w[1..] + t;
      WordLengthPrefix(w[1..], t);
    }
  }

  /** `[...new Set(xs)]`: the first occurrence of every element, in order. */
  function Dedupe<T(==,!new)>(xs: seq<T>): (r: seq<T>)
    ensures forall x :: x in r <==> x in xs
    ensures forall i, j :: 0 <= i < j < |r| ==> r[i] != r[j]
    ensures |r| <= |xs|
  {
    DedupeFrom(xs, {})
  }

  /** Deduplication of `xs`, skipping the elements already in `seen`. */
  function DedupeFrom<T(==,!new)>(xs: seq<T>, seen: set<T>): (r: seq<T>)
    ensures forall x :: x in r <==> x in xs && x !in seen
    ensures forall i, j :: 0 <= i < j < |r| ==> r[i] != r[j]
    ensures |r| <= |xs|
  {
    if xs == [] then []
    else if xs[0] in seen then DedupeFrom(xs[1..], seen)
    else [xs[0]] + DedupeFrom(xs[1..], seen + {xs[0]})
  }

  lemma {:induction false} DedupeFromSnoc<T(!new)>(xs: seq<T>, x: T, seen: set<T>)
    ensures DedupeFrom(xs + [x], seen) == DedupeFrom(xs, seen) + (if x in xs || x in seen then [] else [x])
    decreases |xs|
  {
    if xs == [] {
      assert [x][1..] == [];
    } else {
      var ys, h, tail := xs + [x], xs[0], xs[1..];
      assert ys[0] == h && ys[1..] == tail + [x];
      assert x in xs <==> x == h || x in tail by { assert xs == [h] + tail; }
      if h in seen {
        calc {
          DedupeFrom(ys, seen);
          DedupeFrom(tail + [x], seen);
          { DedupeFromSnoc(tail, x, seen); }
          DedupeFrom(tail, seen) + (if x in tail || x in seen then [] else [x]);
        }
      } else {
        calc {
          DedupeFrom(ys, seen);
          [h] + DedupeFrom(tail + [x], seen + {h});
          { DedupeFromSnoc(tail, x, seen + {h}); }
          [h] + (DedupeFrom(tail, seen + {h}) + (if x in tail || x in seen + {h} then [] else [x]));
        }
      }
    }
  }

  /** Appending an element to a list appends it to the deduplication unless it is already there. */
  lemma DedupeSnoc<T(!new)>(xs: seq<T>, x: T)
    ensures Dedupe(xs + [x]) == Dedupe(xs) + (if x in xs then [] else [x])
  {
    DedupeFromSnoc(xs, x, {});
  }

  /** The first element of `xs` (when there is one) is the first element of its deduplication. */
  lemma DedupeHead<T(!new)>(xs: seq<T>)
    requires xs != []
    ensures Dedupe(xs) != [] && Dedupe(xs)[0] == xs[0]
  {
  }

  /** The first `i + 1` elements are the first `i` and the element at `i`. */
  lemma SnocPrefix<T>(xs: seq<T>, i: nat)
    requires i < |xs|
    ensures xs[..i + 1][..i] == xs[..i]
    ensures xs[..i + 1] == xs[..i] + [xs[i]]
  {
  }

  /** Concatenation regrouped. */
  lemma AppendAssoc<T>(a: seq<T>, b: seq<T>, c: seq<T>)
    ensures a + (b + c) == (a + b) + c
  {
  }

  /** `xs.slice(0, n)`. */
  function Take<T>(xs: seq<T>, n: nat): (r: seq<T>)
    ensures |r| == if |xs| < n then |xs| else n
    ensures r == xs[..|r|]
  {
    if |xs| <= n then xs else xs[..n]
  }

  /** `xs.filter(x => x !== v)`. */
  function Remove<T(==,!new)>(xs: seq<T>, v: T): (r: seq<T>)
    ensures v !in r
    ensures forall x :: x in r <==> x in xs && x != v
    ensures |r| <= |xs|
  {
    if xs == [] then []
    else if xs[0] == v then Remove(xs[1..], v)
    else [xs[0]] + Remove(xs[1..], v)
  }

  /** Number of occurrences of `v` in `xs`. */
  function Count<T(==,!new)>(xs: seq<T>, v: T): (n: nat)
    ensures n <= |xs|
    ensures n == 0 <==> v !in xs
  {
    if xs == [] then 0 else (if xs[0] == v then 1 else 0) + Count(xs[1..], v)
  }

  /** The decimal digits of `n`, as `String(n)` writes them. */
  function NatToString(n: nat): (r: string)
    ensures r != [] && AllDigits(r)
  {
    if n < 10 then [DigitChar(n)] else NatToString(n / 10) + [DigitChar(n % 10)]
  }

  function DigitChar(d: nat): (c: char)
    requires d < 10
    ensures IsDigit(c)
  {
    ('0' as int + d) as char
  }

  /** `s.slice(a, b)` for non-negative bounds: both clamped to the length, empty when `a >= b`. */
  function Slice(s: string, a: nat, b: nat): (r: string)
    ensures a <= b <= |s| ==> r == s[a..b]
    ensures |r| <= |s|
    ensures b <= a || |s| <= a ==> r == []
  {
    var lo := if a < |s| then a else |s|;
    var hi := if b < |s| then b else |s|;
    if lo >= hi then [] else s[lo..hi]
  }
}
