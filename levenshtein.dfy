/**
 * `levenshteinDistance` and `findSimilarStrings`. The same matrix code
 * appears in src/utils/at-rules.ts, src/utils/css-properties.ts and
 * src/utils/theme.ts; it is defined once here.
 */
module Levenshtein {
  import opened Strings

  function Min3(x: nat, y: nat, z: nat): (m: nat)
    ensures m <= x && m <= y && m <= z && (m == x || m == y || m == z)
  {
    if x <= y && x <= z then x else if y <= z then y else z
  }

  /**
   * The matrix cell `matrix[i][j]`: the distance between the first `i`
   * characters of `b` and the first `j` characters of `a`, by the source's
   * recurrence (equal characters take the diagonal unchanged).
   */
  function Cell(a: string, b: string, i: nat, j: nat): nat
    requires i <= |b| && j <= |a|
    decreases i + j
  {
    if i == 0 then j
    else if j == 0 then i
    else if b[i - 1] == a[j - 1] then Cell(a, b, i - 1, j - 1)
    else Min3(Cell(a, b, i - 1, j - 1) + 1, Cell(a, b, i, j - 1) + 1, Cell(a, b, i - 1, j) + 1)
  }

  function Distance(a: string, b: string): nat
  {
    Cell(a, b, |b|, |a|)
  }

  /** `levenshteinDistance`: the matrix filled row by row. */
  method LevenshteinDistance(a: string, b: string) returns (d: nat)
    ensures d == Distance(a, b)
  {
    var matrix := new nat[|b| + 1, |a| + 1];
    for i := 0 to |b| + 1
      invariant forall r :: 0 <= r < i ==> matrix[r, 0] == r
    {
      matrix[i, 0] := i;
    }
    for index := 0 to |a| + 1
      invariant forall r :: 0 < r <= |b| ==> matrix[r, 0] == r
      invariant forall c :: 0 <= c < index ==> matrix[0, c] == c
    {
      matrix[0, index] := index;
    }
    for i := 1 to |b| + 1
      invariant forall r, c {:trigger matrix[r, c]} :: 0 <= r < i && 0 <= c <= |a| ==> matrix[r, c] == Cell(a, b, r, c)
      invariant forall r :: i <= r <= |b| ==> matrix[r, 0] == r
    {
      for index := 1 to |a| + 1
        invariant forall r, c {:trigger matrix[r, c]} :: 0 <= r < i && 0 <= c <= |a| ==> matrix[r, c] == Cell(a, b, r, c)
        invariant forall r :: i <= r <= |b| ==> matrix[r, 0] == r
        invariant forall c {:trigger matrix[i, c]} :: 0 <= c < index ==> matrix[i, c] == Cell(a, b, i, c)
      {
        var v;
        if b[i - 1] == a[index - 1] {
          v := matrix[i - 1, index - 1];
        } else {
          v := Min3(matrix[i - 1, index - 1] + 1, matrix[i, index - 1] + 1, matrix[i - 1, index] + 1);
        }
        assert v == Cell(a, b, i, index);
        matrix[i, index] := v;
      }
    }
    d := matrix[|b|, |a|];
  }

  lemma {:induction false} CellSelf(a: string, i: nat)
    requires i <= |a|
    ensures Cell(a, a, i, i) == 0
  {
    if i > 0 { CellSelf(a, i - 1); }
  }

  /** A string is at distance 0 from itself. */
  lemma DistanceSelf(a: string)
    ensures Distance(a, a) == 0
  {
    CellSelf(a, |a|);
  }

  /** Against the empty string the distance is the other length. */
  lemma DistanceEmpty(a: string)
    ensures Distance(a, "") == |a| && Distance("", a) == |a|
  {
    if |a| > 0 {
      assert Cell("", a, |a|, 0) == |a|;
    }
  }

  lemma {:induction false} CellSymmetric(a: string, b: string, i: nat, j: nat)
    requires i <= |b| && j <= |a|
    ensures Cell(a, b, i, j) == Cell(b, a, j, i)
    decreases i + j
  {
    if i > 0 && j > 0 {
      CellSymmetric(a, b, i - 1, j - 1);
      if b[i - 1] != a[j - 1] {
        CellSymmetric(a, b, i, j - 1);
        CellSymmetric(a, b, i - 1, j);
      }
    }
  }

  /** The distance is symmetric. */
  lemma DistanceSymmetric(a: string, b: string)
    ensures Distance(a, b) == Distance(b, a)
  {
    CellSymmetric(a, b, |b|, |a|);
  }

  lemma {:induction false} CellUpper(a: string, b: string, i: nat, j: nat)
    requires i <= |b| && j <= |a|
    ensures Cell(a, b, i, j) <= if i <= j then j else i
    decreases i + j
  {
    if i > 0 && j > 0 {
      CellUpper(a, b, i - 1, j - 1);
      assert Cell(a, b, i, j) <= Cell(a, b, i - 1, j - 1) + 1;
    }
  }

  lemma {:induction false} CellLower(a: string, b: string, i: nat, j: nat)
    requires i <= |b| && j <= |a|
    ensures Cell(a, b, i, j) >= if i <= j then j - i else i - j
    decreases i + j
  {
    if i > 0 && j > 0 {
      CellLower(a, b, i - 1, j - 1);
      if b[i - 1] != a[j - 1] {
        CellLower(a, b, i, j - 1);
        CellLower(a, b, i - 1, j);
        assert Cell(a, b, i, j) == Min3(Cell(a, b, i - 1, j - 1) + 1, Cell(a, b, i, j - 1) + 1, Cell(a, b, i - 1, j) + 1);
      }
    }
  }

  /** The distance lies between the difference and the larger of the two lengths. */
  lemma DistanceBounds(a: string, b: string)
    ensures Distance(a, b) <= if |a| <= |b| then |b| else |a|
    ensures Distance(a, b) >= if |a| <= |b| then |b| - |a| else |a| - |b|
  {
    CellUpper(a, b, |b|, |a|);
    CellLower(a, b, |b|, |a|);
  }

  lemma {:induction false} CellZero(a: string, b: string, i: nat, j: nat)
    requires i <= |b| && j <= |a|
    requires Cell(a, b, i, j) == 0
    ensures i == j && a[..j] == b[..i]
    decreases i + j
  {
    if i > 0 && j > 0 {
      CellZero(a, b, i - 1, j - 1);
      assert a[..j] == a[..j - 1] + [a[j - 1]];
      assert b[..i] == b[..i - 1] + [b[i - 1]];
    }
  }

  /** Distance 0 means equal strings. */
  lemma DistanceZero(a: string, b: string)
    requires Distance(a, b) == 0
    ensures a == b
  {
    CellZero(a, b, |b|, |a|);
    assert a[..|a|] == a && b[..|b|] == b;
  }

  // ---------------------------------------------------------------------
  // findSimilarStrings

  /** The distance the source compares: on lower-cased strings. */
  function LowerDistance(input: string, candidate: string): nat
  {
    Distance(ToLower(input), ToLower(candidate))
  }

  /** The candidates at distance `k`, in candidate order. */
  function AtDistance(input: string, cs: seq<string>, k: nat): (r: seq<string>)
    ensures |r| <= |cs|
  {
    if cs == [] then []
    else (if LowerDistance(input, cs[0]) == k then [cs[0]] else []) + AtDistance(input, cs[1..], k)
  }

  /**
   * `findSimilarStrings`: keep `0 < d <= maxDistance` and sort stably by
   * `d`, that is, the candidates at distance 1, then those at 2, and so on.
   */
  function FindSimilarStrings(input: string, cs: seq<string>, maxDistance: nat): seq<string>
  {
    if maxDistance == 0 then []
    else FindSimilarStrings(input, cs, maxDistance - 1) + AtDistance(input, cs, maxDistance)
  }

  lemma {:induction false} AtDistanceMembers(input: string, cs: seq<string>, k: nat)
    ensures forall c :: c in AtDistance(input, cs, k) <==> c in cs && LowerDistance(input, c) == k
  {
    if cs != [] { AtDistanceMembers(input, cs[1..], k); }
  }

  /** An entry of the result is a candidate with `0 < d <= maxDistance`, and every such candidate is in it. */
  lemma {:induction false} SimilarMembers(input: string, cs: seq<string>, maxDistance: nat)
    ensures forall c :: c in FindSimilarStrings(input, cs, maxDistance) <==> c in cs && 0 < LowerDistance(input, c) <= maxDistance
  {
    if maxDistance > 0 {
      var p, q := FindSimilarStrings(input, cs, maxDistance - 1), AtDistance(input, cs, maxDistance);
      assert FindSimilarStrings(input, cs, maxDistance) == p + q;
      forall c ensures c in p + q <==> c in cs && 0 < LowerDistance(input, c) <= maxDistance {
        SimilarMembers(input, cs, maxDistance - 1);
        AtDistanceMembers(input, cs, maxDistance);
        assert c in p + q <==> c in p || c in q;
      }
    }
  }

  predicate SortedByDistance(input: string, r: seq<string>)
  {
    forall i, j :: 0 <= i < j < |r| ==> LowerDistance(input, r[i]) <= LowerDistance(input, r[j])
  }

  /** The result is in non-decreasing distance order. */
  lemma {:induction false} SimilarSorted(input: string, cs: seq<string>, maxDistance: nat)
    ensures SortedByDistance(input, FindSimilarStrings(input, cs, maxDistance))
  {
    if maxDistance > 0 {
      SimilarSorted(input, cs, maxDistance - 1);
      SimilarMembers(input, cs, maxDistance - 1);
      AtDistanceMembers(input, cs, maxDistance);
      var p := FindSimilarStrings(input, cs, maxDistance - 1);
      var q := AtDistance(input, cs, maxDistance);
      var r := p + q;
      assert forall c :: c in p ==> LowerDistance(input, c) <= maxDistance - 1;
      assert forall c :: c in q ==> LowerDistance(input, c) == maxDistance;
      forall i, j | 0 <= i < j < |r| ensures LowerDistance(input, r[i]) <= LowerDistance(input, r[j]) {
        if j < |p| {
          assert r[i] == p[i] && r[j] == p[j];
        } else if i < |p| {
          assert r[i] == p[i] && p[i] in p && r[j] == q[j - |p|] && q[j - |p|] in q;
        } else {
          assert r[i] == q[i - |p|] && q[i - |p|] in q && r[j] == q[j - |p|] && q[j - |p|] in q;
        }
      }
    }
  }

  lemma {:induction false} AtDistanceConcat(input: string, xs: seq<string>, ys: seq<string>, k: nat)
    ensures AtDistance(input, xs + ys, k) == AtDistance(input, xs, k) + AtDistance(input, ys, k)
  {
    if xs == [] {
      assert xs + ys == ys;
    } else {
      var head := if LowerDistance(input, xs[0]) == k then [xs[0]] else [];
      calc {
        AtDistance(input, xs + ys, k);
        { assert (xs + ys)[0] == xs[0] && (xs + ys)[1..] == xs[1..] + ys; }
        head + AtDistance(input, xs[1..] + ys, k);
        { AtDistanceConcat(input, xs[1..], ys, k); }
        head + (AtDistance(input, xs[1..], k) + AtDistance(input, ys, k));
      }
    }
  }

  lemma {:induction false} AtDistanceTwice(input: string, cs: seq<string>, m: nat, k: nat)
    ensures AtDistance(input, AtDistance(input, cs, m), k) == if k == m then AtDistance(input, cs, m) else []
  {
    if cs != [] {
      AtDistanceTwice(input, cs[1..], m, k);
      var head := if LowerDistance(input, cs[0]) == m then [cs[0]] else [];
      AtDistanceConcat(input, head, AtDistance(input, cs[1..], m), k);
    }
  }

  /**
   * Stability: the entries at any one distance keep their candidate order.
   * With the sortedness above, this pins the result down as the stable sort.
   */
  lemma {:induction false} SimilarStable(input: string, cs: seq<string>, maxDistance: nat, k: nat)
    ensures AtDistance(input, FindSimilarStrings(input, cs, maxDistance), k)
      == if 0 < k <= maxDistance then AtDistance(input, cs, k) else []
  {
    if maxDistance > 0 {
      var p := FindSimilarStrings(input, cs, maxDistance - 1);
      var q := AtDistance(input, cs, maxDistance);
      SimilarStable(input, cs, maxDistance - 1, k);
      AtDistanceConcat(input, p, q, k);
      AtDistanceTwice(input, cs, maxDistance, k);
      assert AtDistance(input, p + q, k) == AtDistance(input, p, k) + AtDistance(input, q, k);
    }
  }
}
