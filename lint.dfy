/**
 * What a rule hands back to the linter: reports with a message id, the
 * message data, where they point, and at most one text edit as the fix.
 */
module Lint {
  import opened Wrappers
  import opened Ast

  /** The source range `[start, end)` replaced by `text`. */
  datatype Edit = Edit(start: nat, end: nat, text: string)

  /**
   * A report points at a node (its location), at an explicit range, at a
   * column span on one line, at a single line and column, or at a range
   * given by lines and columns only.
   */
  datatype Where =
    | OnNode(node: Node)
    | OnLoc(loc: Loc)
    | OnSpan(line: nat, startColumn: nat, endColumn: nat)
    | AtPoint(pointLine: nat, pointColumn: nat)
    | OnRange(startLine: nat, fromColumn: nat, endLine: nat, toColumn: nat)

  datatype Report = Report(messageId: string, data: map<string, string>, at: Where, fix: Option<Edit>)

  /** The text after applying an edit. */
  function ApplyEdit(text: string, e: Edit): string
    requires e.start <= e.end <= |text|
  {
    text[..e.start] + e.text + text[e.end..]
  }

  /** The text after the fix of `r`, when it has one whose range lies within the text. */
  function ApplyFix(text: string, r: Report): string
  {
    if r.fix.Some? && r.fix.value.start <= r.fix.value.end <= |text| then ApplyEdit(text, r.fix.value) else text
  }

  /**
   * The text after the fixes of `rs`, applied from the last report to the
   * first: with ranges in increasing order, a later range is replaced before
   * an earlier replacement could move it.
   */
  function ApplyFixes(text: string, rs: seq<Report>): string
  {
    if rs == [] then text else ApplyFix(ApplyFixes(text, rs[1..]), rs[0])
  }

  /** The fixes of `a + b`: those of `b` first, then those of `a`. */
  lemma {:induction false} ApplyFixesConcat(text: string, a: seq<Report>, b: seq<Report>)
    ensures ApplyFixes(text, a + b) == ApplyFixes(ApplyFixes(text, b), a)
  {
    if a == [] {
      assert a + b == b;
    } else {
      assert (a + b)[0] == a[0] && (a + b)[1..] == a[1..] + b;
      ApplyFixesConcat(text, a[1..], b);
    }
  }

  /**
   * At most one report which, when present, replaces `t[i..j]` by `fixed`,
   * and whose absence means that range already reads `fixed`.
   */
  predicate FixesRange(t: string, rs: seq<Report>, i: nat, j: nat, fixed: string)
  {
    i <= j <= |t| && |rs| <= 1
    && (rs == [] ==> fixed == t[i..j])
    && (rs != [] ==> rs[0].fix == Some(Edit(i, j, fixed)))
  }

  /** The fixes of such reports replace the range by `fixed`. */
  lemma ApplyAtMostOne(t: string, rs: seq<Report>, i: nat, j: nat, fixed: string)
    requires FixesRange(t, rs, i, j, fixed)
    ensures ApplyFixes(t, rs) == t[..i] + fixed + t[j..]
  {
    if rs == [] {
      assert t[..i] + t[i..j] + t[j..] == t;
    } else {
      assert rs[1..] == [];
    }
  }

  /**
   * The fixes of two such groups, whose ranges `t[i..j]` and `t[k..l]` are
   * disjoint (the first before the second): both ranges are replaced, and
   * the text between them is kept.
   */
  lemma ApplyTwoDisjoint(t: string, rb: seq<Report>, ra: seq<Report>, i: nat, j: nat, k: nat, l: nat, fb: string, fa: string)
    requires FixesRange(t, rb, i, j, fb) && FixesRange(t, ra, k, l, fa) && j <= k
    ensures ApplyFixes(t, rb + ra) == t[..i] + (fb + t[j..k] + fa) + t[l..]
  {
    ApplyFixesConcat(t, rb, ra);
    ApplyAtMostOne(t, ra, k, l, fa);
    var t1 := t[..k] + fa + t[l..];
    SpliceKeeps(t, k, l, fa, i, j);
    assert FixesRange(t1, rb, i, j, fb);
    ApplyAtMostOne(t1, rb, i, j, fb);
    SpliceRegroup(t[..i], fb, t[j..k], fa, t[l..]);
  }

  /**
   * The same, for a report list `rs` made of the two groups, and a
   * replacement `fixed` for `t[i..l]` made of the two fixed ranges and the
   * text between them.
   */
  lemma ApplySplit(t: string, rs: seq<Report>, rb: seq<Report>, ra: seq<Report>, i: nat, j: nat, k: nat, l: nat,
                   fb: string, fa: string, fixed: string)
    requires FixesRange(t, rb, i, j, fb) && FixesRange(t, ra, k, l, fa) && j <= k
    requires rs == rb + ra && fixed == fb + t[j..k] + fa
    ensures ApplyFixes(t, rs) == t[..i] + fixed + t[l..]
  {
    ApplyTwoDisjoint(t, rb, ra, i, j, k, l, fb, fa);
  }

  /** Replacing `t[k..l]` keeps the text before `k`, read around `i <= j <= k`. */
  lemma SpliceKeeps(t: string, k: nat, l: nat, fa: string, i: nat, j: nat)
    requires i <= j <= k <= l <= |t|
    ensures var t1 := t[..k] + fa + t[l..];
      t1[..i] == t[..i] && t1[i..j] == t[i..j] && t1[j..] == t[j..k] + fa + t[l..]
  {
    var t1 := t[..k] + fa + t[l..];
    assert t1[..k] == t[..k];
    assert t1[j..] == t1[j..k] + t1[k..];
  }

  /** Regrouping five pieces of text around the middle three. */
  lemma SpliceRegroup(a: string, b: string, x: string, c: string, d: string)
    ensures a + b + (x + c + d) == a + (b + x + c) + d
  {
  }

  /** An edit replacing the whole text of a node, when the node has a location. */
  function ReplaceNode(n: Node, text: string): (r: Option<Edit>)
    ensures r.Some? <==> n.loc.Some?
    ensures r.Some? ==> r.value == Edit(n.loc.value.start.offset, n.loc.value.end.offset, text)
  {
    if n.loc.None? then None else Some(Edit(n.loc.value.start.offset, n.loc.value.end.offset, text))
  }

  /** The reports of `check` on each node of `ns`, in order. */
  function ConcatMap(ns: seq<Node>, check: Node -> seq<Report>): (r: seq<Report>)
  {
    if ns == [] then [] else check(ns[0]) + ConcatMap(ns[1..], check)
  }

  lemma {:induction false} ConcatMapEmpty(ns: seq<Node>, check: Node -> seq<Report>)
    requires forall i :: 0 <= i < |ns| ==> check(ns[i]) == []
    ensures ConcatMap(ns, check) == []
  {
    if ns != [] { ConcatMapEmpty(ns[1..], check); }
  }

  /** Each report of `ConcatMap` comes from one of the nodes. */
  lemma {:induction false} ConcatMapFrom(ns: seq<Node>, check: Node -> seq<Report>, r: Report)
    requires r in ConcatMap(ns, check)
    ensures exists i :: 0 <= i < |ns| && r in check(ns[i])
  {
    if r !in check(ns[0]) {
      ConcatMapFrom(ns[1..], check, r);
      var i :| 0 <= i < |ns[1..]| && r in check(ns[1..][i]);
      assert ns[1..][i] == ns[i + 1];
    }
  }

  /** Each report of a node is among the reports of `ConcatMap`. */
  lemma {:induction false} ConcatMapHas(ns: seq<Node>, check: Node -> seq<Report>, i: nat, r: Report)
    requires i < |ns| && r in check(ns[i])
    ensures r in ConcatMap(ns, check)
  {
    if i > 0 {
      assert ns[1..][i - 1] == ns[i];
      ConcatMapHas(ns[1..], check, i - 1, r);
    }
  }

  /** With at most one report per node, there are at most as many reports as nodes. */
  lemma {:induction false} ConcatMapAtMostOne(ns: seq<Node>, check: Node -> seq<Report>)
    requires forall i :: 0 <= i < |ns| ==> |check(ns[i])| <= 1
    ensures |ConcatMap(ns, check)| <= |ns|
  {
    if ns != [] { ConcatMapAtMostOne(ns[1..], check); }
  }

  lemma {:induction false} ConcatMapAppend(a: seq<Node>, b: seq<Node>, check: Node -> seq<Report>)
    ensures ConcatMap(a + b, check) == ConcatMap(a, check) + ConcatMap(b, check)
  {
    if a == [] {
      assert a + b == b;
    } else {
      assert (a + b)[0] == a[0] && (a + b)[1..] == a[1..] + b;
      ConcatMapAppend(a[1..], b, check);
    }
  }

  /** The walk as a loop: the reports of the first `i + 1` nodes extend those of the first `i`. */
  lemma ConcatMapStep(ns: seq<Node>, i: nat, check: Node -> seq<Report>)
    requires i < |ns|
    ensures ConcatMap(ns[..i + 1], check) == ConcatMap(ns[..i], check) + check(ns[i])
  {
    assert ns[..i + 1] == ns[..i] + [ns[i]];
    ConcatMapAppend(ns[..i], [ns[i]], check);
  }
}
