/**
 * The pair enumeration of `findConflictingUtilities`
 * (src/rules/no-conflicting-utilities.ts), for any pair test: groups in
 * order, and inside a group every pair `i < j` in row order.
 */
module ConflictPairs {
  /** A property group: the property and its utilities in list order. */
  datatype Group = Group(property: string, members: seq<string>)

  datatype Conflict = Conflict(utility1: string, utility2: string, property: string)

  /** The pair test of the rule, passed to the definitions below as `test`. */
  type PairTest = (string, string) -> bool

  function Cell(ms: seq<string>, i: nat, j: nat, p: string, test: PairTest): seq<Conflict>
    requires i < j < |ms|
  {
    if test(ms[i], ms[j]) then [Conflict(ms[i], ms[j], p)] else []
  }

  /** The pairs `(i, j')` for `i < j' < j`, in order. */
  function Row(ms: seq<string>, i: nat, j: nat, p: string, test: PairTest): seq<Conflict>
    requires i < |ms| && j <= |ms|
  {
    if j <= i + 1 then [] else Row(ms, i, j - 1, p, test) + Cell(ms, i, j - 1, p, test)
  }

  /** The rows `0 .. i - 1`, in order. */
  function Rows(ms: seq<string>, i: nat, p: string, test: PairTest): seq<Conflict>
    requires i <= |ms|
  {
    if i == 0 then [] else Rows(ms, i - 1, p, test) + Row(ms, i - 1, |ms|, p, test)
  }

  /** The pairs of one group; groups with a single utility are skipped. */
  function GroupConflicts(g: Group, test: PairTest): seq<Conflict>
  {
    if |g.members| <= 1 then [] else Rows(g.members, |g.members| - 1, g.property, test)
  }

  /** The pairs of the first `k` groups, group by group. */
  function AllConflicts(gs: seq<Group>, k: nat, test: PairTest): seq<Conflict>
    requires k <= |gs|
  {
    Flatten(gs, k, PairsOf(test))
  }

  /** `GroupConflicts` for a fixed pair test. */
  function PairsOf(test: PairTest): Group -> seq<Conflict>
  {
    g => GroupConflicts(g, test)
  }

  /** The lists `pairs(gs[0]) + ... + pairs(gs[k - 1])`. */
  function Flatten(gs: seq<Group>, k: nat, pairs: Group -> seq<Conflict>): seq<Conflict>
    requires k <= |gs|
  {
    if k == 0 then [] else Flatten(gs, k - 1, pairs) + pairs(gs[k - 1])
  }

  lemma RowStep(conflicts: seq<Conflict>, ms: seq<string>, i: nat, j: nat, p: string, test: PairTest)
    requires i < j < |ms|
    ensures conflicts + Row(ms, i, j + 1, p, test)
      == (conflicts + Row(ms, i, j, p, test)) + (if test(ms[i], ms[j]) then [Conflict(ms[i], ms[j], p)] else [])
  {
    assert Row(ms, i, j + 1, p, test) == Row(ms, i, j, p, test) + Cell(ms, i, j, p, test);
  }

  /** The innermost loop: the pairs `(i, j)` of one row pushed onto `conflicts`. */
  method ScanRow(conflicts: seq<Conflict>, utils: seq<string>, i: nat, property: string, test: PairTest)
    returns (result: seq<Conflict>)
    requires i < |utils|
    ensures result == conflicts + Row(utils, i, |utils|, property, test)
  {
    result := conflicts;
    for j := i + 1 to |utils|
      invariant result == conflicts + Row(utils, i, j, property, test)
    {
      var utility1 := utils[i];
      var utility2 := utils[j];
      RowStep(conflicts, utils, i, j, property, test);
      if test(utility1, utility2) {
        result := result + [Conflict(utility1, utility2, property)];
      }
    }
  }

  lemma RowsStep(conflicts: seq<Conflict>, ms: seq<string>, i: nat, p: string, test: PairTest)
    requires i < |ms|
    ensures conflicts + Rows(ms, i + 1, p, test) == (conflicts + Rows(ms, i, p, test)) + Row(ms, i, |ms|, p, test)
  {
    assert Rows(ms, i + 1, p, test) == Rows(ms, i, p, test) + Row(ms, i, |ms|, p, test);
  }

  /** The two inner loops: every row of one group pushed onto `conflicts`. */
  method ScanGroup(conflicts: seq<Conflict>, g: Group, test: PairTest) returns (result: seq<Conflict>)
    ensures result == conflicts + GroupConflicts(g, test)
  {
    var property := g.property;
    var utils := g.members;
    if |utils| <= 1 {
      return conflicts;
    }
    result := conflicts;
    for i := 0 to |utils| - 1
      invariant result == conflicts + Rows(utils, i, property, test)
    {
      RowsStep(conflicts, utils, i, property, test);
      result := ScanRow(result, utils, i, property, test);
    }
  }

  /** The loops of `findConflictingUtilities` over the groups, with the pair test as a parameter. */
  method ScanGroups(propertyGroups: seq<Group>, test: PairTest) returns (conflicts: seq<Conflict>)
    ensures conflicts == AllConflicts(propertyGroups, |propertyGroups|, test)
  {
    conflicts := [];
    for k := 0 to |propertyGroups|
      invariant conflicts == AllConflicts(propertyGroups, k, test)
    {
      conflicts := ScanGroup(conflicts, propertyGroups[k], test);
    }
  }

  /** Pair `(i, j)` of `ms` passes the test and gives `c`. */
  predicate PairGives(ms: seq<string>, i: nat, j: nat, p: string, test: PairTest, c: Conflict)
  {
    i < j < |ms| && test(ms[i], ms[j]) && c == Conflict(ms[i], ms[j], p)
  }

  lemma {:induction false} RowMembers(ms: seq<string>, i: nat, j: nat, p: string, test: PairTest, c: Conflict)
    requires i < |ms| && j <= |ms|
    ensures c in Row(ms, i, j, p, test) <==> exists j': nat :: j' < j && PairGives(ms, i, j', p, test, c)
  {
    if j > i + 1 {
      RowMembers(ms, i, j - 1, p, test, c);
      if PairGives(ms, i, j - 1, p, test, c) {
        assert c in Cell(ms, i, j - 1, p, test);
      }
    }
  }

  lemma {:induction false} RowsMembers(ms: seq<string>, i: nat, p: string, test: PairTest, c: Conflict)
    requires i <= |ms|
    ensures c in Rows(ms, i, p, test) <==> exists i': nat, j': nat :: i' < i && PairGives(ms, i', j', p, test, c)
  {
    if i > 0 {
      RowsMembers(ms, i - 1, p, test, c);
      RowMembers(ms, i - 1, |ms|, p, test, c);
    }
  }

  lemma GroupConflictsMembers(g: Group, test: PairTest, c: Conflict)
    ensures c in GroupConflicts(g, test) <==> exists i: nat, j: nat :: PairGives(g.members, i, j, g.property, test, c)
  {
    if |g.members| > 1 {
      RowsMembers(g.members, |g.members| - 1, g.property, test, c);
      if exists i: nat, j: nat :: PairGives(g.members, i, j, g.property, test, c) {
        var i: nat, j: nat :| PairGives(g.members, i, j, g.property, test, c);
        assert i < |g.members| - 1;
      }
    }
  }

  /** A pair found in the first `k` lists comes from one of them. */
  lemma {:induction false} FlattenFind(gs: seq<Group>, k: nat, pairs: Group -> seq<Conflict>, c: Conflict) returns (g: nat)
    requires k <= |gs| && c in Flatten(gs, k, pairs)
    ensures g < k && c in pairs(gs[g])
  {
    if c in pairs(gs[k - 1]) {
      g := k - 1;
    } else {
      g := FlattenFind(gs, k - 1, pairs, c);
    }
  }

  /** A pair of list `g` is among the pairs of the first `k` lists, for any `k > g`. */
  lemma {:induction false} FlattenHas(gs: seq<Group>, k: nat, pairs: Group -> seq<Conflict>, c: Conflict, g: nat)
    requires g < k <= |gs| && c in pairs(gs[g])
    ensures c in Flatten(gs, k, pairs)
  {
    if g < k - 1 {
      FlattenHas(gs, k - 1, pairs, c, g);
    }
  }

  /** A pair is found in the first `k` groups iff it is a pair of one of them. */
  lemma AllConflictsMembers(gs: seq<Group>, k: nat, test: PairTest, c: Conflict)
    requires k <= |gs|
    ensures c in AllConflicts(gs, k, test) <==> exists g :: 0 <= g < k && c in GroupConflicts(gs[g], test)
  {
    var pairs := PairsOf(test);
    if c in AllConflicts(gs, k, test) {
      var g := FlattenFind(gs, k, pairs, c);
      assert pairs(gs[g]) == GroupConflicts(gs[g], test);
    }
    if exists g :: 0 <= g < k && c in GroupConflicts(gs[g], test) {
      var g :| 0 <= g < k && c in GroupConflicts(gs[g], test);
      assert pairs(gs[g]) == GroupConflicts(gs[g], test);
      FlattenHas(gs, k, pairs, c, g);
    }
  }
}
