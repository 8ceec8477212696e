/**
 * The `no-invalid-named-grid-areas` rule (src/rules/no-invalid-named-grid-areas.ts).
 * The strings of a `grid-template-areas`, `grid-template` or `grid` value
 * are the rows of a grid; blank strings are reported first, then rows whose
 * cell count differs from the first row's, and only for an even grid the
 * names whose column positions differ between two rows.
 */
module NoInvalidNamedGridAreas {
  import opened Wrappers
  import opened Strings
  import opened Ast
  import opened Lint

  /** `nullCellToken`, `^\.+$`: a token made of dots only. */
  predicate IsNullCell(t: string)
  {
    t != [] && forall k :: 0 <= k < |t| ==> t[k] == '.'
  }

  /** `validProps`. */
  const GridProperties: set<string> := {"grid-template-areas", "grid-template", "grid"}

  /** A `GridAreaError`; the `reported` key `name|row` is the pair itself. */
  datatype GridAreaError = GridAreaError(name: string, row: nat)

  // ---------------------------------------------------------------------
  // Column positions

  /** `row.indexOf(name, from)`: the first position at or after `from` holding `name`, or -1. */
  function IndexFrom(row: seq<string>, name: string, from: nat): (r: int)
    ensures r == -1 || (from <= r < |row| && row[r] == name)
    ensures r == -1 ==> forall k :: from <= k < |row| ==> row[k] != name
    ensures r >= 0 ==> forall k :: from <= k < r ==> row[k] != name
    decreases |row| - from
  {
    if from >= |row| then -1
    else if row[from] == name then from
    else IndexFrom(row, name, from + 1)
  }

  /** The positions of `name` in `row` from `from` on, ascending. */
  function Columns(row: seq<string>, name: string, from: nat): seq<nat>
    decreases |row| - from
  {
    if from >= |row| then []
    else (if row[from] == name then [from] else []) + Columns(row, name, from + 1)
  }

  /** The positions listed are exactly those holding `name`, in strictly increasing order. */
  lemma {:induction false} ColumnsMembers(row: seq<string>, name: string, from: nat)
    ensures forall k :: k in Columns(row, name, from) <==> from <= k < |row| && row[k] == name
    ensures forall a, b :: 0 <= a < b < |Columns(row, name, from)| ==> Columns(row, name, from)[a] < Columns(row, name, from)[b]
    decreases |row| - from
  {
    if from < |row| {
      ColumnsMembers(row, name, from + 1);
      var t := Columns(row, name, from + 1);
      var c := Columns(row, name, from);
      if row[from] == name {
        assert c == [from] + t;
        forall a, b | 0 <= a < b < |c| ensures c[a] < c[b] {
          if a == 0 {
            assert c[b] == t[b - 1] && t[b - 1] in t;
          } else {
            assert c[a] == t[a - 1] && c[b] == t[b - 1];
          }
        }
      }
    }
  }

  /** The positions from `from` are those from the next occurrence of `name`. */
  lemma {:induction false} ColumnsFrom(row: seq<string>, name: string, from: nat)
    ensures Columns(row, name, from) == ColumnsAt(row, name, IndexFrom(row, name, from))
    decreases |row| - from
  {
    if from < |row| && row[from] != name {
      ColumnsFrom(row, name, from + 1);
    } else if from >= |row| {
    } else {
    }
  }

  /** The inner `while` of `indicesByRow`: `indexOf` from the last hit plus one, until -1. */
  method ColumnsOf(row: seq<string>, name: string) returns (indices: seq<nat>)
    ensures indices == Columns(row, name, 0)
  {
    indices := [];
    var index := IndexFrom(row, name, 0);
    ColumnsFrom(row, name, 0);
    while index != -1
      invariant index == -1 || (0 <= index < |row| && row[index] == name)
      invariant Columns(row, name, 0) == indices + ColumnsAt(row, name, index)
      decreases if index < 0 then 0 else |row| + 1 - index
    {
      ColumnsHit(row, name, index);
      indices := indices + [index];
      index := IndexFrom(row, name, index + 1);
    }
  }

  /** The positions from `index`, none for the -1 of a failed search. */
  function ColumnsAt(row: seq<string>, name: string, index: int): seq<nat>
  {
    if index < 0 then [] else Columns(row, name, index)
  }

  /** A hit, then the positions from the next occurrence on. */
  lemma ColumnsHit(row: seq<string>, name: string, index: nat)
    requires index < |row| && row[index] == name
    ensures ColumnsAt(row, name, index) == [index] + ColumnsAt(row, name, IndexFrom(row, name, index + 1))
  {
    ColumnsFrom(row, name, index + 1);
  }

  /** `indicesByRow`: the positions of `name` in every row. */
  function RowColumns(grid: seq<seq<string>>, name: string): (rs: seq<seq<nat>>)
    ensures |rs| == |grid|
    ensures forall r :: 0 <= r < |grid| ==> rs[r] == Columns(grid[r], name, 0)
  {
    seq(|grid|, r requires 0 <= r < |grid| => Columns(grid[r], name, 0))
  }

  /** `grid.map(...)`, one call of the inner loop per row. */
  method ColumnsByRow(grid: seq<seq<string>>, name: string) returns (indicesByRow: seq<seq<nat>>)
    ensures indicesByRow == RowColumns(grid, name)
  {
    indicesByRow := [];
    for r := 0 to |grid|
      invariant |indicesByRow| == r
      invariant forall k :: 0 <= k < r ==> indicesByRow[k] == Columns(grid[k], name, 0)
    {
      var indices := ColumnsOf(grid[r], name);
      indicesByRow := indicesByRow + [indices];
    }
  }

  // ---------------------------------------------------------------------
  // The reference definition of the errors

  /** Two rows that both hold the name, at different positions. */
  predicate Differ(a: seq<nat>, b: seq<nat>)
  {
    a != [] && b != [] && a != b
  }

  /** Some row before `i` holds the name at other positions than row `r`. */
  predicate FlaggedBy(rs: seq<seq<nat>>, i: nat, r: nat)
    requires i <= |rs| && r < |rs|
    decreases i
  {
    i > 0 && (Differ(rs[i - 1], rs[r]) || FlaggedBy(rs, i - 1, r))
  }

  /** `FlaggedBy` is the bounded existential it stands for. */
  lemma {:induction false} FlaggedByWitness(rs: seq<seq<nat>>, i: nat, r: nat)
    requires i <= |rs| && r < |rs|
    ensures FlaggedBy(rs, i, r) <==> exists q :: 0 <= q < i && Differ(rs[q], rs[r])
    decreases i
  {
    if i > 0 {
      FlaggedByWitness(rs, i - 1, r);
    }
  }

  /**
   * The errors of the pairs of rows `(a, b)`, `a < b`, in the order the
   * scan meets them, before the pair `(i, j)`: all pairs with `a < i`,
   * then the pairs `(i, b)` with `b < j`. The pair `(a, b)` makes an error
   * of row `b` when row `b` differs from row `a` and from no row before `a`.
   */
  function ScanErrors(rs: seq<seq<nat>>, name: string, i: nat, j: nat): seq<GridAreaError>
    requires i <= |rs| && j <= |rs|
    decreases i, j
  {
    if j <= i + 1 then
      (if i == 0 then [] else ScanErrors(rs, name, i - 1, |rs|))
    else
      ScanErrors(rs, name, i, j - 1)
      + (if Differ(rs[i], rs[j - 1]) && !FlaggedBy(rs, i, j - 1) then [GridAreaError(name, j - 1)] else [])
  }

  /**
   * Before the pair `(i, j)`, row `b` is an error exactly when a row before
   * it and among those scanned as first rows differs from it: the rows
   * before `b` once `b <= i`, the rows up to `i` once the pair `(i, b)` is
   * scanned, and the rows before `i` otherwise.
   */
  lemma {:induction false} ScanErrorsMember(rs: seq<seq<nat>>, name: string, i: nat, j: nat, e: GridAreaError)
    requires i <= |rs| && j <= |rs|
    ensures e in ScanErrors(rs, name, i, j)
      <==> (e.name == name && e.row < |rs|
            && FlaggedBy(rs, if e.row <= i then e.row else if e.row < j then i + 1 else i, e.row))
    decreases i, j
  {
    if j <= i + 1 {
      if i > 0 {
        ScanErrorsMember(rs, name, i - 1, |rs|, e);
      }
    } else {
      ScanErrorsMember(rs, name, i, j - 1, e);
      var b := j - 1;
      assert ScanErrors(rs, name, i, j) == ScanErrors(rs, name, i, b)
        + (if Differ(rs[i], rs[b]) && !FlaggedBy(rs, i, b) then [GridAreaError(name, b)] else []);
      if e.row == b {
        assert FlaggedBy(rs, i + 1, b) <==> Differ(rs[i], rs[b]) || FlaggedBy(rs, i, b);
      }
    }
  }

  /** The errors of one name: every pair of rows. */
  function NameErrors(grid: seq<seq<string>>, name: string): seq<GridAreaError>
  {
    ScanErrors(RowColumns(grid, name), name, |grid|, 0)
  }

  /** The errors of the names `ns`, in that order. */
  function ErrorsFor(grid: seq<seq<string>>, ns: seq<string>): seq<GridAreaError>
  {
    if ns == [] then [] else ErrorsFor(grid, ns[..|ns| - 1]) + NameErrors(grid, ns[|ns| - 1])
  }

  /** An error of the names `ns` is a name of `ns` and a row flagged by an earlier row. */
  lemma {:induction false} ErrorsForMember(grid: seq<seq<string>>, ns: seq<string>, e: GridAreaError)
    ensures e in ErrorsFor(grid, ns)
      <==> e.name in ns && e.row < |grid| && FlaggedBy(RowColumns(grid, e.name), e.row, e.row)
  {
    if ns != [] {
      var init, last := ns[..|ns| - 1], ns[|ns| - 1];
      ErrorsForMember(grid, init, e);
      ScanErrorsMember(RowColumns(grid, last), last, |grid|, 0, e);
      assert ns == init + [last];
    }
  }

  /** `grid.flat()`. */
  function Flat(grid: seq<seq<string>>): seq<string>
  {
    if grid == [] then [] else Flat(grid[..|grid| - 1]) + grid[|grid| - 1]
  }

  lemma {:induction false} FlatMembers(grid: seq<seq<string>>, t: string)
    ensures t in Flat(grid) <==> exists r :: 0 <= r < |grid| && t in grid[r]
  {
    if grid != [] {
      FlatMembers(grid[..|grid| - 1], t);
      if t in grid[|grid| - 1] {
        assert 0 <= |grid| - 1 < |grid|;
      }
      if exists r :: 0 <= r < |grid| && t in grid[r] {
        var r :| 0 <= r < |grid| && t in grid[r];
        if r < |grid| - 1 {
          assert grid[..|grid| - 1][r] == grid[r];
        }
      }
    }
  }

  /** `.filter(name => !nullCellToken.test(name))`. */
  function NonNull(ts: seq<string>): (r: seq<string>)
    ensures forall t :: t in r <==> t in ts && !IsNullCell(t)
  {
    if ts == [] then []
    else NonNull(ts[..|ts| - 1]) + (if IsNullCell(ts[|ts| - 1]) then [] else [ts[|ts| - 1]])
  }

  /** Filtering keeps the tokens distinct. */
  lemma {:induction false} NonNullDistinct(ts: seq<string>)
    requires forall a, b :: 0 <= a < b < |ts| ==> ts[a] != ts[b]
    ensures forall a, b :: 0 <= a < b < |NonNull(ts)| ==> NonNull(ts)[a] != NonNull(ts)[b]
  {
    if ts != [] {
      var init := ts[..|ts| - 1];
      assert forall a, b :: 0 <= a < b < |init| ==> init[a] != init[b] by {
        forall a, b | 0 <= a < b < |init| ensures init[a] != init[b] {
          assert init[a] == ts[a] && init[b] == ts[b];
        }
      }
      NonNullDistinct(init);
      assert ts[|ts| - 1] !in init;
    }
  }

  /** `names`: the distinct tokens of the grid in first-appearance order, without null cells. */
  function AreaNames(grid: seq<seq<string>>): seq<string>
  {
    NonNull(Dedupe(Flat(grid)))
  }

  /** The names are distinct, and they are the tokens of the grid that are not null cells. */
  lemma AreaNamesFacts(grid: seq<seq<string>>)
    ensures forall a, b :: 0 <= a < b < |AreaNames(grid)| ==> AreaNames(grid)[a] != AreaNames(grid)[b]
    ensures forall t :: t in AreaNames(grid) <==> t in Flat(grid) && !IsNullCell(t)
  {
    NonNullDistinct(Dedupe(Flat(grid)));
  }

  /** The reference result of `findNonRectangularAreas`. */
  function NonRectangularAreas(grid: seq<seq<string>>): seq<GridAreaError>
  {
    ErrorsFor(grid, AreaNames(grid))
  }

  /**
   * `(name, r)` is an error exactly when `name` is not a null cell, and
   * some row `q` before `r` holds `name`, as row `r` does, at other
   * positions. Rows without the name take no part.
   */
  lemma NonRectangularIff(grid: seq<seq<string>>, e: GridAreaError)
    ensures e in NonRectangularAreas(grid)
      <==> (!IsNullCell(e.name) && e.row < |grid|
            && exists q :: 0 <= q < e.row && Differ(Columns(grid[q], e.name, 0), Columns(grid[e.row], e.name, 0)))
  {
    AreaNamesFacts(grid);
    ErrorsForMember(grid, AreaNames(grid), e);
    if e.row < |grid| {
      FlaggedByColumns(grid, e.name, e.row);
      if exists q :: 0 <= q < e.row && Differ(Columns(grid[q], e.name, 0), Columns(grid[e.row], e.name, 0)) {
        var q :| 0 <= q < e.row && Differ(Columns(grid[q], e.name, 0), Columns(grid[e.row], e.name, 0));
        NameInFlat(grid, e.name, q);
      }
    }
  }

  /** `FlaggedBy` on the positions of `name`, stated on the rows of the grid. */
  lemma FlaggedByColumns(grid: seq<seq<string>>, name: string, row: nat)
    requires row < |grid|
    ensures FlaggedBy(RowColumns(grid, name), row, row)
      <==> exists q :: 0 <= q < row && Differ(Columns(grid[q], name, 0), Columns(grid[row], name, 0))
  {
    var rs := RowColumns(grid, name);
    FlaggedByWitness(rs, row, row);
    assert forall q :: 0 <= q < |grid| ==> rs[q] == Columns(grid[q], name, 0);
  }

  /** A name some row holds is a token of the flattened grid. */
  lemma NameInFlat(grid: seq<seq<string>>, name: string, q: nat)
    requires q < |grid| && Columns(grid[q], name, 0) != []
    ensures name in Flat(grid)
  {
    ColumnsMembers(grid[q], name, 0);
    assert Columns(grid[q], name, 0)[0] in Columns(grid[q], name, 0);
    FlatMembers(grid, name);
  }

  /** A grid with at most one row has no errors, whatever repeats within the row. */
  lemma SingleRowNoErrors(grid: seq<seq<string>>)
    requires |grid| <= 1
    ensures NonRectangularAreas(grid) == []
  {
    if NonRectangularAreas(grid) != [] {
      NonRectangularIff(grid, NonRectangularAreas(grid)[0]);
    }
  }

  /** A name found at the same positions in every row that holds it is never reported. */
  lemma SameColumnsNotReported(grid: seq<seq<string>>, name: string, row: nat)
    requires forall q, r :: 0 <= q < r < |grid| ==>
      (Columns(grid[q], name, 0) != [] && Columns(grid[r], name, 0) != [] ==> Columns(grid[q], name, 0) == Columns(grid[r], name, 0))
    ensures GridAreaError(name, row) !in NonRectangularAreas(grid)
  {
    NonRectangularIff(grid, GridAreaError(name, row));
  }

  // ---------------------------------------------------------------------
  // findNonRectangularAreas

  /** The `reported` set holds exactly the errors pushed. */
  ghost predicate Tracks(reported: set<GridAreaError>, errors: seq<GridAreaError>)
  {
    forall e :: e in reported <==> e in errors
  }

  predicate Distinct(errors: seq<GridAreaError>)
  {
    forall a, b :: 0 <= a < b < |errors| ==> errors[a] != errors[b]
  }

  /** The `every` test of two rows of equal length. */
  predicate SameAt(row1: seq<nat>, row2: seq<nat>)
    requires |row1| == |row2|
  {
    forall k :: 0 <= k < |row1| ==> row1[k] == row2[k]
  }

  /**
   * `findNonRectangularAreas`: for every name, every pair of rows that
   * both hold it at different positions pushes the second row, unless the
   * `reported` set already has that key. The errors are the reference
   * definition's, and no error appears twice.
   */
  method FindNonRectangularAreas(grid: seq<seq<string>>) returns (errors: seq<GridAreaError>)
    ensures errors == NonRectangularAreas(grid)
    ensures Distinct(errors)
  {
    errors := [];
    var reported: set<GridAreaError> := {};
    var names := AreaNames(grid);
    AreaNamesFacts(grid);
    for n := 0 to |names|
      invariant errors == ErrorsFor(grid, names[..n])
      invariant Tracks(reported, errors)
      invariant Distinct(errors)
    {
      var name := names[n];
      SnocPrefix(names, n);
      var indicesByRow := ColumnsByRow(grid, name);
      NameNotYetReported(grid, names, n);
      errors, reported := ScanRows(indicesByRow, name, errors, reported);
    }
    assert names[..|names|] == names;
  }

  /** The loop over the first row `i` of a pair, for one name. */
  method ScanRows(indicesByRow: seq<seq<nat>>, name: string, errors0: seq<GridAreaError>, reported0: set<GridAreaError>)
    returns (errors: seq<GridAreaError>, reported: set<GridAreaError>)
    requires Tracks(reported0, errors0)
    requires Distinct(errors0)
    requires forall e :: e in errors0 ==> e.name != name
    ensures errors == errors0 + ScanErrors(indicesByRow, name, |indicesByRow|, 0)
    ensures Tracks(reported, errors)
    ensures Distinct(errors)
  {
    errors, reported := errors0, reported0;
    for i := 0 to |indicesByRow|
      invariant errors == errors0 + ScanErrors(indicesByRow, name, i, 0)
      invariant Tracks(reported, errors)
      invariant Distinct(errors)
    {
      assert ScanErrors(indicesByRow, name, i, i + 1) == ScanErrors(indicesByRow, name, i, 0);
      errors, reported := ScanPairs(indicesByRow, name, i, errors0, errors, reported);
      assert ScanErrors(indicesByRow, name, i + 1, 0) == ScanErrors(indicesByRow, name, i, |indicesByRow|);
    }
  }

  /** The loop over the second row `index` of a pair whose first row is `i`. */
  method ScanPairs(indicesByRow: seq<seq<nat>>, name: string, i: nat, ghost base: seq<GridAreaError>,
                   errors0: seq<GridAreaError>, reported0: set<GridAreaError>)
    returns (errors: seq<GridAreaError>, reported: set<GridAreaError>)
    requires i < |indicesByRow|
    requires forall e :: e in base ==> e.name != name
    requires errors0 == base + ScanErrors(indicesByRow, name, i, i + 1)
    requires Tracks(reported0, errors0)
    requires Distinct(errors0)
    ensures errors == base + ScanErrors(indicesByRow, name, i, |indicesByRow|)
    ensures Tracks(reported, errors)
    ensures Distinct(errors)
  {
    errors, reported := errors0, reported0;
    for index := i + 1 to |indicesByRow|
      invariant errors == base + ScanErrors(indicesByRow, name, i, index)
      invariant Tracks(reported, errors)
      invariant Distinct(errors)
    {
      var row1 := indicesByRow[i];
      var row2 := indicesByRow[index];
      if |row1| == 0 || |row2| == 0 {
        continue;
      }
      if |row1| != |row2| || !SameAt(row1, row2) {
        var key := GridAreaError(name, index);
        ScanErrorsMember(indicesByRow, name, i, index, key);
        if key !in reported {
          errors := errors + [key];
          reported := reported + {key};
        }
      } else {
        assert row1 == row2;
      }
    }
  }

  /** The errors of the names before `n` do not carry the name at `n`. */
  lemma NameNotYetReported(grid: seq<seq<string>>, names: seq<string>, n: nat)
    requires n < |names| && forall a, b :: 0 <= a < b < |names| ==> names[a] != names[b]
    ensures forall e :: e in ErrorsFor(grid, names[..n]) ==> e.name != names[n]
  {
    forall e | e in ErrorsFor(grid, names[..n]) ensures e.name != names[n] {
      ErrorsForMember(grid, names[..n], e);
    }
  }

  // ---------------------------------------------------------------------
  // The rows of a declaration

  /**
   * A `String` child of the value as the loop sees it: its node, whether
   * its trimmed value is empty, and otherwise its cell tokens.
   */
  datatype GridString = GridString(node: Node, blank: bool, cells: seq<string>)

  /** `trimmedValue`, and for a non-blank string `trimmedValue.split(/\s+/).filter(Boolean)`. */
  function ParseString(n: Node): (g: GridString)
    ensures g.node == n
    ensures g.blank <==> Trim(n.str) == []
    ensures !g.blank ==> g.cells == Words(Trim(n.str))
  {
    var trimmedValue := Trim(n.str);
    if trimmedValue == [] then GridString(n, true, []) else GridString(n, false, Words(trimmedValue))
  }

  /** The strings of the value, in order. */
  function ParseStrings(ns: seq<Node>): (gs: seq<GridString>)
    ensures |gs| == |ns| && forall k :: 0 <= k < |ns| ==> gs[k] == ParseString(ns[k])
  {
    seq(|ns|, k requires 0 <= k < |ns| => ParseString(ns[k]))
  }

  /** The nodes of the strings, in order. */
  function StringNodesOf(gs: seq<GridString>): (ns: seq<Node>)
    ensures |ns| == |gs| && forall k :: 0 <= k < |gs| ==> ns[k] == gs[k].node
  {
    seq(|gs|, k requires 0 <= k < |gs| => gs[k].node)
  }

  /** `emptyNodes`: the nodes of the blank strings, in order. */
  function BlankStrings(gs: seq<GridString>): seq<Node>
  {
    if gs == [] then []
    else
      var g := gs[|gs| - 1];
      BlankStrings(gs[..|gs| - 1]) + (if g.blank then [g.node] else [])
  }

  /** `grid`: the rows of the strings that are not blank, in order. */
  function GridRows(gs: seq<GridString>): seq<seq<string>>
  {
    if gs == [] then []
    else
      var g := gs[|gs| - 1];
      GridRows(gs[..|gs| - 1]) + (if g.blank then [] else [g.cells])
  }

  /** The nodes of the strings that are not blank and whose row does not have `width` cells, in order. */
  function UnevenStrings(gs: seq<GridString>, width: nat): seq<Node>
  {
    if gs == [] then []
    else
      var g := gs[|gs| - 1];
      UnevenStrings(gs[..|gs| - 1], width) + (if !g.blank && |g.cells| != width then [g.node] else [])
  }

  /** Without rows so far, no string is uneven, whatever the width. */
  lemma {:induction false} NoRowsNoUneven(gs: seq<GridString>, width: nat)
    requires GridRows(gs) == []
    ensures UnevenStrings(gs, width) == []
  {
    if gs != [] {
      NoRowsNoUneven(gs[..|gs| - 1], width);
    }
  }

  /** The state of the loop over the strings after the first `i` of them. */
  ghost predicate GridState(gs: seq<GridString>, i: nat, grid: seq<seq<string>>, emptyNodes: seq<Node>,
                            unevenNodes: seq<Node>, firstRowLength: Option<nat>)
    requires i <= |gs|
  {
    && grid == GridRows(gs[..i])
    && emptyNodes == BlankStrings(gs[..i])
    && firstRowLength == (if grid == [] then None else Some(|grid[0]|))
    && unevenNodes == (if firstRowLength.None? then [] else UnevenStrings(gs[..i], firstRowLength.value))
  }

  /**
   * The loop over the strings: a blank one goes to `emptyNodes`, any other
   * adds its row to `grid`; the first row sets `firstRowLength`, and a
   * later row of another length puts its string in `unevenNodes`.
   */
  method BuildGrid(stringNodes: seq<Node>) returns (grid: seq<seq<string>>, emptyNodes: seq<Node>, unevenNodes: seq<Node>)
    ensures grid == GridRows(ParseStrings(stringNodes))
    ensures emptyNodes == BlankStrings(ParseStrings(stringNodes))
    ensures unevenNodes == if grid == [] then [] else UnevenStrings(ParseStrings(stringNodes), |grid[0]|)
  {
    ghost var gs := ParseStrings(stringNodes);
    grid, emptyNodes, unevenNodes := [], [], [];
    var firstRowLength: Option<nat> := None;
    for i := 0 to |stringNodes|
      invariant GridState(gs, i, grid, emptyNodes, unevenNodes, firstRowLength)
    {
      grid, emptyNodes, unevenNodes, firstRowLength := AddString(gs, i, stringNodes[i], grid, emptyNodes, unevenNodes, firstRowLength);
    }
    assert gs[..|stringNodes|] == gs;
  }

  /** One round of the loop of `BuildGrid`, on the string `stringNode`. */
  method AddString(ghost gs: seq<GridString>, i: nat, stringNode: Node, grid: seq<seq<string>>, emptyNodes: seq<Node>,
                   unevenNodes: seq<Node>, firstRowLength: Option<nat>)
    returns (grid': seq<seq<string>>, emptyNodes': seq<Node>, unevenNodes': seq<Node>, firstRowLength': Option<nat>)
    requires i < |gs| && gs[i] == ParseString(stringNode)
    requires GridState(gs, i, grid, emptyNodes, unevenNodes, firstRowLength)
    ensures GridState(gs, i + 1, grid', emptyNodes', unevenNodes', firstRowLength')
  {
    grid', emptyNodes', unevenNodes', firstRowLength' := grid, emptyNodes, unevenNodes, firstRowLength;
    var trimmedValue := Trim(stringNode.str);
    if trimmedValue == [] {
      GridStepBlank(gs, i);
      emptyNodes' := emptyNodes + [stringNode];
      return;
    }
    var row := Words(trimmedValue);
    GridStepRow(gs, i);
    if firstRowLength.None? {
      NoRowsNoUneven(gs[..i], |row|);
    }
    grid' := grid + [row];
    if firstRowLength.None? {
      firstRowLength' := Some(|row|);
    } else if |row| != firstRowLength.value {
      unevenNodes' := unevenNodes + [stringNode];
    }
  }

  /** One more string, blank: its node is appended to the blank strings, and neither the rows nor the uneven strings change. */
  lemma GridStepBlank(gs: seq<GridString>, i: nat)
    requires i < |gs| && gs[i].blank
    ensures BlankStrings(gs[..i + 1]) == BlankStrings(gs[..i]) + [gs[i].node]
    ensures GridRows(gs[..i + 1]) == GridRows(gs[..i])
    ensures forall width: nat {:trigger UnevenStrings(gs[..i + 1], width)} ::
      UnevenStrings(gs[..i + 1], width) == UnevenStrings(gs[..i], width)
  {
    SnocPrefix(gs, i);
  }

  /** One more string, not blank: its cells are appended to the rows, and its node to the strings of another width. */
  lemma GridStepRow(gs: seq<GridString>, i: nat)
    requires i < |gs| && !gs[i].blank
    ensures BlankStrings(gs[..i + 1]) == BlankStrings(gs[..i])
    ensures GridRows(gs[..i + 1]) == GridRows(gs[..i]) + [gs[i].cells]
    ensures forall width: nat {:trigger UnevenStrings(gs[..i + 1], width)} ::
      UnevenStrings(gs[..i + 1], width)
      == UnevenStrings(gs[..i], width) + (if |gs[i].cells| != width then [gs[i].node] else [])
  {
    SnocPrefix(gs, i);
  }

  /** Without blank strings there is one row per string: row `k` is the cells of string `k`. */
  lemma RowPerString(gs: seq<GridString>)
    requires BlankStrings(gs) == []
    ensures |GridRows(gs)| == |gs|
    ensures forall k :: 0 <= k < |gs| ==> !gs[k].blank && GridRows(gs)[k] == gs[k].cells
  {
    RowCount(gs);
    forall k | 0 <= k < |gs| ensures !gs[k].blank && GridRows(gs)[k] == gs[k].cells {
      RowAt(gs, k);
    }
  }

  lemma {:induction false} RowCount(gs: seq<GridString>)
    requires BlankStrings(gs) == []
    ensures |GridRows(gs)| == |gs|
  {
    if gs != [] {
      var init := gs[..|gs| - 1];
      assert BlankStrings(init) == [] && !gs[|gs| - 1].blank;
      RowCount(init);
    }
  }

  lemma {:induction false} RowAt(gs: seq<GridString>, k: nat)
    requires BlankStrings(gs) == [] && k < |gs|
    ensures !gs[k].blank && k < |GridRows(gs)| && GridRows(gs)[k] == gs[k].cells
  {
    var init, last := gs[..|gs| - 1], gs[|gs| - 1];
    assert BlankStrings(init) == [] && !last.blank;
    assert GridRows(gs) == GridRows(init) + [last.cells];
    RowCount(init);
    if k < |init| {
      RowAt(init, k);
      assert gs[k] == init[k];
    }
  }

  /** The blank strings are the strings whose trimmed value is empty. */
  lemma {:induction false} BlankStringsMembers(gs: seq<GridString>)
    ensures forall k :: 0 <= k < |gs| && gs[k].blank ==> gs[k].node in BlankStrings(gs)
    ensures forall n :: n in BlankStrings(gs) ==> exists k :: 0 <= k < |gs| && gs[k].blank && gs[k].node == n
  {
    if gs != [] {
      var init, last := gs[..|gs| - 1], gs[|gs| - 1];
      BlankStringsMembers(init);
      assert BlankStrings(gs) == BlankStrings(init) + (if last.blank then [last.node] else []);
      forall k | 0 <= k < |gs| && gs[k].blank ensures gs[k].node in BlankStrings(gs) {
        if k < |init| {
          assert gs[k] == init[k];
        }
      }
      forall n | n in BlankStrings(gs) ensures exists k :: 0 <= k < |gs| && gs[k].blank && gs[k].node == n {
        if n in BlankStrings(init) {
          var k :| 0 <= k < |init| && init[k].blank && init[k].node == n;
          assert gs[k] == init[k];
        } else {
          assert gs[|gs| - 1].blank && gs[|gs| - 1].node == n;
        }
      }
    }
  }

  /** The uneven strings are the non-blank strings with another number of cells. */
  lemma {:induction false} UnevenStringsMembers(gs: seq<GridString>, width: nat)
    ensures forall k :: 0 <= k < |gs| && !gs[k].blank && |gs[k].cells| != width ==> gs[k].node in UnevenStrings(gs, width)
    ensures forall n :: n in UnevenStrings(gs, width) ==>
      exists k :: 0 <= k < |gs| && !gs[k].blank && |gs[k].cells| != width && gs[k].node == n
  {
    if gs != [] {
      var init, last := gs[..|gs| - 1], gs[|gs| - 1];
      UnevenStringsMembers(init, width);
      assert UnevenStrings(gs, width) == UnevenStrings(init, width) + (if !last.blank && |last.cells| != width then [last.node] else []);
      forall k | 0 <= k < |gs| && !gs[k].blank && |gs[k].cells| != width ensures gs[k].node in UnevenStrings(gs, width) {
        if k < |init| {
          assert gs[k] == init[k];
        }
      }
      forall n | n in UnevenStrings(gs, width)
        ensures exists k :: 0 <= k < |gs| && !gs[k].blank && |gs[k].cells| != width && gs[k].node == n
      {
        if n in UnevenStrings(init, width) {
          var k :| 0 <= k < |init| && !init[k].blank && |init[k].cells| != width && init[k].node == n;
          assert gs[k] == init[k];
        } else {
          assert !last.blank && |last.cells| != width && last.node == n;
        }
      }
    }
  }

  // ---------------------------------------------------------------------
  // Reports

  function EmptyReport(n: Node): Report
  {
    Report("emptyGridArea", map[], OnNode(n), None)
  }

  function UnevenReport(n: Node): Report
  {
    Report("unevenGridArea", map[], OnNode(n), None)
  }

  function AreaReport(n: Node, name: string): Report
  {
    Report("nonRectangularGridArea", map["name" := name], OnNode(n), None)
  }

  /** A declaration the rule checks: a grid property, compared in lower case, with a `Value`. */
  predicate IsGridDeclaration(d: Node)
  {
    d.kind == Declaration && ToLower(d.property) in GridProperties && IsNodeType(d.value, Value)
  }

  /** `stringNodes`: the `String` children of the value. */
  function StringNodes(d: Node): seq<Node>
    requires d.value.Some?
  {
    OfType(d.value.value.children, StringNode)
  }

  /** One `emptyGridArea` per blank string, in order. */
  function EmptyReports(ns: seq<Node>): (r: seq<Report>)
    ensures |r| == |ns| && forall k :: 0 <= k < |ns| ==> r[k] == EmptyReport(ns[k])
  {
    seq(|ns|, k requires 0 <= k < |ns| => EmptyReport(ns[k]))
  }

  /** One `unevenGridArea` per uneven string, in order. */
  function UnevenReports(ns: seq<Node>): (r: seq<Report>)
    ensures |r| == |ns| && forall k :: 0 <= k < |ns| ==> r[k] == UnevenReport(ns[k])
  {
    seq(|ns|, k requires 0 <= k < |ns| => UnevenReport(ns[k]))
  }

  /** The reports of the errors, each on the string of its row. */
  function AreaReports(ns: seq<Node>, errors: seq<GridAreaError>): (r: seq<Report>)
    requires forall k :: 0 <= k < |errors| ==> errors[k].row < |ns|
    ensures |r| == |errors| && forall k :: 0 <= k < |errors| ==> r[k] == AreaReport(ns[errors[k].row], errors[k].name)
  {
    seq(|errors|, k requires 0 <= k < |errors| => AreaReport(ns[errors[k].row], errors[k].name))
  }

  /** Every error names a row of the grid. */
  lemma ErrorRowsInRange(grid: seq<seq<string>>)
    ensures forall k :: 0 <= k < |NonRectangularAreas(grid)| ==> NonRectangularAreas(grid)[k].row < |grid|
  {
    forall k | 0 <= k < |NonRectangularAreas(grid)| ensures NonRectangularAreas(grid)[k].row < |grid| {
      NonRectangularIff(grid, NonRectangularAreas(grid)[k]);
    }
  }

  /** The reports for the strings of a checked declaration: blanks first, else uneven rows, else the errors. */
  function StringReports(gs: seq<GridString>): seq<Report>
  {
    if gs == [] then []
    else if BlankStrings(gs) != [] then EmptyReports(BlankStrings(gs))
    else if UnevenStrings(gs, |gs[0].cells|) != [] then UnevenReports(UnevenStrings(gs, |gs[0].cells|))
    else
      RowPerString(gs);
      ErrorRowsInRange(GridRows(gs));
      AreaReports(StringNodesOf(gs), NonRectangularAreas(GridRows(gs)))
  }

  /** With no blank and no uneven string, the reports are those of the areas that are not rectangles. */
  lemma AreasReported(gs: seq<GridString>)
    requires gs != [] && BlankStrings(gs) == [] && UnevenStrings(gs, |gs[0].cells|) == []
    ensures |GridRows(gs)| == |gs|
    ensures forall k :: 0 <= k < |NonRectangularAreas(GridRows(gs))| ==> NonRectangularAreas(GridRows(gs))[k].row < |gs|
    ensures StringReports(gs) == AreaReports(StringNodesOf(gs), NonRectangularAreas(GridRows(gs)))
  {
    RowPerString(gs);
    ErrorRowsInRange(GridRows(gs));
  }

  /** The first two branches of `StringReports`, and the first row once no string is blank. */
  lemma StringReportsCases(gs: seq<GridString>)
    requires gs != []
    ensures BlankStrings(gs) != [] ==> StringReports(gs) == EmptyReports(BlankStrings(gs))
    ensures BlankStrings(gs) == [] ==> GridRows(gs) != [] && GridRows(gs)[0] == gs[0].cells
    ensures BlankStrings(gs) == [] && UnevenStrings(gs, |gs[0].cells|) != [] ==> StringReports(gs) == UnevenReports(UnevenStrings(gs, |gs[0].cells|))
  {
    if BlankStrings(gs) == [] {
      RowPerString(gs);
    }
  }

  /** The reports the rule makes for one node of the walk. */
  function GridReports(d: Node): seq<Report>
  {
    if !IsGridDeclaration(d) then [] else StringReports(ParseStrings(StringNodes(d)))
  }

  /** `for (const node of emptyNodes) context.report(...)`. */
  method ReportEmpty(emptyNodes: seq<Node>) returns (reports: seq<Report>)
    ensures reports == EmptyReports(emptyNodes)
  {
    reports := [];
    for k := 0 to |emptyNodes|
      invariant |reports| == k
      invariant forall j :: 0 <= j < k ==> reports[j] == EmptyReport(emptyNodes[j])
    {
      reports := reports + [EmptyReport(emptyNodes[k])];
    }
  }

  /** `for (const node of unevenNodes) context.report(...)`. */
  method ReportUneven(unevenNodes: seq<Node>) returns (reports: seq<Report>)
    ensures reports == UnevenReports(unevenNodes)
  {
    reports := [];
    for k := 0 to |unevenNodes|
      invariant |reports| == k
      invariant forall j :: 0 <= j < k ==> reports[j] == UnevenReport(unevenNodes[j])
    {
      reports := reports + [UnevenReport(unevenNodes[k])];
    }
  }

  /** The loop over the errors: each is reported on the string of its row. */
  method ReportAreas(stringNodes: seq<Node>, errors: seq<GridAreaError>) returns (reports: seq<Report>)
    requires forall k :: 0 <= k < |errors| ==> errors[k].row < |stringNodes|
    ensures reports == AreaReports(stringNodes, errors)
  {
    reports := [];
    for k := 0 to |errors|
      invariant |reports| == k
      invariant forall j :: 0 <= j < k ==> reports[j] == AreaReport(stringNodes[errors[j].row], errors[j].name)
    {
      var stringNode := stringNodes[errors[k].row];
      reports := reports + [AreaReport(stringNode, errors[k].name)];
    }
  }

  /** The walk callback on a declaration: the strings of a grid-template declaration are checked. */
  method CheckDeclaration(d: Node) returns (reports: seq<Report>)
    ensures reports == GridReports(d)
  {
    if !IsGridDeclaration(d) {
      return [];
    }
    var stringNodes := OfType(d.value.value.children, StringNode);
    reports := CheckStrings(stringNodes);
  }

  /** Build the rows, then report blanks, else uneven rows, else the areas that are not rectangles. */
  method CheckStrings(stringNodes: seq<Node>) returns (reports: seq<Report>)
    ensures reports == StringReports(ParseStrings(stringNodes))
  {
    ghost var gs := ParseStrings(stringNodes);
    if |stringNodes| == 0 {
      return [];
    }
    var grid, emptyNodes, unevenNodes := BuildGrid(stringNodes);
    StringReportsCases(gs);
    if |emptyNodes| > 0 {
      reports := ReportEmpty(emptyNodes);
      return;
    }
    if |unevenNodes| > 0 {
      reports := ReportUneven(unevenNodes);
      return;
    }
    var nonRectErrors := FindNonRectangularAreas(grid);
    assert StringNodesOf(gs) == stringNodes;
    AreasReported(gs);
    reports := ReportAreas(stringNodes, nonRectErrors);
  }

  /** The `StyleSheet` visitor: the callback on every node of the walk. */
  function Check(root: Node): seq<Report>
  {
    ConcatMap(Nodes(root), GridReports)
  }

  // ---------------------------------------------------------------------
  // What the reports mean

  /** With a blank string, each blank string gets one `emptyGridArea` and nothing else is reported. */
  lemma BlankStringsFirst(gs: seq<GridString>)
    requires BlankStrings(gs) != []
    ensures forall k :: 0 <= k < |gs| && gs[k].blank ==> EmptyReport(gs[k].node) in StringReports(gs)
    ensures forall r :: r in StringReports(gs) ==> exists k :: 0 <= k < |gs| && gs[k].blank && r == EmptyReport(gs[k].node)
  {
    var bs := BlankStrings(gs);
    BlankStringsMembers(gs);
    assert gs != [];
    assert StringReports(gs) == EmptyReports(bs);
    forall k | 0 <= k < |gs| && gs[k].blank ensures EmptyReport(gs[k].node) in StringReports(gs) {
      var i :| 0 <= i < |bs| && bs[i] == gs[k].node;
      assert StringReports(gs)[i] == EmptyReport(gs[k].node);
    }
    forall r | r in StringReports(gs) ensures exists k :: 0 <= k < |gs| && gs[k].blank && r == EmptyReport(gs[k].node) {
      var i :| 0 <= i < |StringReports(gs)| && StringReports(gs)[i] == r;
      assert bs[i] in bs;
    }
  }

  /** Without blank strings but with an uneven string, the reports are those of the uneven strings. */
  lemma UnevenGridReports(gs: seq<GridString>)
    requires gs != [] && BlankStrings(gs) == []
    requires UnevenStrings(gs, |gs[0].cells|) != []
    ensures StringReports(gs) == UnevenReports(UnevenStrings(gs, |gs[0].cells|))
  {
    RowPerString(gs);
  }

  /**
   * Without blank strings, a string whose row has another number of cells
   * than the first string's gets `unevenGridArea`, and then only such
   * strings are reported.
   */
  lemma UnevenRowsNext(gs: seq<GridString>, k: nat)
    requires BlankStrings(gs) == [] && k < |gs| && |gs[k].cells| != |gs[0].cells|
    ensures UnevenReport(gs[k].node) in StringReports(gs)
    ensures forall r :: r in StringReports(gs) ==>
      exists m :: 0 <= m < |gs| && |gs[m].cells| != |gs[0].cells| && r == UnevenReport(gs[m].node)
  {
    var us := UnevenStrings(gs, |gs[0].cells|);
    RowPerString(gs);
    UnevenStringsMembers(gs, |gs[0].cells|);
    UnevenGridReports(gs);
    var i :| 0 <= i < |us| && us[i] == gs[k].node;
    assert StringReports(gs)[i] == UnevenReport(gs[k].node);
    forall r | r in StringReports(gs)
      ensures exists m :: 0 <= m < |gs| && |gs[m].cells| != |gs[0].cells| && r == UnevenReport(gs[m].node)
    {
      var j :| 0 <= j < |StringReports(gs)| && StringReports(gs)[j] == r;
      assert us[j] in us;
    }
  }

  /** For an even grid without blank strings, the reports are the errors of the grid, each on the string of its row. */
  lemma EvenGridReports(gs: seq<GridString>)
    requires gs != [] && BlankStrings(gs) == [] && UnevenStrings(gs, |gs[0].cells|) == []
    ensures |StringReports(gs)| == |NonRectangularAreas(GridRows(gs))|
    ensures forall j :: 0 <= j < |StringReports(gs)| ==>
      NonRectangularAreas(GridRows(gs))[j].row < |gs| &&
      StringReports(gs)[j] == AreaReport(gs[NonRectangularAreas(GridRows(gs))[j].row].node, NonRectangularAreas(GridRows(gs))[j].name)
  {
    RowPerString(gs);
    ErrorRowsInRange(GridRows(gs));
    var errors := NonRectangularAreas(GridRows(gs));
    var ns := StringNodesOf(gs);
    assert StringReports(gs) == AreaReports(ns, errors);
    forall j | 0 <= j < |errors|
      ensures errors[j].row < |gs| && StringReports(gs)[j] == AreaReport(gs[errors[j].row].node, errors[j].name)
    {
      assert ns[errors[j].row] == gs[errors[j].row].node;
    }
  }

  /**
   * Without blank strings, `name` is an error of row `k` exactly when it is
   * not a null cell, `k` is a string of the value, and an earlier string
   * holds `name` at other positions than string `k` does.
   */
  lemma AreaErrorIff(gs: seq<GridString>, name: string, k: nat)
    requires BlankStrings(gs) == []
    ensures (GridAreaError(name, k) in NonRectangularAreas(GridRows(gs))
      <==> (!IsNullCell(name) && k < |gs|
            && exists q :: 0 <= q < k && Differ(Columns(gs[q].cells, name, 0), Columns(gs[k].cells, name, 0))))
  {
    RowPerString(gs);
    NonRectangularIff(GridRows(gs), GridAreaError(name, k));
  }
}
