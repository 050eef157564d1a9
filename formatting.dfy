/** What formatting one worksheet does, as a function from the sheet's state
    before to its state after. The worksheet class is proved to implement it. */
module Formatting {
  import opened Wrappers
  import opened Cells
  import opened Rules

  /** The password the formatter protects every formatted sheet with. */
  const Password: string := "E5T647kc"

  datatype SheetProtection = SheetProtection(sheet: bool, password: string)

  datatype View = Normal | PageLayout | PageBreakPreview

  /** A grid of cells: `grid[r - 1][c - 1]` is the cell at row r, column c. */
  type Grid = seq<seq<Cell>>

  /** A worksheet's grid has max_row rows of max_column cells, both at least
      1 (an empty worksheet still reports one row and one column). */
  predicate Rectangular(grid: Grid)
  {
    |grid| >= 1 && |grid[0]| >= 1 && forall r :: 0 <= r < |grid| ==> |grid[r]| == |grid[0]|
  }

  /** Everything of a worksheet the formatter reads or writes: the cells,
      the row-height overrides and column widths (keyed by row and column
      number), sheet protection, the data validations and the view mode. */
  datatype SheetState = SheetState(
    grid: Grid,
    rowHeights: map<int, nat>,
    widths: map<int, nat>,
    protection: SheetProtection,
    validations: seq<DataValidation>,
    view: View)

  /** The values of row 1. */
  function HeaderValues(grid: Grid): (h: seq<CellValue>)
    requires Rectangular(grid)
    ensures |h| == |grid[0]|
    ensures forall c :: 0 <= c < |h| ==> h[c] == grid[0][c].value
  {
    seq(|grid[0]|, c requires 0 <= c < |grid[0]| => grid[0][c].value)
  }

  /** The values of column `col`, from row 1 down. */
  function ColumnValues(grid: Grid, col: int): (vs: seq<CellValue>)
    requires Rectangular(grid) && 1 <= col <= |grid[0]|
    ensures |vs| == |grid|
    ensures forall r :: 0 <= r < |vs| ==> vs[r] == grid[r][col - 1].value
  {
    seq(|grid|, r requires 0 <= r < |grid| => grid[r][col - 1].value)
  }

  /** The status column of a grid, if its header row has one. */
  function SplitColumn(grid: Grid): Option<nat>
    requires Rectangular(grid)
  {
    FirstMarker(HeaderValues(grid))
  }

  /** The length of the longest line in column `col`. */
  function ColumnMaxLen(grid: Grid, col: int): nat
    requires Rectangular(grid) && 1 <= col <= |grid[0]|
  {
    MaxCellLen(ColumnValues(grid, col))
  }

  /** The row-height overrides left once those of rows 1..`n` are removed. */
  function WithoutRows(heights: map<int, nat>, n: int): (m: map<int, nat>)
    ensures forall k :: k in m <==> k in heights && !(1 <= k <= n)
    ensures forall k :: k in m ==> m[k] == heights[k]
  {
    map k | k in heights && !(1 <= k <= n) :: heights[k]
  }

  /** Every cell of `grid` styled for status column `split`. */
  function StyledGrid(grid: Grid, split: nat): (g: Grid)
    requires Rectangular(grid)
    ensures Rectangular(g) && |g| == |grid| && |g[0]| == |grid[0]|
    ensures forall r, c :: 0 <= r < |grid| && 0 <= c < |grid[0]| ==> g[r][c] == StyleCell(grid[r][c], r + 1, c + 1, split)
  {
    seq(|grid|, r requires 0 <= r < |grid| =>
      seq(|grid[0]|, c requires 0 <= c < |grid[0]| => StyleCell(grid[r][c], r + 1, c + 1, split)))
  }

  /** `max_lengths`: for each column 1..max_column, its longest line. */
  function MaxLengths(grid: Grid): (m: map<int, nat>)
    requires Rectangular(grid)
    ensures forall c :: c in m <==> 1 <= c <= |grid[0]|
    ensures forall c :: c in m ==> m[c] == ColumnMaxLen(grid, c)
  {
    map c: int | 1 <= c <= |grid[0]| :: ColumnMaxLen(grid, c)
  }

  /** The widths of columns 1..`cols` from their longest lines. */
  function WidthsFor(cols: int, maxLengths: map<int, nat>): (w: map<int, nat>)
    requires forall c :: 1 <= c <= cols ==> c in maxLengths
    ensures forall c :: c in w <==> 1 <= c <= cols
    ensures forall c :: c in w ==> w[c] == ColumnWidth(c, maxLengths[c])
  {
    map c: int | 1 <= c <= cols :: ColumnWidth(c, maxLengths[c])
  }

  /** The width of every column 1..max_column, from its longest line. */
  function ColumnWidths(grid: Grid): (w: map<int, nat>)
    requires Rectangular(grid)
  {
    WidthsFor(|grid[0]|, MaxLengths(grid))
  }

  /** The state of a worksheet after formatting. A sheet without a status
      column is left exactly as it was. Otherwise the status column's data
      cells get the status dropdown, the sheet is protected, every cell is
      styled by StyleCell, every row height override of rows 1..max_row is
      removed, every column's width is set from its longest line, and the
      view becomes the normal one. */
  function FormatSpec(st: SheetState): (r: SheetState)
    requires Rectangular(st.grid)
    ensures Rectangular(r.grid) && |r.grid| == |st.grid| && |r.grid[0]| == |st.grid[0]|
  {
    match SplitColumn(st.grid)
    case None => st
    case Some(split) =>
      SheetState(
        StyledGrid(st.grid, split),
        WithoutRows(st.rowHeights, |st.grid|),
        st.widths + ColumnWidths(st.grid),
        SheetProtection(true, Password),
        st.validations + [StatusValidation(split, |st.grid|)],
        Normal)
  }

  /** A sheet whose header row has no status column is not touched. */
  lemma UnmarkedSheetUntouched(st: SheetState)
    requires Rectangular(st.grid) && SplitColumn(st.grid).None?
    ensures FormatSpec(st) == st
  {
  }

  /** Formatting never changes a cell's value. */
  lemma FormatKeepsValues(st: SheetState)
    requires Rectangular(st.grid)
    ensures forall r, c :: 0 <= r < |st.grid| && 0 <= c < |st.grid[0]| ==>
      FormatSpec(st).grid[r][c].value == st.grid[r][c].value
  {
  }

  /** The style of each cell of a formatted sheet: column `col` left of the
      status column `split` is grey and locked; from the status column on,
      the header is yellow and locked and data cells are unlocked with their
      fill kept; every cell wraps and is centred vertically. */
  lemma FormattedCellStyle(st: SheetState, row: int, col: int)
    requires Rectangular(st.grid) && SplitColumn(st.grid).Some?
    requires 1 <= row <= |st.grid| && 1 <= col <= |st.grid[0]|
    ensures var split, before, after := SplitColumn(st.grid).value, st.grid[row - 1][col - 1], FormatSpec(st).grid[row - 1][col - 1];
      && after.alignment == WrapCentered
      && (after.protection.locked <==> col < split || row == 1)
      && (col < split ==> after.fill == if row == 1 then HeaderGray else ContentGray)
      && (col >= split && row == 1 ==> after.fill == Yellow)
      && (col >= split && row >= 2 ==> after.fill == before.fill)
  {
  }

  /** Widths after formatting: each column 1..max_column gets ColumnWidth of
      its longest line, and columns past max_column keep theirs. */
  lemma FormattedWidths(st: SheetState)
    requires Rectangular(st.grid) && SplitColumn(st.grid).Some?
    ensures var w := FormatSpec(st).widths;
      && (forall c :: 1 <= c <= |st.grid[0]| ==> c in w && w[c] == ColumnWidth(c, ColumnMaxLen(st.grid, c)))
      && (forall c :: c in st.widths && !(1 <= c <= |st.grid[0]|) ==> c in w && w[c] == st.widths[c])
  {
    FormatSpecMarked(st);
    MergedWidths(st.widths, ColumnWidths(st.grid), |st.grid[0]|);
  }

  /** So column 1 is its longest line plus 2 and every other column of
      2..max_column lies in [8, 50]. */
  lemma FormattedWidthBounds(st: SheetState)
    requires Rectangular(st.grid) && SplitColumn(st.grid).Some?
    ensures var w := FormatSpec(st).widths;
      && 1 in w && w[1] == ColumnMaxLen(st.grid, 1) + 2
      && (forall c :: 2 <= c <= |st.grid[0]| ==> c in w && 8 <= w[c] <= 50)
  {
    FormattedWidths(st);
  }

  /** Widths `computed` for columns 1..`cols` override the old ones there
      and leave every other column's width alone. */
  lemma MergedWidths(widths: map<int, nat>, computed: map<int, nat>, cols: int)
    requires forall c :: c in computed <==> 1 <= c <= cols
    ensures forall c :: 1 <= c <= cols ==> c in widths + computed && (widths + computed)[c] == computed[c]
    ensures forall c :: c in widths && !(1 <= c <= cols) ==> c in widths + computed && (widths + computed)[c] == widths[c]
  {
  }

  /** A formatted sheet has gained one dropdown, after those it had; it
      covers exactly rows 2..max_row of the status column and admits a blank
      or one of the three statuses. */
  lemma FormattedValidation(st: SheetState)
    requires Rectangular(st.grid) && SplitColumn(st.grid).Some?
    ensures var after, split := FormatSpec(st), SplitColumn(st.grid).value;
      && |after.validations| == |st.validations| + 1
      && after.validations[..|st.validations|] == st.validations
      && (forall row, col :: Covers(after.validations[|st.validations|].range, row, col) <==>
            col == split && 2 <= row <= |st.grid|)
      && (forall v :: Admits(after.validations[|st.validations|], v) <==>
            v == Blank || v == Text(InUse) || v == Text(Disabled) || v == Text(Transferred))
  {
  }

  /** A formatted sheet is protected with the fixed password. */
  lemma FormattedProtection(st: SheetState)
    requires Rectangular(st.grid) && SplitColumn(st.grid).Some?
    ensures FormatSpec(st).protection == SheetProtection(true, Password)
  {
  }

  /** A formatted sheet has no height override left on rows 1..max_row;
      overrides of rows past max_row stay as they were. */
  lemma FormattedRowHeights(st: SheetState)
    requires Rectangular(st.grid) && SplitColumn(st.grid).Some?
    ensures var after := FormatSpec(st).rowHeights;
      && (forall k :: k in after <==> k in st.rowHeights && !(1 <= k <= |st.grid|))
      && (forall k :: k in after ==> after[k] == st.rowHeights[k])
  {
  }

  /** A formatted sheet is shown in the normal view. */
  lemma FormattedView(st: SheetState)
    requires Rectangular(st.grid) && SplitColumn(st.grid).Some?
    ensures FormatSpec(st).view == Normal
  {
  }

  /** A sheet with a status column formats to these six parts. */
  lemma FormatSpecMarked(st: SheetState)
    requires Rectangular(st.grid) && SplitColumn(st.grid).Some?
    ensures var split := SplitColumn(st.grid).value;
      FormatSpec(st) == SheetState(StyledGrid(st.grid, split), WithoutRows(st.rowHeights, |st.grid|),
        st.widths + ColumnWidths(st.grid), SheetProtection(true, Password),
        st.validations + [StatusValidation(split, |st.grid|)], Normal)
  {
  }

  /** Two grids of the same shape holding the same values. */
  predicate SameValues(g1: Grid, g2: Grid)
  {
    && Rectangular(g1) && Rectangular(g2)
    && |g1| == |g2| && |g1[0]| == |g2[0]|
    && forall r, c :: 0 <= r < |g1| && 0 <= c < |g1[0]| ==> g1[r][c].value == g2[r][c].value
  }

  /** Grids with the same values have the same values in each column. */
  lemma SameColumnValues(g1: Grid, g2: Grid, col: int)
    requires SameValues(g1, g2) && 1 <= col <= |g1[0]|
    ensures ColumnValues(g1, col) == ColumnValues(g2, col)
  {
    var a, b := ColumnValues(g1, col), ColumnValues(g2, col);
    assert forall r :: 0 <= r < |a| ==> a[r] == b[r];
  }

  /** The status column and the column widths depend only on the values. */
  lemma SameValuesSameLayout(g1: Grid, g2: Grid)
    requires SameValues(g1, g2)
    ensures SplitColumn(g1) == SplitColumn(g2)
    ensures ColumnWidths(g1) == ColumnWidths(g2)
  {
    var h1, h2 := HeaderValues(g1), HeaderValues(g2);
    assert forall c :: 0 <= c < |h1| ==> h1[c] == h2[c];
    assert h1 == h2;
    var a, b := MaxLengths(g1), MaxLengths(g2);
    forall c | 1 <= c <= |g1[0]|
      ensures ColumnMaxLen(g1, c) == ColumnMaxLen(g2, c)
    {
      SameColumnValues(g1, g2, c);
    }
    assert a == b;
  }

  /** Styling changes no value. */
  lemma StyledGridSameValues(grid: Grid, split: nat)
    requires Rectangular(grid)
    ensures SameValues(StyledGrid(grid, split), grid)
  {
  }

  /** Styling an already styled grid changes nothing. */
  lemma StyledGridIdempotent(grid: Grid, split: nat)
    requires Rectangular(grid)
    ensures StyledGrid(StyledGrid(grid, split), split) == StyledGrid(grid, split)
  {
    var once := StyledGrid(grid, split);
    var twice := StyledGrid(once, split);
    forall r | 0 <= r < |grid|
      ensures twice[r] == once[r]
    {
      forall c | 0 <= c < |grid[0]|
        ensures twice[r][c] == once[r][c]
      {
        StyleCellIdempotent(grid[r][c], r + 1, c + 1, split);
      }
    }
  }

  /** Removing the overrides of rows 1..n a second time changes nothing. */
  lemma WithoutRowsIdempotent(heights: map<int, nat>, n: int)
    ensures WithoutRows(WithoutRows(heights, n), n) == WithoutRows(heights, n)
  {
  }

  /** Setting the same widths a second time changes nothing. */
  lemma SetWidthsIdempotent(widths: map<int, nat>, computed: map<int, nat>)
    ensures (widths + computed) + computed == widths + computed
  {
  }

  /** Formatting a formatted sheet again gives the same cells, styles,
      widths, row heights, protection and view; the only difference is one
      more copy of the status dropdown, since each run adds its own. */
  lemma FormatIdempotent(st: SheetState)
    requires Rectangular(st.grid)
    ensures FormatSpec(FormatSpec(st)).grid == FormatSpec(st).grid
    ensures FormatSpec(FormatSpec(st)).rowHeights == FormatSpec(st).rowHeights
    ensures FormatSpec(FormatSpec(st)).widths == FormatSpec(st).widths
    ensures FormatSpec(FormatSpec(st)).protection == FormatSpec(st).protection
    ensures FormatSpec(FormatSpec(st)).view == FormatSpec(st).view
    ensures SplitColumn(st.grid).None? ==> FormatSpec(FormatSpec(st)).validations == FormatSpec(st).validations
    ensures SplitColumn(st.grid).Some? ==>
      FormatSpec(FormatSpec(st)).validations == FormatSpec(st).validations + [StatusValidation(SplitColumn(st.grid).value, |st.grid|)]
  {
    if SplitColumn(st.grid).Some? {
      var split := SplitColumn(st.grid).value;
      var once := FormatSpec(st);
      FormatSpecMarked(st);
      StyledGridSameValues(st.grid, split);
      SameValuesSameLayout(once.grid, st.grid);
      FormatSpecMarked(once);
      StyledGridIdempotent(st.grid, split);
      WithoutRowsIdempotent(st.rowHeights, |st.grid|);
      SetWidthsIdempotent(st.widths, ColumnWidths(st.grid));
    }
  }
}
