/** A worksheet as the formatter changes it in place, and the formatting
    pass over it, written as the loops of `format_workbook`. Each step is
    proved against the rules, and the whole pass against FormatSpec. */
module Worksheet {
  import opened Wrappers
  import opened PyStr
  import opened Cells
  import opened Rules
  import opened Formatting

  class Sheet {
    /** The cells; `cells[r - 1, c - 1]` is the cell at row r, column c.
        The grid's dimensions are the sheet's max_row and max_column. */
    const cells: array2<Cell>
    /** Row-height overrides, by row number. */
    var rowHeights: map<int, nat>
    /** Column widths, by column number. */
    var widths: map<int, nat>
    var protection: SheetProtection
    /** The data validations attached to the sheet, in the order added. */
    var validations: seq<DataValidation>
    var view: View

    constructor (cells: array2<Cell>, rowHeights: map<int, nat>, widths: map<int, nat>,
                 protection: SheetProtection, validations: seq<DataValidation>, view: View)
      requires cells.Length0 >= 1 && cells.Length1 >= 1
      ensures Valid()
      ensures this.cells == cells && this.rowHeights == rowHeights && this.widths == widths
      ensures this.protection == protection && this.validations == validations && this.view == view
    {
      this.cells := cells;
      this.rowHeights := rowHeights;
      this.widths := widths;
      this.protection := protection;
      this.validations := validations;
      this.view := view;
    }

    /** A worksheet always has at least one row and one column. */
    ghost predicate Valid()
    {
      cells.Length0 >= 1 && cells.Length1 >= 1
    }

    function MaxRow(): nat { cells.Length0 }

    function MaxColumn(): nat { cells.Length1 }

    /** The cells as a grid of values. */
    ghost function Grid(): (g: Grid)
      reads cells
      ensures |g| == cells.Length0
      ensures forall r :: 0 <= r < |g| ==> |g[r]| == cells.Length1
      ensures forall r, c :: 0 <= r < cells.Length0 && 0 <= c < cells.Length1 ==> g[r][c] == cells[r, c]
    {
      seq(cells.Length0, r requires 0 <= r < cells.Length0 reads cells =>
        seq(cells.Length1, c requires 0 <= c < cells.Length1 reads cells => cells[r, c]))
    }

    /** The sheet's whole state as a value. */
    ghost function State(): (st: SheetState)
      reads this, cells
      ensures st.grid == Grid()
      ensures Valid() ==> Rectangular(st.grid)
    {
      SheetState(Grid(), rowHeights, widths, protection, validations, view)
    }

    /** The status column: the first column of row 1 whose value marks it,
        scanning left to right and stopping at the first hit; None when
        there is none. */
    method FindSplitColumn() returns (split: Option<nat>)
      requires Valid()
      ensures split == SplitColumn(Grid())
    {
      ghost var header := HeaderValues(Grid());
      var col := 1;
      while col <= MaxColumn()
        invariant 1 <= col <= MaxColumn() + 1
        invariant forall i :: 0 <= i < col - 1 ==> !IsMarkerHeader(header[i])
      {
        var value := cells[0, col - 1].value;
        if IsMarkerHeader(value) {
          return Some(col);
        }
        col := col + 1;
      }
      return None;
    }

    /** The length of the longest line of any truthy value in column `col`,
        rows 1..max_row (0 if there is none). */
    method ColumnMaxLength(col: int) returns (maxLength: nat)
      requires Valid() && 1 <= col <= MaxColumn()
      ensures maxLength == ColumnMaxLen(Grid(), col)
    {
      ghost var column := ColumnValues(Grid(), col);
      maxLength := 0;
      var row := 1;
      while row <= MaxRow()
        invariant 1 <= row <= MaxRow() + 1
        invariant maxLength == MaxCellLen(column[..row - 1])
      {
        var value := cells[row - 1, col - 1].value;
        ghost var seen := MaxCellLen(column[..row - 1]);
        if Truthy(value) {
          var lines := Lines(Str(value));
          var i := 0;
          while i < |lines|
            invariant 0 <= i <= |lines|
            invariant maxLength == Max(seen, MaxLength(lines[..i]))
          {
            if |lines[i]| > maxLength {
              maxLength := |lines[i]|;
            }
            assert lines[..i + 1][..i] == lines[..i];
            i := i + 1;
          }
          assert lines[..i] == lines;
        }
        assert column[..row][..row - 1] == column[..row - 1];
        row := row + 1;
      }
      assert column[..row - 1] == column;
    }

    /** `max_lengths`: for each column 1..max_column, the length of its
        longest line. */
    method ColumnMaxLengths() returns (maxLengths: map<int, nat>)
      requires Valid()
      ensures maxLengths == MaxLengths(Grid())
    {
      ghost var grid := Grid();
      assert Rectangular(grid) && |grid[0]| == MaxColumn();
      maxLengths := map[];
      var col := 1;
      while col <= MaxColumn()
        invariant 1 <= col <= MaxColumn() + 1
        invariant forall c :: c in maxLengths <==> 1 <= c < col
        invariant forall c :: c in maxLengths ==> maxLengths[c] == ColumnMaxLen(grid, c)
      {
        var maxLength := ColumnMaxLength(col);
        maxLengths := maxLengths[col := maxLength];
        col := col + 1;
      }
      assert maxLengths == MaxLengths(grid);
    }

    /** Every row override of rows 1..max_row is dropped, and every cell is
        styled by StyleCell for status column `split`. */
    method StyleCells(split: nat)
      requires Valid()
      modifies this`rowHeights, cells
      ensures forall r, c :: 0 <= r < MaxRow() && 0 <= c < MaxColumn() ==>
        cells[r, c] == StyleCell(old(cells[r, c]), r + 1, c + 1, split)
      ensures rowHeights == WithoutRows(old(rowHeights), MaxRow())
    {
      var row := 1;
      while row <= MaxRow()
        invariant 1 <= row <= MaxRow() + 1
        invariant forall r, c :: 0 <= r < row - 1 && 0 <= c < MaxColumn() ==>
          cells[r, c] == StyleCell(old(cells[r, c]), r + 1, c + 1, split)
        invariant forall r, c :: row - 1 <= r < MaxRow() && 0 <= c < MaxColumn() ==>
          cells[r, c] == old(cells[r, c])
        invariant rowHeights == WithoutRows(old(rowHeights), row - 1)
      {
        if row in rowHeights {
          rowHeights := rowHeights - {row};
        }
        assert rowHeights == WithoutRows(old(rowHeights), row);
        var i := row - 1;
        var col := 1;
        while col <= MaxColumn()
          modifies cells
          invariant 1 <= col <= MaxColumn() + 1
          invariant forall r, c :: 0 <= r < row - 1 && 0 <= c < MaxColumn() ==>
            cells[r, c] == StyleCell(old(cells[r, c]), r + 1, c + 1, split)
          invariant forall c :: 0 <= c < col - 1 ==> cells[i, c] == StyleCell(old(cells[i, c]), row, c + 1, split)
          invariant forall c :: col - 1 <= c < MaxColumn() ==> cells[i, c] == old(cells[i, c])
          invariant forall r, c :: row <= r < MaxRow() && 0 <= c < MaxColumn() ==>
            cells[r, c] == old(cells[r, c])
        {
          cells[i, col - 1] := StyleCell(cells[i, col - 1], row, col, split);
          col := col + 1;
        }
        row := row + 1;
      }
    }

    /** Column c of 1..max_column gets ColumnWidth(c, maxLengths[c]); other
        columns keep their widths. */
    method SetColumnWidths(maxLengths: map<int, nat>)
      requires forall c :: 1 <= c <= MaxColumn() ==> c in maxLengths
      modifies this`widths
      ensures widths == old(widths) + WidthsFor(MaxColumn(), maxLengths)
    {
      var col := 1;
      while col <= MaxColumn()
        invariant 1 <= col <= MaxColumn() + 1
        invariant widths == old(widths) + map c: int | 1 <= c < col :: ColumnWidth(c, maxLengths[c])
      {
        widths := widths[col := ColumnWidth(col, maxLengths[col])];
        col := col + 1;
      }
    }

    /** Formats the sheet in place. The result is the status column found,
        or None when the sheet has none and was skipped. */
    method Format() returns (marker: Option<nat>)
      requires Valid()
      modifies this, cells
      ensures marker == SplitColumn(old(State()).grid)
      ensures State() == FormatSpec(old(State()))
    {
      ghost var before := State();
      marker := FindSplitColumn();
      if marker.None? {
        return;
      }
      var split := marker.value;
      validations := validations + [StatusValidation(split, MaxRow())];
      protection := SheetProtection(true, Password);
      var maxLengths := ColumnMaxLengths();
      assert Grid() == before.grid;
      StyleCells(split);
      SetColumnWidths(maxLengths);
      view := Normal;

      FormatSpecMarked(before);
      assert Grid() == StyledGrid(before.grid, split) by {
        var g, want := Grid(), StyledGrid(before.grid, split);
        forall r | 0 <= r < MaxRow()
          ensures g[r] == want[r]
        {
          assert forall c :: 0 <= c < MaxColumn() ==> g[r][c] == want[r][c];
        }
      }
    }
  }

  /** `format_workbook`'s loop over the sheets of a workbook: each sheet is
      formatted in turn, independently of the others. */
  method FormatWorkbook(sheets: seq<Sheet>) returns (markers: seq<Option<nat>>)
    requires forall i :: 0 <= i < |sheets| ==> sheets[i].Valid()
    requires forall i, j :: 0 <= i < |sheets| && 0 <= j < |sheets| && i != j ==> sheets[i] != sheets[j] && sheets[i].cells != sheets[j].cells
    modifies set i | 0 <= i < |sheets| :: sheets[i]
    modifies set i | 0 <= i < |sheets| :: sheets[i].cells
    ensures |markers| == |sheets|
    ensures forall i :: 0 <= i < |sheets| ==> markers[i] == SplitColumn(old(sheets[i].State()).grid)
    ensures forall i :: 0 <= i < |sheets| ==> sheets[i].State() == FormatSpec(old(sheets[i].State()))
  {
    ghost var before := seq(|sheets|, i requires 0 <= i < |sheets| reads sheets, set j | 0 <= j < |sheets| :: sheets[j].cells => sheets[i].State());
    ghost var after := seq(|sheets|, i requires 0 <= i < |sheets| => FormatSpec(before[i]));
    markers := [];
    var k := 0;
    while k < |sheets|
      invariant 0 <= k <= |sheets|
      invariant |markers| == k
      invariant forall i :: 0 <= i < k ==> markers[i] == SplitColumn(before[i].grid)
      invariant forall i :: 0 <= i < |sheets| ==> sheets[i].State() == if i < k then after[i] else before[i]
    {
      var marker := sheets[k].Format();
      markers := markers + [marker];
      k := k + 1;
    }
  }
}
