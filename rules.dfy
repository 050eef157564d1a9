/** The pure rules of the formatter: which header marks the status column,
    how long a column's longest line is, how wide a column becomes, how a
    cell is styled, and which dropdown the status column receives. Columns
    and rows are numbered from 1, as in the worksheet. */
module Rules {
  import opened Wrappers
  import opened PyStr
  import opened Cells

  /** The phrase that marks the status ("in use, required") column. */
  const MarkerPhrase: string := "是否使用（必填）"

  /** A row-1 value marks the status column when it is a non-empty string
      that contains the phrase once its newlines are removed. */
  predicate IsMarkerHeader(v: CellValue)
  {
    Truthy(v) && v.Text? && Contains(RemoveNewlines(v.s), MarkerPhrase)
  }

  /** The marker column among the row-1 values `header` (column c is
      `header[c - 1]`): the first one that marks, or None. */
  function FirstMarker(header: seq<CellValue>): (r: Option<nat>)
    ensures r.Some? ==> 1 <= r.value <= |header| && IsMarkerHeader(header[r.value - 1])
    ensures r.Some? ==> forall i :: 0 <= i < r.value - 1 ==> !IsMarkerHeader(header[i])
    ensures r.None? <==> forall i :: 0 <= i < |header| ==> !IsMarkerHeader(header[i])
  {
    if header == [] then None
    else if IsMarkerHeader(header[0]) then Some(1)
    else match FirstMarker(header[1..])
      case None => None
      case Some(c) => Some(c + 1)
  }

  /** The phrase is found anywhere in a header, and newlines anywhere in
      the header do not hide it. */
  lemma MarkerAnywhere(before: string, after: string)
    ensures IsMarkerHeader(Text(before + MarkerPhrase + after))
  {
    assert '\n' !in MarkerPhrase;
    FoundAfterRemovingNewlines(before, MarkerPhrase, after);
    assert |before + MarkerPhrase + after| >= |MarkerPhrase| > 0;
  }

  /** The length of the longest line of a cell, counted only for a truthy
      value; an empty cell counts 0. */
  function CellLineLen(v: CellValue): nat
  {
    if Truthy(v) then LongestLine(Str(v)) else 0
  }

  /** A falsy cell counts 0; a truthy cell counts the length of its longest
      line: no line is longer, and one line is that long. */
  lemma CellLineLenIsLongest(v: CellValue)
    ensures !Truthy(v) ==> CellLineLen(v) == 0
    ensures Truthy(v) ==> forall i :: 0 <= i < |Lines(Str(v))| ==> |Lines(Str(v))[i]| <= CellLineLen(v)
    ensures Truthy(v) ==> exists i :: 0 <= i < |Lines(Str(v))| && |Lines(Str(v))[i]| == CellLineLen(v)
  {
    if Truthy(v) {
      MaxLengthAttained(Lines(Str(v)));
    }
  }

  /** The longest line among the values of one column, scanning the rows
      top to bottom; 0 when no value is truthy. */
  function MaxCellLen(vs: seq<CellValue>): nat
  {
    if vs == [] then 0
    else Max(MaxCellLen(vs[..|vs| - 1]), CellLineLen(vs[|vs| - 1]))
  }

  /** The column maximum bounds every cell's count and, unless it is 0, is
      the count of some truthy cell; so it is 0 exactly when no cell has a
      non-empty line. */
  lemma {:induction false} MaxCellLenIsMax(vs: seq<CellValue>)
    ensures forall r :: 0 <= r < |vs| ==> CellLineLen(vs[r]) <= MaxCellLen(vs)
    ensures MaxCellLen(vs) == 0 || exists r :: 0 <= r < |vs| && Truthy(vs[r]) && CellLineLen(vs[r]) == MaxCellLen(vs)
  {
    if vs != [] {
      var front := vs[..|vs| - 1];
      MaxCellLenIsMax(front);
      assert forall r :: 0 <= r < |front| ==> front[r] == vs[r];
      if MaxCellLen(front) != 0 && MaxCellLen(front) >= CellLineLen(vs[|vs| - 1]) {
        var r :| 0 <= r < |front| && Truthy(front[r]) && CellLineLen(front[r]) == MaxCellLen(front);
        assert vs[r] == front[r];
      }
    }
  }

  function Min(a: nat, b: nat): nat { if a < b then a else b }

  /** The width column `col` gets from the length of its longest line:
      column 1 fits its content exactly, the others are held in [8, 50]. */
  function ColumnWidth(col: int, maxLen: nat): (w: nat)
    ensures col == 1 ==> w == maxLen + 2
    ensures col != 1 ==> 8 <= w <= 50
    ensures col != 1 ==> (w == maxLen + 2 <==> 6 <= maxLen <= 48)
    ensures col != 1 && maxLen < 6 ==> w == 8
    ensures col != 1 && maxLen > 48 ==> w == 50
  {
    if col == 1 then maxLen + 2
    else Max(Min(maxLen + 2, 50), 8)
  }

  /** The style of the cell at (`row`, `col`) once the status column is
      `split`: every cell wraps and is centred vertically; columns left of
      the status column are read-only and grey; the header of the status
      column and the columns after it is yellow and read-only; their data
      cells stay editable and keep their fill. The value never changes. */
  function StyleCell(cell: Cell, row: nat, col: nat, split: nat): (r: Cell)
    requires row >= 1
    ensures r.value == cell.value
    ensures r.alignment == WrapCentered
    ensures r.protection.locked <==> (col < split || row == 1)
    ensures !r.protection.hidden
    ensures col < split && row == 1 ==> r.fill == HeaderGray
    ensures col < split && row >= 2 ==> r.fill == ContentGray
    ensures col >= split && row == 1 ==> r.fill == Yellow
    ensures col >= split && row >= 2 ==> r.fill == cell.fill
  {
    var aligned := cell.(alignment := WrapCentered);
    if col < split then
      aligned.(fill := if row == 1 then HeaderGray else ContentGray, protection := LockedAs(true))
    else if row == 1 then
      aligned.(fill := Yellow, protection := LockedAs(true))
    else
      aligned.(protection := LockedAs(false))
  }

  /** Styling a cell a second time changes nothing. */
  lemma StyleCellIdempotent(cell: Cell, row: nat, col: nat, split: nat)
    requires row >= 1
    ensures StyleCell(StyleCell(cell, row, col, split), row, col, split) == StyleCell(cell, row, col, split)
  {
  }

  /** A rectangle of cells in one column, rows `firstRow`..`lastRow`. */
  datatype CellRange = ColumnRange(col: nat, firstRow: nat, lastRow: nat)

  predicate Covers(range: CellRange, row: int, col: int)
  {
    col == range.col && range.firstRow <= row <= range.lastRow
  }

  /** A list validation: a cell in its range may hold one of the options,
      or stay blank when blanks are allowed. */
  datatype DataValidation = ListValidation(options: seq<string>, allowBlank: bool, range: CellRange)

  predicate Admits(dv: DataValidation, v: CellValue)
  {
    (v.Blank? && dv.allowBlank) || (v.Text? && v.s in dv.options)
  }

  const InUse: string := "使用"
  const Disabled: string := "禁用（注销）"
  const Transferred: string := "已调离本单位"

  /** The dropdown on the status column: rows 2 to `maxRow` of column
      `col`, admitting a blank or exactly one of the three statuses. */
  function StatusValidation(col: nat, maxRow: nat): (dv: DataValidation)
    ensures forall row, c :: Covers(dv.range, row, c) <==> c == col && 2 <= row <= maxRow
    ensures forall v :: Admits(dv, v) <==> v == Blank || v == Text(InUse) || v == Text(Disabled) || v == Text(Transferred)
  {
    ListValidation([InUse, Disabled, Transferred], true, ColumnRange(col, 2, maxRow))
  }
}
