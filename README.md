# Excel sheet formatter, modelled in Dafny

The formatter opens a workbook and, sheet by sheet, looks in row 1 for the
status column: the first header whose text (newlines removed) contains the
phrase "是否使用（必填）". A sheet without one is skipped with a warning.
On a sheet with one, the formatter does the following in order:

- gives rows 2..max_row of the status column a dropdown of three statuses
  ("使用", "禁用（注销）", "已调离本单位") or a blank;
- protects the sheet with a fixed password;
- measures the longest line in every column;
- styles every cell. Cells left of the status column are grey and locked.
  The headers from the status column on are yellow and locked. Their data
  cells stay editable. Every cell wraps and is centred vertically;
- drops the row settings (modelled by their height overrides) of rows 1..max_row;
- sets every column's width from its longest line. Column 1 gets exactly
  that length plus 2, and the others are clamped to [8, 50];
- switches the sheet to the normal view.

The model has five modules:

- `PyStr` holds the Python string operations the formatter uses, on
  `seq<char>`: `split('\n')`, `'\n'.join`, `replace('\n', '')`, substring
  `in`, and the longest line of a text.
- `Cells` holds cell values, with Python truthiness and `str()`, and the
  fill, protection and alignment styles.
- `Rules` holds the pure per-item rules: which header marks the status
  column, a column's longest line, a column's width, a cell's style, and the
  status dropdown.
- `Formatting` holds `FormatSpec`, the whole effect of formatting one
  sheet as a function from its state before to its state after, and the
  lemmas about it (idempotence among them).
- `Worksheet` holds `Sheet`, a class whose cells are an `array2` changed in
  place and whose other settings are fields. Its methods keep the loops of
  `format_workbook`. `Sheet.Format` is proved to leave the sheet in
  `FormatSpec` of its old state, and `FormatWorkbook` does the same for
  every sheet of a workbook.

## Model

| member | source | states |
|---|---|---|
| PyStr.Lines | main.py:81 | `split('\n')` always yields at least one piece |
| PyStr.LinesHaveNoNewline | main.py:81 | no piece of `split('\n')` contains a newline |
| PyStr.JoinLines | main.py:81 | joining the pieces of `split('\n')` with newlines gives the text back |
| PyStr.LinesOfJoin | main.py:81 | splitting a newline join of newline-free pieces gives exactly those pieces, so split and join are inverses |
| PyStr.RemoveNewlines | main.py:31 | `replace('\n', '')` leaves no newline and never lengthens the text |
| PyStr.RemoveNewlinesIsConcatOfLines | main.py:31 | removing the newlines gives the pieces of `split('\n')` run together |
| PyStr.ContainsIffOccurs | main.py:31 | `sub in s` holds exactly when `sub` occurs at some index of `s` |
| PyStr.FoundAfterRemovingNewlines | main.py:31 | a newline-free phrase placed anywhere in a text is still found once the text's newlines are removed |
| PyStr.MaxLength | main.py:82-84 | no string is longer than the maximum, and no strings give 0 |
| PyStr.MaxLengthAttained | main.py:82-84 | the maximum over a non-empty list is the length of one of its strings |
| PyStr.LongestLineBound | main.py:81-84 | the longest line is no longer than the text, and equals it exactly when the text holds no newline |
| Rules.FirstMarker | main.py:28-33 | the status column is a marking header with no marking header to its left; None exactly when no header of row 1 marks |
| Rules.MarkerAnywhere | main.py:31 | any string header holding the phrase marks, whatever surrounds it and wherever newlines fall outside it |
| Rules.CellLineLenIsLongest | main.py:79-84 | a falsy cell counts 0; a truthy cell counts the length of its longest line, which bounds every line and is attained by one |
| Rules.MaxCellLenIsMax | main.py:76-84 | a column's maximum bounds every cell's count and is 0 or the count of some truthy cell |
| Rules.ColumnWidth | main.py:116-122 | column 1 is its longest line plus 2; every other column lies in [8, 50], is its longest line plus 2 exactly when that line is 6..48 long, 8 below and 50 above |
| Rules.StyleCell | main.py:97-110 | the value is kept; the cell wraps and is centred; it is locked exactly left of the status column or in row 1; it is grey left of the status column (darker in row 1), yellow in row 1 from the status column on, and keeps its fill elsewhere |
| Rules.StyleCellIdempotent | main.py:97-110 | styling a styled cell again changes nothing |
| Rules.StatusValidation | main.py:40-64 | the dropdown covers exactly rows 2..max_row of the status column and admits a blank or exactly one of the three statuses |
| Formatting.HeaderValues | main.py:29-30 | the header values are row 1's values, one per column |
| Formatting.ColumnValues | main.py:77-79 | a column's values are its cells' values, one per row |
| Formatting.WithoutRows | main.py:88-91 | exactly the overrides of rows outside 1..max_row remain, unchanged |
| Formatting.StyledGrid | main.py:88-110 | the grid keeps its shape and every cell is styled by its row and column |
| Formatting.MaxLengths | main.py:74-85 | `max_lengths` has exactly the keys 1..max_column, each holding its column's longest line |
| Formatting.WidthsFor | main.py:113-123 | exactly columns 1..max_column get a width, each from its own longest line |
| Formatting.FormatSpec | main.py:27-126 | formatting keeps max_row and max_column |
| Formatting.UnmarkedSheetUntouched | main.py:35-37 | a sheet without a status column is left exactly as it was |
| Formatting.FormatKeepsValues | main.py:88-110 | formatting changes no cell value |
| Formatting.FormattedCellStyle | main.py:88-110 | each formatted cell's alignment, lock and fill, by its row and its column's side of the status column |
| Formatting.FormattedWidths | main.py:113-123 | each column 1..max_column gets exactly `ColumnWidth` of its own longest line (plus 2 for column 1, plus 2 clamped to [8, 50] for the others), and columns past max_column keep their widths |
| Formatting.FormattedWidthBounds | main.py:116-122 | after formatting, column 1's width is its longest line plus 2 and every column of 2..max_column lies in [8, 50] |
| Formatting.FormattedValidation | main.py:59-64 | one dropdown is added after the existing ones; it covers exactly rows 2..max_row of the status column and admits a blank or one of the three statuses |
| Formatting.FormattedProtection | main.py:66-68 | the sheet is protected with the password "E5T647kc" |
| Formatting.FormattedRowHeights | main.py:88-91 | no height override is left on rows 1..max_row, and overrides past max_row are kept |
| Formatting.FormattedView | main.py:125-126 | the sheet is shown in the normal view |
| Formatting.SameValuesSameLayout | main.py:28-85 | the status column and the column widths depend only on the cell values |
| Formatting.StyledGridSameValues | main.py:88-110 | styling keeps the grid's shape and every value |
| Formatting.StyledGridIdempotent | main.py:88-110 | styling a styled grid again changes nothing |
| Formatting.FormatIdempotent | main.py:23-126 | formatting a formatted sheet again keeps its cells, styles, widths, row heights, protection and view; it only adds one more copy of the status dropdown |
| Worksheet.Sheet.FindSplitColumn | main.py:28-33 | the left-to-right scan that stops at the first marking header returns the status column, or None |
| Worksheet.Sheet.ColumnMaxLength | main.py:76-84 | the scan of one column's rows and lines returns that column's longest line |
| Worksheet.Sheet.ColumnMaxLengths | main.py:74-85 | the scan over all columns builds exactly `max_lengths` |
| Worksheet.Sheet.StyleCells | main.py:88-110 | every cell in place becomes its old self styled by its row and column, and the height overrides of rows 1..max_row are dropped |
| Worksheet.Sheet.SetColumnWidths | main.py:113-123 | columns 1..max_column get their computed widths, and the other columns' widths are kept |
| Worksheet.Sheet.Format | main.py:24-126 | the returned status column is that of the old header row, and the sheet's new state is `FormatSpec` of its old one |
| Worksheet.FormatWorkbook | main.py:23-126 | each sheet of the workbook ends in `FormatSpec` of its own old state, and one status column (or None) is returned per sheet |

## Left out

- Loading and saving the workbook (`load_workbook`, `save`) and the batch driver `process_all_files`, with its per-file error handling, are not modelled. They are file I/O. The model starts from the sheets already in memory.
- The console messages are left out. The "no status column" warning becomes the `None` that `Sheet.Format` returns.
- The dropdown's prompt and error titles and texts, and the attributes set twice on it, carry no behaviour the formatter relies on. The model keeps the list type, the three options, blanks allowed, and the cell range.
- Rules.Admits: it states which entries the dropdown accepts, taking as given that the others are rejected. That rejection comes from `showErrorMessage=True` (main.py:44) together with the stop error style (main.py:57); neither flag is a field of the model.
- The dropdown's options are written in the source as the quoted, comma-separated formula `"使用,禁用（注销）,已调离本单位"`. The model holds the three strings that formula lists.
- On a sheet whose only row is the header, the range becomes rows 2..1. The model treats it as covering no cell and goes on formatting the sheet. The spreadsheet library may instead reject such an inverted range with an error, which would abort the whole workbook before it is saved and leave the file unformatted; that library behaviour is not part of this model.
- `get_column_letter` is left out: widths and ranges are keyed by column number. The letter is a one-to-one renaming of that number.
- `PatternFill`, `Protection` and `Alignment` are reduced to a solid fill's colour, the locked and hidden flags, and wrap-text with the vertical alignment. Assigning a new `Alignment` (main.py:97) also resets the cell's horizontal alignment, indent and text rotation, and a new `Protection` resets the hidden flag; the model shows the hidden reset but not the alignment resets.
- A row's dimension entry is reduced to its height override. Deleting it (main.py:90-91) also clears the row's hidden flag, outline level and row style, so hidden rows reappear; the model does not show those.
- `str()` of a value that is not a string is an abstract rendering, and its truthiness is a flag of the value. Numbers, dates and booleans are not modelled further.
- Column widths are whole numbers, as the source computes them. The library's float width type is not modelled.
- The sheet view is reduced to its view mode.
