module Wrappers {
  datatype Option<+T> = None | Some(value: T)
}

/** A worksheet cell: its value and the three style attributes the
    formatter assigns (fill, protection, alignment). */
module Cells {

  /** A cell value. `Blank` is an empty cell (Python `None`); `Text` a string;
      `Other` any other value (number, date, boolean) given by what `str()`
      renders for it and by its Python truthiness (`0` and `False` are falsy). */
  datatype CellValue = Blank | Text(s: string) | Other(rendering: string, truthy: bool)

  /** Python truthiness of a cell value, as tested by `if cell.value:`. */
  predicate Truthy(v: CellValue)
  {
    match v
    case Blank => false
    case Text(s) => s != []
    case Other(_, t) => t
  }

  /** `str(cell.value)`. */
  function Str(v: CellValue): string
  {
    match v
    case Blank => "None"
    case Text(s) => s
    case Other(r, _) => r
  }

  /** A cell background: none, or a solid pattern of one RGB colour. */
  datatype Fill = NoFill | Solid(rgb: string)

  const HeaderGray: Fill := Solid("D9D9D9")
  const ContentGray: Fill := Solid("F2F2F2")
  const Yellow: Fill := Solid("FFEB9C")

  /** Per-cell protection; it takes effect only on a protected sheet. */
  datatype Protection = Protection(locked: bool, hidden: bool)

  /** `Protection(locked=b)`: the hidden flag takes its default, off. */
  function LockedAs(b: bool): Protection { Protection(b, false) }

  datatype Vertical = VerticalUnset | Top | Center | Bottom | Justify | Distributed

  /** Cell alignment, reduced to the two attributes the formatter sets. */
  datatype Alignment = Alignment(wrapText: bool, vertical: Vertical)

  /** `Alignment(wrap_text=True, vertical='center')`. */
  const WrapCentered: Alignment := Alignment(true, Center)

  datatype Cell = Cell(value: CellValue, fill: Fill, protection: Protection, alignment: Alignment)
}
