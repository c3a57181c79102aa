/** One grid square: position, colour, shape and knowledge state. */
module Cells {
  import opened Wrappers
  import opened Traits

  datatype CellState = Eliminated | Retained | Unknown | Correct

  /** `row` is a letter 'A'..'R'; `col` is the 0-based column. */
  datatype Cell = Cell(row: char, col: int, color: string, shape: string, state: CellState)

  datatype CellError = InvalidColor(color: string) | InvalidShape(shape: string)

  /** Cell construction: the colour is checked before the shape, and
      nothing else is validated. */
  function NewCell(row: char, col: int, color: string, shape: string,
                   state: CellState := Unknown): (r: Result<Cell, CellError>)
    ensures r.Ok? <==> IsColor(color) && IsShape(shape)
    ensures !IsColor(color) ==> r == Err(InvalidColor(color))
    ensures IsColor(color) && !IsShape(shape) ==> r == Err(InvalidShape(shape))
    ensures r.Ok? ==> r.value.row == row && r.value.col == col && r.value.color == color
                      && r.value.shape == shape && r.value.state == state
  {
    if color !in Colors then Err(InvalidColor(color))
    else if shape !in Shapes then Err(InvalidShape(shape))
    else Ok(Cell(row, col, color, shape, state))
  }

  /** The value a cell has in dimension `dim`. */
  function TraitOf(c: Cell, dim: string): Value
    requires dim in Dims
  {
    if dim == "colors" then Word(c.color)
    else if dim == "shapes" then Word(c.shape)
    else if dim == "rows" then Letter(c.row)
    else Number(c.col)
  }

  /** The selection test of the board's cell update: the cell carries
      `value` in dimension `dim`. An unknown dimension name selects nothing. */
  function Carries(c: Cell, dim: string, value: Value): (b: bool)
    ensures b <==> dim in Dims && TraitOf(c, dim) == value
  {
    (dim == "colors" && Word(c.color) == value) ||
    (dim == "shapes" && Word(c.shape) == value) ||
    (dim == "rows" && Letter(c.row) == value) ||
    (dim == "cols" && Number(c.col) == value)
  }

  /** A trait value tagged with its dimension. */
  datatype Trait = Trait(value: Value, dim: string)

  /** The guessed cell's four traits in the order the board visits them:
      colour, shape, row, column. */
  function GuessTraits(c: Cell): (ts: seq<Trait>)
    ensures |ts| == |DimOrder|
    ensures forall i :: 0 <= i < |ts| ==> ts[i].dim == DimOrder[i] && ts[i].dim in Dims
    ensures forall i :: 0 <= i < |ts| ==> Carries(c, ts[i].dim, ts[i].value)
  {
    [Trait(Word(c.color), "colors"), Trait(Word(c.shape), "shapes"),
     Trait(Letter(c.row), "rows"), Trait(Number(c.col), "cols")]
  }

  /** Two cells agree on every trait (they may differ in state). */
  predicate SamePlace(a: Cell, b: Cell) {
    a.row == b.row && a.col == b.col && a.color == b.color && a.shape == b.shape
  }
}
