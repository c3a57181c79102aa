/** The game: the board, the secret answer and the history of guesses. */
module Games {
  import opened Wrappers
  import opened Traits
  import opened Cells
  import opened Knowledge
  import opened Boards

  /** The letter of grid row `k`, counting from 0. */
  function RowLetter(k: int): char
    requires 0 <= k < BoardSize
  {
    (('A' as int) + k) as char
  }

  predicate IsRow(row: char) { 'A' <= row <= 'R' }

  /** Columns are numbered from 1 at the game's interface. */
  predicate IsColumn(col: int) { 1 <= col <= BoardSize }

  /** The cells in row-major order: the cell at index `i` is in row
      `RowLetter(i / 18)` and, counting from 0, column `i % 18`. */
  predicate Layout(cs: seq<Cell>) {
    |cs| == BoardSize * BoardSize &&
    forall i :: 0 <= i < |cs| ==> cs[i].row == RowLetter(i / BoardSize) && cs[i].col == i % BoardSize
  }

  /** Changing only cell states keeps the layout. */
  lemma LayoutKept(a: seq<Cell>, b: seq<Cell>)
    requires Layout(a) && SamePlaces(a, b)
    ensures Layout(b)
  {
    forall i | 0 <= i < |b| ensures b[i].row == RowLetter(i / BoardSize) && b[i].col == i % BoardSize {
      assert SamePlace(a[i], b[i]);
    }
  }

  /** The index in the cell list of the square at `row` and 1-based column
      `col`; the row and the 0-based column are recovered by division. */
  function CellIndex(row: char, col: int): (n: int)
    requires IsRow(row) && IsColumn(col)
    ensures 0 <= n < BoardSize * BoardSize
    ensures RowLetter(n / BoardSize) == row && n % BoardSize == col - 1
  {
    (row as int - 'A' as int) * BoardSize + (col - 1)
  }

  /** On a row-major board, the cell at `CellIndex(row, col)` is the only
      one in row `row` and 0-based column `col - 1`. */
  lemma PlaceIndex(cs: seq<Cell>, row: char, col: int, p: int)
    requires Layout(cs) && IsRow(row) && IsColumn(col) && 0 <= p < |cs|
    ensures cs[p].row == row && cs[p].col == col - 1 <==> p == CellIndex(row, col)
  {
    if cs[p].row == row && cs[p].col == col - 1 {
      var q := p / BoardSize;
      assert RowLetter(q) == row;
      assert q == row as int - 'A' as int;
      assert p == q * BoardSize + p % BoardSize;
    }
  }

  /** The outcome test of an informational guess: the guessed row, 0-based
      column, colour or shape equals the answer's. */
  function SharesTrait(row: char, col: int, color: string, shape: string, a: Cell): (b: bool)
    ensures b <==> SharesTraitWith(Cell(row, col - 1, color, shape, a.state), a)
  {
    var g := Cell(row, col - 1, color, shape, a.state);
    assert TraitOf(g, "rows") == TraitOf(a, "rows") <==> row == a.row;
    assert TraitOf(g, "cols") == TraitOf(a, "cols") <==> col - 1 == a.col;
    assert TraitOf(g, "colors") == TraitOf(a, "colors") <==> color == a.color;
    assert TraitOf(g, "shapes") == TraitOf(a, "shapes") <==> shape == a.shape;
    row == a.row || col - 1 == a.col || color == a.color || shape == a.shape
  }

  /** For a guess that names the board's own colour and shape at its
      position, the outcome test holds exactly when the guessed cell shares
      one of its four traits with the answer. */
  lemma SharesTraitIff(cs: seq<Cell>, row: char, col: int, a: Cell)
    requires Layout(cs) && IsRow(row) && IsColumn(col)
    ensures var c := cs[CellIndex(row, col)];
      SharesTrait(row, col, c.color, c.shape, a) <==> SharesTraitWith(c, a)
  {
    var c := cs[CellIndex(row, col)];
    PlaceIndex(cs, row, col, CellIndex(row, col));
    if row == a.row { assert TraitOf(c, "rows") == TraitOf(a, "rows"); }
    else if col - 1 == a.col { assert TraitOf(c, "cols") == TraitOf(a, "cols"); }
    else if c.color == a.color { assert TraitOf(c, "colors") == TraitOf(a, "colors"); }
    else if c.shape == a.shape { assert TraitOf(c, "shapes") == TraitOf(a, "shapes"); }
    else {
      forall d | d in Dims ensures TraitOf(c, d) != TraitOf(a, d) { }
    }
  }

  datatype GuessError =
    | NoAnswer                                        // no answer has been set
    | WrongTraits(color: string, shape: string)       // the board's colour and shape there

  datatype GuessResult =
    | Solve(solved: bool)                             // a solve attempt
    | Inform(shares: bool, report: Option<Report>)    // an informational guess

  class Game {
    const board: Board
    /** The answer, as an index into `board.cells`. */
    var answer: Option<nat>
    /** The guessed cells, in order, as indices into `board.cells`. */
    var guessed: seq<nat>

    ghost predicate Valid()
      reads this, board
    {
      board.Valid() && Layout(board.cells) &&
      (answer.Some? ==> answer.value < |board.cells|) &&
      forall i :: 0 <= i < |guessed| ==> guessed[i] < |board.cells|
    }

    /** No trait of the answer is eliminated. */
    ghost predicate AnswerUnrefuted()
      reads this, board
      requires Valid()
    {
      answer.Some? ==> Unrefuted(board.Snapshot(), board.cells[answer.value])
    }

    /** A game over a fresh board built from the template, with no answer
        and no guesses. */
    constructor (template: seq<Cell>)
      requires Layout(template)
      ensures Valid() && fresh(board)
      ensures board.Snapshot() == Empty(template)
      ensures answer == None && guessed == []
    {
      board := new Board(template);
      answer := None;
      guessed := [];
    }

    /** Makes the square at `row` and 1-based `col` the answer: the previous
        answer cell, if any, goes back to Unknown, then the new one becomes
        Correct. */
    method SetAnswer(row: char, col: int)
      requires Valid() && IsRow(row) && IsColumn(col)
      modifies this, board
      ensures Valid()
      ensures answer == Some(CellIndex(row, col))
      ensures board.cells[answer.value].row == row && board.cells[answer.value].col == col - 1
      ensures board.cells[answer.value].state == Correct
      ensures old(answer).Some? && old(answer) != answer ==> board.cells[old(answer).value].state == Unknown
      ensures forall p :: 0 <= p < |board.cells| && Some(p) != answer && Some(p) != old(answer) ==>
        board.cells[p] == old(board.cells[p])
      ensures SamePlaces(old(board.cells), board.cells)
      ensures board.eliminated == old(board.eliminated) && board.retained == old(board.retained)
      ensures guessed == old(guessed)
    {
      if answer.Some? {
        var p := answer.value;
        board.cells := board.cells[p := board.cells[p].(state := Unknown)];
      }
      var n := CellIndex(row, col);
      answer := Some(n);
      board.cells := board.cells[n := board.cells[n].(state := Correct)];
      PlaceIndex(board.cells, row, col, n);
    }

    /** A guess of the square at `row` and 1-based `col`, naming its colour
        and shape. It fails when no answer is set, or when the colour or
        shape differ from the board's there; either way nothing changes.
        Otherwise the square is appended to the history. A solve attempt
        reports whether it is the answer and changes no cell. An
        informational guess computes whether it shares a trait with the
        answer and records that outcome on the board. */
    method Guess(row: char, col: int, color: string, shape: string, trySolve: bool := false)
      returns (r: Result<GuessResult, GuessError>)
      requires Valid() && IsRow(row) && IsColumn(col)
      modifies this, board
      ensures Valid() && answer == old(answer)
      ensures old(answer).None? ==> r == Err(NoAnswer)
      ensures old(answer).Some? ==>
        var c := old(board.cells)[CellIndex(row, col)];
        (c.color != color || c.shape != shape ==> r == Err(WrongTraits(c.color, c.shape))) &&
        (c.color == color && c.shape == shape ==> r.Ok?)
      ensures r.Err? ==> guessed == old(guessed) && board.Snapshot() == old(board.Snapshot())
      ensures r.Ok? ==> guessed == old(guessed) + [CellIndex(row, col)]
      ensures r.Ok? && trySolve ==>
        r.value.Solve? && board.Snapshot() == old(board.Snapshot()) &&
        (r.value.solved <==> CellIndex(row, col) == answer.value) &&
        (r.value.solved <==> board.cells[answer.value].row == row && board.cells[answer.value].col == col - 1)
      ensures r.Ok? && !trySolve ==>
        r.value.Inform? &&
        r.value.shares == SharesTraitWith(old(board.cells)[CellIndex(row, col)], old(board.cells)[answer.value]) &&
        board.Snapshot() == Step(old(board.Snapshot()), old(board.cells)[CellIndex(row, col)], r.value.shares).0 &&
        r.value.report == Step(old(board.Snapshot()), old(board.cells)[CellIndex(row, col)], r.value.shares).1
      ensures old(AnswerUnrefuted()) ==> AnswerUnrefuted()
      ensures old(AnswerUnrefuted()) && answer.Some? ==>
        (board.cells[answer.value].state == Eliminated <==> old(board.cells[answer.value].state) == Eliminated)
    {
      if answer.None? {
        return Err(NoAnswer);
      }
      var n := CellIndex(row, col);
      var cell := board.cells[n];
      if cell.color != color || cell.shape != shape {
        return Err(WrongTraits(cell.color, cell.shape));
      }
      var a := board.cells[answer.value];
      guessed := guessed + [n];
      if trySolve {
        PlaceIndex(board.cells, row, col, answer.value);
        return Ok(Solve(n == answer.value));
      }
      var matches, report := Evaluate(row, col, color, shape);
      return Ok(Inform(matches, report));
    }

    /** The informational half of a guess: the outcome test against the
        answer, then the board update with that outcome. */
    method Evaluate(row: char, col: int, color: string, shape: string) returns (matches: bool, report: Option<Report>)
      requires Valid() && IsRow(row) && IsColumn(col) && answer.Some?
      requires board.cells[CellIndex(row, col)].color == color && board.cells[CellIndex(row, col)].shape == shape
      modifies board
      ensures Valid()
      ensures matches == SharesTraitWith(old(board.cells)[CellIndex(row, col)], old(board.cells)[answer.value])
      ensures board.Snapshot() == Step(old(board.Snapshot()), old(board.cells)[CellIndex(row, col)], matches).0
      ensures report == Step(old(board.Snapshot()), old(board.cells)[CellIndex(row, col)], matches).1
      ensures old(AnswerUnrefuted()) ==> AnswerUnrefuted()
      ensures old(AnswerUnrefuted()) ==>
        (board.cells[answer.value].state == Eliminated <==> old(board.cells[answer.value].state) == Eliminated)
    {
      var cell := board.cells[CellIndex(row, col)];
      var a := board.cells[answer.value];
      matches := SharesTrait(row, col, color, shape, a);
      SharesTraitIff(board.cells, row, col, a);
      ghost var k0 := board.Snapshot();
      if Unrefuted(k0, a) {
        StepSound(k0, cell, a);
      }
      report := board.UpdateBoardState(cell, matches);
      LayoutKept(k0.cells, board.cells);
      assert SamePlace(a, board.cells[answer.value]);
      UnrefutedSamePlace(k0, a, k0.cells[answer.value]);
      UnrefutedSamePlace(board.Snapshot(), a, board.cells[answer.value]);
    }

    /** The guessed cells, in the order they were guessed, as they are on
        the board now. */
    method Guesses() returns (gs: seq<Cell>)
      requires Valid()
      ensures |gs| == |guessed|
      ensures forall i :: 0 <= i < |gs| ==> gs[i] == board.cells[guessed[i]]
    {
      var cs, g := board.cells, guessed;
      gs := seq(|g|, i requires 0 <= i < |g| && g[i] < |cs| => cs[g[i]]);
    }

    /** The colour, shape and current state of the cell at `index`. */
    method CellData(index: int) returns (color: string, shape: string, state: CellState)
      requires Valid() && 0 <= index < |board.cells|
      ensures color == board.cells[index].color && shape == board.cells[index].shape
      ensures state == board.cells[index].state
    {
      var c := board.cells[index];
      return c.color, c.shape, c.state;
    }
  }
}
