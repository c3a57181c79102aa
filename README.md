# TelePythy deduction engine, modelled in Dafny

TelePythy is a one-player deduction game on an 18×18 grid. Rows are lettered
A–R and columns numbered 1–18. Every square has one of nine colours and one of
nine shapes. One square is the secret answer. The player guesses squares. For
each guess the game says whether the guessed square shares its row, column,
colour or shape with the answer. The board then records trait values as
**eliminated** (proved not to be the answer's) or **retained** (seen on a guess
that shared something with the answer). Cell states follow those records.

This project models the engine in `TelePythy.py`:

- `traits.dfy` (`Traits`): the colour and shape catalogs, the dimension names
  `colors`, `shapes`, `rows`, `cols`, and trait values.
- `cells.dfy` (`Cells`): the cell record, its four states, and the
  construction check.
- `knowledge.dfy` (`Knowledge`): the board's state as a value. `Step` is the
  reference definition of one board update. The lemmas prove its properties:
  one guess at a time, and any sequence of guesses (`Replay`).
- `board.dfy` (`Boards`): the `Board` class. Its fields `cells`, `eliminated`
  and `retained` are updated in place. `UpdateCells` and `UpdateBoardState`
  are loops proved against `Mark` and `Step`.
- `game.dfy` (`Games`): the `Game` class, with the board, the answer and the
  guess history. It also holds the index arithmetic and the outcome test.
- `lists.dfy` (`Lists`) and `wrappers.dfy` (`Wrappers`): Python list helpers
  (`list.remove`, no duplicates, prefix) and `Option`/`Result`.

Conventions:

- Inside a cell, columns count from 0. At the `Game` interface they count
  from 1. `_set_answer('A', 18)` gives a cell whose column is 17.
- Python object identity is modelled by position. `_answer` and the entries
  of `_guesses` point into the board's cell list, so the model stores indices
  into `board.cells`. Comparing the answer with `is` becomes comparing indices.
- A raised exception becomes an `Err` result. In every modelled case the
  exception is raised before any state changes.
- Python compares trait values dynamically: strings for colours, shapes and
  rows, integers for columns. The model uses the tagged union
  `Value = Word | Letter | Number`. A row value is always a `Letter`, and a
  colour or shape is always a `Word`. So `Word` under `"rows"` stands for no
  Python call, and it selects no cell. `update_board_state` always passes
  the guessed cell's own row.
- `Board.size()` (TelePythy.py:88-89), which `get_cell_index` calls, is the
  constant `BoardSize`.

The game's rules ask for more than the code does. Where the two differ, the
model follows the code:

- By the rules, a guess that shares no trait with the answer rules out all
  four of its values. `update_board_state` returns inside its loop
  (TelePythy.py:121). So it eliminates only the first value not yet
  eliminated, in the order colour, shape, row, column (`Knowledge.StepMismatch`).
- By the rules, a guess that shares a trait keeps all four of its values as
  candidates. The code returns after the first iteration (TelePythy.py:129),
  so only the colour is considered (`Knowledge.StepMatch`).
- By the rules, only the answer's cell should be `Correct`, and it should
  stay so. `update_cells` protects only `Eliminated` cells, so a matching
  guess of the answer's colour turns the answer cell `Retained`
  (`Knowledge.CorrectNotShielded`).

## Model

| member | source | states |
|---|---|---|
| `Traits.CatalogSizes` | TelePythy.py:33-41 | Each catalog lists nine distinct names. |
| `Cells.NewCell` | TelePythy.py:46-57 | Construction fails exactly when the colour is not a catalog colour or the shape is not a catalog shape. The colour is checked first. Otherwise the fields are stored as given and the state defaults to Unknown. |
| `Cells.Carries` | TelePythy.py:94-97 | The selection test holds exactly when the dimension name is one of the four and the cell's value in that dimension equals the given value. |
| `Cells.GuessTraits` | TelePythy.py:111 | The visit order is colour, shape, row, column. Each entry is a value the guessed cell carries. |
| `Lists.RemoveFirst` | TelePythy.py:115-116 | `list.remove` drops one occurrence: the length falls by one and the multiset loses one copy of the value. |
| `Lists.RemoveFirstKeepsOrder` | TelePythy.py:115-116 | `list.remove` drops the first occurrence of the value. The items before it and after it keep their order. |
| `Lists.RemoveFirstFromDistinct` | TelePythy.py:115-116 | On a duplicate-free list the removed value is gone, every other value stays, and the list stays duplicate-free. |
| `Knowledge.Empty` | TelePythy.py:85-86 | A new board's eight empty lists are consistent. |
| `Knowledge.MarkOne` | TelePythy.py:94-99 | One cell after the update. It keeps its position, colour and shape. It is unchanged if it is Eliminated or does not carry the value. Otherwise it takes the new status. |
| `Knowledge.Mark` | TelePythy.py:93-99 | The update keeps the number of cells. Its per-cell effect is stated in `MarkEffect`. |
| `Knowledge.MarkEffect` | TelePythy.py:91-101 | The cell update sets the status on exactly the cells that carry the value and are not Eliminated. Every other cell is unchanged, no Eliminated cell changes, and Correct cells are not protected. |
| `Knowledge.Count` | TelePythy.py:105-109 | The count of cells in a state never exceeds the number of cells. |
| `Knowledge.MarkCount` | TelePythy.py:105-109 | The cell update raises the count of cells in its status by exactly the number of carrying cells that were neither Eliminated nor already in that status. |
| `Knowledge.MarkKeepsEliminatedCount` | TelePythy.py:98-99 | An update to Retained leaves the number of Eliminated cells unchanged. |
| `Knowledge.FirstOpen` | TelePythy.py:111-113 | Returns the first trait whose value is not eliminated. Every trait before it is eliminated. If it returns the length, all four are eliminated. |
| `Knowledge.Eliminate` | TelePythy.py:113-121 | The non-matching branch on an open trait keeps the four dictionary keys and every cell's position, colour and shape. Its effects are stated in `StepMismatch`, `EliminateConsistent` and `StepReport`. |
| `Knowledge.Retain` | TelePythy.py:123-129 | The matching branch keeps the four dictionary keys and every cell's position, colour and shape. Its effects are stated in `StepMatch`, `RetainConsistent` and `StepReport`. |
| `Knowledge.Step` | TelePythy.py:103-129 | One board update keeps the four dictionary keys and every cell's position, colour and shape. |
| `Knowledge.StepAtOpenTrait` | TelePythy.py:111-121 | A non-matching guess acts on the trait at index i when the traits before i are eliminated and trait i is not. |
| `Knowledge.StepMismatch` | TelePythy.py:111-121 | A non-matching guess changes only the first not-yet-eliminated trait, in the order colour, shape, row, column. That value leaves retained and is appended to eliminated. Exactly the cells carrying it become Eliminated. The other lists are untouched. If all four are eliminated, nothing changes and nothing is reported. |
| `Knowledge.StepMatch` | TelePythy.py:111-129 | A matching guess handles only the colour. The eliminated lists never change. No cell enters or leaves Eliminated. Only the retained colours can change: the colour joins them unless it is eliminated. Every non-Eliminated cell of that colour becomes Retained. |
| `Knowledge.CorrectNotShielded` | TelePythy.py:98-99 | A matching guess of the answer's colour, when that colour is not eliminated, turns a Correct cell into a Retained one. |
| `Knowledge.StepReport` | TelePythy.py:105-129 | A matching guess always reports Retained cells. A non-matching guess reports Eliminated cells exactly when one of its traits was not yet eliminated. The total is the number of cells now in that state. The number added is the number of carrying cells the update moved into that state. It is 0 when the matched colour is already eliminated. |
| `Knowledge.EliminateConsistent` | TelePythy.py:113-117 | Eliminating a value that was not eliminated keeps every dimension's lists duplicate-free and disjoint. |
| `Knowledge.RetainConsistent` | TelePythy.py:124-126 | Retaining a value keeps every dimension's lists duplicate-free and disjoint. |
| `Knowledge.StepConsistent` | TelePythy.py:103-129 | After any update, eliminated and retained stay duplicate-free and disjoint in every dimension. |
| `Knowledge.StepGrows` | TelePythy.py:113-119 | An update only appends to eliminated lists. It never takes a cell out of Eliminated. |
| `Knowledge.StepSettled` | TelePythy.py:113-127 | Cell states stay in step with the lists. A cell carrying an eliminated value is Eliminated. A cell carrying a retained value is Retained or Eliminated. |
| `Knowledge.UnrefutedSamePlace` | TelePythy.py:165-169 | Whether a cell's traits are eliminated depends only on its traits, not on its state. |
| `Knowledge.StepSound` | TelePythy.py:165-170 | When the outcome is whether the guess shares a trait with the answer, no trait of the answer gets eliminated. The answer's cell neither enters nor leaves Eliminated. |
| `Knowledge.Replay` | TelePythy.py:170 | Successive board updates, one per informational guess, keep the four dictionary keys. Their invariants are stated in `ReplayKeeps`. |
| `Knowledge.CountMonotone` | TelePythy.py:105-106 | If every Eliminated cell stays Eliminated, the Eliminated count does not fall. |
| `Knowledge.ReplayKeeps` | TelePythy.py:103-129 | Over any sequence of updates the lists stay duplicate-free and disjoint, and cell states stay in step with them. Eliminated lists and Eliminated cells only grow. The Eliminated count never falls. Cell positions never change. |
| `Knowledge.FreshBoardKeeps` | TelePythy.py:82-86 | From a new board's empty lists, every sequence of updates keeps the lists consistent and cell states in step with them. Eliminated cells stay Eliminated, the Eliminated count never falls, and cell positions never change. |
| `Boards.Board.constructor` | TelePythy.py:82-86 | A board owns its copy of the cells and starts with eight empty lists. |
| `Boards.Board.UpdateCells` | TelePythy.py:91-101 | The loop leaves exactly `Mark` of the old cells. It fails exactly when the dimension name is unknown and the board is non-empty. The lists are untouched. |
| `Boards.Board.UpdateBoardState` | TelePythy.py:103-129 | The loop with early returns leaves exactly the board and report that `Step` gives, and keeps the lists consistent. |
| `Boards.Board.EliminateTrait` | TelePythy.py:113-121 | The non-matching branch of the loop body is exactly `Eliminate`. |
| `Boards.Board.RetainTrait` | TelePythy.py:123-129 | The matching branch of the loop body is exactly `Retain`. |
| `Games.CellIndex` | TelePythy.py:139-140 | The index of (row, 1-based column) is in range. Dividing it by 18 gives back the row letter; the remainder is the 0-based column. |
| `Games.PlaceIndex` | TelePythy.py:139-140 | On a row-major board, a cell is at (row, col−1) exactly when its index is `CellIndex(row, col)`. |
| `Games.LayoutKept` | TelePythy.py:91-101 | Changing only cell states keeps the row-major layout. |
| `Games.SharesTrait` | TelePythy.py:165-169 | The outcome test holds exactly when a cell with the guessed row, 0-based column, colour and shape shares one of its four traits with the answer. |
| `Games.SharesTraitIff` | TelePythy.py:165-169 | For a guess naming the board's own colour and shape, the outcome test (row equal, col−1 equal to the answer's column, colour equal, shape equal) holds exactly when the guessed cell shares one of its four traits with the answer. |
| `Games.Game.constructor` | TelePythy.py:134-137 | A game starts with a fresh board, no answer and no guesses. |
| `Games.Game.SetAnswer` | TelePythy.py:142-147 | The old answer cell, if any, goes back to Unknown. Then the cell at (row, col−1) becomes Correct and becomes the answer. No other cell and no list changes. |
| `Games.Game.Guess` | TelePythy.py:150-172 | With no answer set, the guess fails. It also fails when the colour or shape differs from the board's at that square. A failed guess changes nothing. An accepted guess appends the square to the history exactly once, solve attempts included. A solve attempt changes nothing else. It returns true exactly when the square is the answer. An informational guess returns whether the square shares a trait with the answer, and updates the board exactly as `Step` does. |
| `Games.Game.Evaluate` | TelePythy.py:165-172 | The informational part computes the outcome and applies `Step`. If no trait of the answer was eliminated before, none is after. The answer's cell neither enters nor leaves Eliminated. |
| `Games.Game.Guesses` | TelePythy.py:174-175 | Returns the guessed cells in call order, as they are on the board now. |
| `Games.Game.CellData` | TelePythy.py:177-180 | Returns the colour, shape and current state of the cell at the index. |

## Left out

- Loading the cells from `board_squares.csv` (TelePythy.py:73-79) is file
  I/O. The cells are given to the constructors as a sequence instead.
- `Games.Game.constructor` requires that sequence to be the 18×18 row-major
  layout the file provides. The program never checks this.
- The class-level `cells` list (TelePythy.py:71) is shared by every `Board`.
  Each board here owns its own cells.
- The "four cells per colour and shape pair" test (TelePythy.py:220-230)
  depends on the file's contents, so it is not proved.
- `_grid`, `state_desc`, `__str__` and `__repr__` (TelePythy.py:59-65, 83)
  are left out; they are unused or display code.
- The count messages of `update_board_state` are strings. They are modelled
  as the integers they contain (`Report`).
- Rows outside A–R and columns outside 1–18 are preconditions. Python's
  negative indexing and `IndexError` are not modelled. The same holds for
  `CellData`'s index.
- `Boards.Board.UpdateBoardState`: the loop body's two branches are
  separate methods, `EliminateTrait` and `RetainTrait`, to keep each proof
  small. So are the informational steps of `guess` (`Games.Game.Evaluate`).
  What they do and in which order is unchanged.
- The model assumes Python 3. A list comprehension's variable does not leak
  into the enclosing function, so `cell` in `update_board_state` keeps naming
  the guessed cell.
- The consistency of cell states with the lists (`Knowledge.Settled`) is
  proved for board updates only. `Game.SetAnswer` can break it, because it
  sets Correct and Unknown whatever the lists say.
- The earlier-draft tests in tests/test_telepythy.py use a different API and
  are not modelled. The unittest harness and the `__main__` entry point are
  left out.
