/** The board: its cells and the per-dimension `eliminated` and `retained`
    lists, updated in place as guesses are evaluated. */
module Boards {
  import opened Wrappers
  import opened Lists
  import opened Traits
  import opened Cells
  import opened Knowledge

  /** The side of the square grid. */
  const BoardSize: nat := 18

  /** Raised when the cell update is given an unknown dimension name. */
  datatype BoardError = InvalidDimension(dim: string)

  class Board {
    var cells: seq<Cell>
    var eliminated: map<string, seq<Value>>
    var retained: map<string, seq<Value>>

    /** The board's state as a value. */
    function Snapshot(): Knowledge
      reads this
    {
      Knowledge(cells, eliminated, retained)
    }

    ghost predicate Valid()
      reads this
    {
      Consistent(Snapshot())
    }

    /** A board over its own copy of the cells, with eight empty lists. */
    constructor (template: seq<Cell>)
      ensures Valid() && Snapshot() == Empty(template)
    {
      cells := template;
      eliminated := map d | d in Dims :: [];
      retained := map d | d in Dims :: [];
    }

    /** Sets `status` on every cell carrying `value` in dimension `dim`,
        skipping Eliminated cells. An unknown dimension name is an error on a
        non-empty board, raised at the first cell, before anything changes. */
    method UpdateCells(value: Value, dim: string, status: CellState) returns (r: Result<(), BoardError>)
      modifies this
      ensures r == if dim !in Dims && old(cells) != [] then Err(InvalidDimension(dim)) else Ok(())
      ensures cells == Mark(old(cells), value, dim, status)
      ensures eliminated == old(eliminated) && retained == old(retained)
    {
      var i := 0;
      while i < |cells|
        invariant 0 <= i <= |cells| == |old(cells)|
        invariant dim !in Dims ==> i == 0
        invariant forall j :: 0 <= j < i ==> cells[j] == MarkOne(old(cells)[j], value, dim, status)
        invariant forall j :: i <= j < |cells| ==> cells[j] == old(cells)[j]
        invariant eliminated == old(eliminated) && retained == old(retained)
      {
        var c := cells[i];
        if Carries(c, dim, value) {
          if c.state != Eliminated {
            cells := cells[i := c.(state := status)];
          }
        } else if dim !in Dims {
          assert cells == Mark(old(cells), value, dim, status);
          return Err(InvalidDimension(dim));
        }
        i := i + 1;
      }
      r := Ok(());
    }

    /** Records the outcome of a guess of `cell`: walks the cell's traits in
        the order colour, shape, row, column and returns at the first one it
        acts on (see `Knowledge.Step`). */
    method UpdateBoardState(cell: Cell, matches: bool) returns (report: Option<Report>)
      requires Valid()
      modifies this
      ensures Valid()
      ensures Snapshot() == Step(old(Snapshot()), cell, matches).0
      ensures report == Step(old(Snapshot()), cell, matches).1
    {
      ghost var k0 := Snapshot();
      StepConsistent(k0, cell, matches);
      var priorEliminated: int := Count(cells, Eliminated);
      var priorRetained: int := Count(cells, Retained);
      var ts := GuessTraits(cell);
      var i := 0;
      while i < |ts|
        invariant 0 <= i <= |ts|
        invariant matches ==> i == 0
        invariant forall j :: 0 <= j < i ==> ts[j].value in eliminated[ts[j].dim]
        invariant Snapshot() == k0
      {
        var t := ts[i];
        if !matches {
          if t.value !in eliminated[t.dim] {
            StepAtOpenTrait(k0, cell, i);
            report := EliminateTrait(t, priorEliminated);
            return;
          }
        } else {
          assert Step(k0, cell, true) == Retain(k0, t);
          report := RetainTrait(t, priorRetained);
          return;
        }
        i := i + 1;
      }
      report := None;
    }

    /** The non-matching branch of the loop body, on a trait not yet
        eliminated: moves its value from retained to eliminated, eliminates
        every carrying cell and reports the new Eliminated count. */
    method EliminateTrait(t: Trait, priorEliminated: int) returns (report: Option<Report>)
      requires Shaped(Snapshot()) && t.dim in Dims && t.value !in eliminated[t.dim]
      requires priorEliminated == Count(cells, Eliminated)
      modifies this
      ensures (Snapshot(), report) == Eliminate(old(Snapshot()), t)
    {
      if t.value in retained[t.dim] {
        retained := retained[t.dim := RemoveFirst(retained[t.dim], t.value)];
      }
      eliminated := eliminated[t.dim := eliminated[t.dim] + [t.value]];
      var _ := UpdateCells(t.value, t.dim, Eliminated);
      var postEliminated: nat := Count(cells, Eliminated);
      assert Snapshot() == Eliminate(old(Snapshot()), t).0;
      return Some(EliminatedReport(postEliminated - priorEliminated, postEliminated));
    }

    /** The matching branch of the loop body: unless the value is
        eliminated, retains it and its cells; reports the new Retained
        count either way. */
    method RetainTrait(t: Trait, priorRetained: int) returns (report: Option<Report>)
      requires Shaped(Snapshot()) && t.dim in Dims
      requires priorRetained == Count(cells, Retained)
      modifies this
      ensures (Snapshot(), report) == Retain(old(Snapshot()), t)
    {
      if t.value !in eliminated[t.dim] {
        if t.value !in retained[t.dim] {
          retained := retained[t.dim := retained[t.dim] + [t.value]];
        }
        var _ := UpdateCells(t.value, t.dim, Retained);
      }
      var postRetained: nat := Count(cells, Retained);
      assert Snapshot() == Retain(old(Snapshot()), t).0;
      return Some(RetainedReport(postRetained - priorRetained, postRetained));
    }
  }
}
