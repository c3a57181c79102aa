/** What the board knows: its cells and, per trait dimension, the values
    proved not to belong to the answer (`eliminated`) and the values seen on
    a guess that shared a trait with it (`retained`). The functions here are
    the specification the board's methods are proved against. */
module Knowledge {
  import opened Wrappers
  import opened Lists
  import opened Traits
  import opened Cells

  datatype Knowledge = Knowledge(cells: seq<Cell>,
                                 eliminated: map<string, seq<Value>>,
                                 retained: map<string, seq<Value>>)

  /** The count message of one board update: how many cells this update
      added to the state it names, and how many cells are now in it. */
  datatype Report = EliminatedReport(added: int, total: nat) | RetainedReport(added: int, total: nat)

  /** A new board: the given cells and eight empty lists. */
  function Empty(cells: seq<Cell>): (k: Knowledge)
    ensures Consistent(k)
  {
    var none := map d | d in Dims :: [];
    Knowledge(cells, none, none)
  }

  /** Both dictionaries are keyed by exactly the four dimension names. */
  predicate Shaped(k: Knowledge) {
    k.eliminated.Keys == Dims && k.retained.Keys == Dims
  }

  /** Per dimension, neither list repeats a value and no value is both
      eliminated and retained. */
  predicate Consistent(k: Knowledge) {
    Shaped(k) &&
    forall d :: d in Dims ==>
      NoDup(k.eliminated[d]) && NoDup(k.retained[d]) && Disjoint(k.eliminated[d], k.retained[d])
  }

  /** Cell states agree with the lists: a cell carrying an eliminated value
      is Eliminated, and a cell carrying a retained value is Retained or
      Eliminated. */
  predicate Settled(k: Knowledge)
    requires Shaped(k)
  {
    (forall d, v, i :: d in Dims && v in k.eliminated[d] && 0 <= i < |k.cells| && Carries(k.cells[i], d, v)
       ==> k.cells[i].state == Eliminated) &&
    (forall d, v, i :: d in Dims && v in k.retained[d] && 0 <= i < |k.cells| && Carries(k.cells[i], d, v)
       ==> k.cells[i].state in {Retained, Eliminated})
  }

  /** Two cell lists hold the same squares with the same traits, in the
      same order; only states may differ. */
  predicate SamePlaces(a: seq<Cell>, b: seq<Cell>) {
    |a| == |b| && forall i :: 0 <= i < |a| ==> SamePlace(a[i], b[i])
  }

  /** No Eliminated cell of `a` has left that state in `b`. */
  predicate KeepsEliminated(a: seq<Cell>, b: seq<Cell>)
    requires |a| == |b|
  {
    forall i :: 0 <= i < |a| && a[i].state == Eliminated ==> b[i].state == Eliminated
  }

  // ---------------------------------------------------------------------
  // Cell updates

  /** One cell after the board's cell update: a cell carrying the value
      takes the new status unless it is already Eliminated. */
  function MarkOne(c: Cell, value: Value, dim: string, status: CellState): (r: Cell)
    ensures SamePlace(c, r)
    ensures c.state == Eliminated || !Carries(c, dim, value) ==> r == c
    ensures c.state != Eliminated && dim in Dims && TraitOf(c, dim) == value ==> r.state == status
  {
    if Carries(c, dim, value) && c.state != Eliminated then c.(state := status) else c
  }

  /** Every cell after the board's cell update. */
  function Mark(cs: seq<Cell>, value: Value, dim: string, status: CellState): (r: seq<Cell>)
    ensures |r| == |cs|
  {
    seq(|cs|, i requires 0 <= i < |cs| => MarkOne(cs[i], value, dim, status))
  }

  /** The number of cells in state `s`. */
  function Count(cs: seq<Cell>, s: CellState): (n: nat)
    ensures n <= |cs|
  {
    if cs == [] then 0 else (if cs[0].state == s then 1 else 0) + Count(cs[1..], s)
  }

  /** The number of cells the update with `status` moves into `status`:
      they carry the value and are neither Eliminated nor already in it. */
  function Movable(cs: seq<Cell>, value: Value, dim: string, status: CellState): (n: nat)
    ensures n <= |cs|
  {
    if cs == [] then 0
    else (if Carries(cs[0], dim, value) && cs[0].state !in {Eliminated, status} then 1 else 0)
         + Movable(cs[1..], value, dim, status)
  }

  /** The cell update sets `status` on exactly the carrying, non-Eliminated
      cells and leaves every other cell as it was. */
  lemma MarkEffect(cs: seq<Cell>, value: Value, dim: string, status: CellState)
    ensures SamePlaces(cs, Mark(cs, value, dim, status))
    ensures KeepsEliminated(cs, Mark(cs, value, dim, status))
    ensures forall i :: 0 <= i < |cs| ==>
      Mark(cs, value, dim, status)[i].state ==
        if Carries(cs[i], dim, value) && cs[i].state != Eliminated then status else cs[i].state
  {
  }

  lemma MarkTail(cs: seq<Cell>, value: Value, dim: string, status: CellState)
    requires cs != []
    ensures Mark(cs, value, dim, status)[1..] == Mark(cs[1..], value, dim, status)
  {
  }

  /** The update grows the count of `status` cells by exactly the number of
      cells it moves. */
  lemma {:induction false} MarkCount(cs: seq<Cell>, value: Value, dim: string, status: CellState)
    ensures Count(Mark(cs, value, dim, status), status) == Count(cs, status) + Movable(cs, value, dim, status)
  {
    if cs != [] {
      MarkTail(cs, value, dim, status);
      MarkCount(cs[1..], value, dim, status);
    }
  }

  /** An update to any status but Eliminated moves no cell into or out of
      Eliminated. */
  lemma {:induction false} MarkKeepsEliminatedCount(cs: seq<Cell>, value: Value, dim: string, status: CellState)
    requires status != Eliminated
    ensures Count(Mark(cs, value, dim, status), Eliminated) == Count(cs, Eliminated)
  {
    if cs != [] {
      MarkTail(cs, value, dim, status);
      MarkKeepsEliminatedCount(cs[1..], value, dim, status);
    }
  }

  // ---------------------------------------------------------------------
  // One guess

  /** The index of the first trait in `ts` whose value is not yet
      eliminated in its dimension, or `|ts|` when all are. */
  function FirstOpen(ts: seq<Trait>, eliminated: map<string, seq<Value>>): (i: nat)
    requires forall t :: t in ts ==> t.dim in eliminated
    ensures i <= |ts|
    ensures forall j :: 0 <= j < i ==> ts[j].value in eliminated[ts[j].dim]
    ensures i < |ts| ==> ts[i].value !in eliminated[ts[i].dim]
  {
    if ts == [] then 0
    else if ts[0].value !in eliminated[ts[0].dim] then 0
    else 1 + FirstOpen(ts[1..], eliminated)
  }

  /** A non-matching guess on a trait not yet eliminated: the value leaves
      the retained list, is appended to the eliminated list, and every cell
      carrying it becomes Eliminated. */
  function Eliminate(k: Knowledge, t: Trait): (r: (Knowledge, Option<Report>))
    requires Shaped(k) && t.dim in Dims
    ensures Shaped(r.0) && SamePlaces(k.cells, r.0.cells)
  {
    var kept := if t.value in k.retained[t.dim] then RemoveFirst(k.retained[t.dim], t.value)
                else k.retained[t.dim];
    var cells := Mark(k.cells, t.value, t.dim, Eliminated);
    var post := Count(cells, Eliminated);
    MarkEffect(k.cells, t.value, t.dim, Eliminated);
    (Knowledge(cells, k.eliminated[t.dim := k.eliminated[t.dim] + [t.value]], k.retained[t.dim := kept]),
     Some(EliminatedReport(post - Count(k.cells, Eliminated), post)))
  }

  /** A matching guess on one trait: unless the value is eliminated, it is
      added to the retained list (once) and every carrying cell that is not
      Eliminated becomes Retained. */
  function Retain(k: Knowledge, t: Trait): (r: (Knowledge, Option<Report>))
    requires Shaped(k) && t.dim in Dims
    ensures Shaped(r.0) && SamePlaces(k.cells, r.0.cells)
  {
    var kept := if t.value in k.retained[t.dim] then k.retained[t.dim]
                else k.retained[t.dim] + [t.value];
    MarkEffect(k.cells, t.value, t.dim, Retained);
    var k' := if t.value in k.eliminated[t.dim] then k
              else Knowledge(Mark(k.cells, t.value, t.dim, Retained), k.eliminated, k.retained[t.dim := kept]);
    var post := Count(k'.cells, Retained);
    (k', Some(RetainedReport(post - Count(k.cells, Retained), post)))
  }

  /** The board after a guess of cell `c` whose outcome is `matches`, and
      the count message it returns (None when nothing was left to
      eliminate). A non-matching guess handles only the first of the cell's
      traits not yet eliminated; a matching guess handles only its colour. */
  function Step(k: Knowledge, c: Cell, matches: bool): (r: (Knowledge, Option<Report>))
    requires Shaped(k)
    ensures Shaped(r.0) && SamePlaces(k.cells, r.0.cells)
  {
    var ts := GuessTraits(c);
    if !matches then
      var i := FirstOpen(ts, k.eliminated);
      if i == |ts| then (k, None) else Eliminate(k, ts[i])
    else Retain(k, ts[0])
  }

  /** A non-matching guess acts on the trait at index `i` when the traits
      before it are eliminated and it is not. */
  lemma StepAtOpenTrait(k: Knowledge, c: Cell, i: nat)
    requires Shaped(k) && i < |GuessTraits(c)|
    requires forall j :: 0 <= j < i ==> GuessTraits(c)[j].value in k.eliminated[GuessTraits(c)[j].dim]
    requires GuessTraits(c)[i].value !in k.eliminated[GuessTraits(c)[i].dim]
    ensures Step(k, c, false) == Eliminate(k, GuessTraits(c)[i])
  {
  }

  // ---------------------------------------------------------------------
  // Properties of one guess

  lemma AppendFresh<T>(xs: seq<T>, x: T)
    requires NoDup(xs) && x !in xs
    ensures NoDup(xs + [x])
  {
  }

  /** Eliminating a value keeps every dimension's lists duplicate-free and
      disjoint. */
  lemma EliminateConsistent(k: Knowledge, t: Trait)
    requires Consistent(k) && t.dim in Dims && t.value !in k.eliminated[t.dim]
    ensures Consistent(Eliminate(k, t).0)
  {
    var k' := Eliminate(k, t).0;
    AppendFresh(k.eliminated[t.dim], t.value);
    if t.value in k.retained[t.dim] { RemoveFirstFromDistinct(k.retained[t.dim], t.value); }
    assert Disjoint(k.eliminated[t.dim], k.retained[t.dim]);
  }

  /** Retaining a value keeps every dimension's lists duplicate-free and
      disjoint. */
  lemma RetainConsistent(k: Knowledge, t: Trait)
    requires Consistent(k) && t.dim in Dims
    ensures Consistent(Retain(k, t).0)
  {
    if t.value !in k.retained[t.dim] { AppendFresh(k.retained[t.dim], t.value); }
    assert Disjoint(k.eliminated[t.dim], k.retained[t.dim]);
  }

  /** A guess keeps every dimension's lists duplicate-free and disjoint. */
  lemma StepConsistent(k: Knowledge, c: Cell, matches: bool)
    requires Consistent(k)
    ensures Consistent(Step(k, c, matches).0)
  {
    var ts := GuessTraits(c);
    if !matches && FirstOpen(ts, k.eliminated) < |ts| {
      EliminateConsistent(k, ts[FirstOpen(ts, k.eliminated)]);
    } else if matches {
      RetainConsistent(k, ts[0]);
    }
  }

  /** A guess never removes a value from an eliminated list (it can only
      append one) and never takes a cell out of the Eliminated state. */
  lemma StepGrows(k: Knowledge, c: Cell, matches: bool)
    requires Shaped(k)
    ensures forall d :: d in Dims ==> IsPrefix(k.eliminated[d], Step(k, c, matches).0.eliminated[d])
    ensures KeepsEliminated(k.cells, Step(k, c, matches).0.cells)
  {
    var ts := GuessTraits(c);
    if !matches && FirstOpen(ts, k.eliminated) < |ts| {
      var t := ts[FirstOpen(ts, k.eliminated)];
      MarkEffect(k.cells, t.value, t.dim, Eliminated);
    } else if matches {
      MarkEffect(k.cells, ts[0].value, ts[0].dim, Retained);
    }
  }

  /** A guess keeps the cell states in agreement with the lists. */
  lemma StepSettled(k: Knowledge, c: Cell, matches: bool)
    requires Shaped(k) && Settled(k)
    ensures Settled(Step(k, c, matches).0)
  {
    var ts := GuessTraits(c);
    var k' := Step(k, c, matches).0;
    if !matches && FirstOpen(ts, k.eliminated) < |ts| {
      var t := ts[FirstOpen(ts, k.eliminated)];
      MarkEffect(k.cells, t.value, t.dim, Eliminated);
      if t.value in k.retained[t.dim] { RemoveFirstFromMembers(k.retained[t.dim], t.value); }
      forall d, v, i | d in Dims && v in k'.retained[d] && 0 <= i < |k'.cells| && Carries(k'.cells[i], d, v)
        ensures k'.cells[i].state in {Retained, Eliminated}
      {
        assert v in k.retained[d];
        assert Carries(k.cells[i], d, v);
      }
      forall d, v, i | d in Dims && v in k'.eliminated[d] && 0 <= i < |k'.cells| && Carries(k'.cells[i], d, v)
        ensures k'.cells[i].state == Eliminated
      {
        assert Carries(k.cells[i], d, v);
        if !(d == t.dim && v == t.value) { assert v in k.eliminated[d]; }
      }
    } else if matches && ts[0].value !in k.eliminated[ts[0].dim] {
      var t := ts[0];
      MarkEffect(k.cells, t.value, t.dim, Retained);
      forall d, v, i | d in Dims && v in k'.retained[d] && 0 <= i < |k'.cells| && Carries(k'.cells[i], d, v)
        ensures k'.cells[i].state in {Retained, Eliminated}
      {
        assert Carries(k.cells[i], d, v);
        if !(d == t.dim && v == t.value) { assert v in k.retained[d]; }
      }
      forall d, v, i | d in Dims && v in k'.eliminated[d] && 0 <= i < |k'.cells| && Carries(k'.cells[i], d, v)
        ensures k'.cells[i].state == Eliminated
      {
        assert Carries(k.cells[i], d, v);
      }
    }
  }

  /** Membership after `RemoveFirst`, for any list: nothing new appears. */
  lemma RemoveFirstFromMembers<T>(xs: seq<T>, x: T)
    requires x in xs
    ensures forall y :: y in RemoveFirst(xs, x) ==> y in xs
  {
    forall y | y in RemoveFirst(xs, x) ensures y in xs {
      assert y in multiset(RemoveFirst(xs, x));
    }
  }

  /** A non-matching guess changes only the first of the cell's traits, in
      the order colour, shape, row, column, that is not yet eliminated: that
      value leaves its retained list, is appended to its eliminated list, and
      exactly the cells carrying it become Eliminated. If all four are
      already eliminated, nothing changes and no message is produced. */
  lemma StepMismatch(k: Knowledge, c: Cell)
    requires Consistent(k)
    ensures var ts := GuessTraits(c); var i := FirstOpen(ts, k.eliminated); var r := Step(k, c, false);
      (i == |ts| ==> r == (k, None)) &&
      (i < |ts| ==>
        r.0.eliminated == k.eliminated[ts[i].dim := k.eliminated[ts[i].dim] + [ts[i].value]] &&
        (forall d :: d in Dims && d != ts[i].dim ==> r.0.retained[d] == k.retained[d]) &&
        (forall v :: v in r.0.retained[ts[i].dim] <==> v in k.retained[ts[i].dim] && v != ts[i].value) &&
        (forall p :: 0 <= p < |k.cells| ==>
          r.0.cells[p].state == if Carries(k.cells[p], ts[i].dim, ts[i].value) then Eliminated else k.cells[p].state))
  {
    var ts := GuessTraits(c);
    var i := FirstOpen(ts, k.eliminated);
    if i < |ts| {
      var t := ts[i];
      MarkEffect(k.cells, t.value, t.dim, Eliminated);
      if t.value in k.retained[t.dim] {
        RemoveFirstFromDistinct(k.retained[t.dim], t.value);
      }
    }
  }

  /** A matching guess looks only at the guessed cell's colour. The
      eliminated lists never change and no cell enters or leaves Eliminated;
      unless the colour is eliminated, it joins the retained colours (once)
      and every non-Eliminated cell of that colour becomes Retained, whatever
      its state was, Correct included. */
  lemma StepMatch(k: Knowledge, c: Cell)
    requires Shaped(k)
    ensures var v := Word(c.color); var r := Step(k, c, true);
      r.0.eliminated == k.eliminated &&
      (forall d :: d in Dims && d != "colors" ==> r.0.retained[d] == k.retained[d]) &&
      (v in k.eliminated["colors"] ==> r.0 == k) &&
      (v !in k.eliminated["colors"] ==>
        forall x :: x in r.0.retained["colors"] <==> x in k.retained["colors"] || x == v) &&
      (forall p :: 0 <= p < |k.cells| ==>
        r.0.cells[p].state ==
          if v !in k.eliminated["colors"] && k.cells[p].color == c.color && k.cells[p].state != Eliminated
          then Retained else k.cells[p].state)
  {
    var t := GuessTraits(c)[0];
    MarkEffect(k.cells, t.value, t.dim, Retained);
  }

  /** The answer cell carries no protection of its own: a matching guess of
      the same colour, on a colour not yet eliminated, turns a Correct cell
      into a Retained one. */
  lemma CorrectNotShielded(k: Knowledge, c: Cell, p: int)
    requires Shaped(k) && 0 <= p < |k.cells|
    requires k.cells[p].state == Correct && k.cells[p].color == c.color
    requires Word(c.color) !in k.eliminated["colors"]
    ensures Step(k, c, true).0.cells[p].state == Retained
  {
    StepMatch(k, c);
  }

  /** The message a guess returns. A matching guess always reports the
      Retained cells. A non-matching guess reports the Eliminated cells
      exactly when some trait of the guess was still open. The total is the
      number of cells now in that state, and the number added is the number
      of carrying cells the update moved into it. */
  lemma StepReport(k: Knowledge, c: Cell, matches: bool)
    requires Shaped(k)
    ensures var r := Step(k, c, matches); var t := GuessTraits(c)[0];
      matches ==> (
        r.1.Some? && r.1.value.RetainedReport? && r.1.value.total == Count(r.0.cells, Retained) &&
        r.1.value.added == (if t.value in k.eliminated[t.dim] then 0 else Movable(k.cells, t.value, t.dim, Retained)))
    ensures var r := Step(k, c, matches); var ts := GuessTraits(c); var i := FirstOpen(ts, k.eliminated);
      !matches ==> (
        (r.1.Some? <==> i < |ts|) &&
        (i < |ts| ==> r.1.value.EliminatedReport? && r.1.value.total == Count(r.0.cells, Eliminated) &&
                      r.1.value.added == Movable(k.cells, ts[i].value, ts[i].dim, Eliminated)))
  {
    var ts := GuessTraits(c);
    if !matches && FirstOpen(ts, k.eliminated) < |ts| {
      var t := ts[FirstOpen(ts, k.eliminated)];
      MarkCount(k.cells, t.value, t.dim, Eliminated);
    } else if matches {
      MarkCount(k.cells, ts[0].value, ts[0].dim, Retained);
    }
  }

  /** The cell `c` shares at least one of the four traits with `a`. */
  predicate SharesTraitWith(c: Cell, a: Cell) {
    exists d :: d in Dims && TraitOf(c, d) == TraitOf(a, d)
  }

  /** None of the answer's four trait values is eliminated. */
  predicate Unrefuted(k: Knowledge, a: Cell)
    requires Shaped(k)
  {
    forall d :: d in Dims ==> TraitOf(a, d) !in k.eliminated[d]
  }

  /** Whether a cell's traits are refuted depends only on its traits. */
  lemma UnrefutedSamePlace(k: Knowledge, a: Cell, b: Cell)
    requires Shaped(k) && SamePlace(a, b)
    ensures Unrefuted(k, a) == Unrefuted(k, b)
  {
    assert forall d :: d in Dims ==> TraitOf(a, d) == TraitOf(b, d);
  }

  /** Deduction is sound: when the outcome of a guess is whether it shares
      a trait with the answer, no trait of the answer gets eliminated and
      the answer's own cell neither enters nor leaves Eliminated. */
  lemma StepSound(k: Knowledge, c: Cell, a: Cell)
    requires Shaped(k) && Unrefuted(k, a)
    ensures Unrefuted(Step(k, c, SharesTraitWith(c, a)).0, a)
    ensures forall p :: 0 <= p < |k.cells| && SamePlace(k.cells[p], a) ==>
      (Step(k, c, SharesTraitWith(c, a)).0.cells[p].state == Eliminated <==> k.cells[p].state == Eliminated)
  {
    var ts := GuessTraits(c);
    var m := SharesTraitWith(c, a);
    if !m && FirstOpen(ts, k.eliminated) < |ts| {
      var t := ts[FirstOpen(ts, k.eliminated)];
      assert TraitOf(c, t.dim) == t.value;
      assert TraitOf(a, t.dim) != t.value;
      MarkEffect(k.cells, t.value, t.dim, Eliminated);
      forall p | 0 <= p < |k.cells| && SamePlace(k.cells[p], a)
        ensures !Carries(k.cells[p], t.dim, t.value)
      {
        assert TraitOf(k.cells[p], t.dim) == TraitOf(a, t.dim);
      }
    } else if m {
      StepMatch(k, c);
    }
  }

  // ---------------------------------------------------------------------
  // Any number of guesses

  /** One board update: the guessed cell and the outcome passed with it. */
  datatype Move = Move(cell: Cell, matches: bool)

  /** The board after the updates `moves`, in order. */
  function Replay(k: Knowledge, moves: seq<Move>): (r: Knowledge)
    requires Shaped(k)
    ensures Shaped(r)
    decreases |moves|
  {
    if moves == [] then k
    else Replay(Step(k, moves[0].cell, moves[0].matches).0, moves[1..])
  }

  /** Keeping Eliminated cells never lowers the number of Eliminated cells. */
  lemma {:induction false} CountMonotone(a: seq<Cell>, b: seq<Cell>)
    requires |a| == |b| && KeepsEliminated(a, b)
    ensures Count(a, Eliminated) <= Count(b, Eliminated)
  {
    if a != [] {
      CountMonotone(a[1..], b[1..]);
    }
  }

  /** Across any sequence of updates the lists stay duplicate-free and
      disjoint, cell states stay in agreement with them, eliminated lists
      and the set of Eliminated cells only grow, and the squares never
      change. */
  lemma {:induction false} ReplayKeeps(k: Knowledge, moves: seq<Move>)
    requires Consistent(k) && Settled(k)
    ensures Consistent(Replay(k, moves)) && Settled(Replay(k, moves))
    ensures forall d :: d in Dims ==> IsPrefix(k.eliminated[d], Replay(k, moves).eliminated[d])
    ensures SamePlaces(k.cells, Replay(k, moves).cells)
    ensures KeepsEliminated(k.cells, Replay(k, moves).cells)
    ensures Count(k.cells, Eliminated) <= Count(Replay(k, moves).cells, Eliminated)
    decreases |moves|
  {
    if moves != [] {
      var k1 := Step(k, moves[0].cell, moves[0].matches).0;
      StepConsistent(k, moves[0].cell, moves[0].matches);
      StepSettled(k, moves[0].cell, moves[0].matches);
      StepGrows(k, moves[0].cell, moves[0].matches);
      ReplayKeeps(k1, moves[1..]);
      var kn := Replay(k, moves);
      forall d | d in Dims ensures IsPrefix(k.eliminated[d], kn.eliminated[d]) {
        PrefixTransitive(k.eliminated[d], k1.eliminated[d], kn.eliminated[d]);
      }
    }
    CountMonotone(k.cells, Replay(k, moves).cells);
  }

  /** A new board, whatever its cells, keeps all of the above across any
      sequence of updates. */
  lemma FreshBoardKeeps(cells: seq<Cell>, moves: seq<Move>)
    ensures Consistent(Replay(Empty(cells), moves)) && Settled(Replay(Empty(cells), moves))
    ensures SamePlaces(cells, Replay(Empty(cells), moves).cells)
    ensures KeepsEliminated(cells, Replay(Empty(cells), moves).cells)
    ensures Count(cells, Eliminated) <= Count(Replay(Empty(cells), moves).cells, Eliminated)
  {
    ReplayKeeps(Empty(cells), moves);
  }
}
