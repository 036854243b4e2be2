/** A worked example on a 5 x 5 board: the blinker. */
module Scenarios {
  import opened Cells
  import opened Grids

  const E := Empty
  const A := Alive

  /** A horizontal blinker: three live cells in row 2, columns 1 to 3. */
  const Horizontal: Grid := [
    [E, E, E, E, E],
    [E, E, E, E, E],
    [E, A, A, A, E],
    [E, E, E, E, E],
    [E, E, E, E, E]]

  /** The blinker after a mark phase: the two ends (one neighbour each)
      are dying, the centre (two neighbours) stays alive, and the cells
      above and below the centre (three neighbours each) are born. */
  const HorizontalMarked: Grid := [
    [E, E, E, E, E],
    [E, E, Born, E, E],
    [E, Dying, A, Dying, E],
    [E, E, Born, E, E],
    [E, E, E, E, E]]

  /** A vertical blinker: three live cells in column 2, rows 1 to 3. */
  const Vertical: Grid := [
    [E, E, E, E, E],
    [E, E, A, E, E],
    [E, E, A, E, E],
    [E, E, A, E, E],
    [E, E, E, E, E]]

  lemma HorizontalIsBoard()
    ensures IsBoard(Horizontal) && AllSteady(Horizontal)
  {
  }

  /** The mark phase on cell (i, j) of the horizontal blinker, one concrete
      case at a time. */
  lemma MarkCellOfHorizontal(i: int, j: int)
    requires 0 <= i < 5 && 0 <= j < 5
    requires IsBoard(Horizontal) && AllSteady(Horizontal)
    ensures Mark(Horizontal[i][j], WindowSum(Horizontal, i, j)) == HorizontalMarked[i][j]
  {
    if j == 0 {
      if i == 0 {} else if i == 1 {} else if i == 2 {} else if i == 3 {} else {}
    } else if j == 1 {
      if i == 0 {} else if i == 1 {} else if i == 2 {} else if i == 3 {} else {}
    } else if j == 2 {
      if i == 0 {} else if i == 1 {} else if i == 2 {} else if i == 3 {} else {}
    } else if j == 3 {
      if i == 0 {} else if i == 1 {} else if i == 2 {} else if i == 3 {} else {}
    } else {
      if i == 0 {} else if i == 1 {} else if i == 2 {} else if i == 3 {} else {}
    }
  }

  /** The mark phase on row i of the horizontal blinker. */
  lemma MarkRowOfHorizontal(i: int)
    requires 0 <= i < 5
    ensures IsBoard(Horizontal) && AllSteady(Horizontal)
    ensures MarkRow(Horizontal, i) == HorizontalMarked[i]
  {
    HorizontalIsBoard();
    var g := Horizontal;
    forall j | 0 <= j < 5
      ensures MarkRow(g, i)[j] == HorizontalMarked[i][j]
    {
      MarkCellOfHorizontal(i, j);
    }
  }

  /** The resolve phase turns the marked blinker into the vertical one. */
  lemma ResolveMarkedHorizontal()
    ensures ResolveGrid(HorizontalMarked) == Vertical
  {
    forall i | 0 <= i < 5
      ensures ResolveGrid(HorizontalMarked)[i] == Vertical[i]
    {
      assert ResolveGrid(HorizontalMarked)[i] == ResolveRow(HorizontalMarked[i]);
    }
  }

  /** One mark phase and one resolve phase turn the horizontal blinker
      into the vertical one. */
  lemma BlinkerOscillates()
    ensures IsBoard(Horizontal) && AllSteady(Horizontal)
    ensures MarkGrid(Horizontal) == HorizontalMarked
    ensures ResolveGrid(HorizontalMarked) == Vertical
  {
    HorizontalIsBoard();
    var m := MarkGrid(Horizontal);
    forall i | 0 <= i < 5
      ensures m[i] == HorizontalMarked[i]
    {
      assert m[i] == MarkRow(Horizontal, i);
      MarkRowOfHorizontal(i);
    }
    ResolveMarkedHorizontal();
  }
}
