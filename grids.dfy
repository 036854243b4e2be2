/** The board as a value: a rectangular grid of cells on a torus, the
    neighbour count the mark phase uses, and the whole-board effect of the
    two sub-phases. */
module Grids {
  import opened Cells

  /** Row-major: g[i][j] is the cell in row i, column j. */
  type Grid = seq<seq<Cell>>

  /** g has h rows of w cells each. */
  ghost predicate Rect(g: Grid, h: int, w: int) {
    |g| == h && forall i :: 0 <= i < h ==> |g[i]| == w
  }

  /** A board the mark phase can run on: at least one row (`feed` reads the
      width from the first row), all rows as long as the first. */
  ghost predicate IsBoard(g: Grid) {
    |g| >= 1 && Rect(g, |g|, |g[0]|)
  }

  function Width(g: Grid): nat
    requires |g| >= 1
  {
    |g[0]|
  }

  ghost predicate AllSteady(g: Grid) {
    forall i, j :: 0 <= i < |g| && 0 <= j < |g[i]| ==> Steady(g[i][j])
  }

  /** The row (or column) before k, wrapping from the first to the last. */
  function Prev(k: int, n: int): (r: int)
    requires 0 <= k < n
    ensures 0 <= r < n
  {
    if k - 1 < 0 then n - 1 else k - 1
  }

  /** The row (or column) after k, wrapping from the last to the first. */
  function Next(k: int, n: int): (r: int)
    requires 0 <= k < n
    ensures 0 <= r < n
  {
    if k + 1 >= n then 0 else k + 1
  }

  /** The code's wrap rule is reduction modulo the size. */
  lemma WrapIsModulo(k: int, n: int)
    requires 0 <= k < n
    ensures Prev(k, n) == (k - 1) % n
    ensures Next(k, n) == (k + 1) % n
    ensures k % n == k
  {
  }

  /** The neighbour count of cell (i, j): the byte values of the wrapped
      3 x 3 window around it, without the cell itself. On a board less than
      three rows high (or wide) two of the wrapped rows (columns) are the
      same row, and its cells are counted once per position. */
  ghost function WindowSum(g: Grid, i: int, j: int): (r: int)
    requires IsBoard(g) && 0 <= i < |g| && 0 <= j < Width(g)
    ensures 0 <= r <= 24
  {
    var up, down := Prev(i, |g|), Next(i, |g|);
    var left, right := Prev(j, Width(g)), Next(j, Width(g));
    Ord(g[up][left]) + Ord(g[up][j]) + Ord(g[up][right]) +
    Ord(g[i][left]) + Ord(g[i][right]) +
    Ord(g[down][left]) + Ord(g[down][j]) + Ord(g[down][right])
  }

  /** The cells of column j in the row above i, row i and the row below i:
      the first, vertical pass of the separable count. */
  ghost function ColumnSum(g: Grid, i: int, j: int): (r: int)
    requires IsBoard(g) && 0 <= i < |g| && 0 <= j < Width(g)
    ensures 0 <= r <= 9
  {
    Ord(g[Prev(i, |g|)][j]) + Ord(g[i][j]) + Ord(g[Next(i, |g|)][j])
  }

  /** The separable count: three adjacent column sums less the centre cell
      is the window sum. */
  lemma WindowSumSeparable(g: Grid, i: int, j: int)
    requires IsBoard(g) && 0 <= i < |g| && 0 <= j < Width(g)
    ensures WindowSum(g, i, j) ==
      ColumnSum(g, i, Prev(j, Width(g))) + ColumnSum(g, i, j) + ColumnSum(g, i, Next(j, Width(g))) - Ord(g[i][j])
  {
  }

  /** The eight offsets of the Moore neighbourhood. */
  const Offsets: seq<(int, int)> :=
    [(-1, -1), (-1, 0), (-1, 1), (0, -1), (0, 1), (1, -1), (1, 0), (1, 1)]

  /** The byte value of the cell at offset d from (i, j), indices taken
      modulo the board's size. */
  ghost function AtOffset(g: Grid, i: int, j: int, d: (int, int)): int
    requires IsBoard(g) && 0 <= i < |g| && 0 <= j < Width(g)
  {
    Ord(g[(i + d.0) % |g|][(j + d.1) % Width(g)])
  }

  /** The byte values of the cells at the given offsets from (i, j): a naive
      scan of the neighbourhood. */
  ghost function ScanSum(g: Grid, i: int, j: int, offs: seq<(int, int)>): int
    requires IsBoard(g) && 0 <= i < |g| && 0 <= j < Width(g)
  {
    if offs == [] then 0 else AtOffset(g, i, j, offs[0]) + ScanSum(g, i, j, offs[1..])
  }

  /** The count used by the mark phase is the naive eight-neighbour scan
      with modular wrap-around. */
  lemma WindowSumIsScan(g: Grid, i: int, j: int)
    requires IsBoard(g) && 0 <= i < |g| && 0 <= j < Width(g)
    ensures WindowSum(g, i, j) == ScanSum(g, i, j, Offsets)
  {
    WrapIsModulo(i, |g|);
    WrapIsModulo(j, Width(g));
    var s := Offsets;
    assert ScanSum(g, i, j, s[8..]) == 0;
    assert ScanSum(g, i, j, s[7..]) == AtOffset(g, i, j, s[7]) by { assert s[7..][1..] == s[8..]; }
    assert ScanSum(g, i, j, s[6..]) == AtOffset(g, i, j, s[6]) + ScanSum(g, i, j, s[7..]) by { assert s[6..][1..] == s[7..]; }
    assert ScanSum(g, i, j, s[5..]) == AtOffset(g, i, j, s[5]) + ScanSum(g, i, j, s[6..]) by { assert s[5..][1..] == s[6..]; }
    assert ScanSum(g, i, j, s[4..]) == AtOffset(g, i, j, s[4]) + ScanSum(g, i, j, s[5..]) by { assert s[4..][1..] == s[5..]; }
    assert ScanSum(g, i, j, s[3..]) == AtOffset(g, i, j, s[3]) + ScanSum(g, i, j, s[4..]) by { assert s[3..][1..] == s[4..]; }
    assert ScanSum(g, i, j, s[2..]) == AtOffset(g, i, j, s[2]) + ScanSum(g, i, j, s[3..]) by { assert s[2..][1..] == s[3..]; }
    assert ScanSum(g, i, j, s[1..]) == AtOffset(g, i, j, s[1]) + ScanSum(g, i, j, s[2..]) by { assert s[1..][1..] == s[2..]; }
    assert ScanSum(g, i, j, s) == AtOffset(g, i, j, s[0]) + ScanSum(g, i, j, s[1..]);
  }

  /** On a steady board every neighbour contributes 0 or 1. */
  lemma WindowSumBounds(g: Grid, i: int, j: int)
    requires IsBoard(g) && AllSteady(g) && 0 <= i < |g| && 0 <= j < Width(g)
    ensures 0 <= WindowSum(g, i, j) <= 8
  {
  }

  /** The torus wraps in both directions: a live cell in the top-left corner
      is a neighbour of the three other corners. */
  lemma CornerWraps(g: Grid)
    requires IsBoard(g) && |g| >= 2 && Width(g) >= 2
    requires g[0][0] == Alive
    ensures WindowSum(g, |g| - 1, 0) >= 1
    ensures WindowSum(g, 0, Width(g) - 1) >= 1
    ensures WindowSum(g, |g| - 1, Width(g) - 1) >= 1
  {
  }

  /** Row i after the mark phase. */
  ghost function MarkRow(g: Grid, i: int): (r: seq<Cell>)
    requires IsBoard(g) && AllSteady(g) && 0 <= i < |g|
    ensures |r| == Width(g)
  {
    seq(Width(g), j requires 0 <= j < Width(g) => Mark(g[i][j], WindowSum(g, i, j)))
  }

  /** The board after the mark phase: every cell marked with its count on
      the board as it was before the phase, whatever the order of the sweep. */
  ghost function MarkGrid(g: Grid): (r: Grid)
    requires IsBoard(g) && AllSteady(g)
    ensures IsBoard(r) && Rect(r, |g|, Width(g))
  {
    seq(|g|, i requires 0 <= i < |g| => MarkRow(g, i))
  }

  /** A row after the resolve phase. */
  function ResolveRow(row: seq<Cell>): (r: seq<Cell>)
    ensures |r| == |row|
  {
    seq(|row|, j requires 0 <= j < |row| => Resolve(row[j]))
  }

  /** The board after the resolve phase. */
  ghost function ResolveGrid(g: Grid): (r: Grid)
    ensures |r| == |g|
    ensures forall i :: 0 <= i < |g| ==> |r[i]| == |g[i]|
  {
    seq(|g|, i requires 0 <= i < |g| => ResolveRow(g[i]))
  }

  /** Row i after one generation of classic Life. */
  ghost function LifeRow(g: Grid, i: int): (r: seq<Cell>)
    requires IsBoard(g) && 0 <= i < |g|
    ensures |r| == Width(g)
  {
    seq(Width(g), j requires 0 <= j < Width(g) =>
      if LifeRule(g[i][j] == Alive, WindowSum(g, i, j)) then Alive else Empty)
  }

  /** One generation of classic Life on the torus. */
  ghost function LifeStep(g: Grid): Grid
    requires IsBoard(g)
  {
    seq(|g|, i requires 0 <= i < |g| => LifeRow(g, i))
  }

  /** The marked board differs from the original only by births on empty
      cells and deaths on live ones. */
  lemma MarkOnlyFlags(g: Grid, i: int, j: int)
    requires IsBoard(g) && AllSteady(g) && 0 <= i < |g| && 0 <= j < Width(g)
    ensures MarkGrid(g)[i][j] == Born ==> g[i][j] == Empty
    ensures MarkGrid(g)[i][j] == Dying ==> g[i][j] == Alive
    ensures Steady(MarkGrid(g)[i][j]) ==> MarkGrid(g)[i][j] == g[i][j]
  {
  }

  /** After the resolve phase the board is steady. */
  lemma ResolvedIsSteady(g: Grid)
    ensures AllSteady(ResolveGrid(g))
  {
  }

  /** Resolving a steady board changes nothing. */
  lemma ResolveIdempotent(g: Grid)
    requires AllSteady(g)
    ensures ResolveGrid(g) == g
  {
    assert forall i :: 0 <= i < |g| ==> ResolveGrid(g)[i] == g[i];
  }

  /** A mark phase followed by a resolve phase computes one generation of
      classic Life. */
  lemma MarkResolveIsLifeStep(g: Grid)
    requires IsBoard(g) && AllSteady(g)
    ensures ResolveGrid(MarkGrid(g)) == LifeStep(g)
  {
    var m := MarkGrid(g);
    forall i | 0 <= i < |g|
      ensures ResolveGrid(m)[i] == LifeStep(g)[i]
    {
      forall j | 0 <= j < Width(g)
        ensures ResolveGrid(m)[i][j] == LifeStep(g)[i][j]
      {
        assert m[i][j] == Mark(g[i][j], WindowSum(g, i, j));
        MarkThenResolveIsLife(g[i][j], WindowSum(g, i, j));
      }
    }
  }

  /** The number of cells equal to c in a row. */
  function RowCount(row: seq<Cell>, c: Cell): nat {
    if row == [] then 0
    else RowCount(row[..|row| - 1], c) + (if row[|row| - 1] == c then 1 else 0)
  }

  /** The number of cells equal to c on a board. */
  function GridCount(g: Grid, c: Cell): nat {
    if g == [] then 0
    else GridCount(g[..|g| - 1], c) + RowCount(g[|g| - 1], c)
  }

  /** In a steady row, every cell is either empty or alive. */
  lemma {:induction false} RowCountSteady(row: seq<Cell>)
    requires forall j :: 0 <= j < |row| ==> Steady(row[j])
    ensures RowCount(row, Empty) + RowCount(row, Alive) == |row|
  {
    if row != [] {
      RowCountSteady(row[..|row| - 1]);
    }
  }

  /** On a steady h x w board the empty and the live cells together are all
      h * w cells. */
  lemma {:induction false} GridCountSteady(g: Grid, h: nat, w: nat)
    requires Rect(g, h, w) && AllSteady(g)
    ensures GridCount(g, Empty) + GridCount(g, Alive) == h * w
  {
    if g != [] {
      var last := g[|g| - 1];
      assert (h - 1) * w + w == h * w;
      assert forall j :: 0 <= j < |last| ==> Steady(last[j]);
      RowCountSteady(last);
      GridCountSteady(g[..|g| - 1], h - 1, w);
    }
  }
}
