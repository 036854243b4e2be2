/** The simulation engine as the program runs it: a board of cells updated
    in place, and a game object whose `Update` handles the keys and runs one
    sub-phase per tick. Each method is proved against the value-level model
    of modules Grids and Sim. */
module Engine {
  import opened Cells
  import opened Grids
  import Sim

  /** The cells of a board as a value. */
  ghost function Contents(a: array2<Cell>): (g: Grid)
    reads a
    ensures Rect(g, a.Length0, a.Length1)
    ensures forall i, j :: 0 <= i < a.Length0 && 0 <= j < a.Length1 ==> g[i][j] == a[i, j]
  {
    seq(a.Length0, i requires 0 <= i < a.Length0 reads a => RowContents(a, i))
  }

  ghost function RowContents(a: array2<Cell>, i: int): (row: seq<Cell>)
    requires 0 <= i < a.Length0
    reads a
    ensures |row| == a.Length1
    ensures forall j :: 0 <= j < a.Length1 ==> row[j] == a[i, j]
  {
    seq(a.Length1, j requires 0 <= j < a.Length1 reads a => a[i, j])
  }

  /** A board: `rows` rows of `columns` cells; its dimensions never change. */
  class Board {
    const cells: array2<Cell>

    /** `NewBoard`: a board of nRows rows of nColumns cells, all empty. */
    constructor (nColumns: int, nRows: int)
      requires nColumns >= 0 && nRows >= 0
      ensures fresh(cells)
      ensures cells.Length0 == nRows && cells.Length1 == nColumns
      ensures forall i, j :: 0 <= i < nRows && 0 <= j < nColumns ==> cells[i, j] == Empty
    {
      var rows := new Cell[nRows, nColumns];
      var i := 0;
      while i < nRows
        invariant 0 <= i <= nRows
        invariant forall r, c :: 0 <= r < i && 0 <= c < nColumns ==> rows[r, c] == Empty
      {
        var j := 0;
        while j < nColumns
          invariant 0 <= j <= nColumns
          invariant forall r, c :: 0 <= r < i && 0 <= c < nColumns ==> rows[r, c] == Empty
          invariant forall c :: 0 <= c < j ==> rows[i, c] == Empty
        {
          rows[i, j] := Empty;
          j := j + 1;
        }
        i := i + 1;
      }
      cells := rows;
    }

    /** `RandomFill`, with the random values passed in: every cell takes the
        value drawn for it, which may be any of the four states. */
    method RandomFill(values: Grid)
      requires Rect(values, cells.Length0, cells.Length1)
      modifies cells
      ensures Contents(cells) == values
    {
      var i := 0;
      while i < cells.Length0
        invariant 0 <= i <= cells.Length0
        invariant forall r, c :: 0 <= r < i && 0 <= c < cells.Length1 ==> cells[r, c] == values[r][c]
      {
        var j := 0;
        while j < cells.Length1
          invariant 0 <= j <= cells.Length1
          invariant forall r, c :: 0 <= r < i && 0 <= c < cells.Length1 ==> cells[r, c] == values[r][c]
          invariant forall c :: 0 <= c < j ==> cells[i, c] == values[i][c]
        {
          cells[i, j] := values[i][j];
          j := j + 1;
        }
        i := i + 1;
      }
      assert forall r :: 0 <= r < cells.Length0 ==> Contents(cells)[r] == values[r];
    }
  }

  /** The counting half of `feed`: the neighbour count of every cell, by
      summing three rows into a reused buffer and then three adjacent
      entries of that buffer, less the cell itself. The result equals the
      wrapped 3 x 3 window sum less the centre, computed on the board as it
      is before any cell is rewritten. */
  method NeighbourCounts(rows: array2<Cell>) returns (countBoard: seq<seq<int>>)
    requires rows.Length0 >= 1
    ensures |countBoard| == rows.Length0
    ensures forall i :: 0 <= i < rows.Length0 ==> |countBoard[i]| == rows.Length1
    ensures forall i, j :: 0 <= i < rows.Length0 && 0 <= j < rows.Length1 ==>
      countBoard[i][j] == WindowSum(Contents(rows), i, j)
  {
    var h, w := rows.Length0, rows.Length1;
    countBoard := [];
    var tmp := new int[w];
    var i := 0;
    while i < h
      invariant 0 <= i <= h
      invariant |countBoard| == i
      invariant forall r :: 0 <= r < i ==> |countBoard[r]| == w
      invariant forall r, c :: 0 <= r < i && 0 <= c < w ==> countBoard[r][c] == WindowSum(Contents(rows), r, c)
    {
      var i1, i2 := i - 1, i + 1;
      if i1 < 0 {
        i1 := h - 1;
      }
      if i2 >= h {
        i2 := 0;
      }
      SumRows(rows, i, i1, i2, tmp);
      var crow := SumColumns(rows, i, tmp);
      countBoard := countBoard + [crow];
      i := i + 1;
    }
  }

  /** The vertical pass of `feed` for row i: column sums of rows i1, i, i2
      into the buffer. */
  method SumRows(rows: array2<Cell>, i: int, i1: int, i2: int, tmp: array<int>)
    requires 0 <= i < rows.Length0 && tmp.Length == rows.Length1
    requires i1 == Prev(i, rows.Length0) && i2 == Next(i, rows.Length0)
    modifies tmp
    ensures forall j :: 0 <= j < tmp.Length ==> tmp[j] == ColumnSum(Contents(rows), i, j)
  {
    var j := 0;
    while j < tmp.Length
      invariant 0 <= j <= tmp.Length
      invariant forall c :: 0 <= c < j ==> tmp[c] == Ord(rows[i, c]) + Ord(rows[i1, c]) + Ord(rows[i2, c])
    {
      tmp[j] := Ord(rows[i, j]) + Ord(rows[i1, j]) + Ord(rows[i2, j]);
      j := j + 1;
    }
  }

  /** The horizontal pass of `feed` for row i: three adjacent column sums
      less the centre cell, which is the count of every cell of the row. */
  method SumColumns(rows: array2<Cell>, i: int, tmp: array<int>) returns (crow: seq<int>)
    requires 0 <= i < rows.Length0 && tmp.Length == rows.Length1
    requires forall j :: 0 <= j < tmp.Length ==> tmp[j] == ColumnSum(Contents(rows), i, j)
    ensures |crow| == rows.Length1
    ensures forall j :: 0 <= j < rows.Length1 ==> crow[j] == WindowSum(Contents(rows), i, j)
  {
    ghost var g := Contents(rows);
    var w := tmp.Length;
    var counts := new int[w];
    var j := 0;
    while j < w
      invariant 0 <= j <= w
      invariant forall c :: 0 <= c < j ==> counts[c] == WindowSum(g, i, c)
    {
      var j1, j2 := j - 1, j + 1;
      if j1 < 0 {
        j1 := w - 1;
      }
      if j2 >= w {
        j2 := 0;
      }
      counts[j] := tmp[j] + tmp[j1] + tmp[j2] - Ord(rows[i, j]);
      WindowSumSeparable(g, i, j);
      j := j + 1;
    }
    crow := counts[..];
  }

  /** The marking half of `feed`: every cell flagged by the mark rule with
      its count. It panics on a cell that is not steady, so it requires a
      steady board. */
  method MarkCells(rows: array2<Cell>, countBoard: seq<seq<int>>)
    requires |countBoard| == rows.Length0
    requires forall i :: 0 <= i < rows.Length0 ==> |countBoard[i]| == rows.Length1
    requires forall i, j :: 0 <= i < rows.Length0 && 0 <= j < rows.Length1 ==> Steady(rows[i, j])
    modifies rows
    ensures forall i, j :: 0 <= i < rows.Length0 && 0 <= j < rows.Length1 ==>
      rows[i, j] == Mark(old(rows[i, j]), countBoard[i][j])
  {
    var h, w := rows.Length0, rows.Length1;
    var i := 0;
    while i < h
      invariant 0 <= i <= h
      invariant forall r, c :: 0 <= r < i && 0 <= c < w ==> rows[r, c] == Mark(old(rows[r, c]), countBoard[r][c])
      invariant forall r, c :: i <= r < h && 0 <= c < w ==> rows[r, c] == old(rows[r, c])
    {
      var j := 0;
      while j < w
        invariant 0 <= j <= w
        invariant forall r, c :: 0 <= r < i && 0 <= c < w ==> rows[r, c] == Mark(old(rows[r, c]), countBoard[r][c])
        invariant forall c :: 0 <= c < j ==> rows[i, c] == Mark(old(rows[i, c]), countBoard[i][c])
        invariant forall r, c :: i <= r < h && 0 <= c < w && (r > i || c >= j) ==> rows[r, c] == old(rows[r, c])
      {
        var nbrs := countBoard[i][j];
        match rows[i, j] {
          case Empty =>
            if nbrs == 3 {
              rows[i, j] := Born;
            }
          case Alive =>
            if nbrs < 2 || nbrs > 3 {
              rows[i, j] := Dying;
            }
          case _ =>
            assert false;
        }
        j := j + 1;
      }
      i := i + 1;
    }
  }

  /** One row of `lifeOn`: collapse the cells of row i and count the empty
      and the live cells that result; `row` is the resolved row as a value. */
  method ResolveCells(rows: array2<Cell>, i: int) returns (empty: nat, filled: nat, ghost row: seq<Cell>)
    requires 0 <= i < rows.Length0
    modifies rows
    ensures |row| == rows.Length1
    ensures forall c :: 0 <= c < rows.Length1 ==> row[c] == rows[i, c] == Resolve(old(rows[i, c]))
    ensures forall r, c :: 0 <= r < rows.Length0 && r != i && 0 <= c < rows.Length1 ==> rows[r, c] == old(rows[r, c])
    ensures empty == RowCount(row, Empty) && filled == RowCount(row, Alive)
  {
    var w := rows.Length1;
    row := [];
    empty, filled := 0, 0;
    var j := 0;
    while j < w
      invariant 0 <= j <= w
      invariant |row| == j
      invariant forall c :: 0 <= c < j ==> row[c] == rows[i, c] == Resolve(old(rows[i, c]))
      invariant forall r, c :: 0 <= r < rows.Length0 && 0 <= c < w && (r != i || c >= j) ==> rows[r, c] == old(rows[r, c])
      invariant empty == RowCount(row, Empty) && filled == RowCount(row, Alive)
    {
      match rows[i, j] {
        case Empty | Dying =>
          rows[i, j] := Empty;
          empty := empty + 1;
        case Born | Alive =>
          rows[i, j] := Alive;
          filled := filled + 1;
      }
      assert (row + [rows[i, j]])[..j] == row;
      row := row + [rows[i, j]];
      j := j + 1;
    }
  }

  /** The game: a board, the `FeedPhase` flag, the pause flag and the tick
      rate. */
  class Game {
    const board: Board
    var feedPhase: bool
    var paused: bool
    var speed: int

    /** The game as a value of the tick model. */
    ghost function State(): Sim.State
      reads this, board.cells
    {
      Sim.State(Contents(board.cells), feedPhase, Sim.Controls(paused, speed))
    }

    /** The game invariant: at least one row, the speed within its bounds,
        and a steady board whenever the next sub-phase is the mark phase. */
    ghost predicate Valid()
      reads this, board.cells
    {
      board.cells.Length0 >= 1 && Sim.Inv(State()) && Sim.SpeedInRange(speed)
    }

    /** `NewGame`, with the random fill passed in. */
    constructor (nColumns: int, nRows: int, fill: Grid)
      requires nColumns >= 0 && nRows >= 1
      requires Rect(fill, nRows, nColumns)
      ensures fresh(board) && fresh(board.cells)
      ensures Valid()
      ensures State() == Sim.Initial(fill)
    {
      var b := new Board(nColumns, nRows);
      b.RandomFill(fill);
      board := b;
      feedPhase := false;
      paused := false;
      speed := Sim.DefaultSpeed;
    }

    /** `processInput`, with the three key states passed in. */
    method ProcessInput(keys: Sim.Keys)
      modifies this
      ensures Sim.Controls(paused, speed) == Sim.ProcessInput(old(Sim.Controls(paused, speed)), keys)
      ensures feedPhase == old(feedPhase)
    {
      if keys.space {
        paused := !paused;
      } else if keys.left {
        speed := speed - 1;
        if speed < 1 {
          speed := 1;
        }
      } else if keys.right {
        speed := speed + 1;
        if speed > Sim.MaxTPS {
          speed := Sim.MaxTPS;
        }
      }
    }

    /** `Update`: one tick of the game loop. */
    method Update(keys: Sim.Keys)
      requires Valid()
      modifies this, board.cells
      ensures Valid()
      ensures State() == Sim.Step(old(State()), keys)
    {
      ProcessInput(keys);
      if paused {
        return;
      }
      var fp := feedPhase;
      feedPhase := !fp;
      if fp {
        Feed();
      } else {
        var empty, filled := LifeOn();
        ResolvedIsSteady(old(Contents(board.cells)));
      }
    }

    /** `feed`, the mark sub-phase: count first, then mark every cell. It
        panics on a cell that is not steady, so it requires a steady board. */
    method Feed()
      requires board.cells.Length0 >= 1 && AllSteady(Contents(board.cells))
      modifies board.cells
      ensures Contents(board.cells) == MarkGrid(old(Contents(board.cells)))
    {
      var rows := board.cells;
      ghost var g := Contents(rows);
      var countBoard := NeighbourCounts(rows);
      MarkCells(rows, countBoard);
      forall r | 0 <= r < rows.Length0
        ensures Contents(rows)[r] == MarkGrid(g)[r]
      {
        assert forall c :: 0 <= c < rows.Length1 ==> Contents(rows)[r][c] == MarkRow(g, r)[c];
      }
    }

    /** `lifeOn`, the resolve sub-phase: collapse every cell to a steady
        state, counting the empty and the live cells of the result. */
    method LifeOn() returns (empty: nat, filled: nat)
      modifies board.cells
      ensures Contents(board.cells) == ResolveGrid(old(Contents(board.cells)))
      ensures empty == GridCount(Contents(board.cells), Empty)
      ensures filled == GridCount(Contents(board.cells), Alive)
      ensures empty + filled == board.cells.Length0 * board.cells.Length1
    {
      var rows := board.cells;
      ghost var g := Contents(rows);
      var h, w := rows.Length0, rows.Length1;
      ghost var done: Grid := [];
      empty, filled := 0, 0;
      var i := 0;
      while i < h
        invariant 0 <= i <= h
        invariant |done| == i
        invariant forall r :: 0 <= r < i ==> |done[r]| == w
        invariant forall r, c :: 0 <= r < i && 0 <= c < w ==> done[r][c] == rows[r, c] == Resolve(g[r][c])
        invariant forall r, c :: i <= r < h && 0 <= c < w ==> rows[r, c] == g[r][c]
        invariant empty == GridCount(done, Empty) && filled == GridCount(done, Alive)
      {
        ghost var row;
        var e, f;
        e, f, row := ResolveCells(rows, i);
        assert (done + [row])[..i] == done;
        done := done + [row];
        empty, filled := empty + e, filled + f;
        i := i + 1;
      }
      forall r | 0 <= r < h
        ensures Contents(rows)[r] == done[r] == ResolveGrid(g)[r]
      {
        assert forall c :: 0 <= c < w ==> Contents(rows)[r][c] == done[r][c] == ResolveRow(g[r])[c];
      }
      assert Contents(rows) == done;
      ResolvedIsSteady(g);
      GridCountSteady(done, h, w);
    }

    /** `Layout`: the screen is one pixel per cell, columns by rows,
        whatever the window size. */
    method Layout(outsideWidth: int, outsideHeight: int) returns (screenWidth: int, screenHeight: int)
      requires board.cells.Length0 >= 1
      ensures screenWidth == board.cells.Length1 && screenHeight == board.cells.Length0
    {
      screenWidth, screenHeight := board.cells.Length1, board.cells.Length0;
    }
  }
}
