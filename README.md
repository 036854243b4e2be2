# Life engine: a Dafny model

This project models the simulation engine of a Conway's-Life variant played on a
toroidal board (`main.go` of the `life` program). Every cell is one of four
states: `Empty`, `Alive`, `Born` and `Dying`. The game alternates two
sub-phases, one per unpaused tick:

- `feed` is the mark phase. It counts every cell's live neighbours with a
  separable row-then-column sum over a reused buffer, then flags births
  (`Empty` with 3 neighbours becomes `Born`) and deaths (`Alive` with fewer
  than 2 or more than 3 becomes `Dying`).
- `lifeOn` is the resolve phase. It collapses `Born` to `Alive` and `Dying` to
  `Empty`, and counts the empty and the live cells.

`Update` first handles the keys. Space toggles the pause. Left and Right change
the tick rate within [1, 60]. Unless the game is paused, `Update` then flips the
`FeedPhase` flag and runs the sub-phase that the old flag names.

The project has two layers:

- Value-level models. `cells.dfy` (module `Cells`) holds the per-cell rules.
  `grids.dfy` (module `Grids`) holds the board as a `seq<seq<Cell>>`, the
  wrapped window count, and the whole-board effect of each sub-phase.
  `sim.dfy` (module `Sim`) holds the key handling and the tick as a state
  transition, with runs over sequences of key states.
- The program itself. `engine.dfy` (module `Engine`) has a class `Board`
  over a two-dimensional array of cells and a class `Game` with the fields
  `feedPhase`, `paused` and `speed`. Their methods run the source's nested
  loops in place. Each method is proved against the value-level model.

`scenarios.dfy` works one blinker oscillation through the two sub-phases.

Cells are a closed datatype whose ordinals 0..3 are the byte values the source
adds when it counts (`Cells.Ord`). Key polling is replaced by a `Keys` value of
three booleans. Keys are sampled once per tick, so a key held for n ticks is n
consecutive `Keys` values (holding Space toggles the pause on every tick). The
random fill is passed in as a grid of cells, and any of the
four states may occur in it.

A new game has `FeedPhase` false, so its first tick resolves the random fill,
which may contain `Born` and `Dying` cells. Only after that does `feed` run. The
model keeps this order. `Sim.Inv` ("when the next sub-phase is the mark phase,
the board is steady") holds for every fill and is kept by every tick. So
`feed`'s panic on a non-steady cell, modelled as its precondition, can never
fire in a game.

The counts follow the code's wrap rule: row `i - 1` wraps to the last row and
row `i + 1` wraps to row 0, and the same for columns. On a board fewer than
three rows high or wide, the wrapped indices coincide and the same cell is
counted more than once. `Grids.WindowSum` reproduces this.

In the blinker example the centre cell has two live neighbours. The code keeps
it `Alive` during the mark phase, so only the two end cells become `Dying`.

## Model

| member | source | states |
|---|---|---|
| Cells.Ord | main.go:17-22 | The byte value of a cell is below 4. It is 0 exactly for `Empty` and 1 exactly for `Alive`. |
| Cells.Mark | main.go:154-162 | The mark rule. The result is `Born` iff the cell was `Empty` with exactly 3 neighbours. It is `Dying` iff the cell was `Alive` with fewer than 2 or more than 3. Otherwise the cell is unchanged. |
| Cells.Resolve | main.go:176-182 | The result is always steady and leaves a steady cell unchanged. It is `Alive` iff the cell was `Alive` or `Born`. |
| Cells.MarkThenResolveIsLife | main.go:154-182 | Marking then resolving a steady cell gives the classic B3/S23 Life rule. |
| Grids.WrapIsModulo | main.go:121-128 | The code's wrap of the previous and next index equals `(k - 1) mod n` and `(k + 1) mod n`. |
| Grids.Prev | main.go:121-128 | The row or column before k, wrapping from the first to the last, is a valid index. |
| Grids.Next | main.go:137-144 | The row or column after k, wrapping from the last to the first, is a valid index. |
| Grids.WindowSum | main.go:120-147 | The neighbour count of a cell is the byte sum of the eight wrapped window cells. It lies in 0..24, so it fits the source's byte. |
| Grids.ColumnSum | main.go:131 | One entry of the vertical pass, the cells above, at and below in one column, lies in 0..9. |
| Grids.WindowSumSeparable | main.go:129-147 | Three adjacent column sums of three rows, less the centre cell, equal the direct window sum of the eight wrapped neighbours. |
| Grids.WindowSumIsScan | main.go:116-149 | The window sum equals a naive scan of the eight neighbour offsets, with indices reduced modulo the board's size. |
| Grids.WindowSumBounds | main.go:146 | On a steady board a count lies in 0..8. |
| Grids.CornerWraps | main.go:121-144 | On any board at least 2 x 2, a live cell at (0,0) counts as a neighbour of the three other corners. |
| Grids.MarkGrid | main.go:151-167 | The board after the mark phase is a board of the same dimensions. What its cells hold is stated by `Grids.MarkOnlyFlags` and `Grids.MarkResolveIsLifeStep`. |
| Grids.ResolveGrid | main.go:174-187 | The board after the resolve phase has the same dimensions, row by row. That it is steady is `Grids.ResolvedIsSteady`. |
| Grids.MarkOnlyFlags | main.go:151-167 | On the marked board, `Born` appears only where the cell was `Empty` and `Dying` only where it was `Alive`. Steady cells keep their value. |
| Grids.ResolvedIsSteady | main.go:174-187 | After the resolve phase every cell is `Empty` or `Alive`. |
| Grids.ResolveIdempotent | main.go:174-187 | Resolving an all-steady board leaves it unchanged. |
| Grids.MarkResolveIsLifeStep | main.go:116-187 | A mark phase followed by a resolve phase computes one generation of classic Life on the torus. |
| Grids.RowCountSteady | main.go:174-186 | In a steady row, the empty cells plus the live cells are all the cells. |
| Grids.GridCountSteady | main.go:172-188 | On a steady h x w board, `empty + filled == h * w`. |
| Sim.ProcessInput | main.go:97-114 | At most one key acts, in the order Space, Left, Right. Space flips the pause flag only. Left and Right move the speed by one and saturate at 1 and `MaxTPS`. A speed in [1, 60] stays there. |
| Sim.SpeedStaysInRange | main.go:97-114 | Over any sequence of key states, the speed stays within [1, 60]. |
| Sim.SlowDownSaturates | main.go:101-106 | Holding Left at speed 1 leaves the controls unchanged. |
| Sim.SpeedUpSaturates | main.go:107-112 | Holding Right at speed 60 leaves the controls unchanged. |
| Sim.InitialInv | main.go:72-79 | A new game, for any fill, satisfies the tick invariant and starts with its speed in range. |
| Sim.Initial | main.go:73-78 | A new game holds the fill, is not paused, has its speed in range and has `FeedPhase` false. |
| Sim.Step | main.go:84-95 | A tick keeps the invariant and the board's dimensions. When paused, the board and the flag do not change. When not paused, the flag flips. |
| Sim.Ran | main.go:86-94 | A tick runs at most one sub-phase. It runs none exactly when the pause flag after the keys is set. It runs the mark phase exactly when `FeedPhase` was true. |
| Sim.RanMatchesStep | main.go:86-94 | The sub-phase a tick runs is the one whose whole-board effect the tick has: `MarkGrid`, `ResolveGrid`, or no change. |
| Sim.Run | main.go:84-95 | Any sequence of ticks keeps the invariant and the dimensions. Its controls are those of the key handling alone. |
| Sim.TraceAlternates | main.go:84-95 | The sub-phases that run strictly alternate, whatever pauses fall between them. The first one is the one the flag names. |
| Sim.NewGameAlternates | main.go:75 | From a new game the sub-phases run resolve, mark, resolve, mark, and so on. |
| Sim.FeedSeesSteady | main.go:163-164 | Every tick of a run that marks finds an all-steady board. |
| Sim.PauseFreezes | main.go:86-88 | While paused and Space is not pressed, the board and the flag stay as they are, and no sub-phase runs. |
| Engine.Board.constructor | main.go:43-55 | `NewBoard(nColumns, nRows)` gives `nRows` rows of `nColumns` cells, all `Empty`. |
| Engine.Board.RandomFill | main.go:57-63 | Every cell takes the value drawn for it. |
| Engine.NeighbourCounts | main.go:117-149 | The separable sum gives, for every cell, the wrapped window sum of the board as it was before any cell was rewritten. |
| Engine.SumRows | main.go:120-133 | For row i, the buffer holds each column's sum over the rows above, at and below i. |
| Engine.SumColumns | main.go:134-147 | Three adjacent buffer entries, less the centre cell, are each cell's window sum. |
| Engine.MarkCells | main.go:151-167 | Every cell is rewritten by the mark rule with its own precomputed count. A steady board is required. |
| Engine.ResolveCells | main.go:175-186 | One row is collapsed in place, and its empty and live cells are counted. No other row changes. |
| Engine.Game.constructor | main.go:72-82 | `NewGame` satisfies the game invariant and equals the model's initial state for the given fill. |
| Engine.Game.ProcessInput | main.go:97-114 | The pause flag and the speed become those of `Sim.ProcessInput`. The flag and the board stay as they were. |
| Engine.Game.Update | main.go:84-95 | The game invariant is kept, and the new state is `Sim.Step` of the old one. |
| Engine.Game.Feed | main.go:116-169 | The new board is `Grids.MarkGrid` of the old board. Every cell is decided from the counts of the board before the tick. |
| Engine.Game.LifeOn | main.go:171-190 | The new board is `Grids.ResolveGrid` of the old one. `empty` and `filled` count its empty and live cells and add up to rows times columns. |
| Engine.Game.Layout | main.go:201-203 | The screen size is (columns, rows). |
| Scenarios.BlinkerOscillates | main.go:151-187 | On a 5 x 5 board, one mark phase and one resolve phase turn a horizontal blinker into a vertical one. |

## Left out

- Rendering is not modelled: `Draw`, the `Colors` table and `screen.Set`. They only look up a colour by the cell's value.
- The library calls are not modelled: `ebiten.RunGame`, `SetTPS`, `SetWindowSize`, `SetWindowTitle`, `SetVsyncEnabled`. `IsKeyPressed` becomes the three booleans of `Sim.Keys`. The tick rate is kept only as the `speed` field.
- `math/rand` in `RandomFill` is replaced by the grid of values passed in, and any of the four states may occur in it.
- `log.Printf` and `main` are not modelled. `lifeOn`'s empty and filled counts are returned instead of being logged.
- The error results of `Update`, `feed` and `lifeOn` are not modelled, because the source always returns nil.
- `feed`'s panic on a non-steady cell is modelled as a precondition of `Engine.Game.Feed` and `Engine.MarkCells`. The cells the code rewrites before it panics are not modelled. `Sim.FeedSeesSteady` shows that the panic cannot happen in a game.
- `lifeOn`'s panic on a value outside 0..3 is not modelled. Cells are a closed four-state datatype, and the random fill only draws values below `len(Colors) = 4`.
- `Cell` is a byte, but counts are unbounded integers. A column sum is at most 9 (`Grids.ColumnSum`) and a window sum at most 24 (`Grids.WindowSum`). The buffer's partial sums stay at or below 27, so nothing wraps around.
- The board's rows are one two-dimensional array. The source's `[]Row` could in principle hold rows of different lengths or shared rows, but `NewBoard` always makes distinct rows of equal length.
- `Engine.Game.constructor`: requires at least one row. The source's `NewGame` accepts zero rows, and only its first `feed` or `Layout` would then index `rows[0]` and panic.
- The count and the marking of `feed` are two helper methods, `Engine.NeighbourCounts` and `Engine.MarkCells`. The vertical and horizontal passes of the count are `Engine.SumRows` and `Engine.SumColumns`. The source runs all of these inline in one function, in the same order and on the same buffers.
