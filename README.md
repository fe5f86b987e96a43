# Game of Life engine, modelled in Dafny

This project models the simulation engine of the `GameOfLife` class in
`kevins_game_of_life/game.py`. The engine is Conway's Game of Life (rule
B3/S23) on a fixed 70×70 grid whose edges wrap around, so the grid is a
torus. The model covers:

- the grid, a list of 70 lists of 70 cells, each 0 (dead) or 1 (alive);
- toggling one cell, and the pixel-to-cell translation of a mouse click;
- the neighbour count, which wraps both coordinates with `% 70`;
- one generation step, written into a fresh grid that then replaces the
  old one;
- the run flag kept by start and stop;
- clearing;
- loading a pattern from the lines of a text file. The pattern is centred
  on the grid with floor division, and anything that falls outside the
  grid is dropped.

Files:

- `life.dfy` (module `Life`): the pure rules, stated on values. These are
  the grid value, `Wrap`, the reference neighbour sum `NeighborSum`, the
  cell rule `NextState`/`NextCell`, `Step`, `Toggled` and `Generations`,
  with the lemmas about them.
- `patterns.dfy` (module `Patterns`): what `load` computes. This covers the
  pattern width, the centring offsets and the first line that is too short.
  It also gives the stamped grid (`Stamp`), the outcome of a load
  (`LoadOutcome`) and the grid it leaves (`LoadedGrid`).
- `oscillators.dfy` (module `Oscillators`): the block still life, the
  period-2 blinker, and building a blinker by three toggles.
- `game.dfy` (module `Game`): the class `GameOfLife`. Its fields are
  `grid: seq<seq<int>>` and `running: bool`. Its methods follow the source's
  loops and assignments, and each is proved against the functions above.

How Python's arithmetic is modelled:

- Python's `%` and `//` with a positive right operand round toward negative
  infinity. Dafny's `%` and `/` do the same for a positive divisor, so
  `(row + i) % N`, `(N - height) // 2` and `event.x // CELL_SIZE` are written
  with Dafny's operators unchanged.
- `StartOffset` and `PixelToCell` state the floor meaning in their
  contracts.

Two behaviours of `load`, as written in the source, are modelled
explicitly:

- **Empty input.** With no lines, `max` raises ValueError before the grid
  is cleared. `Load` then returns `NoLines` and leaves the state unchanged.
- **Short line.** `rowList[row][col]` is read for every column below the
  longest line's length. A shorter line therefore raises IndexError when
  the loop reaches its end. By then the grid has been cleared and every row
  up to that one has been stamped. `Load` returns `IndexError(row, col)`
  and leaves exactly that grid.

A common case of the short line: a file whose last line has no trailing
newline. The IndexError then comes after every character has been stamped
(lemma `MissingFinalNewline`).

The width counts the newline, so a pattern whose lines have an even number
of cells is placed one column left of centre. The model keeps this.

The design description of this system differs from the code in two
places. The model follows the code in both:

- The design description asks that reads past a short line be guarded. The code
  raises IndexError instead.
- The design description says stopping straight after starting changes no cell.
  In the code, `start_simulation` performs one step immediately, so the
  grid has already changed once.

## Model

| member | source | states |
|---|---|---|
| Life.Zero | kevins_game_of_life/game.py:17 | a 70×70 grid of 0/1 cells in which every cell is 0 |
| Life.Wrap | kevins_game_of_life/game.py:73-74 | a wrapped coordinate lies in [0,N); inside the grid it is unchanged; -1 goes to N-1 and N goes to 0, so the two opposite edges meet |
| Life.NeighborSum | kevins_game_of_life/game.py:66-77 | on a grid of 0/1 cells, the sum of the eight torus neighbours lies in [0,8] |
| Life.Step | kevins_game_of_life/game.py:80-100 | one generation of a well-shaped grid gives a 70×70 grid of 0/1 cells |
| Life.Toggled | kevins_game_of_life/game.py:62-63 | the toggled cell goes from v to 1-v; every other cell is unchanged; the shape and the 0/1 property are kept |
| Life.Generations | kevins_game_of_life/game.py:100-104 | any number of steps keeps the grid 70×70, and at least one step gives 0/1 cells |
| Life.StepRule | kevins_game_of_life/game.py:84-98 | a new cell is 0 or 1; it is 1 iff the old cell was 1 with 2 or 3 neighbours, or the old cell was 0 with exactly 3 |
| Life.StepByTotal | kevins_game_of_life/game.py:84-98 | the same rule as a reference formula on the 3×3 total including the cell: alive iff the total is 3, or the total is 4 and the cell was alive |
| Life.CornerWraps | kevins_game_of_life/game.py:66-77 | the neighbour count of corner (0,0) is the sum of cells on the opposite row and column |
| Life.StepZero | kevins_game_of_life/game.py:80-100 | an all-dead grid stays all-dead after a step |
| Life.ToggleTwice | kevins_game_of_life/game.py:62-63 | toggling the same cell twice restores the grid |
| Oscillators.RectNeighbors | kevins_game_of_life/game.py:66-77 | the torus neighbour count of a grid whose live cells form a rectangle, row by row: each covered row adds the covered columns in the 3-wide window around the cell, minus the cell itself |
| Oscillators.BlockIsStill | kevins_game_of_life/game.py:80-100 | a grid whose only live cells are a 2×2 block is unchanged by a step |
| Oscillators.BlockForever | kevins_game_of_life/game.py:100-104 | such a block is unchanged by any number of steps |
| Oscillators.HLineToVLine | kevins_game_of_life/game.py:80-100 | a horizontal three-cell line becomes the vertical line through its centre |
| Oscillators.VLineToHLine | kevins_game_of_life/game.py:80-100 | a vertical three-cell line becomes the horizontal line through its centre |
| Oscillators.BlinkerPeriodTwo | kevins_game_of_life/game.py:100-104 | after 2k steps a blinker is back in its first phase; after 2k+1 steps it is in its second phase |
| Oscillators.BlinkerFromToggles | kevins_game_of_life/game.py:62-63 | toggling (5,5), (5,6) and (5,7) on a dead grid gives a blinker, and two steps give the same grid back |
| Patterns.MaxLength | kevins_game_of_life/game.py:136 | the pattern width is at least every line's length and equals the length of some line |
| Patterns.StartOffset | kevins_game_of_life/game.py:138-139 | the offset is the floor of (N - extent)/2: 2s ≤ N - extent < 2s + 2; it can be negative |
| Patterns.FirstShort | kevins_game_of_life/game.py:143-145 | the index of the first line shorter than the width: all earlier lines are at least as long; if it is below the line count, that line is shorter |
| Patterns.StampedCell | kevins_game_of_life/game.py:143-151 | a grid cell is 0 or 1; it is 1 iff the pattern character that lands on it has been read and is '1' |
| Patterns.StampAt | kevins_game_of_life/game.py:143-151 | each cell of the stamped grid is the cell value given by StampedCell |
| Patterns.LoadedGrid | kevins_game_of_life/game.py:135-151 | the grid left by a load of one or more lines is a 70×70 grid of 0/1 cells |
| Patterns.StampNoWrite | kevins_game_of_life/game.py:145-150 | reading a character that is not '0' or '1', or one whose target is off the grid, changes no cell |
| Patterns.StampWrite | kevins_game_of_life/game.py:145-151 | reading a digit whose target is on the grid writes its value to that cell and to no other |
| Patterns.StampRowEnd | kevins_game_of_life/game.py:143-145 | once the characters of a row are used up, the rest of the row's columns add nothing |
| Patterns.StampNothing | kevins_game_of_life/game.py:141-143 | before the loop has read any character, the stamped grid is the cleared, all-dead grid |
| Patterns.StampLive | kevins_game_of_life/game.py:143-151 | a live cell of a stamped grid lies over a pattern character at the placement offsets, and that character is '1' |
| Patterns.StampedRows | kevins_game_of_life/game.py:143-145 | a load of one or more lines stamps at least one row and at most all of them |
| Patterns.LoadedCellsFromPattern | kevins_game_of_life/game.py:138-151 | every live cell after a load lies over a '1' of the pattern placed at the centring offsets, and its column lies within the pattern width from the column offset |
| Patterns.LoadCompletesIffUniform | kevins_game_of_life/game.py:136-145 | a load completes iff every line is as long as the longest; otherwise it raises IndexError on a line shorter than the longest, at a column equal to that line's length |
| Patterns.UniformLoad | kevins_game_of_life/game.py:135-151 | when all lines have equal length, the load completes, and every '1' whose target is on the grid is alive there |
| Patterns.SingleCellLoad | kevins_game_of_life/game.py:135-151 | loading the single line "1\n" completes and leaves exactly one live cell, at (34,34) |
| Patterns.MissingFinalNewline | kevins_game_of_life/game.py:133-151 | for the lines "1\n" and "1", the load raises IndexError at row 1, column 1, after both live cells (34,34) and (35,34) have been stamped |
| Game.PixelToCell | kevins_game_of_life/game.py:56-57 | the cell index k of a pixel coordinate p is the floor of p/10: 10k ≤ p < 10k + 10 |
| Game.GameOfLife.constructor | kevins_game_of_life/game.py:17 | a new game has an all-dead grid and is not running |
| Game.GameOfLife.HandleClick | kevins_game_of_life/game.py:55-60 | a click toggles the cell under it when that cell is on the grid; otherwise nothing changes; the run flag is untouched |
| Game.GameOfLife.ToggleCell | kevins_game_of_life/game.py:62-63 | the new grid is the old one with that cell toggled; the run flag is untouched |
| Game.GameOfLife.CountNeighbors | kevins_game_of_life/game.py:66-77 | the nested loops over offsets −1..1, skipping (0,0), return the reference torus neighbour sum, which lies in [0,8] |
| Game.GameOfLife.UpdateGrid | kevins_game_of_life/game.py:80-100 | filling a separate buffer cell by cell and then swapping it in gives exactly Step of the pre-step grid; the run flag is untouched |
| Game.GameOfLife.StartSimulation | kevins_game_of_life/game.py:109-112 | afterwards the game is running; if it was stopped, exactly one step was taken; if it was already running, nothing changed |
| Game.GameOfLife.StopSimulation | kevins_game_of_life/game.py:116-117 | the run flag is false and the grid is unchanged |
| Game.GameOfLife.ClearGrid | kevins_game_of_life/game.py:122-124 | the run flag is false and every cell is 0; the new state does not depend on the old one, so clearing is idempotent |
| Game.GameOfLife.Load | kevins_game_of_life/game.py:135-151 | the outcome is LoadOutcome; with no lines nothing changes; otherwise the game is stopped and the grid is LoadedGrid: cleared, then stamped at the centring offsets with clipping, up to and including the row that raises, if any |

## Left out

- Drawing is not modelled: the canvas, `draw_grid` and every call to it (game.py:39, 44-53, 64, 101, 125, 154). These only render the grid and never change it.
- Button widgets and their enabled/disabled state, event binding and the tkinter main loop are not modelled (game.py:9-14, 20-33, 42, 113-114, 118-119, 157-160). They are user-interface plumbing.
- The timer re-scheduling `self.master.after(75, self.update_grid)` is not modelled (game.py:103-104). It is a callback into a foreign event loop. The model keeps the `running` flag and single steps. `Life.Generations` describes what a run of k ticks computes.
- The file dialog, `open` and `readlines` are not modelled (game.py:129-133). This is file I/O. `Load` takes the list of lines that `readlines` would return. The "no file chosen" branch (`if filename`) is therefore not modelled.
- The allocation of the unused `new_grid` is not modelled (game.py:81). It is dead code.
- Game.GameOfLife.ToggleCell: requires 0 ≤ row, col < N. Python would also accept negative indices and count them from the end of the row. The only caller, `handle_click`, always checks the bounds first.
- Oscillators.BlockIsStill: stated only for blocks that do not straddle the wrap-around seam (0 ≤ r0, c0 ≤ N-2). The torus also keeps a straddling block still, but that case is not proved. Oscillators.BlockForever has the same restriction.
- Oscillators.HLineToVLine: stated only for blinkers at least one cell away from every edge (1 ≤ r0, c0 ≤ N-2). Oscillators.VLineToHLine and Oscillators.BlinkerPeriodTwo have the same restriction.
- Clearing twice is not stated as a separate lemma. Methods cannot be called from lemmas, and the ensures of `ClearGrid` fix the new state without reference to the old, so a second clear gives the same state.
