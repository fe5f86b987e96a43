// The GameOfLife object: the grid and the run flag it owns, and the
// operations the buttons, the mouse and the timer invoke on it.

module Game {
  import opened Life
  import opened Patterns

  /** Side of one cell on the canvas, in pixels (CELL_SIZE). */
  const CellSize: int := 10

  /** The cell index a pixel coordinate falls in: Python's `p // CELL_SIZE`,
      which floors, as Dafny's `/` does for a positive divisor. */
  function PixelToCell(p: int): (k: int)
    ensures CellSize * k <= p < CellSize * k + CellSize
  {
    p / CellSize
  }

  class GameOfLife {
    /** `self.grid`: N rows of N cells, each 0 or 1. */
    var grid: Grid
    /** `self.running`: whether the timer keeps stepping. */
    var running: bool

    ghost predicate Valid()
      reads this
    {
      IsGrid(grid)
    }

    /** An all-dead grid, not running. */
    constructor ()
      ensures Valid()
      ensures grid == Zero() && !running
    {
      grid := Zero();
      running := false;
    }

    /** A mouse click at pixel (x, y): the cell under it is toggled when it
        lies on the grid, otherwise nothing happens. */
    method HandleClick(x: int, y: int)
      requires Valid()
      modifies this
      ensures Valid() && running == old(running)
      ensures var row, col := PixelToCell(y), PixelToCell(x);
        if 0 <= row < N && 0 <= col < N then grid == Toggled(old(grid), row, col)
        else grid == old(grid)
    {
      var col := PixelToCell(x);
      var row := PixelToCell(y);
      if 0 <= row < N && 0 <= col < N {
        ToggleCell(row, col);
      }
    }

    /** Flip cell (row, col) from v to 1 - v. */
    method ToggleCell(row: int, col: int)
      requires Valid() && 0 <= row < N && 0 <= col < N
      modifies this
      ensures Valid() && running == old(running)
      ensures grid == Toggled(old(grid), row, col)
    {
      grid := grid[row := grid[row][col := 1 - grid[row][col]]];
    }

    /** The number of live cells among the eight torus neighbours of (row, col).
        Any coordinates are accepted: both are wrapped with `% N`. */
    method CountNeighbors(row: int, col: int) returns (count: int)
      requires Valid()
      ensures count == NeighborSum(grid, row, col)
      ensures 0 <= count <= 8
    {
      count := 0;
      for i := -1 to 2
        invariant count == RowsBefore(grid, row, col, i)
      {
        for j := -1 to 2
          invariant count == RowsBefore(grid, row, col, i) + CellsBefore(grid, row, col, i, j)
        {
          if i == 0 && j == 0 {
            continue;
          }
          var r := (row + i) % N;
          var c := (col + j) % N;
          count := count + grid[r][c];
        }
      }
    }

    /** One generation: every cell of a fresh grid is computed from the
        current grid, and the fresh grid then replaces it. */
    method UpdateGrid()
      requires Valid()
      modifies this
      ensures Valid() && running == old(running)
      ensures grid == Step(old(grid))
    {
      var temp := Zero();
      for row := 0 to N
        invariant grid == old(grid) && running == old(running)
        invariant IsShape(temp)
        invariant forall r, c :: 0 <= r < row && 0 <= c < N ==> temp[r][c] == NextCell(grid, r, c)
      {
        for col := 0 to N
          invariant grid == old(grid) && running == old(running)
          invariant IsShape(temp)
          invariant forall r, c :: 0 <= r < row && 0 <= c < N ==> temp[r][c] == NextCell(grid, r, c)
          invariant forall c :: 0 <= c < col ==> temp[row][c] == NextCell(grid, row, c)
        {
          var current := grid[row][col];
          var neighbors := CountNeighbors(row, col);
          var value;
          if current == 1 {
            if neighbors == 2 || neighbors == 3 {
              value := 1;
            } else {
              value := 0;
            }
          } else {
            if neighbors == 3 {
              value := 1;
            } else {
              value := 0;
            }
          }
          temp := temp[row := temp[row][col := value]];
        }
      }
      forall r, c | 0 <= r < N && 0 <= c < N
        ensures temp[r][c] == Step(grid)[r][c]
      {
        StepAt(grid, r, c);
      }
      GridExt(temp, Step(grid));
      grid := temp;
    }

    /** Start: only when stopped, set the flag and step once at once. */
    method StartSimulation()
      requires Valid()
      modifies this
      ensures Valid() && running
      ensures grid == if old(running) then old(grid) else Step(old(grid))
    {
      if !running {
        running := true;
        UpdateGrid();
      }
    }

    /** Stop: always clear the flag; the grid is untouched. */
    method StopSimulation()
      modifies this
      ensures !running && grid == old(grid)
    {
      running := false;
    }

    /** Clear: stop, then replace the grid with an all-dead one. */
    method ClearGrid()
      modifies this
      ensures Valid() && !running
      ensures grid == Zero()
    {
      StopSimulation();
      grid := Zero();
    }

    /**
     * Load a pattern from the lines of a text file, each with its newline.
     * The grid is cleared and the pattern is stamped centred on it, clipped
     * at the edges. As in the source, an empty list raises (ValueError from
     * `max`) before anything changes, and a line shorter than the longest
     * raises (IndexError) once the reading reaches its end, leaving the rows
     * read so far stamped.
     */
    method Load(lines: seq<string>) returns (outcome: LoadResult)
      requires Valid()
      modifies this
      ensures Valid()
      ensures outcome == LoadOutcome(lines)
      ensures |lines| == 0 ==> grid == old(grid) && running == old(running)
      ensures |lines| > 0 ==> grid == LoadedGrid(lines) && !running
    {
      if |lines| == 0 {
        return NoLines;
      }
      var height := |lines|;
      var width := MaxLength(lines);
      var startRow := (N - height) / 2;
      var startCol := (N - width) / 2;
      ClearGrid();
      StampNothing(lines, startRow, startCol);
      for row := 0 to height
        invariant !running
        invariant forall j :: 0 <= j < row ==> |lines[j]| >= width
        invariant grid == Stamp(lines, startRow, startCol, row, 0)
      {
        for col := 0 to width
          invariant !running
          invariant col <= |lines[row]|
          invariant grid == Stamp(lines, startRow, startCol, row, col)
        {
          if col >= |lines[row]| {
            // rowList[row][col] is past the end of this line
            StampRowEnd(lines, startRow, startCol, row, col);
            return IndexError(row, col);
          }
          var ch := lines[row][col];
          if ch == '0' || ch == '1' {
            var value := DigitValue(ch);
            var gridRow := startRow + row;
            var gridCol := startCol + col;
            if 0 <= gridRow < N && 0 <= gridCol < N {
              StampWrite(lines, startRow, startCol, row, col);
              grid := grid[gridRow := grid[gridRow][gridCol := value]];
            } else {
              StampNoWrite(lines, startRow, startCol, row, col);
            }
          } else {
            StampNoWrite(lines, startRow, startCol, row, col);
          }
        }
        StampRowEnd(lines, startRow, startCol, row, width);
      }
      return Loaded;
    }
  }

  /** The part of the neighbour sum the inner loop of count_neighbors has
      added in row offset `i` before column offset `j`. */
  ghost function CellsBefore(g: Grid, row: int, col: int, i: int, j: int): int
    requires IsShape(g)
    decreases j + 1
  {
    if j <= -1 then 0
    else CellsBefore(g, row, col, i, j - 1) + (if i == 0 && j - 1 == 0 then 0 else At(g, row + i, col + j - 1))
  }

  /** The part of the neighbour sum the outer loop has added before row offset `i`. */
  ghost function RowsBefore(g: Grid, row: int, col: int, i: int): int
    requires IsShape(g)
    decreases i + 1
  {
    if i <= -1 then 0
    else RowsBefore(g, row, col, i - 1) + CellsBefore(g, row, col, i - 1, 2)
  }
}
