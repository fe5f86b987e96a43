// The pure rules of the simulation: the toroidal grid, the neighbour count,
// the B3/S23 transition rule and one generation step.

module Life {
  /** Side length of the square grid (GRID_SIZE). */
  const N: int := 70

  /** The grid as it is stored: a list of N rows, each a list of N cells. */
  type Grid = seq<seq<int>>

  /** N rows of N cells each. */
  predicate IsShape(g: Grid) {
    |g| == N && forall r :: 0 <= r < N ==> |g[r]| == N
  }

  /** The shape, and every cell dead (0) or alive (1). */
  predicate IsGrid(g: Grid) {
    IsShape(g) && forall r, c :: 0 <= r < N && 0 <= c < N ==> g[r][c] == 0 || g[r][c] == 1
  }

  /** An all-dead grid, as built by `[[0 for _ in range(N)] for _ in range(N)]`. */
  function Zero(): (z: Grid)
    ensures IsGrid(z)
    ensures forall r, c :: 0 <= r < N && 0 <= c < N ==> z[r][c] == 0
  {
    seq(N, _ => seq(N, _ => 0))
  }

  /**
   * A coordinate taken modulo N. Python's `%` with a positive modulus never
   * returns a negative value, and neither does Dafny's, so `x % N` is the
   * same operator in both. The ensures say how the two edges meet.
   */
  function Wrap(x: int): (w: int)
    ensures 0 <= w < N
    ensures 0 <= x < N ==> w == x
    ensures x == -1 ==> w == N - 1
    ensures x == N ==> w == 0
  {
    x % N
  }

  /** The cell at (r, c) on the torus: both coordinates are wrapped. */
  function At(g: Grid, r: int, c: int): int
    requires IsShape(g)
  {
    g[Wrap(r)][Wrap(c)]
  }

  /**
   * Reference definition of the neighbour count: the eight cells around
   * (row, col) on the torus, the cell itself excluded.
   */
  function NeighborSum(g: Grid, row: int, col: int): (n: int)
    requires IsShape(g)
    ensures IsGrid(g) ==> 0 <= n <= 8
  {
    At(g, row - 1, col - 1) + At(g, row - 1, col) + At(g, row - 1, col + 1)
    + At(g, row, col - 1) + At(g, row, col + 1)
    + At(g, row + 1, col - 1) + At(g, row + 1, col) + At(g, row + 1, col + 1)
  }

  /** Conway's rule for one cell, as update_grid writes it. */
  function NextState(current: int, neighbors: int): int {
    if current == 1 then
      if neighbors == 2 || neighbors == 3 then 1 else 0
    else
      if neighbors == 3 then 1 else 0
  }

  /** Cell (r, c) of the next generation, from the old grid alone. */
  function NextCell(g: Grid, r: int, c: int): int
    requires IsShape(g) && 0 <= r < N && 0 <= c < N
  {
    NextState(g[r][c], NeighborSum(g, r, c))
  }

  /** The next generation: every cell computed from the old grid alone. */
  function Step(g: Grid): (h: Grid)
    requires IsShape(g)
    ensures IsGrid(h)
  {
    seq(N, r requires 0 <= r < N =>
      seq(N, c requires 0 <= c < N => NextCell(g, r, c)))
  }

  /** The grid after flipping cell (row, col) from v to 1 - v. */
  function Toggled(g: Grid, row: int, col: int): (h: Grid)
    requires IsShape(g) && 0 <= row < N && 0 <= col < N
    ensures IsShape(h)
    ensures h[row][col] == 1 - g[row][col]
    ensures forall r, c :: 0 <= r < N && 0 <= c < N && (r != row || c != col) ==> h[r][c] == g[r][c]
    ensures IsGrid(g) ==> IsGrid(h)
  {
    g[row := g[row][col := 1 - g[row][col]]]
  }

  /** Run `k` generations one after another (the timer-driven run while running). */
  function Generations(g: Grid, k: nat): (h: Grid)
    requires IsShape(g)
    ensures IsShape(h)
    ensures k > 0 ==> IsGrid(h)
  {
    if k == 0 then g else Step(Generations(g, k - 1))
  }

  /** Two grids with the same cells are the same grid. */
  lemma GridExt(a: Grid, b: Grid)
    requires IsShape(a) && IsShape(b)
    requires forall r, c :: 0 <= r < N && 0 <= c < N ==> a[r][c] == b[r][c]
    ensures a == b
  {
    forall r | 0 <= r < N
      ensures a[r] == b[r]
    {
      assert forall c :: 0 <= c < N ==> a[r][c] == b[r][c];
    }
  }

  /** One cell of the next generation. */
  lemma StepAt(g: Grid, r: int, c: int)
    requires IsShape(g) && 0 <= r < N && 0 <= c < N
    ensures Step(g)[r][c] == NextCell(g, r, c)
  {
  }

  /** The rule in the source's terms: a live cell survives on 2 or 3 neighbours,
      a dead cell is born on exactly 3, every other cell is dead afterwards. */
  lemma StepRule(g: Grid, r: int, c: int)
    requires IsGrid(g) && 0 <= r < N && 0 <= c < N
    ensures Step(g)[r][c] == 0 || Step(g)[r][c] == 1
    ensures Step(g)[r][c] == 1 <==>
      (g[r][c] == 1 && (NeighborSum(g, r, c) == 2 || NeighborSum(g, r, c) == 3))
      || (g[r][c] == 0 && NeighborSum(g, r, c) == 3)
  {
    StepAt(g, r, c);
  }

  /** The same rule stated on the 3x3 total including the cell itself:
      alive next iff the total is 3, or it is 4 and the cell is alive. */
  lemma StepByTotal(g: Grid, r: int, c: int)
    requires IsGrid(g) && 0 <= r < N && 0 <= c < N
    ensures var total := NeighborSum(g, r, c) + g[r][c];
      Step(g)[r][c] == if total == 3 || (total == 4 && g[r][c] == 1) then 1 else 0
  {
    StepAt(g, r, c);
  }

  /** The coordinate before x on the torus: N - 1 comes before 0. */
  function Up(x: int): int {
    if x == 0 then N - 1 else x - 1
  }

  /** The coordinate after x on the torus: 0 comes after N - 1. */
  function Down(x: int): int {
    if x == N - 1 then 0 else x + 1
  }

  /** The neighbour sum with the wrapped coordinates written out. */
  lemma NeighborsInside(g: Grid, r: int, c: int)
    requires IsShape(g) && 0 <= r < N && 0 <= c < N
    ensures NeighborSum(g, r, c) ==
      g[Up(r)][Up(c)] + g[Up(r)][c] + g[Up(r)][Down(c)]
      + g[r][Up(c)] + g[r][Down(c)]
      + g[Down(r)][Up(c)] + g[Down(r)][c] + g[Down(r)][Down(c)]
  {
  }

  /** The corner cell (0, 0) counts the cells on the opposite edges. */
  lemma CornerWraps(g: Grid)
    requires IsShape(g)
    ensures NeighborSum(g, 0, 0) ==
      g[N - 1][N - 1] + g[N - 1][0] + g[N - 1][1]
      + g[0][N - 1] + g[0][1]
      + g[1][N - 1] + g[1][0] + g[1][1]
  {
  }

  /** The dead grid stays dead. */
  lemma StepZero()
    ensures Step(Zero()) == Zero()
  {
    var z := Zero();
    forall r, c | 0 <= r < N && 0 <= c < N
      ensures Step(z)[r][c] == z[r][c]
    {
      StepAt(z, r, c);
      assert NeighborSum(z, r, c) == 0;
    }
    GridExt(Step(z), z);
  }

  /** Toggling a cell twice restores the grid. */
  lemma ToggleTwice(g: Grid, row: int, col: int)
    requires IsGrid(g) && 0 <= row < N && 0 <= col < N
    ensures Toggled(Toggled(g, row, col), row, col) == g
  {
    GridExt(Toggled(Toggled(g, row, col), row, col), g);
  }
}
