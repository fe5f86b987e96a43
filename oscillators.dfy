// Canonical configurations and what the rule does to them: a block is a
// still life, a three-cell line (blinker) has period 2.

module Oscillators {
  import opened Life

  /** 1 when lo <= x <= hi, else 0. */
  function Span(x: int, lo: int, hi: int): (v: int)
    ensures v == 0 || v == 1
  {
    if lo <= x <= hi then 1 else 0
  }

  /** How many of the three coordinates around x on the torus lie in [lo, hi]. */
  function Around(x: int, lo: int, hi: int): int {
    Span(Up(x), lo, hi) + Span(x, lo, hi) + Span(Down(x), lo, hi)
  }

  /** Cell (r, c) of the grid whose only live cells are the rectangle [rlo, rhi] x [clo, chi]. */
  function RectCell(rlo: int, rhi: int, clo: int, chi: int, r: int, c: int): int {
    if Span(r, rlo, rhi) == 1 && Span(c, clo, chi) == 1 then 1 else 0
  }

  /** The grid whose only live cells are the rectangle [rlo, rhi] x [clo, chi]. */
  function Rect(rlo: int, rhi: int, clo: int, chi: int): (g: Grid)
    ensures IsGrid(g)
  {
    seq(N, r => seq(N, c => RectCell(rlo, rhi, clo, chi, r, c)))
  }

  /** The grid whose only live cells are the 2x2 block with top-left corner (r0, c0). */
  function Block(r0: int, c0: int): (g: Grid)
    ensures IsGrid(g)
  {
    Rect(r0, r0 + 1, c0, c0 + 1)
  }

  /** The grid whose only live cells are (r0, c0 - 1), (r0, c0), (r0, c0 + 1). */
  function HLine(r0: int, c0: int): (g: Grid)
    ensures IsGrid(g)
  {
    Rect(r0, r0, c0 - 1, c0 + 1)
  }

  /** The grid whose only live cells are (r0 - 1, c0), (r0, c0), (r0 + 1, c0). */
  function VLine(r0: int, c0: int): (g: Grid)
    ensures IsGrid(g)
  {
    Rect(r0 - 1, r0 + 1, c0, c0)
  }

  /** One cell of a rectangle grid. */
  lemma RectAt(rlo: int, rhi: int, clo: int, chi: int, r: int, c: int)
    requires 0 <= r < N && 0 <= c < N
    ensures Rect(rlo, rhi, clo, chi)[r][c] == RectCell(rlo, rhi, clo, chi, r, c)
  {
  }

  /** Live cells of a rectangle in row x among the columns Up(c), c, Down(c). */
  lemma RectRow(rlo: int, rhi: int, clo: int, chi: int, x: int, c: int)
    requires 0 <= x < N && 0 <= c < N
    ensures var g := Rect(rlo, rhi, clo, chi);
      g[x][Up(c)] + g[x][c] + g[x][Down(c)]
        == if Span(x, rlo, rhi) == 1 then Around(c, clo, chi) else 0
  {
    RectAt(rlo, rhi, clo, chi, x, Up(c));
    RectAt(rlo, rhi, clo, chi, x, c);
    RectAt(rlo, rhi, clo, chi, x, Down(c));
  }

  /** The neighbour count of a rectangle grid, row by row: each covered row
      around (r, c) contributes the covered columns around c, except that the
      cell itself is not counted. */
  lemma RectNeighbors(rlo: int, rhi: int, clo: int, chi: int, r: int, c: int)
    requires 0 <= r < N && 0 <= c < N
    ensures var cols := Around(c, clo, chi);
      NeighborSum(Rect(rlo, rhi, clo, chi), r, c)
        == (if Span(Up(r), rlo, rhi) == 1 then cols else 0)
         + (if Span(r, rlo, rhi) == 1 then cols - Span(c, clo, chi) else 0)
         + (if Span(Down(r), rlo, rhi) == 1 then cols else 0)
  {
    var g := Rect(rlo, rhi, clo, chi);
    NeighborsInside(g, r, c);
    RectRow(rlo, rhi, clo, chi, Up(r), c);
    RectRow(rlo, rhi, clo, chi, r, c);
    RectRow(rlo, rhi, clo, chi, Down(r), c);
    RectAt(rlo, rhi, clo, chi, r, c);
  }

  /** Around a span of two that does not cross the seam: at most two, and
      exactly two from inside it. */
  lemma AroundTwo(x: int, lo: int)
    requires 0 <= x < N && 0 <= lo <= N - 2
    ensures Around(x, lo, lo + 1) <= 2
    ensures Span(x, lo, lo + 1) == 1 ==> Around(x, lo, lo + 1) == 2
  {
  }

  /** Around a single coordinate p: Up(x) is p exactly when x is Down(p),
      and Down(x) is p exactly when x is Up(p). */
  lemma AroundOne(x: int, p: int)
    requires 0 <= x < N && 0 <= p < N
    ensures Span(Up(x), p, p) == 1 <==> x == Down(p)
    ensures Span(Down(x), p, p) == 1 <==> x == Up(p)
  {
  }

  /** Around a span of three centred on q, away from the seam: three at q,
      two next to q, at most one elsewhere. */
  lemma AroundThree(x: int, q: int)
    requires 0 <= x < N && 1 <= q <= N - 2
    ensures x == q ==> Around(x, q - 1, q + 1) == 3
    ensures (x == q - 1 || x == q + 1) ==> Around(x, q - 1, q + 1) == 2
    ensures !(q - 1 <= x <= q + 1) ==> Around(x, q - 1, q + 1) <= 1
  {
  }

  /** One cell of a block grid after a step. */
  lemma BlockCell(r0: int, c0: int, r: int, c: int)
    requires 0 <= r0 <= N - 2 && 0 <= c0 <= N - 2
    requires 0 <= r < N && 0 <= c < N
    ensures Step(Block(r0, c0))[r][c] == Block(r0, c0)[r][c]
  {
    StepAt(Block(r0, c0), r, c);
    RectAt(r0, r0 + 1, c0, c0 + 1, r, c);
    RectNeighbors(r0, r0 + 1, c0, c0 + 1, r, c);
    AroundTwo(r, r0);
    AroundTwo(c, c0);
  }

  /** One cell of a horizontal blinker after a step. */
  lemma HLineCell(r0: int, c0: int, r: int, c: int)
    requires 1 <= r0 <= N - 2 && 1 <= c0 <= N - 2
    requires 0 <= r < N && 0 <= c < N
    ensures Step(HLine(r0, c0))[r][c] == VLine(r0, c0)[r][c]
  {
    StepAt(HLine(r0, c0), r, c);
    RectAt(r0, r0, c0 - 1, c0 + 1, r, c);
    RectAt(r0 - 1, r0 + 1, c0, c0, r, c);
    RectNeighbors(r0, r0, c0 - 1, c0 + 1, r, c);
    AroundOne(r, r0);
    AroundThree(c, c0);
  }

  /** One cell of a vertical blinker after a step. */
  lemma VLineCell(r0: int, c0: int, r: int, c: int)
    requires 1 <= r0 <= N - 2 && 1 <= c0 <= N - 2
    requires 0 <= r < N && 0 <= c < N
    ensures Step(VLine(r0, c0))[r][c] == HLine(r0, c0)[r][c]
  {
    StepAt(VLine(r0, c0), r, c);
    RectAt(r0 - 1, r0 + 1, c0, c0, r, c);
    RectAt(r0, r0, c0 - 1, c0 + 1, r, c);
    RectNeighbors(r0 - 1, r0 + 1, c0, c0, r, c);
    AroundThree(r, r0);
    AroundOne(c, c0);
  }

  /** A block that does not cross the seam of the torus is a still life. */
  lemma BlockIsStill(r0: int, c0: int)
    requires 0 <= r0 <= N - 2 && 0 <= c0 <= N - 2
    ensures Step(Block(r0, c0)) == Block(r0, c0)
  {
    forall r, c | 0 <= r < N && 0 <= c < N
      ensures Step(Block(r0, c0))[r][c] == Block(r0, c0)[r][c]
    {
      BlockCell(r0, c0, r, c);
    }
    GridExt(Step(Block(r0, c0)), Block(r0, c0));
  }

  /** A horizontal blinker turns into a vertical one. */
  lemma HLineToVLine(r0: int, c0: int)
    requires 1 <= r0 <= N - 2 && 1 <= c0 <= N - 2
    ensures Step(HLine(r0, c0)) == VLine(r0, c0)
  {
    forall r, c | 0 <= r < N && 0 <= c < N
      ensures Step(HLine(r0, c0))[r][c] == VLine(r0, c0)[r][c]
    {
      HLineCell(r0, c0, r, c);
    }
    GridExt(Step(HLine(r0, c0)), VLine(r0, c0));
  }

  /** A vertical blinker turns into a horizontal one. */
  lemma VLineToHLine(r0: int, c0: int)
    requires 1 <= r0 <= N - 2 && 1 <= c0 <= N - 2
    ensures Step(VLine(r0, c0)) == HLine(r0, c0)
  {
    forall r, c | 0 <= r < N && 0 <= c < N
      ensures Step(VLine(r0, c0))[r][c] == HLine(r0, c0)[r][c]
    {
      VLineCell(r0, c0, r, c);
    }
    GridExt(Step(VLine(r0, c0)), HLine(r0, c0));
  }

  /** A block stays a block for any number of generations. */
  lemma {:induction false} BlockForever(r0: int, c0: int, k: nat)
    requires 0 <= r0 <= N - 2 && 0 <= c0 <= N - 2
    ensures Generations(Block(r0, c0), k) == Block(r0, c0)
  {
    if k > 0 {
      BlockForever(r0, c0, k - 1);
      BlockIsStill(r0, c0);
    }
  }

  /** A blinker comes back after every even number of generations. */
  lemma {:induction false} BlinkerPeriodTwo(r0: int, c0: int, k: nat)
    requires 1 <= r0 <= N - 2 && 1 <= c0 <= N - 2
    ensures Generations(HLine(r0, c0), 2 * k) == HLine(r0, c0)
    ensures Generations(HLine(r0, c0), 2 * k + 1) == VLine(r0, c0)
  {
    if k == 0 {
      HLineToVLine(r0, c0);
    } else {
      BlinkerPeriodTwo(r0, c0, k - 1);
      VLineToHLine(r0, c0);
      HLineToVLine(r0, c0);
    }
  }

  /** Toggling (5,5), (5,6), (5,7) on a dead grid makes a blinker, and two
      steps give back the same three cells. */
  lemma BlinkerFromToggles()
    ensures Toggled(Toggled(Toggled(Zero(), 5, 5), 5, 6), 5, 7) == HLine(5, 6)
    ensures Generations(HLine(5, 6), 2) == HLine(5, 6)
  {
    var g := Toggled(Toggled(Toggled(Zero(), 5, 5), 5, 6), 5, 7);
    GridExt(g, HLine(5, 6));
    BlinkerPeriodTwo(5, 6, 1);
  }
}
