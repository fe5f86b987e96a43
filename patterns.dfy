// Placement of a text pattern on the grid: the pattern's size, the centring
// offsets, and the grid that the stamping loop of `load` leaves behind.

module Patterns {
  import opened Life

  /** How a load ends. `NoLines`: `max` over an empty list of lines raises
      ValueError before anything changes. `IndexError(row, col)`: line `row`
      is shorter than the longest one and reading column `col` of it raises
      IndexError, after the grid was cleared and partly stamped. */
  datatype LoadResult = Loaded | NoLines | IndexError(row: nat, col: nat)

  /** The length of the longest line (the pattern width). */
  function MaxLength(lines: seq<string>): (w: nat)
    requires |lines| > 0
    ensures forall i :: 0 <= i < |lines| ==> |lines[i]| <= w
    ensures exists i :: 0 <= i < |lines| && |lines[i]| == w
  {
    if |lines| == 1 then |lines[0]|
    else
      var rest := MaxLength(lines[1..]);
      assert forall i :: 1 <= i < |lines| ==> lines[i] == lines[1..][i - 1];
      if |lines[0]| >= rest then |lines[0]| else rest
  }

  /** `(N - extent) // 2`: Python's floor division. For a positive divisor it
      coincides with Dafny's `/`; the result is negative when the pattern is
      larger than the grid. */
  function StartOffset(extent: int): (s: int)
    ensures 2 * s <= N - extent < 2 * s + 2
  {
    (N - extent) / 2
  }

  /** Index of the first line shorter than `w`, or `|lines|` when there is none. */
  function FirstShort(lines: seq<string>, w: int): (k: nat)
    ensures k <= |lines|
    ensures forall j :: 0 <= j < k ==> |lines[j]| >= w
    ensures k < |lines| ==> |lines[k]| < w
  {
    if |lines| == 0 then 0
    else if |lines[0]| < w then 0
    else 1 + FirstShort(lines[1..], w)
  }

  /** The characters that `in '01'` accepts. */
  predicate IsDigit(ch: char) {
    ch == '0' || ch == '1'
  }

  /** `int(ch)` for those characters. */
  function DigitValue(ch: char): int {
    if ch == '1' then 1 else 0
  }

  /** Pattern cell (pr, pc) exists and the loop, now at (row, col), has read it. */
  predicate Reached(lines: seq<string>, row: int, col: int, pr: int, pc: int) {
    0 <= pr < |lines| && 0 <= pc < |lines[pr]| && (pr < row || (pr == row && pc < col))
  }

  /** What the stamping loop, now at (row, col), has left in grid cell (gr, gc). */
  function StampedCell(lines: seq<string>, sr: int, sc: int, row: int, col: int, gr: int, gc: int): (v: int)
    ensures v == 0 || v == 1
    ensures v == 1 <==> Reached(lines, row, col, gr - sr, gc - sc) && lines[gr - sr][gc - sc] == '1'
  {
    if Reached(lines, row, col, gr - sr, gc - sc) && IsDigit(lines[gr - sr][gc - sc])
    then DigitValue(lines[gr - sr][gc - sc]) else 0
  }

  /**
   * The grid after clearing and then stamping, at offset (sr, sc), every
   * pattern cell up to loop position (row, col): a grid cell is set from the
   * pattern character that lands on it, if that character is '0' or '1' and
   * has been read; cells nothing lands on stay 0.
   */
  function Stamp(lines: seq<string>, sr: int, sc: int, row: int, col: int): (g: Grid)
    ensures IsGrid(g)
  {
    var g := seq(N, gr => seq(N, gc => StampedCell(lines, sr, sc, row, col, gr, gc)));
    assert forall gr, gc :: 0 <= gr < N && 0 <= gc < N ==> g[gr][gc] == StampedCell(lines, sr, sc, row, col, gr, gc);
    g
  }

  /** One cell of a stamped grid. */
  lemma StampAt(lines: seq<string>, sr: int, sc: int, row: int, col: int, gr: int, gc: int)
    requires 0 <= gr < N && 0 <= gc < N
    ensures Stamp(lines, sr, sc, row, col)[gr][gc] == StampedCell(lines, sr, sc, row, col, gr, gc)
  {
  }

  /** How loading `lines` ends. */
  function LoadOutcome(lines: seq<string>): LoadResult {
    if |lines| == 0 then NoLines
    else
      var k := FirstShort(lines, MaxLength(lines));
      if k < |lines| then IndexError(k, |lines[k]|) else Loaded
  }

  /** How many rows a load stamps: all of them, or those up to and including
      the first short one, on which it raises. */
  function StampedRows(lines: seq<string>): (rows: nat)
    requires |lines| > 0
    ensures 1 <= rows <= |lines|
  {
    var k := FirstShort(lines, MaxLength(lines));
    if k < |lines| then k + 1 else k
  }

  /** The grid a load of a non-empty list of lines leaves: every row up to and
      including the one that raises, if any, is stamped. */
  function LoadedGrid(lines: seq<string>): (g: Grid)
    requires |lines| > 0
    ensures IsGrid(g)
  {
    Stamp(lines, StartOffset(|lines|), StartOffset(MaxLength(lines)), StampedRows(lines), 0)
  }

  /** Before the loop has read anything, the stamped grid is the cleared one. */
  lemma StampNothing(lines: seq<string>, sr: int, sc: int)
    ensures Stamp(lines, sr, sc, 0, 0) == Zero()
  {
    GridExt(Stamp(lines, sr, sc, 0, 0), Zero());
  }

  /** A character that is not a digit, or that lands off the grid, changes nothing. */
  lemma StampNoWrite(lines: seq<string>, sr: int, sc: int, row: int, col: int)
    requires 0 <= row < |lines| && 0 <= col < |lines[row]|
    requires !IsDigit(lines[row][col]) || !(0 <= sr + row < N && 0 <= sc + col < N)
    ensures Stamp(lines, sr, sc, row, col + 1) == Stamp(lines, sr, sc, row, col)
  {
    GridExt(Stamp(lines, sr, sc, row, col + 1), Stamp(lines, sr, sc, row, col));
  }

  /** Stamping a digit that lands inside the grid writes its value there. */
  lemma StampWrite(lines: seq<string>, sr: int, sc: int, row: int, col: int)
    requires 0 <= row < |lines| && 0 <= col < |lines[row]|
    requires IsDigit(lines[row][col]) && 0 <= sr + row < N && 0 <= sc + col < N
    ensures var g := Stamp(lines, sr, sc, row, col);
      Stamp(lines, sr, sc, row, col + 1) == g[sr + row := g[sr + row][sc + col := DigitValue(lines[row][col])]]
  {
    var g := Stamp(lines, sr, sc, row, col);
    var h := g[sr + row := g[sr + row][sc + col := DigitValue(lines[row][col])]];
    GridExt(Stamp(lines, sr, sc, row, col + 1), h);
  }

  /** Once a row has been read to its end, the loop may move on to the next row. */
  lemma StampRowEnd(lines: seq<string>, sr: int, sc: int, row: int, col: int)
    requires 0 <= row < |lines| && |lines[row]| <= col
    ensures Stamp(lines, sr, sc, row, col) == Stamp(lines, sr, sc, row + 1, 0)
  {
    GridExt(Stamp(lines, sr, sc, row, col), Stamp(lines, sr, sc, row + 1, 0));
  }

  /** Grid cell (gr, gc) lies over a '1' of the pattern placed at (sr, sc). */
  predicate OverOne(lines: seq<string>, sr: int, sc: int, gr: int, gc: int) {
    0 <= gr - sr < |lines| && 0 <= gc - sc < |lines[gr - sr]| && lines[gr - sr][gc - sc] == '1'
  }

  /** A live cell of a stamped grid comes from a '1' of a line the loop has read. */
  lemma StampLive(lines: seq<string>, sr: int, sc: int, rows: int, gr: int, gc: int)
    requires 0 <= gr < N && 0 <= gc < N
    requires Stamp(lines, sr, sc, rows, 0)[gr][gc] == 1
    ensures OverOne(lines, sr, sc, gr, gc)
  {
    StampAt(lines, sr, sc, rows, 0, gr, gc);
  }

  /** Every live cell of a loaded grid comes from a '1' of the pattern at the
      centring offsets, inside the pattern's height-by-width window. */
  lemma LoadedCellsFromPattern(lines: seq<string>, gr: int, gc: int)
    requires |lines| > 0 && 0 <= gr < N && 0 <= gc < N
    requires LoadedGrid(lines)[gr][gc] == 1
    ensures OverOne(lines, StartOffset(|lines|), StartOffset(MaxLength(lines)), gr, gc)
    ensures StartOffset(MaxLength(lines)) <= gc < StartOffset(MaxLength(lines)) + MaxLength(lines)
  {
    var w := MaxLength(lines);
    var sr, sc := StartOffset(|lines|), StartOffset(w);
    StampLive(lines, sr, sc, StampedRows(lines), gr, gc);
    assert |lines[gr - sr]| <= w;
  }

  /** A load completes exactly when no line is shorter than the longest one;
      otherwise it raises on the first shorter line, at that line's length. */
  lemma LoadCompletesIffUniform(lines: seq<string>)
    requires |lines| > 0
    ensures LoadOutcome(lines) == Loaded <==>
      forall i :: 0 <= i < |lines| ==> |lines[i]| == MaxLength(lines)
    ensures LoadOutcome(lines) != Loaded ==>
      LoadOutcome(lines).IndexError? && LoadOutcome(lines).row < |lines|
      && LoadOutcome(lines).col == |lines[LoadOutcome(lines).row]| < MaxLength(lines)
  {
    var w := MaxLength(lines);
    var k := FirstShort(lines, w);
    if k < |lines| {
      assert |lines[k]| != w;
    }
  }

  /** When every line has the same length the load completes, and every '1'
      whose target lies on the grid is alive there. */
  lemma UniformLoad(lines: seq<string>, pr: int, pc: int)
    requires |lines| > 0
    requires forall i :: 0 <= i < |lines| ==> |lines[i]| == |lines[0]|
    requires 0 <= pr < |lines| && 0 <= pc < |lines[pr]| && lines[pr][pc] == '1'
    requires var sr, sc := StartOffset(|lines|), StartOffset(MaxLength(lines));
      0 <= sr + pr < N && 0 <= sc + pc < N
    ensures LoadOutcome(lines) == Loaded
    ensures LoadedGrid(lines)[StartOffset(|lines|) + pr][StartOffset(MaxLength(lines)) + pc] == 1
  {
    var w := MaxLength(lines);
    assert w == |lines[0]|;
    LoadCompletesIffUniform(lines);
    var sr, sc := StartOffset(|lines|), StartOffset(w);
    StampAt(lines, sr, sc, |lines|, 0, sr + pr, sc + pc);
  }

  /** Loading the single line "1\n" gives exactly one live cell, at (34, 34). */
  lemma SingleCellLoad()
    ensures LoadOutcome(["1\n"]) == Loaded
    ensures forall gr, gc :: 0 <= gr < N && 0 <= gc < N ==>
      (LoadedGrid(["1\n"])[gr][gc] == 1 <==> gr == 34 && gc == 34)
  {
    var lines := ["1\n"];
    assert MaxLength(lines) == 2;
    assert FirstShort(lines, 2) == 1;
  }

  /** A last line without its newline is one character shorter than the
      others, so the load raises IndexError on it, but only after all of its
      characters were stamped. */
  lemma MissingFinalNewline()
    ensures LoadOutcome(["1\n", "1"]) == IndexError(1, 1)
    ensures forall gr, gc :: 0 <= gr < N && 0 <= gc < N ==>
      (LoadedGrid(["1\n", "1"])[gr][gc] == 1 <==> (gr == 34 || gr == 35) && gc == 34)
  {
    var lines := ["1\n", "1"];
    assert MaxLength(lines) == 2;
    assert FirstShort(lines, 2) == 1;
  }
}
