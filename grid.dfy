/** The square cell grid shared by the seed encoder and the automaton engine.

    A grid is `SvgSize` rows of `SvgSize` integer cells, indexed `[y][x]`
    (row first), as the source's list of lists is.  The mutable grid is an
    `array2<int>`; `Cells` gives its value as nested sequences, on which the
    specification functions of the other modules are written. */
module Grid {

  /** Side length of the grid (`SVG_SIZE`). */
  const SvgSize: int := 32

  /** Number of seed bytes needed to give every cell one bit:
      `ceil(SvgSize * SvgSize / 8)` (`MAX_BYTES`). */
  const MaxBytes: int := (SvgSize * SvgSize + 7) / 8

  /** `g` has exactly `SvgSize` rows of exactly `SvgSize` cells. */
  predicate IsGrid(g: seq<seq<int>>)
  {
    |g| == SvgSize && forall y :: 0 <= y < |g| ==> |g[y]| == SvgSize
  }

  /** `g` is a grid whose every cell is dead (0) or live (1). */
  predicate IsBitGrid(g: seq<seq<int>>)
  {
    IsGrid(g) && forall y, x :: 0 <= y < SvgSize && 0 <= x < SvgSize ==> g[y][x] == 0 || g[y][x] == 1
  }

  /** The all-dead grid. */
  function Blank(): (g: seq<seq<int>>)
    ensures IsBitGrid(g)
    ensures forall y, x :: 0 <= y < SvgSize && 0 <= x < SvgSize ==> g[y][x] == 0
  {
    seq(SvgSize, y => seq(SvgSize, x => 0))
  }

  /** The array has the shape of a grid. */
  predicate IsSquare(a: array2<int>)
  {
    a.Length0 == SvgSize && a.Length1 == SvgSize
  }

  /** The value held by a two-dimensional array, row by row. */
  ghost function Cells(a: array2<int>): (g: seq<seq<int>>)
    reads a
    ensures |g| == a.Length0
    ensures forall y :: 0 <= y < a.Length0 ==> |g[y]| == a.Length1
    ensures forall y, x :: 0 <= y < a.Length0 && 0 <= x < a.Length1 ==> g[y][x] == a[y, x]
  {
    seq(a.Length0, y reads a requires 0 <= y < a.Length0 =>
      seq(a.Length1, x reads a requires 0 <= x < a.Length1 => a[y, x]))
  }

  /** An array whose every cell matches a grid value holds that value. */
  lemma SameCells(a: array2<int>, g: seq<seq<int>>)
    requires IsSquare(a) && IsGrid(g)
    requires forall y, x :: 0 <= y < SvgSize && 0 <= x < SvgSize ==> a[y, x] == g[y][x]
    ensures Cells(a) == g
  {
    assert forall y :: 0 <= y < SvgSize ==> Cells(a)[y] == g[y];
  }

  /** `g` with cell `(x, y)` replaced by `v`. */
  function SetCell(g: seq<seq<int>>, x: int, y: int, v: int): (r: seq<seq<int>>)
    requires IsGrid(g) && 0 <= x < SvgSize && 0 <= y < SvgSize
    ensures IsGrid(r) && r[y][x] == v
    ensures forall y', x' :: 0 <= y' < SvgSize && 0 <= x' < SvgSize && (y', x') != (y, x) ==> r[y'][x'] == g[y'][x']
  {
    g[y := g[y][x := v]]
  }

  /** `create_grid`: a fresh grid with every cell dead. */
  method CreateGrid() returns (a: array2<int>)
    ensures fresh(a)
    ensures IsSquare(a) && Cells(a) == Blank()
  {
    a := new int[SvgSize, SvgSize]((y, x) => 0);
    SameCells(a, Blank());
  }
}
