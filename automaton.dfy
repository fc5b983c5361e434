/** The automaton engine: toroidal neighbour count, one Game-of-Life
    generation, and the driver that applies generations repeatedly. */
module Automaton {
  import opened Grid

  /** A coordinate wrapped onto the torus, `(v + SvgSize) % SvgSize`.
      Python's `%` floors and Dafny's is Euclidean; with a positive divisor
      both give the same non-negative remainder. */
  function Wrap(v: int): (r: int)
    ensures 0 <= r < SvgSize
    ensures 0 <= v < SvgSize ==> r == v
    ensures v == -1 ==> r == SvgSize - 1
    ensures v == SvgSize ==> r == 0
  {
    (v + SvgSize) % SvgSize
  }

  /** The cell at offset `(i, j)` from `(x, y)`, both coordinates wrapped. */
  function At(g: seq<seq<int>>, x: int, y: int, i: int, j: int): int
    requires IsGrid(g)
  {
    g[Wrap(y + j)][Wrap(x + i)]
  }

  /** Sum of the eight cells around `(x, y)` on the torus; the cell itself
      is not among them. */
  function Neighbors(g: seq<seq<int>>, x: int, y: int): (r: int)
    requires IsGrid(g)
    ensures IsBitGrid(g) ==> 0 <= r <= 8
  {
    At(g, x, y, -1, -1) + At(g, x, y, -1, 0) + At(g, x, y, -1, 1)
    + At(g, x, y, 0, -1) + At(g, x, y, 0, 1)
    + At(g, x, y, 1, -1) + At(g, x, y, 1, 0) + At(g, x, y, 1, 1)
  }

  /** What offset `(i, j)` adds to the count: nothing for the centre. */
  function Contribution(g: seq<seq<int>>, x: int, y: int, i: int, j: int): int
    requires IsGrid(g)
  {
    if i == 0 && j == 0 then 0 else At(g, x, y, i, j)
  }

  /** Contributions of the offsets `(i, j')` with `-1 <= j' < j`. */
  function ColumnSum(g: seq<seq<int>>, x: int, y: int, i: int, j: int): int
    requires IsGrid(g) && -1 <= j <= 2
    decreases j + 1
  {
    if j == -1 then 0 else ColumnSum(g, x, y, i, j - 1) + Contribution(g, x, y, i, j - 1)
  }

  /** Contributions of every offset `(i', j)` with `-1 <= i' < i`. */
  function ColumnsSum(g: seq<seq<int>>, x: int, y: int, i: int): int
    requires IsGrid(g) && -1 <= i <= 2
    decreases i + 1
  {
    if i == -1 then 0 else ColumnsSum(g, x, y, i - 1) + ColumnSum(g, x, y, i - 1, 2)
  }

  /** `get_neighbors`: the double loop over offsets, skipping `(0, 0)`.
      Any integer coordinates are accepted, since both are wrapped. */
  method GetNeighbors(grid: array2<int>, x: int, y: int) returns (count: int)
    requires IsSquare(grid)
    ensures count == Neighbors(Cells(grid), x, y)
    ensures IsBitGrid(Cells(grid)) ==> 0 <= count <= 8
  {
    ghost var g := Cells(grid);
    count := 0;
    for i := -1 to 2
      invariant count == ColumnsSum(g, x, y, i)
    {
      for j := -1 to 2
        invariant count == ColumnsSum(g, x, y, i) + ColumnSum(g, x, y, i, j)
      {
        if i == 0 && j == 0 {
          continue;
        }
        var newX := (x + i + SvgSize) % SvgSize;
        var newY := (y + j + SvgSize) % SvgSize;
        count := count + grid[newY, newX];
      }
    }
    OffsetsSum(g, x, y);
  }

  /** Summing the contributions of all nine offsets, the centre adding
      nothing, gives the neighbour count. */
  lemma OffsetsSum(g: seq<seq<int>>, x: int, y: int)
    requires IsGrid(g)
    ensures ColumnsSum(g, x, y, 2) == Neighbors(g, x, y)
  {
    assert ColumnSum(g, x, y, -1, 2) == At(g, x, y, -1, -1) + At(g, x, y, -1, 0) + At(g, x, y, -1, 1);
    assert ColumnSum(g, x, y, 0, 2) == At(g, x, y, 0, -1) + At(g, x, y, 0, 1);
    assert ColumnSum(g, x, y, 1, 2) == At(g, x, y, 1, -1) + At(g, x, y, 1, 0) + At(g, x, y, 1, 1);
  }

  /** The state of a cell in the next generation, given its current state
      (any non-zero value is live) and its neighbour count. */
  function NextState(cell: int, n: int): (r: int)
    ensures r == 0 || r == 1
  {
    if cell != 0 then (if n == 2 || n == 3 then 1 else 0)
    else (if n == 3 then 1 else 0)
  }

  /** The next state of cell `(x, y)` of `g`. */
  function NextCell(g: seq<seq<int>>, x: int, y: int): int
    requires IsGrid(g) && 0 <= x < SvgSize && 0 <= y < SvgSize
  {
    NextState(g[y][x], Neighbors(g, x, y))
  }

  /** One generation: every cell of the new grid is computed from the old
      grid only. */
  function Evolve(g: seq<seq<int>>): (r: seq<seq<int>>)
    requires IsGrid(g)
    ensures IsBitGrid(r)
  {
    seq(SvgSize, y requires 0 <= y < SvgSize =>
      seq(SvgSize, x requires 0 <= x < SvgSize => NextCell(g, x, y)))
  }

  /** The body of `evolve_grid`'s loops for one cell: count the neighbours,
      then apply the survival rule to a live cell or the birth rule to a
      dead one. */
  method NextStateOf(grid: array2<int>, x: int, y: int) returns (state: int)
    requires IsSquare(grid) && 0 <= x < SvgSize && 0 <= y < SvgSize
    ensures state == NextCell(Cells(grid), x, y)
  {
    var neighbors := GetNeighbors(grid, x, y);
    if grid[y, x] != 0 {
      state := if neighbors == 2 || neighbors == 3 then 1 else 0;
    } else {
      state := if neighbors == 3 then 1 else 0;
    }
  }

  /** `evolve_grid`: fills a freshly created grid cell by cell, reading only
      the input, which it leaves unchanged (it modifies nothing it was given). */
  method EvolveGrid(grid: array2<int>) returns (newGrid: array2<int>)
    requires IsSquare(grid)
    ensures fresh(newGrid)
    ensures IsSquare(newGrid) && Cells(newGrid) == Evolve(Cells(grid))
  {
    ghost var g := Cells(grid);
    newGrid := CreateGrid();
    for y := 0 to SvgSize
      invariant forall y', x' :: 0 <= y' < y && 0 <= x' < SvgSize ==> newGrid[y', x'] == NextCell(g, x', y')
    {
      for x := 0 to SvgSize
        invariant forall y', x' :: 0 <= y' < SvgSize && 0 <= x' < SvgSize && (y' < y || (y' == y && x' < x)) ==>
          newGrid[y', x'] == NextCell(g, x', y')
      {
        var state := NextStateOf(grid, x, y);
        newGrid[y, x] := state;
      }
    }
    SameCells(newGrid, Evolve(g));
  }

  /** `steps` generations applied one after the other. */
  function Run(g: seq<seq<int>>, steps: nat): (r: seq<seq<int>>)
    requires IsGrid(g)
    ensures IsGrid(r)
    ensures steps > 0 ==> IsBitGrid(r)
    decreases steps
  {
    if steps == 0 then g else Evolve(Run(g, steps - 1))
  }

  /** The step loop of `generate_png_art`: `evolve_grid` applied `steps`
      times.  A negative count runs no generation, as `range` does. */
  method EvolveSteps(grid: array2<int>, steps: int) returns (current: array2<int>)
    requires IsSquare(grid)
    ensures IsSquare(current)
    ensures Cells(current) == Run(Cells(grid), if steps < 0 then 0 else steps)
    ensures steps <= 0 ==> current == grid
  {
    current := grid;
    var k := 0;
    while k < steps
      invariant 0 <= k <= (if steps < 0 then 0 else steps)
      invariant IsSquare(current) && Cells(current) == Run(Cells(grid), k)
      invariant k == 0 ==> current == grid
    {
      current := EvolveGrid(current);
      k := k + 1;
    }
  }
}

/** Properties of the engine's specification functions. */
module EngineFacts {
  import opened Grid
  import opened Automaton

  /** The count depends only on the eight surrounding cells. */
  lemma NeighborsLocal(g: seq<seq<int>>, h: seq<seq<int>>, x: int, y: int)
    requires IsGrid(g) && IsGrid(h)
    requires forall i, j :: -1 <= i <= 1 && -1 <= j <= 1 && (i, j) != (0, 0) ==> At(g, x, y, i, j) == At(h, x, y, i, j)
    ensures Neighbors(g, x, y) == Neighbors(h, x, y)
  {
  }

  /** Two different offsets in -1..1 land on different wrapped coordinates. */
  lemma WrapDistinct(v: int, i: int, i': int)
    requires -1 <= i <= 1 && -1 <= i' <= 1 && i != i'
    ensures Wrap(v + i) != Wrap(v + i')
  {
  }

  /** The cell's own value never contributes to its count. */
  lemma NeighborsIgnoreSelf(g: seq<seq<int>>, x: int, y: int, v: int)
    requires IsGrid(g) && 0 <= x < SvgSize && 0 <= y < SvgSize
    ensures Neighbors(SetCell(g, x, y, v), x, y) == Neighbors(g, x, y)
  {
  }

  /** Each of the eight surrounding cells is counted exactly once: bringing
      one of them to life raises the count by one. */
  lemma NeighborsCountOnce(g: seq<seq<int>>, x: int, y: int, i: int, j: int)
    requires IsGrid(g) && 0 <= x < SvgSize && 0 <= y < SvgSize
    requires -1 <= i <= 1 && -1 <= j <= 1 && (i, j) != (0, 0)
    requires At(g, x, y, i, j) == 0
    ensures Neighbors(SetCell(g, Wrap(x + i), Wrap(y + j), 1), x, y) == Neighbors(g, x, y) + 1
  {
  }

  /** Wrap-around at the corner: the count of `(0, 0)` takes in the cells
      `(N-1, N-1)`, `(N-1, 0)` and `(0, N-1)` across both edges. */
  lemma NeighborsOfOrigin(g: seq<seq<int>>)
    requires IsGrid(g)
    ensures Neighbors(g, 0, 0) ==
      g[SvgSize - 1][SvgSize - 1] + g[0][SvgSize - 1] + g[1][SvgSize - 1]
      + g[SvgSize - 1][0] + g[1][0]
      + g[SvgSize - 1][1] + g[0][1] + g[1][1]
  {
  }

  /** Away from the edges no coordinate wraps. */
  lemma NeighborsInterior(g: seq<seq<int>>, x: int, y: int)
    requires IsGrid(g) && 1 <= x < SvgSize - 1 && 1 <= y < SvgSize - 1
    ensures Neighbors(g, x, y) ==
      g[y - 1][x - 1] + g[y][x - 1] + g[y + 1][x - 1]
      + g[y - 1][x] + g[y + 1][x]
      + g[y - 1][x + 1] + g[y][x + 1] + g[y + 1][x + 1]
  {
  }

  /** A live cell is live next generation iff it has 2 or 3 live
      neighbours; a dead cell iff it has exactly 3. */
  lemma TransitionRule(g: seq<seq<int>>, x: int, y: int)
    requires IsGrid(g) && 0 <= x < SvgSize && 0 <= y < SvgSize
    ensures g[y][x] != 0 ==> (Evolve(g)[y][x] == 1 <==> Neighbors(g, x, y) == 2 || Neighbors(g, x, y) == 3)
    ensures g[y][x] == 0 ==> (Evolve(g)[y][x] == 1 <==> Neighbors(g, x, y) == 3)
  {
  }

  /** The next state of a cell depends only on the cell and the eight
      cells around it. */
  lemma EvolveLocal(g: seq<seq<int>>, h: seq<seq<int>>, x: int, y: int)
    requires IsGrid(g) && IsGrid(h) && 0 <= x < SvgSize && 0 <= y < SvgSize
    requires forall i, j :: -1 <= i <= 1 && -1 <= j <= 1 ==> At(g, x, y, i, j) == At(h, x, y, i, j)
    ensures Evolve(g)[y][x] == Evolve(h)[y][x]
  {
    assert g[y][x] == At(g, x, y, 0, 0) == At(h, x, y, 0, 0) == h[y][x];
    NeighborsLocal(g, h, x, y);
  }

  /** A 3x3 block of live cells in the top-left corner of a dead grid. */
  function Block(): (g: seq<seq<int>>)
    ensures IsBitGrid(g)
  {
    seq(SvgSize, y => seq(SvgSize, x => if x < 3 && y < 3 then 1 else 0))
  }

  /** In the block, the centre (8 neighbours) dies, the corners (3) live on
      and the edge midpoints (5) die. */
  lemma BlockOfNine()
    ensures Neighbors(Block(), 1, 1) == 8 && Evolve(Block())[1][1] == 0
    ensures Neighbors(Block(), 0, 0) == 3 && Evolve(Block())[0][0] == 1
    ensures Evolve(Block())[0][2] == 1 && Evolve(Block())[2][0] == 1 && Evolve(Block())[2][2] == 1
    ensures Neighbors(Block(), 1, 0) == 5 && Evolve(Block())[0][1] == 0
    ensures Evolve(Block())[1][0] == 0 && Evolve(Block())[1][2] == 0 && Evolve(Block())[2][1] == 0
  {
  }

  /** The dead grid stays dead. */
  lemma EvolveBlank()
    ensures Evolve(Blank()) == Blank()
  {
    var b := Blank();
    forall y, x | 0 <= y < SvgSize && 0 <= x < SvgSize
      ensures Evolve(b)[y][x] == 0
    {
      assert Neighbors(b, x, y) == 0;
    }
    assert forall y :: 0 <= y < SvgSize ==> Evolve(b)[y] == b[y];
  }

  /** However many generations run, the dead grid stays dead. */
  lemma {:induction false} RunBlank(steps: nat)
    ensures Run(Blank(), steps) == Blank()
  {
    if steps > 0 {
      RunBlank(steps - 1);
      EvolveBlank();
    }
  }

  /** Running `a` generations and then `b` more is running `a + b`. */
  lemma {:induction false} RunAdd(g: seq<seq<int>>, a: nat, b: nat)
    requires IsGrid(g)
    ensures Run(Run(g, a), b) == Run(g, a + b)
  {
    if b > 0 {
      RunAdd(g, a, b - 1);
    }
  }
}
