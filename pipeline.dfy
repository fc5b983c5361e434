/** The automaton part of `generate_png_art`: seed the grid from the input
    bytes, then run the requested number of generations.  The finished grid
    is what the renderer receives. */
module Pipeline {
  import opened Grid
  import opened Automaton
  import opened SeedEncoder
  import EngineFacts
  import SeedFacts

  /** The grid the picture is drawn from: `steps` generations of the seed
      of `data` (none when `steps` is not positive). */
  method GenerateArtGrid(data: seq<Byte>, steps: int) returns (grid: array2<int>)
    ensures IsSquare(grid)
    ensures Cells(grid) == Run(Seed(data), if steps < 0 then 0 else steps)
    ensures steps <= 0 ==> Cells(grid) == Seed(data)
  {
    var seeded := SeedGrid(data);
    grid := EvolveSteps(seeded, steps);
  }

  /** An empty input gives a dead grid after any number of generations. */
  lemma EmptyInputStaysDead(steps: nat)
    ensures Run(Seed([]), steps) == Blank()
  {
    SeedFacts.SeedEmpty();
    EngineFacts.RunBlank(steps);
  }
}
