# hashart-life automaton core in Dafny

hashart-life draws a greeting card from a text input. The bytes of the input
seed a 32×32 toroidal Game-of-Life grid, and the grid evolves for a number of
generations. The finished grid is then drawn as a picture. This project models
the automaton part of `hash_grid.py` and proves properties of it:

- `create_grid` builds the all-dead grid.
- `get_neighbors` counts the eight cells around a cell, both coordinates
  wrapped modulo the grid size.
- `evolve_grid` computes one generation into a freshly created grid. A live
  cell survives on 2 or 3 neighbours; a dead cell is born on exactly 3.
- The seeding loop of `generate_png_art` writes the bytes, zero-padded to
  `MAX_BYTES`, bit by bit (most significant first) into the grid in row-major
  order.
- The step loop of `generate_png_art` applies `evolve_grid` `steps` times.

Files and modules:

- `grid.dfy`, module `Grid`: `SvgSize` (32) and `MaxBytes` (128), grid values
  (`seq<seq<int>>`, indexed `[y][x]`), the array view `Cells`, and
  `CreateGrid`.
- `automaton.dfy`, module `Automaton`: the specification functions `Neighbors`,
  `NextState`, `Evolve` and `Run`, and the imperative `GetNeighbors`,
  `EvolveGrid` and `EvolveSteps`, each proved against them. Module
  `EngineFacts` holds the lemmas about the specification.
- `seed.dfy`, module `SeedEncoder`: the specification `Seed` and the
  imperative `SeedGrid`. Module `SeedFacts` holds the seeding lemmas, among
  them the byte round trip.
- `pipeline.dfy`, module `Pipeline`: seeding followed by the step loop, as in
  `generate_png_art`.

A grid that the source mutates is an `array2<int>` of 32×32 cells. Cells are
integers, as in the source. A cell's own state is live when it is non-zero, as
in `if grid[y][x]:`. The neighbour count, however, adds the cell values
themselves, as `count += grid[new_y][new_x]` does, so it is a number of live
cells only on a grid of 0/1 cells. `EvolveGrid` has no `modifies` clause, so the verifier
checks that it leaves its input grid untouched. Because the model is made of
functions and of methods proved equal to them, it is deterministic by
construction.

The model keeps three details of the code:

- A negative step count is not rejected. `range(steps)` is then empty, so the
  seed grid comes back unchanged (`EvolveSteps`, `GenerateArtGrid`).
- Input bytes past the first `MAX_BYTES` are ignored, because the seeding loop
  runs over `range(MAX_BYTES)` (`SeedIgnoresTail`).
- `get_neighbors` accepts any integer coordinates, because both are wrapped.
  Python's floor `%` and Dafny's Euclidean `%` agree for the positive
  divisor 32.

## Model

| member | source | states |
|---|---|---|
| `Grid.Blank` | hash_grid.py:30 | the value `create_grid` builds: a 32×32 grid whose every cell is 0 |
| `Grid.CreateGrid` | hash_grid.py:29-30 | a fresh 32×32 grid whose every cell is 0 |
| `Automaton.Wrap` | hash_grid.py:38-39 | a wrapped coordinate lies in 0..31; in-range values are unchanged; -1 wraps to 31 and 32 wraps to 0 |
| `Automaton.GetNeighbors` | hash_grid.py:32-41 | the double loop returns the sum of the eight wrapped cells around (x, y), the cell itself excluded, for any integer x and y; on a 0/1 grid the count is in 0..8 |
| `Automaton.OffsetsSum` | hash_grid.py:34-40 | adding up the nine offsets' contributions column by column, with the centre offset contributing nothing, gives exactly the eight-neighbour count |
| `Automaton.Neighbors` | hash_grid.py:32-41 | the reference count: the sum of the eight cells at offsets (-1..1, -1..1) other than (0, 0), each coordinate wrapped by `Wrap` (cell lookup `At`); on a 0/1 grid it is in 0..8 |
| `EngineFacts.NeighborsLocal` | hash_grid.py:34-40 | the count depends only on the eight cells at offsets other than (0, 0) |
| `EngineFacts.WrapDistinct` | hash_grid.py:38-39 | two different offsets in -1..1 wrap to different coordinates |
| `EngineFacts.NeighborsIgnoreSelf` | hash_grid.py:36-37 | changing a cell's own value never changes its count |
| `EngineFacts.NeighborsCountOnce` | hash_grid.py:34-40 | bringing any one of the eight surrounding cells to life raises the count by exactly one, so each is counted once |
| `EngineFacts.NeighborsOfOrigin` | hash_grid.py:38-40 | the count of (0, 0) includes the wrapped cells (31, 31), (31, 0) and (0, 31) |
| `EngineFacts.NeighborsInterior` | hash_grid.py:38-40 | away from the edges the count is the plain sum of the eight adjacent cells |
| `Automaton.NextState` | hash_grid.py:48-51 | the next state of a cell is always 0 or 1 |
| `Automaton.Evolve` | hash_grid.py:43-52 | cell (x, y) of the result is `NextCell`, the rule `NextState` applied to the old cell and its `Neighbors` count; one generation of any 32×32 integer grid is a 32×32 grid of 0/1 cells |
| `EngineFacts.TransitionRule` | hash_grid.py:47-51 | stated for `Evolve(g)[y][x]`, which is `NextCell(g, x, y)`: a live cell is live next generation iff it has 2 or 3 neighbours; a dead cell iff it has exactly 3 |
| `EngineFacts.EvolveLocal` | hash_grid.py:44-51 | a cell's next state depends only on the old cell and the eight old cells around it |
| `EngineFacts.BlockOfNine` | hash_grid.py:47-51 | in a 3×3 live block the centre (8 neighbours) dies, the corners (3) survive and the edge midpoints (5) die |
| `EngineFacts.EvolveBlank` | hash_grid.py:43-52 | the all-dead grid evolves to itself |
| `Automaton.NextStateOf` | hash_grid.py:47-51 | the per-cell loop body returns `NextCell`: the rule applied to the cell and its counted neighbours, i.e. the cell's next-generation state |
| `Automaton.EvolveGrid` | hash_grid.py:43-52 | returns a fresh 32×32 grid equal to one generation of the input, and modifies nothing it was given |
| `Automaton.Run` | hash_grid.py:95-97 | `steps` generations of a grid give a 32×32 grid, with 0/1 cells once a generation has run |
| `EngineFacts.RunBlank` | hash_grid.py:95-97 | the all-dead grid stays dead for any number of generations |
| `EngineFacts.RunAdd` | hash_grid.py:95-97 | running a generations and then b more is the same as running a + b |
| `Automaton.EvolveSteps` | hash_grid.py:95-97 | the loop returns `steps` generations of the input (none for steps ≤ 0); for steps ≤ 0 it returns the very same grid object |
| `SeedEncoder.BitOf` | hash_grid.py:88 | `(byte >> j) & 1`, with `>>` modelled by `Shr` as j halvings, is 0 or 1 |
| `SeedEncoder.Seed` | hash_grid.py:85-93 | built cell by cell by `SeedCell` from the zero-padded byte `PaddedByte` (line 86), the seed is a 0/1 grid; cell (x, y) with idx = 32y + x holds bit 7 - idx % 8 of byte idx / 8 when that byte exists, and 0 otherwise |
| `SeedEncoder.SeedGrid` | hash_grid.py:82-93 | the byte-by-bit loop leaves a fresh 32×32 grid equal to the seed of the input |
| `SeedFacts.SeedAtFlat` | hash_grid.py:89-93 | the cell at flat index 8i + m holds bit 7 - m of the padded byte i |
| `SeedFacts.SeedRoundTrip` | hash_grid.py:85-93 | `MAX_BYTES * 8` equals the number of cells, and reading each byte back from its eight cells gives the zero-padded input byte, so no bit is dropped |
| `SeedFacts.SeedInjective` | hash_grid.py:85-93 | two inputs of equal length up to `MAX_BYTES` that seed the same grid are equal |
| `SeedFacts.SeedIgnoresTail` | hash_grid.py:85-86 | only the first `MAX_BYTES` bytes of the input reach the grid |
| `SeedFacts.SeedEmpty` | hash_grid.py:85-93 | the empty input seeds the all-dead grid |
| `SeedFacts.ShrByte` | hash_grid.py:88 | shifting any byte right by eight places gives 0, so `(byte >> j) & 1` only sees bits 0..7 |
| `SeedFacts.SeedLetterA` | hash_grid.py:86-93 | the single byte 0x41 seeds exactly the cells (1, 0) and (7, 0) |
| `Pipeline.GenerateArtGrid` | hash_grid.py:82-97 | the grid handed to the renderer is `steps` generations of the seed of the input, and is the seed itself when steps ≤ 0 |
| `Pipeline.EmptyInputStaysDead` | hash_grid.py:82-97 | an empty input gives an all-dead grid after any number of generations |

## Left out

- `grid_to_png` and the picture returned by `generate_png_art`: these are image construction and pixel writes into an imaging library object.
- `design_a4_landscape_card`: this is font loading, text measurement and drawing through the imaging library.
- `get_day_of_year`, `interpolate_rgb` and `get_seasonal_colour`: these are calendar library calls and floating-point colour interpolation.
- `create_and_save_card`: this is file output plus a SHA3-512 digest. The model takes the seed as a caller-supplied byte sequence instead.
- The default `steps = 5` of `generate_png_art`: the model's `GenerateArtGrid` always takes the step count as an argument, as the one caller (`create_and_save_card`) passes it.
- `input_text.encode('utf-8')`: the model's input is the encoded byte sequence (values 0..255), so UTF-8 encoding is not modelled.
- The `__main__` block: this is date-range looping, directory creation and GIF output.
- Row aliasing: the source's grid is a list of separately allocated row lists. The model uses one `array2`, which is the same thing because no two rows ever share a list.
- Grid sizes other than 32: `SvgSize` is the source's constant, so the model does not cover a size for which `MAX_BYTES * 8` exceeds the cell count and the `y < SVG_SIZE` guard drops bits.
