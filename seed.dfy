/** The seed encoder: the bytes of the input, zero-padded to `MaxBytes`,
    written bit by bit, most significant first, into the grid in row-major
    order. */
module SeedEncoder {
  import opened Grid

  /** One byte of the encoded input. */
  type Byte = b: int | 0 <= b < 256

  /** `c >> j` on a non-negative integer. */
  function Shr(c: nat, j: nat): nat
  {
    if j == 0 then c else Shr(c / 2, j - 1)
  }

  /** Shifting zero gives zero. */
  lemma {:induction false} ShrZero(j: nat)
    ensures Shr(0, j) == 0
  {
    if j > 0 {
      ShrZero(j - 1);
    }
  }

  /** Bit `j` of a byte, counting from the least significant: `(b >> j) & 1`. */
  function BitOf(b: Byte, j: nat): (r: int)
    requires j < 8
    ensures r == 0 || r == 1
  {
    Shr(b, j) % 2
  }

  /** Byte `i` of the input, or 0 past its end. */
  function PaddedByte(data: seq<Byte>, i: int): Byte
  {
    if 0 <= i < |data| then data[i] else 0
  }

  /** The seed value of cell `(x, y)`: its flat index `y * SvgSize + x` selects
      byte `idx / 8` and, within it, bit `7 - idx % 8`. */
  function SeedCell(data: seq<Byte>, x: int, y: int): int
    requires 0 <= x < SvgSize && 0 <= y < SvgSize
  {
    var idx := y * SvgSize + x;
    BitOf(PaddedByte(data, idx / 8), 7 - idx % 8)
  }

  /** The seed grid of `data`. */
  function Seed(data: seq<Byte>): (g: seq<seq<int>>)
    ensures IsBitGrid(g)
    ensures forall y, x :: 0 <= y < SvgSize && 0 <= x < SvgSize ==>
      g[y][x] == if (y * SvgSize + x) / 8 < |data| then BitOf(data[(y * SvgSize + x) / 8], 7 - (y * SvgSize + x) % 8) else 0
  {
    forall j: nat | j < 8 { ShrZero(j); }
    seq(SvgSize, y requires 0 <= y < SvgSize =>
      seq(SvgSize, x requires 0 <= x < SvgSize => SeedCell(data, x, y)))
  }

  /** The seeding loop of `generate_png_art`: for each of the `MaxBytes`
      (padded) bytes, its eight bits from the most significant down, each
      written to the cell at the next flat index when that cell exists. */
  method SeedGrid(data: seq<Byte>) returns (grid: array2<int>)
    ensures fresh(grid)
    ensures IsSquare(grid) && Cells(grid) == Seed(data)
  {
    grid := CreateGrid();
    var i := 0;
    while i < MaxBytes
      invariant 0 <= i <= MaxBytes
      invariant forall y, x :: 0 <= y < SvgSize && 0 <= x < SvgSize ==>
        grid[y, x] == if y * SvgSize + x < i * 8 then SeedCell(data, x, y) else 0
    {
      var byte := if i < |data| then data[i] else 0;
      var j := 7;
      while j >= 0
        invariant -1 <= j <= 7
        invariant forall y, x :: 0 <= y < SvgSize && 0 <= x < SvgSize ==>
          grid[y, x] == if y * SvgSize + x < i * 8 + (7 - j) then SeedCell(data, x, y) else 0
      {
        var bit := BitOf(byte, j);
        var bitIndex := i * 8 + (7 - j);
        var x := bitIndex % SvgSize;
        var y := bitIndex / SvgSize;
        if y < SvgSize && x < SvgSize {
          grid[y, x] := bit;
        }
        j := j - 1;
      }
      i := i + 1;
    }
    SameCells(grid, Seed(data));
  }
}

/** Properties of the seed encoder's specification. */
module SeedFacts {
  import opened Grid
  import opened SeedEncoder

  /** The cell at flat (row-major) index `idx`. */
  function FlatCell(g: seq<seq<int>>, idx: int): int
    requires IsGrid(g) && 0 <= idx < SvgSize * SvgSize
  {
    g[idx / SvgSize][idx % SvgSize]
  }

  /** The value of the first `k` of the eight cells that hold byte `i`,
      read most significant bit first. */
  function ReadBits(g: seq<seq<int>>, i: int, k: int): int
    requires IsGrid(g) && 0 <= i < MaxBytes && 0 <= k <= 8
  {
    if k == 0 then 0 else 2 * ReadBits(g, i, k - 1) + FlatCell(g, i * 8 + k - 1)
  }

  /** The byte that cells `8 * i` .. `8 * i + 7` hold. */
  function ReadByte(g: seq<seq<int>>, i: int): int
    requires IsGrid(g) && 0 <= i < MaxBytes
  {
    ReadBits(g, i, 8)
  }

  /** Shifting one place further halves the result. */
  lemma {:induction false} ShrStep(c: nat, j: nat)
    ensures Shr(c, j + 1) == Shr(c, j) / 2
  {
    if j > 0 {
      ShrStep(c / 2, j - 1);
    }
  }

  /** Shifting a byte right by eight places leaves nothing. */
  lemma ShrByte(b: Byte)
    ensures Shr(b, 8) == 0
  {
    ShrStep(b, 0); ShrStep(b, 1); ShrStep(b, 2); ShrStep(b, 3);
    ShrStep(b, 4); ShrStep(b, 5); ShrStep(b, 6); ShrStep(b, 7);
  }

  /** The `k` most significant bits of a byte, read as a number, are the
      byte shifted right by `8 - k`. */
  lemma {:induction false} TopBits(g: seq<seq<int>>, data: seq<Byte>, i: int, k: int)
    requires g == Seed(data) && 0 <= i < MaxBytes && 0 <= k <= 8
    ensures ReadBits(g, i, k) == Shr(PaddedByte(data, i), 8 - k)
  {
    var b := PaddedByte(data, i);
    if k == 0 {
      ShrByte(b);
    } else {
      TopBits(g, data, i, k - 1);
      SeedAtFlat(data, i, k - 1);
      ShrStep(b, 8 - k);
    }
  }

  /** The cell at flat index `8 * i + m` holds bit `7 - m` of byte `i`. */
  lemma SeedAtFlat(data: seq<Byte>, i: int, m: int)
    requires 0 <= i < MaxBytes && 0 <= m < 8
    ensures FlatCell(Seed(data), i * 8 + m) == BitOf(PaddedByte(data, i), 7 - m)
  {
  }

  /** No bit is lost: with `SvgSize = 32` the `MaxBytes` bytes fill the grid
      exactly, and reading each byte back from its eight cells gives the
      (zero-padded) input byte. */
  lemma SeedRoundTrip(data: seq<Byte>)
    ensures MaxBytes * 8 == SvgSize * SvgSize
    ensures forall i :: 0 <= i < MaxBytes ==> ReadByte(Seed(data), i) == PaddedByte(data, i)
  {
    forall i | 0 <= i < MaxBytes
      ensures ReadByte(Seed(data), i) == PaddedByte(data, i)
    {
      TopBits(Seed(data), data, i, 8);
    }
  }

  /** Different inputs of the same length, up to `MaxBytes`, seed different
      grids. */
  lemma SeedInjective(a: seq<Byte>, b: seq<Byte>)
    requires |a| == |b| <= MaxBytes
    requires Seed(a) == Seed(b)
    ensures a == b
  {
    SeedRoundTrip(a);
    SeedRoundTrip(b);
    forall i | 0 <= i < |a|
      ensures a[i] == b[i]
    {
      assert PaddedByte(a, i) == ReadByte(Seed(a), i) == PaddedByte(b, i);
    }
  }

  /** Only the first `MaxBytes` bytes of the input reach the grid. */
  lemma SeedIgnoresTail(data: seq<Byte>)
    requires |data| > MaxBytes
    ensures Seed(data) == Seed(data[..MaxBytes])
  {
    var s := data[..MaxBytes];
    forall y, x | 0 <= y < SvgSize && 0 <= x < SvgSize
      ensures Seed(data)[y][x] == Seed(s)[y][x]
    {
      assert (y * SvgSize + x) / 8 < MaxBytes;
    }
    assert forall y :: 0 <= y < SvgSize ==> Seed(data)[y] == Seed(s)[y];
  }

  /** The empty input seeds the all-dead grid. */
  lemma SeedEmpty()
    ensures Seed([]) == Blank()
  {
    assert forall y :: 0 <= y < SvgSize ==> Seed([])[y] == Blank()[y];
  }

  /** The bits of 0x41 ("A"), most significant first: 0 1 0 0 0 0 0 1. */
  lemma LetterABits()
    ensures BitOf(0x41, 7) == 0 && BitOf(0x41, 6) == 1 && BitOf(0x41, 5) == 0 && BitOf(0x41, 4) == 0
    ensures BitOf(0x41, 3) == 0 && BitOf(0x41, 2) == 0 && BitOf(0x41, 1) == 0 && BitOf(0x41, 0) == 1
  {
  }

  /** The single byte 0x41 ("A", bits 01000001) seeds exactly the cells
      `(1, 0)` and `(7, 0)`. */
  lemma SeedLetterA()
    ensures forall y, x :: 0 <= y < SvgSize && 0 <= x < SvgSize ==>
      Seed([0x41])[y][x] == if y == 0 && (x == 1 || x == 7) then 1 else 0
  {
    LetterABits();
  }
}
