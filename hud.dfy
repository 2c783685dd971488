/** The crosshair texture: a size x size pixel grid, row by row, white on the
    four arms of a cross around the centre and transparent elsewhere. */
module Hud {
  import opened Enemies

  /** Math.Abs on int. */
  function Abs(n: int): (r: nat)
    ensures r == n || r == -n
  {
    if n < 0 then -n else n
  }

  /** n / 2 on C# int, which rounds toward zero. */
  function HalfTowardZero(n: int): (r: int)
    ensures n >= 0 ==> 0 <= r && 2 * r <= n < 2 * r + 2
    ensures n < 0 ==> r <= 0 && 2 * r - 2 < n <= 2 * r
  {
    if n >= 0 then n / 2 else -((-n) / 2)
  }

  /** Pixel (x, y) lies on the horizontal arm (a band of the given half-thickness
      through the centre row, outside the gap) or on the vertical one. */
  predicate OnCrosshair(size: int, thickness: int, gap: int, x: int, y: int)
  {
    var half := size / 2;
    var halfThickness := HalfTowardZero(thickness);
    var horizontal := Abs(y - half) <= halfThickness && Abs(x - half) > gap;
    var vertical := Abs(x - half) <= halfThickness && Abs(y - half) > gap;
    horizontal || vertical
  }

  function PixelColor(size: int, thickness: int, gap: int, x: int, y: int): Color
  {
    if OnCrosshair(size, thickness, gap, x, y) then White else Transparent
  }

  /** Row-major layout: pixel (x, y) of a size-wide grid is entry y * size + x. */
  lemma PixelIndex(size: int, x: int, y: int)
    requires 0 <= x < size && 0 <= y < size
    ensures 0 <= y * size + x < size * size
    ensures (y * size + x) % size == x && (y * size + x) / size == y
  {
    RowBound(size, y);
    DivModUnique(y * size + x, size, y, x);
  }

  /** Row y of a size-wide grid starts at y * size, and the whole row fits. */
  lemma RowBound(size: int, y: int)
    requires 0 <= y < size
    ensures 0 <= y * size && y * size + size <= size * size
  {
    assert size * size - (y * size + size) == (size - 1 - y) * size;
    NonNegativeProduct(size - 1 - y, size);
    NonNegativeProduct(y, size);
  }

  lemma NonNegativeProduct(a: int, b: int)
    requires a >= 0 && b >= 0
    ensures a * b >= 0
  {
  }

  lemma DivModUnique(i: int, d: int, q: int, r: int)
    requires d > 0 && 0 <= r < d && i == q * d + r
    ensures i / d == q && i % d == r
  {
    var q', r' := i / d, i % d;
    assert i == q' * d + r';
    assert (q - q') * d == r' - r;
    if q' < q {
      MulAtLeast(q - q', d);
    } else if q' > q {
      MulAtLeast(q' - q, d);
    }
  }

  lemma MulAtLeast(k: int, d: int)
    requires k >= 1 && d > 0
    ensures k * d >= d
  {
    assert k * d - d == (k - 1) * d;
  }

  /** The colour of entry i of the row-major pixel array. */
  function PixelOfIndex(size: int, thickness: int, gap: int, i: int): Color
    requires size > 0
  {
    PixelColor(size, thickness, gap, i % size, i / size)
  }

  /** CreateCrosshairTexture: fills the pixel array row by row. A texture needs
      a positive size. */
  method CreateCrosshairTexture(size: int, thickness: int, gap: int) returns (data: array<Color>)
    requires size > 0
    ensures data.Length == size * size
    ensures forall i :: 0 <= i < data.Length ==> data[i] == PixelOfIndex(size, thickness, gap, i)
  {
    data := new Color[size * size];
    var y := 0;
    ghost var row := 0;
    while y < size
      invariant 0 <= y <= size && row == y * size
      invariant forall i :: 0 <= i < row ==> data[i] == PixelOfIndex(size, thickness, gap, i)
    {
      RowBound(size, y);
      FillRow(data, size, thickness, gap, y, row);
      assert row + size == (y + 1) * size;
      row := row + size;
      y := y + 1;
    }
  }

  /** The inner loop of CreateCrosshairTexture: the pixels of row y, left to
      right, after the rows above it. */
  method FillRow(data: array<Color>, size: int, thickness: int, gap: int, y: int, ghost row: int)
    requires size > 0 && 0 <= y < size && row == y * size && data.Length == size * size
    requires row + size <= data.Length
    requires forall i :: 0 <= i < row ==> data[i] == PixelOfIndex(size, thickness, gap, i)
    modifies data
    ensures forall i :: 0 <= i < row + size ==> data[i] == PixelOfIndex(size, thickness, gap, i)
  {
    var x := 0;
    while x < size
      invariant 0 <= x <= size && row + size <= data.Length
      invariant forall i :: 0 <= i < row + x ==> data[i] == PixelOfIndex(size, thickness, gap, i)
    {
      var index := y * size + x;
      PixelIndex(size, x, y);
      assert PixelOfIndex(size, thickness, gap, index) == PixelColor(size, thickness, gap, x, y);
      data[index] := PixelColor(size, thickness, gap, x, y);
      x := x + 1;
    }
  }

  /** Read by coordinates: pixel (x, y) of a filled texture is white exactly on
      the arms of the crosshair. */
  lemma CrosshairPixel(size: int, thickness: int, gap: int, data: seq<Color>, x: int, y: int)
    requires |data| == size * size
    requires size > 0
    requires forall i :: 0 <= i < |data| ==> data[i] == PixelOfIndex(size, thickness, gap, i)
    requires 0 <= x < size && 0 <= y < size
    ensures 0 <= y * size + x < |data|
    ensures data[y * size + x] == White <==> OnCrosshair(size, thickness, gap, x, y)
    ensures data[y * size + x] != White ==> data[y * size + x] == Transparent
  {
    PixelIndex(size, x, y);
  }

  /** The cross is symmetric about the diagonal, and its centre is clear when
      the gap is not negative. */
  lemma CrosshairShape(size: int, thickness: int, gap: int, x: int, y: int)
    ensures OnCrosshair(size, thickness, gap, x, y) == OnCrosshair(size, thickness, gap, y, x)
    ensures gap >= 0 ==> !OnCrosshair(size, thickness, gap, size / 2, size / 2)
  {
  }
}
