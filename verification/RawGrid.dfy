/** Images as grids of pixel values, and bad-pixel interpolation over a grid. */
module RawGrid {
  import opened RawBits
  import opened RawFormat
  import opened RawPixels
  import opened RawValues

  /** Rows of pixel values. */
  type Grid = seq<seq<int>>

  predicate IsGrid(g: Grid, width: nat, height: nat) {
    |g| == height && forall y :: 0 <= y < height ==> |g[y]| == width
  }

  /** The pixel values of an image. */
  function Pixels(f: Format, s: seq<bv8>, rowBytes: nat, width: nat, height: nat): (g: Grid)
    requires Fits(f, |s|, width, height, rowBytes)
    ensures IsGrid(g, width, height)
  {
    seq(height, y requires 0 <= y < height =>
      seq(width, x requires 0 <= x < width =>
        (RowsInside(f, |s|, width, height, rowBytes, x, y); ValueOf(GetPixel(f, s, y * rowBytes, x)))))
  }

  /** An image of one value. */
  function Uniform(width: nat, height: nat, v: int): (g: Grid)
    ensures IsGrid(g, width, height)
  {
    seq(height, _ => seq(width, _ => v))
  }

  function Assign(g: Grid, x: nat, y: nat, v: int): (r: Grid)
    requires y < |g| && x < |g[y]|
  {
    g[y := g[y][x := v]]
  }

  /** The grid after the layout's setter was called on one pixel. */
  function Store(f: Format, g: Grid, x: nat, y: nat, v: int): (r: Grid)
    requires y < |g| && x < |g[y]|
  {
    if StoreTakes(f, x) then Assign(g, x, y, v) else g
  }

  lemma SameGrid(a: Grid, b: Grid, width: nat, height: nat)
    requires IsGrid(a, width, height) && IsGrid(b, width, height)
    requires forall x, y :: 0 <= x < width && 0 <= y < height ==> a[y][x] == b[y][x]
    ensures a == b
  {
    forall y | 0 <= y < height
      ensures a[y] == b[y]
    {
      assert forall x :: 0 <= x < width ==> a[y][x] == b[y][x];
    }
  }

  lemma PixelAt(f: Format, s: seq<bv8>, width: nat, height: nat, rowBytes: nat, x: nat, y: nat, row: nat)
    requires Fits(f, |s|, width, height, rowBytes) && x < width && y < height && row == y * rowBytes
    ensures InBlock(f, |s|, row, x) && Pixels(f, s, rowBytes, width, height)[y][x] == ValueOf(GetPixel(f, s, row, x))
  {
    hide GetPixel, InBlock, ValueOf, Fits;
    RowsInside(f, |s|, width, height, rowBytes, x, y);
  }

  lemma PixelAfterSet(f: Format, s: seq<bv8>, t: seq<bv8>, width: nat, height: nat, rowBytes: nat,
                      x: nat, y: nat, row: nat, v: nat, x': nat, y': nat)
    requires Fits(f, |s|, width, height, rowBytes) && x < width && y < height && v < Cap(f) && x' < width && y' < height
    requires row == y * rowBytes && |t| == |s| && StoreTakes(f, x) && SetOutcome(f, s, t, row, x, WordOf(v))
    ensures Pixels(f, t, rowBytes, width, height)[y'][x']
            == if x' == x && y' == y then v else Pixels(f, s, rowBytes, width, height)[y'][x']
  {
    hide GetPixel, SetOutcome, InBlock, Limit, ValueOf, WordOf, Cap, Fits, Pixels, StoreTakes;
    WordInRange(f, v);
    PixelAt(f, s, width, height, rowBytes, x', y', y' * rowBytes);
    PixelAt(f, t, width, height, rowBytes, x', y', y' * rowBytes);
    GetAfterSet(f, s, t, width, height, rowBytes, x, y, WordOf(v), x', y', row, y' * rowBytes);
  }

  /** A store changes exactly one value of the grid, in spite of the bytes that pixels share. */
  lemma PixelsAfterSet(f: Format, s: seq<bv8>, t: seq<bv8>, width: nat, height: nat, rowBytes: nat, x: nat, y: nat,
                       row: nat, v: nat)
    requires Fits(f, |s|, width, height, rowBytes) && x < width && y < height && (v < Cap(f) || !StoreTakes(f, x))
    requires row == y * rowBytes && |t| == |s| && SetOutcome(f, s, t, row, x, WordOf(v))
    ensures Pixels(f, t, rowBytes, width, height) == Store(f, Pixels(f, s, rowBytes, width, height), x, y, v)
  {
    hide WrotePixel, WordOf, Cap, Fits, Pixels;
    if StoreTakes(f, x) {
      var a, b := Pixels(f, t, rowBytes, width, height), Assign(Pixels(f, s, rowBytes, width, height), x, y, v);
      forall x', y' | 0 <= x' < width && 0 <= y' < height
        ensures a[y'][x'] == b[y'][x']
      {
        PixelAfterSet(f, s, t, width, height, rowBytes, x, y, row, v, x', y');
      }
      SameGrid(a, b, width, height);
    }
  }

  lemma PixelBelowLimit(f: Format, s: seq<bv8>, row: nat, x: nat)
    requires InBlock(f, |s|, row, x) && Aligned(f, row)
    ensures GetPixel(f, s, row, x) < Limit(f)
  {
    hide GetPixel, Shows, InBlock, Limit;
    GetIsPixel(f, s, row, x);
  }

  /** Every pixel value is in the layout's range. */
  lemma PixelsInRange(f: Format, s: seq<bv8>, width: nat, height: nat, rowBytes: nat, x: nat, y: nat)
    requires Fits(f, |s|, width, height, rowBytes) && x < width && y < height
    ensures Pixels(f, s, rowBytes, width, height)[y][x] < Cap(f) <= 0x10000
  {
    hide IsPixel, GetPixel, InBlock, Limit, ValueOf, Cap, Fits, Aligned;
    RowsInside(f, |s|, width, height, rowBytes, x, y);
    PixelBelowLimit(f, s, y * rowBytes, x);
    ValueInRange(f, GetPixel(f, s, y * rowBytes, x));
  }
}
