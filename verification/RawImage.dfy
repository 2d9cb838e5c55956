/** Images over a shared byte buffer (rawimg.c: raw_image_t and its Lua methods). */
module RawImage {
  import opened Arithmetic
  import opened Words
  import opened RawBits
  import opened RawFormat
  import opened RawPixels
  import opened RawValues
  import opened RawGrid
  import opened RawPatch

  // Conversion between layouts

  /** The shift that convert applies: positive to the right, negative to the left. */
  function ShiftFor(from: Format, to: Format, upShift: bool, downShift: bool): int {
    if Bpp(from) > Bpp(to) then (if downShift then Bpp(from) - Bpp(to) else 0)
    else (if upShift then Bpp(from) - Bpp(to) else 0)
  }

  function Shifted(v: int, shift: int): int {
    if shift < 0 then v * Pow2(-shift) else v / Pow2(shift)
  }

  /** The pixel that convert leaves at (x, y): the shifted source pixel, unless the target's setter skips x. */
  function ConvertedPixel(src: Grid, was: Grid, to: Format, shift: int, x: nat, y: nat): int
    requires y < |src| && x < |src[y]| && y < |was| && x < |was[y]|
  {
    if StoreTakes(to, x) then Shifted(src[y][x], shift) else was[y][x]
  }

  /** Every shifted value that is stored fits the target layout, which the setters rely on. */
  predicate AllFit(src: Grid, to: Format, shift: int)
  {
    forall y, x :: 0 <= y < |src| && 0 <= x < |src[y]| && StoreTakes(to, x) ==> 0 <= Shifted(src[y][x], shift) < Cap(to)
  }

  /** dst is src converted, with the pixels before (x, y) in raster order done and the others as they were. */
  ghost predicate ConvertedTo(src: Grid, was: Grid, dst: Grid, to: Format, shift: int, width: nat, height: nat, x: nat,
                              y: nat)
    requires IsGrid(src, width, height) && IsGrid(was, width, height) && IsGrid(dst, width, height)
  {
    forall a, b :: 0 <= a < width && 0 <= b < height ==>
      dst[b][a] == if b < y || (b == y && a < x) then ConvertedPixel(src, was, to, shift, a, b) else was[b][a]
  }

  lemma PowSum(a: nat, b: nat)
    ensures Pow2(a + b) == Pow2(a) * Pow2(b)
  {
    if a > 0 {
      PowSum(a - 1, b);
      assert Pow2(a + b) == 2 * (Pow2(a - 1) * Pow2(b));
    }
  }

  lemma ScaleBelow(v: nat, m: nat, p: nat)
    requires v < m && p > 0
    ensures 0 <= v * p < m * p
  {
    assert (m - v) * p > 0;
  }

  lemma TimesSign(k: int, p: nat)
    requires p > 0
    ensures k >= 1 ==> k * p >= p
    ensures k <= -1 ==> k * p + p <= 0
  {
    if k >= 1 { assert (k - 1) * p >= 0; }
    if k <= -1 { assert (-k - 1) * p >= 0; }
  }

  lemma ScaleBack(v: nat, p: nat)
    requires p > 0
    ensures v * p / p == v
  {
    var q := v * p / p;
    assert (v - q) * p == v * p % p;
    TimesSign(v - q, p);
  }

  /** A left shift keeps the value in the wider layout's range and the matching right shift undoes it. */
  lemma ShiftBack(v: nat, d: int, n: nat)
    requires v < Pow2(n) && d >= 0
    ensures 0 <= Shifted(v, -d) < Pow2(n + d)
    ensures Shifted(Shifted(v, -d), d) == v
  {
    hide Pow2;
    assert Pow2(0) == 1 by { PowZero(); }
    PowSum(n, d);
    ScaleBelow(v, Pow2(n), Pow2(d));
    ScaleBack(v, Pow2(d));
  }

  lemma PowZero()
    ensures Pow2(0) == 1
  {
  }

  lemma UpFitsOne(v: int, from: Format, to: Format, shift: int)
    requires Bpp(from) <= Bpp(to) && 0 <= v < Cap(from) && (shift == 0 || shift == Bpp(from) - Bpp(to))
    ensures 0 <= Shifted(v, shift) < Cap(to)
  {
    hide Shifted, Bpp, Pow2;
    ShiftBack(v, -shift, Bpp(from));
    if Bpp(from) - shift < Bpp(to) { PowBelow(Bpp(from) - shift, Bpp(to)); }
  }

  /** Shifting up into a wider layout fits. */
  lemma UpFits(src: Grid, from: Format, to: Format, width: nat, height: nat, upShift: bool, downShift: bool)
    requires IsGrid(src, width, height) && Bpp(from) <= Bpp(to)
    requires forall x, y :: 0 <= x < width && 0 <= y < height ==> 0 <= src[y][x] < Cap(from)
    ensures AllFit(src, to, ShiftFor(from, to, upShift, downShift))
  {
    hide Shifted, Bpp, Cap;
    forall y, x | 0 <= y < height && 0 <= x < width
      ensures 0 <= Shifted(src[y][x], ShiftFor(from, to, upShift, downShift)) < Cap(to)
    {
      UpFitsOne(src[y][x], from, to, ShiftFor(from, to, upShift, downShift));
    }
  }

  lemma Floors(v: nat, m: nat)
    requires m > 0
    ensures v / m * m <= v < (v / m + 1) * m
  {
    assert v == m * (v / m) + v % m;
    TimesStep(v / m + 1, m);
  }

  /**
   What the flags mean for a value, whatever the other flag says. With downShift a conversion to fewer
   bits keeps the highest bits of the value; with upShift one to as many or more puts the value at the
   top of its new field; without the flag that applies the value stays.
   */
  lemma ShiftMeans(from: Format, to: Format, v: nat, other: bool)
    ensures Bpp(from) > Bpp(to) ==>
              && (var d, t := Bpp(from) - Bpp(to), Shifted(v, ShiftFor(from, to, other, true));
                  t * Pow2(d) <= v < (t + 1) * Pow2(d))
              && Shifted(v, ShiftFor(from, to, other, false)) == v
    ensures Bpp(from) <= Bpp(to) ==>
              && Shifted(v, ShiftFor(from, to, true, other)) == v * Pow2(Bpp(to) - Bpp(from))
              && Shifted(v, ShiftFor(from, to, false, other)) == v
  {
    hide Bpp, Pow2;
    PowZero();
    if Bpp(from) > Bpp(to) { Floors(v, Pow2(Bpp(from) - Bpp(to))); }
  }

  lemma QuotientBelow(v: nat, m: nat, k: nat)
    requires m > 0 && v < k * m
    ensures v / m < k
  {
    Floors(v, m);
    if v / m >= k { TimesGrows(k, v / m, m); }
  }

  lemma NarrowBelow(v: nat, d: nat, n: nat)
    requires v < Pow2(n + d)
    ensures 0 <= Shifted(v, d) < Pow2(n)
  {
    hide Pow2;
    PowSum(n, d);
    QuotientBelow(v, Pow2(d), Pow2(n));
  }

  /** Shifting down into fewer bits always fits. */
  lemma NarrowFits(src: Grid, from: Format, to: Format, width: nat, height: nat, upShift: bool)
    requires IsGrid(src, width, height) && Bpp(from) > Bpp(to)
    requires forall x, y :: 0 <= x < width && 0 <= y < height ==> 0 <= src[y][x] < Cap(from)
    ensures AllFit(src, to, ShiftFor(from, to, upShift, true))
  {
    hide Shifted, Bpp, Pow2;
    var d := Bpp(from) - Bpp(to);
    forall y, x | 0 <= y < height && 0 <= x < width
      ensures 0 <= Shifted(src[y][x], ShiftFor(from, to, upShift, true)) < Cap(to)
    {
      NarrowBelow(src[y][x], d, Bpp(to));
    }
  }

  /**
   Converting to a wider layout and back, with the same choice of shifting both times, restores
   every pixel for every content of the two target buffers exactly when the setters of both layouts
   write every column: always, except that the 14b layout must have no column with x % 8 in 4..7.
   */
  lemma UpAndDown(from: Format, to: Format, shifting: bool, width: nat, height: nat)
    requires Bpp(from) <= Bpp(to) && width > 0 && height > 0
    ensures (forall g0: Grid, was1: Grid, g1: Grid, was2: Grid, g2: Grid ::
               UpDownRun(from, to, shifting, width, height, g0, was1, g1, was2, g2) ==> g2 == g0)
            <==> forall x :: 0 <= x < width ==> StoreTakes(to, x) && StoreTakes(from, x)
  {
    hide Twice;
    if x :| 0 <= x < width && !(StoreTakes(to, x) && StoreTakes(from, x)) {
      var g0, was1, g1, was2, g2 := UpDownFails(from, to, shifting, width, height, x);
    } else {
      forall g0: Grid, was1: Grid, g1: Grid, was2: Grid, g2: Grid
        | UpDownRun(from, to, shifting, width, height, g0, was1, g1, was2, g2)
        ensures g2 == g0
      {
        UpDownRestores(from, to, shifting, width, height, g0, was1, g1, was2, g2);
      }
    }
  }

  /** Two conversions: g0 in layout from, g1 its conversion to layout to, g2 the conversion of that back. */
  ghost predicate Twice(from: Format, to: Format, shifting: bool, width: nat, height: nat,
                        g0: Grid, was1: Grid, g1: Grid, was2: Grid, g2: Grid)
  {
    && IsGrid(g0, width, height) && IsGrid(was1, width, height) && IsGrid(g1, width, height)
    && IsGrid(was2, width, height) && IsGrid(g2, width, height)
    && (forall x, y :: 0 <= x < width && 0 <= y < height ==> 0 <= g0[y][x] < Cap(from))
    && ConvertedTo(g0, was1, g1, to, ShiftFor(from, to, shifting, shifting), width, height, 0, height)
    && ConvertedTo(g1, was2, g2, from, ShiftFor(to, from, shifting, shifting), width, height, 0, height)
  }

  /** A run of two conversions, the first of them into a buffer that held pixels of its layout. */
  ghost predicate UpDownRun(from: Format, to: Format, shifting: bool, width: nat, height: nat,
                            g0: Grid, was1: Grid, g1: Grid, was2: Grid, g2: Grid)
  {
    && Twice(from, to, shifting, width, height, g0, was1, g1, was2, g2)
    && (forall x, y :: 0 <= x < width && 0 <= y < height ==> 0 <= was1[y][x] < Cap(to))
  }

  lemma ConvertedAt(src: Grid, was: Grid, dst: Grid, to: Format, shift: int, width: nat, height: nat, x: nat, y: nat)
    requires IsGrid(src, width, height) && IsGrid(was, width, height) && IsGrid(dst, width, height) && x < width
             && y < height
    requires ConvertedTo(src, was, dst, to, shift, width, height, 0, height) && StoreTakes(to, x)
    ensures dst[y][x] == Shifted(src[y][x], shift)
  {
    hide Shifted, StoreTakes;
  }

  lemma UpDownRestores(from: Format, to: Format, shifting: bool, width: nat, height: nat, g0: Grid, was1: Grid,
                       g1: Grid, was2: Grid, g2: Grid)
    requires Bpp(from) <= Bpp(to) && Twice(from, to, shifting, width, height, g0, was1, g1, was2, g2)
    requires forall x :: 0 <= x < width ==> StoreTakes(to, x) && StoreTakes(from, x)
    ensures g2 == g0
  {
    hide Shifted, Bpp, StoreTakes, ConvertedTo, Pow2;
    var d := Bpp(to) - Bpp(from);
    forall x, y | 0 <= x < width && 0 <= y < height
      ensures g2[y][x] == g0[y][x]
    {
      ShiftBack(g0[y][x], d, Bpp(from));
      ShiftBack(g0[y][x], 0, Bpp(from));
      ConvertedAt(g0, was1, g1, to, ShiftFor(from, to, shifting, shifting), width, height, x, y);
      ConvertedAt(g1, was2, g2, from, ShiftFor(to, from, shifting, shifting), width, height, x, y);
    }
    SameGrid(g2, g0, width, height);
  }

  /** What has been converted upwards from an image in range fits when it is converted back. */
  lemma BackFits(from: Format, to: Format, shifting: bool, width: nat, height: nat, g0: Grid, was1: Grid, g1: Grid)
    requires Bpp(from) <= Bpp(to) && IsGrid(g0, width, height) && IsGrid(was1, width, height)
    requires IsGrid(g1, width, height)
    requires forall x, y :: 0 <= x < width && 0 <= y < height ==> 0 <= g0[y][x] < Cap(from)
    requires forall x :: 0 <= x < width && StoreTakes(from, x) ==> StoreTakes(to, x)
    requires ConvertedTo(g0, was1, g1, to, ShiftFor(from, to, shifting, shifting), width, height, 0, height)
    ensures AllFit(g1, from, ShiftFor(to, from, shifting, shifting))
  {
    hide Shifted, Bpp, StoreTakes, ConvertedTo, Pow2;
    var d := Bpp(to) - Bpp(from);
    forall y, x | 0 <= y < height && 0 <= x < width && StoreTakes(from, x)
      ensures 0 <= Shifted(g1[y][x], ShiftFor(to, from, shifting, shifting)) < Cap(from)
    {
      ConvertedAt(g0, was1, g1, to, ShiftFor(from, to, shifting, shifting), width, height, x, y);
      ShiftBack(g0[y][x], d, Bpp(from));
      ShiftBack(g0[y][x], 0, Bpp(from));
    }
  }

  function ConvertedGrid(src: Grid, was: Grid, to: Format, shift: int, width: nat, height: nat): (g: Grid)
    requires IsGrid(src, width, height) && IsGrid(was, width, height)
    ensures IsGrid(g, width, height) && ConvertedTo(src, was, g, to, shift, width, height, 0, height)
  {
    seq(height, y requires 0 <= y < height =>
      seq(width, x requires 0 <= x < width => ConvertedPixel(src, was, to, shift, x, y)))
  }

  lemma PowBelow(a: nat, b: nat)
    requires a < b
    ensures Pow2(a) < Pow2(b)
  {
    PowSum(a, b - a);
    ScaleBelow(1, Pow2(b - a), Pow2(a));
  }

  lemma ShiftedEnds(up: int, down: nat)
    ensures Shifted(0, up) == 0 && Shifted(Pow2(down), down) == 1
  {
    hide Pow2;
    if up < 0 { assert 0 * Pow2(-up) == 0; } else { DivModIs(0, Pow2(up), 0, 0); }
    DivModIs(Pow2(down), Pow2(down), 1, 0);
  }

  lemma UpDownFails(from: Format, to: Format, shifting: bool, width: nat, height: nat, x: nat)
    returns (g0: Grid, was1: Grid, g1: Grid, was2: Grid, g2: Grid)
    requires Bpp(from) <= Bpp(to) && x < width && height > 0 && !(StoreTakes(to, x) && StoreTakes(from, x))
    ensures UpDownRun(from, to, shifting, width, height, g0, was1, g1, was2, g2) && g2 != g0
  {
    hide Bpp, StoreTakes, Pow2, ConvertedTo, Shifted, UpDownRun, Uniform, ConvertedGrid;
    var up, down := ShiftFor(from, to, shifting, shifting), ShiftFor(to, from, shifting, shifting);
    PowBelow(down, Bpp(to));
    PowZero();
    ShiftedEnds(up, down);
    g0, was1, was2 := Uniform(width, height, 0), Uniform(width, height, Pow2(down)), Uniform(width, height, 1);
    g1 := ConvertedGrid(g0, was1, to, up, width, height);
    g2 := ConvertedGrid(g1, was2, from, down, width, height);
    UniformRun(from, to, shifting, width, height, Pow2(down), g0, was1, g1, was2, g2);
    UniformAt(width, height, 0, x);
    UniformAt(width, height, Pow2(down), x);
    UniformAt(width, height, 1, x);
    ConvertedCell(g0, was1, to, up, width, height, x);
    ConvertedCell(g1, was2, from, down, width, height, x);
    assert g2[0][x] == 1 && g0[0][x] == 0;
  }

  lemma UniformAt(width: nat, height: nat, v: int, x: nat)
    requires x < width && height > 0
    ensures Uniform(width, height, v)[0][x] == v
  {
  }

  lemma ConvertedCell(src: Grid, was: Grid, to: Format, shift: int, width: nat, height: nat, x: nat)
    requires IsGrid(src, width, height) && IsGrid(was, width, height) && x < width && height > 0
    ensures ConvertedGrid(src, was, to, shift, width, height)[0][x]
            == if StoreTakes(to, x) then Shifted(src[0][x], shift) else was[0][x]
  {
    hide Shifted, StoreTakes, ConvertedTo;
  }

  /** A run of two conversions of uniform images. */
  lemma UniformRun(from: Format, to: Format, shifting: bool, width: nat, height: nat, v: nat,
                   g0: Grid, was1: Grid, g1: Grid, was2: Grid, g2: Grid)
    requires g0 == Uniform(width, height, 0) && was1 == Uniform(width, height, v) && was2 == Uniform(width, height, 1)
             && v < Cap(to)
    requires g1 == ConvertedGrid(g0, was1, to, ShiftFor(from, to, shifting, shifting), width, height)
    requires g2 == ConvertedGrid(g1, was2, from, ShiftFor(to, from, shifting, shifting), width, height)
    ensures UpDownRun(from, to, shifting, width, height, g0, was1, g1, was2, g2)
  {
    hide Bpp, Pow2, ConvertedTo, Shifted, ConvertedGrid;
  }

  // Images

  class RawImage {
    const frame: Frame
    const rowBytes: nat
    const data: array<bv8>

    /** What bind_lbuf means to establish. */
    ghost predicate Valid() {
      && Fits(frame.fmt, data.Length, frame.width, frame.height, rowBytes)
      && Sane(frame)
    }

    constructor (frame: Frame, rowBytes: nat, data: array<bv8>)
      ensures this.frame == frame && this.rowBytes == rowBytes && this.data == data
    {
      this.frame, this.rowBytes, this.data := frame, rowBytes, data;
    }

    function Grid(): (g: Grid)
      requires Valid()
      reads data
      ensures IsGrid(g, frame.width, frame.height)
    {
      Pixels(frame.fmt, data[..], rowBytes, frame.width, frame.height)
    }

    method GetPixel(x: nat, y: nat) returns (v: nat)
      requires Valid() && x < frame.width && y < frame.height
      ensures v == Grid()[y][x] && v < Cap(frame.fmt)
    {
      hide RawFormat.GetPixel, ValueOf, Cap, Pixels, InBlock, Fits;
      PixelAt(frame.fmt, data[..], frame.width, frame.height, rowBytes, x, y, y * rowBytes);
      PixelsInRange(frame.fmt, data[..], frame.width, frame.height, rowBytes, x, y);
      v := ValueOf(RawFormat.GetPixel(frame.fmt, data[..], y * rowBytes, x));
    }

    method SetPixel(x: nat, y: nat, v: nat)
      requires Valid() && x < frame.width && y < frame.height
      modifies data
      ensures v < Cap(frame.fmt) || !StoreTakes(frame.fmt, x) ==> Grid() == Store(frame.fmt, old(Grid()), x, y, v)
    {
      hide WrotePixel, WordOf, Cap, Store, Pixels, StoreTakes, Limit, Swaps, Fits, InBlock, Aligned, Bpp;
      RowsInside(frame.fmt, data.Length, frame.width, frame.height, rowBytes, x, y);
      ghost var s := data[..];
      RawFormat.SetPixel(frame.fmt, data, y * rowBytes, x, WordOf(v));
      if v < Cap(frame.fmt) {
        WordInRange(frame.fmt, v);
      }
      if v < Cap(frame.fmt) || !StoreTakes(frame.fmt, x) {
        PixelsAfterSet(frame.fmt, s, data[..], frame.width, frame.height, rowBytes, x, y, y * rowBytes, v);
      }
    }

    /** rawimg_get_pixel_safe */
    method GetPixelSafe(x: nat, y: nat) returns (v: nat)
      requires Valid()
      ensures v == PixelSafe(frame, Grid(), x, y)
    {
      if x >= frame.width || y >= frame.height {
        return 0;
      }
      v := GetPixel(x, y);
    }

    /** The four neighbours of a pixel, as rawimg_patch_pixel collects them. */
    method ReadNeighbours(x: nat, y: nat) returns (neigh: array<nat>)
      requires Valid() && x < frame.width && y < frame.height
      ensures fresh(neigh) && neigh[..] == Neighbours(frame, Grid(), x, y)
    {
      hide Pixels, Fits;
      neigh := new nat[4];
      if CfaColor(frame, x, y) == CFA_GREEN {
        neigh[0] := GetPixelSafe(U32(x - 1), U32(y - 1));
        neigh[1] := GetPixelSafe(U32(x + 1), U32(y - 1));
        neigh[2] := GetPixelSafe(U32(x - 1), U32(y + 1));
        neigh[3] := GetPixelSafe(U32(x + 1), U32(y + 1));
      } else {
        neigh[0] := GetPixelSafe(U32(x - 2), U32(y));
        neigh[1] := GetPixelSafe(U32(x + 2), U32(y));
        neigh[2] := GetPixelSafe(U32(x), U32(y - 2));
        neigh[3] := GetPixelSafe(U32(x), U32(y + 2));
      }
    }

    /** rawimg_patch_pixel: the pixel takes the mean of its contributing neighbours, if there are any. */
    method PatchPixel(x: nat, y: nat) returns (patched: nat)
      requires Valid() && x < frame.width && y < frame.height
      modifies data
      ensures match PatchValue(frame, old(Grid()), x, y)
              case None => patched == 0 && Grid() == old(Grid())
              case Some(v) => patched == 1 && Grid() == Store(frame.fmt, old(Grid()), x, y, v)
      ensures Small(frame) ==> Mean(frame, old(Grid()), x, y, PatchValue(frame, old(Grid()), x, y))
    {
      hide Cap, Store, Pixels, Neighbours, Fits, Mean;
      if Small(frame) { PatchIsMean(frame, Grid(), x, y); }
      var neigh := ReadNeighbours(x, y);
      var i, total, count := 0, 0, 0;
      while i < 4
        invariant 0 <= i <= 4
        invariant TallyOf(neigh[..][..i], frame.black) == Tally(total, count)
      {
        assert neigh[..][..i + 1][..i] == neigh[..][..i];
        if neigh[i] > frame.black {
          total := total + neigh[i];
          count := count + 1;
        }
        i := i + 1;
      }
      assert neigh[..][..4] == neigh[..];
      if count != 0 {
        InRange();
        PatchInRange(frame, Grid(), x, y, Cap(frame.fmt));
        SetPixel(x, y, total / count);
        return 1;
      }
      return 0;
    }

    lemma InRange()
      requires Valid()
      ensures Cap(frame.fmt) > 0
      ensures forall a, b :: 0 <= a < frame.width && 0 <= b < frame.height ==> 0 <= Grid()[b][a] < Cap(frame.fmt)
    {
      forall a, b | 0 <= a < frame.width && 0 <= b < frame.height
        ensures 0 <= Grid()[b][a] < Cap(frame.fmt)
      {
        PixelsInRange(frame.fmt, data[..], frame.width, frame.height, rowBytes, a, b);
      }
    }

    /** One step of the scan. */
    method PatchNext(x: nat, y: nat, badval: nat) returns (k: nat)
      requires Valid() && frame.left <= x < frame.right && y < frame.bottom
      modifies data
      ensures var r, rest := PatchFrom(frame, badval, old(Grid()), x, y), PatchFrom(frame, badval, Grid(), x + 1, y);
              r.grid == rest.grid && |r.patched| == k + |rest.patched|
    {
      hide PatchValue, Store, Pixels, Fits;
      k := 0;
      var val := GetPixel(x, y);
      if val <= badval {
        k := PatchPixel(x, y);
        ScanKeepsPassed(frame, badval, Grid(), x + 1, y, x, y);
      }
    }

    /** img:patch_pixels(badval): the in-place scan of the active area. */
    method PatchPixels(badval: nat) returns (count: nat)
      requires Valid()
      modifies data
      ensures var r := PatchFrom(frame, badval, old(Grid()), frame.left, frame.top);
              Grid() == r.grid && count == |r.patched|
    {
      hide PatchFrom, Fits;
      ghost var r := PatchFrom(frame, badval, Grid(), frame.left, frame.top);
      count := 0;
      var y := frame.top;
      while y < frame.bottom
        invariant frame.top <= y <= frame.bottom
        invariant var rest := PatchFrom(frame, badval, Grid(), frame.left, y);
                  rest.grid == r.grid && count + |rest.patched| == |r.patched|
      {
        var x := frame.left;
        while x < frame.right
          invariant frame.left <= x <= frame.right
          invariant var rest := PatchFrom(frame, badval, Grid(), x, y);
                    rest.grid == r.grid && count + |rest.patched| == |r.patched|
        {
          var k := PatchNext(x, y, badval);
          count := count + k;
          x := x + 1;
        }
        ScanRowEnds(frame, badval, Grid(), y);
        y := y + 1;
      }
      ScanRowEnds(frame, badval, Grid(), y);
    }

    /**
     img:convert: every pixel is read, shifted and stored in a second buffer. A buffer of the wrong
     size is refused. That the width is whole blocks of the target layout is left to the caller. The
     black level is shifted as well; for a shift to the left, C does not say what it becomes.
     */
    method Convert(to: Format, upShift: bool, downShift: bool, lb: array<bv8>) returns (img: RawImage?)
      requires Valid() && lb != data && frame.width % BlockPixels(to) == 0
      modifies lb
      ensures img == null <==> lb.Length != frame.width * frame.height * Bpp(to) / 8
      ensures img == null ==> lb[..] == old(lb[..])
      ensures Grid() == old(Grid())
      ensures img != null ==> fresh(img) && img.data == lb && img.Valid()
                              && img.frame == frame.(fmt := to, black := img.frame.black)
      ensures var shift := ShiftFor(frame.fmt, to, upShift, downShift);
              img != null && shift >= 0 ==> img.frame.black == Shifted(frame.black, shift)
      ensures img != null && AllFit(Grid(), to, ShiftFor(frame.fmt, to, upShift, downShift)) ==>
                IsGrid(old(GridOf(to, lb)), frame.width, frame.height) &&
                ConvertedTo(Grid(), old(GridOf(to, lb)), img.Grid(), to, ShiftFor(frame.fmt, to, upShift, downShift),
                            frame.width, frame.height, 0, frame.height)
    {
      hide Pixels, RawFormat.GetPixel, WrotePixel, Cap, ConvertedTo, AllFit, Fits, PixelSafe;
      var shift := ShiftFor(frame.fmt, to, upShift, downShift);
      var w, h := frame.width, frame.height;
      var row := w * Bpp(to) / 8;
      if lb.Length != w * h * Bpp(to) / 8 {
        return null;
      }
      TargetFits(to, w, h, row, lb.Length);
      var black :| black >= 0;
      if shift >= 0 {
        ShiftedNonNegative(frame.black, shift);
        black := Shifted(frame.black, shift);
      }
      img := new RawImage(frame.(fmt := to, black := black), row, lb);
      ghost var src, was := Grid(), img.Grid();
      assert ConvertedTo(src, was, was, to, shift, w, h, 0, 0) by { NothingConverted(src, was, to, shift, w, h); }
      var y := 0;
      while y < h
        invariant 0 <= y <= h && data[..] == old(data[..])
        invariant AllFit(src, to, shift) ==> ConvertedTo(src, was, img.Grid(), to, shift, w, h, 0, y)
      {
        var x := 0;
        while x < w
          invariant 0 <= x <= w && data[..] == old(data[..])
          invariant AllFit(src, to, shift) ==> ConvertedTo(src, was, img.Grid(), to, shift, w, h, x, y)
        {
          var v := GetPixel(x, y);
          ghost var before := img.Grid();
          var u := Shifted(v, shift);
          ShiftedNonNegative(v, shift);
          img.SetPixel(x, y, u);
          if AllFit(src, to, shift) {
            if StoreTakes(to, x) { FitsHere(src, to, shift, x, y); }
            ConvertStep(src, was, before, to, shift, w, h, x, y);
          }
          x := x + 1;
        }
        if AllFit(src, to, shift) { ConvertRow(src, was, img.Grid(), to, shift, w, h, y); }
        y := y + 1;
      }
    }

    /**
     Two calls of convert, to a layout at least as wide and back, with the same choice of shifting. If
     the setters of both layouts take every column, the pixels come back, whatever the two buffers held;
     the second one may be that of the image itself. The frame comes back too if nothing is shifted.
     */
    method ThereAndBack(to: Format, shifting: bool, mid: array<bv8>, last: array<bv8>) returns (back: RawImage?)
      requires Valid() && Bpp(frame.fmt) <= Bpp(to) && frame.width % BlockPixels(to) == 0
      requires mid != data && mid != last
      modifies mid, last
      ensures back != null <==> mid.Length == frame.width * frame.height * Bpp(to) / 8
                                && last.Length == frame.width * frame.height * Bpp(frame.fmt) / 8
      ensures back != null ==> back.data == last && back.Valid() && back.frame == frame.(black := back.frame.black)
      ensures back != null && ShiftFor(frame.fmt, to, shifting, shifting) == 0 ==> back.frame == frame
      ensures back != null && (forall x :: 0 <= x < frame.width ==> StoreTakes(to, x) && StoreTakes(frame.fmt, x)) ==>
                back.Grid() == old(Grid())
    {
      hide Pixels, Fits, Bpp, BlockPixels, BlockBytes, StoreTakes, AllFit, ConvertedTo, Shifted, Cap, Pow2;
      var from := frame.fmt;
      ghost var w, h, g0, was1 := frame.width, frame.height, Grid(), GridOf(to, mid);
      ghost var up, down := ShiftFor(from, to, shifting, shifting), ShiftFor(to, from, shifting, shifting);
      UnshiftedTwice(frame.black);
      InRange();
      UpFits(g0, from, to, w, h, shifting, shifting);
      FitsWidth(from, data.Length, w, h, rowBytes);
      var img := Convert(to, shifting, shifting, mid);
      if img == null {
        return null;
      }
      ghost var g1, was2 := img.Grid(), img.GridOf(from, last);
      img.InRange();
      back := img.Convert(from, shifting, shifting, last);
      if back != null && forall x :: 0 <= x < w ==> StoreTakes(to, x) && StoreTakes(from, x) {
        BackFits(from, to, shifting, w, h, g0, was1, g1);
        UpDownRestores(from, to, shifting, w, h, g0, was1, g1, was2, back.Grid());
      }
    }

    /** The pixels that the target buffer holds before the conversion, read in the target layout. */
    ghost function GridOf(to: Format, lb: array<bv8>): Grid
      requires Valid()
      reads lb
    {
      var row := frame.width * Bpp(to) / 8;
      if Fits(to, lb.Length, frame.width, frame.height, row) then Pixels(to, lb[..], row, frame.width, frame.height)
      else []
    }
  }

  lemma UnshiftedTwice(black: int)
    ensures Shifted(Shifted(black, 0), 0) == black
  {
  }

  lemma FitsWidth(f: Format, len: nat, width: nat, height: nat, rowBytes: nat)
    requires Fits(f, len, width, height, rowBytes)
    ensures width % BlockPixels(f) == 0
  {
  }

  lemma TargetFits(to: Format, w: nat, h: nat, row: nat, len: nat)
    requires w % BlockPixels(to) == 0 && row == w * Bpp(to) / 8 && len == w * h * Bpp(to) / 8
    ensures Fits(to, len, w, h, row)
  {
    hide Bpp, BlockPixels, BlockBytes;
    var k := w / BlockPixels(to);
    WholeQuotient(w, BlockPixels(to));
    BlockWidth(to, k, w);
    Eighth(w * Bpp(to), k * BlockBytes(to));
    TimesSwap(w, h, Bpp(to), row);
    Eighth(w * h * Bpp(to), h * row);
  }

  lemma Eighth(a: nat, r: nat)
    requires a == 8 * r
    ensures a / 8 == r
  {
  }

  lemma TimesSwap(w: nat, h: nat, n: nat, r: nat)
    requires w * n == 8 * r
    ensures w * h * n == 8 * (h * r)
  {
    assert w * h * n == w * n * h == 8 * r * h;
  }

  lemma BlockWidth(f: Format, k: nat, w: nat)
    requires w == k * BlockPixels(f)
    ensures w * Bpp(f) == 8 * (k * BlockBytes(f))
  {
    match f
    case F8l =>
    case F10l => assert w == 8 * k;
    case F10b => assert w == 4 * k;
    case F12l => assert w == 4 * k;
    case F12b => assert w == 2 * k;
    case F14l => assert w == 8 * k;
    case F14b => assert w == 4 * k;
    case F16l =>
    case F16b =>
  }

  lemma ShiftedNonNegative(v: nat, shift: int)
    ensures Shifted(v, shift) >= 0
  {
    hide Pow2;
    if shift < 0 { TimesSign(v, Pow2(-shift)); }
  }

  lemma NothingConverted(src: Grid, was: Grid, to: Format, shift: int, w: nat, h: nat)
    requires IsGrid(src, w, h) && IsGrid(was, w, h)
    ensures ConvertedTo(src, was, was, to, shift, w, h, 0, 0)
  {
  }

  lemma FitsHere(src: Grid, to: Format, shift: int, x: nat, y: nat)
    requires AllFit(src, to, shift) && y < |src| && x < |src[y]| && StoreTakes(to, x)
    ensures 0 <= Shifted(src[y][x], shift) < Cap(to)
  {
  }

  lemma ConvertStep(src: Grid, was: Grid, dst: Grid, to: Format, shift: int, w: nat, h: nat, x: nat, y: nat)
    requires IsGrid(src, w, h) && IsGrid(was, w, h) && IsGrid(dst, w, h) && x < w && y < h
    requires ConvertedTo(src, was, dst, to, shift, w, h, x, y)
    ensures ConvertedTo(src, was, Store(to, dst, x, y, Shifted(src[y][x], shift)), to, shift, w, h, x + 1, y)
  {
    hide Shifted;
  }

  lemma ConvertRow(src: Grid, was: Grid, dst: Grid, to: Format, shift: int, w: nat, h: nat, y: nat)
    requires IsGrid(src, w, h) && IsGrid(was, w, h) && IsGrid(dst, w, h)
    requires ConvertedTo(src, was, dst, to, shift, w, h, w, y)
    ensures ConvertedTo(src, was, dst, to, shift, w, h, 0, y + 1)
  {
    hide ConvertedPixel;
  }

  /**
   AllFit is needed as well: a conversion can only be right if every shifted value that is stored
   fits, because pixels of the target are always in its range.
   */
  lemma ConvertNeedsFit(src: Grid, was: Grid, dst: Grid, to: Format, shift: int, w: nat, h: nat)
    requires IsGrid(src, w, h) && IsGrid(was, w, h) && IsGrid(dst, w, h)
    requires forall x, y :: 0 <= x < w && 0 <= y < h ==> 0 <= dst[y][x] < Cap(to)
    requires ConvertedTo(src, was, dst, to, shift, w, h, 0, h)
    ensures AllFit(src, to, shift)
  {
    hide Shifted, Cap, StoreTakes;
    forall y, x | 0 <= y < h && 0 <= x < w && StoreTakes(to, x)
      ensures 0 <= Shifted(src[y][x], shift) < Cap(to)
    {
      assert dst[y][x] == ConvertedPixel(src, was, to, shift, x, y);
    }
  }

  // Binding an image to a buffer

  /** The arguments of rawimg.bind_lbuf; all numbers are unsigned 32-bit. */
  datatype ImageSpec = ImageSpec(bufLen: nat, offset: nat, width: nat, height: nat, bpp: nat, little: bool,
                                 black: nat, cfa: Option<seq<nat>>, active: Option<Area>)

  datatype Area = Area(top: nat, left: nat, bottom: nat, right: nat)

  datatype BindError =
    | BadCfa | TopBelowBottom | LeftPastRight | PastWidth | PastHeight | UnknownFormat | PartialBlock | TooLarge

  datatype Bound = Bound(frame: Frame, rowBytes: nat, offset: nat)

  datatype BindResult = Ok(image: Bound) | Err(error: BindError)

  /** rawimg_find_format: the byte order is ignored for 8 bits per pixel. */
  function FindFormat(bpp: nat, little: bool): Option<Format> {
    if bpp == 8 then Some(F8l)
    else if bpp == 10 then Some(if little then F10l else F10b)
    else if bpp == 12 then Some(if little then F12l else F12b)
    else if bpp == 14 then Some(if little then F14l else F14b)
    else if bpp == 16 then Some(if little then F16l else F16b)
    else None
  }

  function CheckArea(s: ImageSpec): Option<BindError> {
    match s.active
    case None => None
    case Some(a) =>
      if a.top >= a.bottom then Some(TopBelowBottom)
      else if a.left >= a.right then Some(LeftPastRight)
      else if a.left > s.width then Some(PastWidth) // the source tests the left edge here
      else if a.bottom > s.height then Some(PastHeight)
      else None
  }

  /** rawimg.bind_lbuf, with the unsigned arithmetic of its size check. */
  function BindLbuf(s: ImageSpec): BindResult {
    if s.cfa.Some? && |s.cfa.value| != 4 then Err(BadCfa)
    else if CheckArea(s).Some? then Err(CheckArea(s).value)
    else
      match FindFormat(s.bpp, s.little)
      case None => Err(UnknownFormat)
      case Some(f) =>
        var rowBytes := U32(s.width * s.bpp) / 8;
        if s.width % BlockPixels(f) != 0 then Err(PartialBlock)
        else if U32(s.offset + rowBytes * s.height) > s.bufLen then Err(TooLarge)
        else
          var a := if s.active.Some? then s.active.value else Area(0, 0, s.height, s.width);
          var cfa := if s.cfa.Some? then s.cfa.value else [0, 0, 0, 0];
          Ok(Bound(Frame(f, s.width, s.height, a.top, a.left, a.bottom, a.right, cfa, s.black), rowBytes, s.offset))
  }

  /** No size in the specification wraps around. */
  predicate NoWrap(s: ImageSpec) {
    s.width * s.bpp < U32_SIZE && s.offset + s.width * s.bpp / 8 * s.height < U32_SIZE
  }

  predicate ValidFrame(b: Bound, bufLen: nat) {
    && b.offset <= bufLen && Fits(b.frame.fmt, bufLen - b.offset, b.frame.width, b.frame.height, b.rowBytes)
    && Sane(b.frame)
  }

  lemma TimesCommutes(a: nat, b: nat)
    ensures a * b == b * a >= 0
  {
  }

  lemma BoundFits(f: Format, width: nat, height: nat, rowBytes: nat, offset: nat, bufLen: nat)
    requires width % BlockPixels(f) == 0 && rowBytes == width * Bpp(f) / 8
    requires offset + rowBytes * height <= bufLen
    ensures offset <= bufLen && Fits(f, bufLen - offset, width, height, rowBytes)
  {
    hide Bpp, BlockPixels, BlockBytes;
    var k := width / BlockPixels(f);
    WholeQuotient(width, BlockPixels(f));
    BlockWidth(f, k, width);
    Eighth(width * Bpp(f), k * BlockBytes(f));
    TimesCommutes(height, rowBytes);
  }

  /** The format found is the one with that depth, and that byte order unless it has one byte for a pixel. */
  lemma FoundFormat(bpp: nat, little: bool)
    ensures forall f :: FindFormat(bpp, little) == Some(f) <==> Bpp(f) == bpp && (bpp == 8 || Swaps(f) == little)
  {
  }

  /**
   What an accepted image is: of the size, layout, black level and colour pattern asked for, with the
   active area asked for, which is not empty, or all of it.
   */
  lemma BindTakes(s: ImageSpec)
    requires BindLbuf(s).Ok?
    ensures var p := BindLbuf(s).image.frame;
            && p.width == s.width && p.height == s.height && p.black == s.black
            && Bpp(p.fmt) == s.bpp && (s.bpp == 8 || Swaps(p.fmt) == s.little)
            && (if s.cfa.Some? then p.cfa == s.cfa.value else p.cfa == [0, 0, 0, 0])
            && (if s.active.None? then Area(p.top, p.left, p.bottom, p.right) == Area(0, 0, s.height, s.width)
                else Area(p.top, p.left, p.bottom, p.right) == s.active.value && p.top < p.bottom && p.left < p.right)
  {
    hide U32, BlockPixels, Bpp;
    FoundFormat(s.bpp, s.little);
  }

  /**
   What is refused, if the sizes do not wrap around: a colour pattern that has not four entries, an
   active area that is empty, or begins right of the image or ends below it, a depth that no
   layout has, a last block that is cut off, and a buffer that ends before the image.
   */
  lemma BindRefuses(s: ImageSpec)
    requires NoWrap(s)
    ensures BindLbuf(s).Err?
            <==> || (s.cfa.Some? && |s.cfa.value| != 4)
                 || (s.active.Some? && var a := s.active.value;
                       a.bottom <= a.top || a.right <= a.left || s.width < a.left || s.height < a.bottom)
                 || (forall f :: Bpp(f) == s.bpp && (s.bpp == 8 || Swaps(f) == s.little) ==>
                       s.width % BlockPixels(f) != 0)
                 || s.bufLen < s.offset + s.width * s.bpp / 8 * s.height
  {
    Small32(s.width * s.bpp);
    Small32(s.offset + s.width * s.bpp / 8 * s.height);
    FoundFormat(s.bpp, s.little);
    hide U32, BlockPixels, FindFormat;
  }

  lemma BoundFields(s: ImageSpec)
    requires BindLbuf(s).Ok? && NoWrap(s)
    ensures var b := BindLbuf(s).image;
            && b.frame.width == s.width && b.frame.height == s.height && b.offset == s.offset && |b.frame.cfa| == 4
            && s.width % BlockPixels(b.frame.fmt) == 0 && b.rowBytes == s.width * Bpp(b.frame.fmt) / 8
            && s.offset + b.rowBytes * s.height <= s.bufLen
            && b.frame.left <= b.frame.right && b.frame.top <= b.frame.bottom <= s.height
            && b.frame.right == (if s.active.Some? then s.active.value.right else s.width)
  {
    FoundFormat(s.bpp, s.little);
    Small32(s.width * s.bpp);
    Small32(s.offset + s.width * s.bpp / 8 * s.height);
    hide FindFormat, Bpp, BlockPixels, U32;
  }

  /**
   An accepted image is valid exactly if none of its sizes wraps around and the right edge of its
   active area lies inside the image: the two checks that the source leaves out.
   */
  lemma BindValid(s: ImageSpec)
    requires BindLbuf(s).Ok? && s.bufLen < U32_SIZE
    ensures ValidFrame(BindLbuf(s).image, s.bufLen)
            <==> NoWrap(s) && (s.active.Some? ==> s.active.value.right <= s.width)
  {
    if NoWrap(s) {
      NoWrapValid(s);
    } else {
      hide NoWrap;
      if ValidFrame(BindLbuf(s).image, s.bufLen) { ValidNoWrap(s); }
    }
  }

  lemma NoWrapValid(s: ImageSpec)
    requires BindLbuf(s).Ok? && NoWrap(s)
    ensures ValidFrame(BindLbuf(s).image, s.bufLen) <==> (s.active.Some? ==> s.active.value.right <= s.width)
  {
    var b := BindLbuf(s).image;
    BoundFields(s);
    hide BindLbuf, Bpp, BlockPixels, Fits;
    BoundFits(b.frame.fmt, s.width, s.height, b.rowBytes, s.offset, s.bufLen);
  }

  /** The row size is cut to 32 bits before it is divided, and a valid frame is not cut. */
  lemma BoundRow(s: ImageSpec)
    requires BindLbuf(s).Ok?
    ensures var b := BindLbuf(s).image;
            && b.frame.width == s.width && b.frame.height == s.height && b.offset == s.offset
            && Bpp(b.frame.fmt) == s.bpp && b.rowBytes == U32(s.width * s.bpp) / 8
  {
    FoundFormat(s.bpp, s.little);
    hide FindFormat, Bpp, BlockPixels, U32;
  }

  lemma ValidNoWrap(s: ImageSpec)
    requires BindLbuf(s).Ok? && s.bufLen < U32_SIZE && ValidFrame(BindLbuf(s).image, s.bufLen)
    ensures NoWrap(s)
  {
    var b := BindLbuf(s).image;
    BoundRow(s);
    hide BindLbuf, FindFormat, Bpp, BlockPixels, U32;
    TimesCommutes(s.height, b.rowBytes);
    Eighth(s.width * s.bpp, b.rowBytes);
  }

  /** An active area that reaches past the right edge is accepted. */
  lemma BindAcceptsWideArea()
    ensures var s := ImageSpec(2, 0, 2, 1, 8, true, 0, None, Some(Area(0, 1, 1, 3)));
            BindLbuf(s).Ok? && NoWrap(s) && !ValidFrame(BindLbuf(s).image, s.bufLen)
  {
  }

  /** So is an image whose rows are 2^32 bits long, in an empty buffer. */
  lemma BindAcceptsWrap()
    ensures var s := ImageSpec(0, 0, 0x2000_0000, 1, 8, true, 0, None, None);
            BindLbuf(s).Ok? && !NoWrap(s) && !ValidFrame(BindLbuf(s).image, s.bufLen)
  {
  }
}
