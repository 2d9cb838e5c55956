/** Laws of the nine layouts: what a store does to every pixel of an image. */
module RawPixels {
  import opened Arithmetic
  import opened RawBits
  import opened Lbuf
  import opened RawFormat

  /** An image of whole blocks that lies inside a buffer of len bytes. */
  predicate Fits(f: Format, len: nat, width: nat, height: nat, rowBytes: nat) {
    width % BlockPixels(f) == 0 && 8 * rowBytes == width * Bpp(f) && height * rowBytes <= len
  }

  /** A value is determined by its field. */
  lemma ShowsUnique(f: Format, s: seq<bv8>, row: nat, x: nat, v: bv32, w: bv32)
    requires IsPixel(f, s, row, x, v) && IsPixel(f, s, row, x, w)
    ensures v == w
  {
    hide ValueBit, Stream;
    var n := Bpp(f);
    HighBitsClear(f, v);
    HighBitsClear(f, w);
    var a, b := ValueBits(v, n), ValueBits(w, n);
    assert a == b;
    forall j | 0 <= j < 16
      ensures ValueBit(v, j) == ValueBit(w, j)
    {
      if j >= 16 - n {
        assert a[j - (16 - n)] == b[j - (16 - n)];
      }
    }
    SameBits16(v, w);
  }

  lemma HighBitsClear(f: Format, v: bv32)
    requires v < Limit(f)
    ensures v < 0x10000 && forall j :: 0 <= j < 16 - Bpp(f) ==> !ValueBit(v, j)
  {
    forall j | 0 <= j < 16 - Bpp(f)
      ensures !ValueBit(v, j)
    {
      match j
      case 0 =>
      case 1 =>
      case 2 =>
      case 3 =>
      case 4 =>
      case 5 =>
      case 6 =>
      case _ =>
    }
  }

  lemma RowGap(y: nat, y': nat, rowBytes: nat)
    requires y < y'
    ensures y * rowBytes + rowBytes <= y' * rowBytes
  {
    TimesStep(y + 1, rowBytes);
    TimesGrows(y + 1, y', rowBytes);
  }

  lemma RowsInside(f: Format, len: nat, width: nat, height: nat, rowBytes: nat, x: nat, y: nat)
    requires Fits(f, len, width, height, rowBytes) && x < width && y < height
    ensures InBlock(f, len, y * rowBytes, x) && Aligned(f, y * rowBytes)
    ensures y * rowBytes + rowBytes <= len
    ensures Bpp(f) * x + Bpp(f) <= 8 * rowBytes
  {
    hide Bpp, BlockBytes, BlockPixels;
    var k := width / BlockPixels(f);
    WholeBlocks(width, BlockPixels(f), x);
    BlockRows(f, k, width, rowBytes);
    RowGap(y, height, rowBytes);
    BlockInRow(f, x, k);
    if Swaps(f) {
      EvenRows(f, k, rowBytes, y);
    }
  }

  lemma WholeBlocks(width: nat, n: nat, x: nat)
    requires n > 0 && width % n == 0 && x < width
    ensures width == width / n * n && x / n < width / n
  {
    assert (width / n - x / n) * n > 0;
  }

  lemma BlockRows(f: Format, k: nat, width: nat, rowBytes: nat)
    requires width == k * BlockPixels(f) && 8 * rowBytes == width * Bpp(f)
    ensures rowBytes == k * BlockBytes(f)
  {
    match f
    case F8l =>
    case F10l => assert width == 8 * k;
    case F10b => assert width == 4 * k;
    case F12l => assert width == 4 * k;
    case F12b => assert width == 2 * k;
    case F14l => assert width == 8 * k;
    case F14b => assert width == 4 * k;
    case F16l =>
    case F16b =>
  }

  lemma BlockInRow(f: Format, x: nat, k: nat)
    requires x / BlockPixels(f) < k
    ensures x / BlockPixels(f) * BlockBytes(f) + BlockBytes(f) <= k * BlockBytes(f)
    ensures Bpp(f) * x + Bpp(f) <= 8 * (k * BlockBytes(f))
  {
    var q := x / BlockPixels(f);
    RowGap(q, k, BlockBytes(f));
    match f
    case F8l =>
    case F10l => assert x < 8 * q + 8;
    case F10b => assert x < 4 * q + 4;
    case F12l => assert x < 4 * q + 4;
    case F12b => assert x < 2 * q + 2;
    case F14l => assert x < 8 * q + 8;
    case F14b => assert x < 4 * q + 4;
    case F16l =>
    case F16b =>
  }

  lemma EvenRows(f: Format, k: nat, rowBytes: nat, y: nat)
    requires Swaps(f) && rowBytes == k * BlockBytes(f)
    ensures y * rowBytes % 2 == 0
  {
    var h := BlockBytes(f) / 2;
    assert BlockBytes(f) == 2 * h;
    assert rowBytes == 2 * (k * h);
    assert y * rowBytes == 2 * (y * (k * h));
  }

  lemma Apart(a: nat, b: nat, m: nat)
    requires a != b
    ensures a * m + m <= b * m || b * m + m <= a * m
  {
    if a < b { RowGap(a, b, m); } else { RowGap(b, a, m); }
  }

  /** Different pixels of an image have disjoint fields. */
  lemma FieldsDisjoint(f: Format, len: nat, width: nat, height: nat, rowBytes: nat, x: nat, y: nat, x': nat, y': nat,
                       row: nat, row': nat)
    requires Fits(f, len, width, height, rowBytes) && x < width && y < height && x' < width && y' < height
    requires row == y * rowBytes && row' == y' * rowBytes && (x != x' || y != y')
    ensures var a, b, n := PixelPos(f, row, x), PixelPos(f, row', x'), Bpp(f); a + n <= b || b + n <= a
  {
    hide Bpp, BlockBytes, BlockPixels, Fits, InBlock, PixelPos;
    RowsInside(f, len, width, height, rowBytes, x, y);
    RowsInside(f, len, width, height, rowBytes, x', y');
    if y != y' {
      Apart(y, y', rowBytes);
    } else {
      Apart(x, x', Bpp(f));
    }
    PosApart(f, row, x, row', x', rowBytes);
  }

  lemma PosApart(f: Format, row: nat, x: nat, row': nat, x': nat, rowBytes: nat)
    requires Bpp(f) * x + Bpp(f) <= 8 * rowBytes && Bpp(f) * x' + Bpp(f) <= 8 * rowBytes
    requires row + rowBytes <= row' || row' + rowBytes <= row
             || (row == row' && (x * Bpp(f) + Bpp(f) <= x' * Bpp(f) || x' * Bpp(f) + Bpp(f) <= x * Bpp(f)))
    ensures var a, b, n := PixelPos(f, row, x), PixelPos(f, row', x'), Bpp(f); a + n <= b || b + n <= a
  {
    hide Bpp;
    assert x * Bpp(f) == Bpp(f) * x && x' * Bpp(f) == Bpp(f) * x';
    assert Bpp(f) * x >= 0 && Bpp(f) * x' >= 0;
  }

  /** What SetPixel promises. */
  ghost predicate SetOutcome(f: Format, s: seq<bv8>, t: seq<bv8>, row: nat, x: nat, v: bv32) {
    |t| == |s| && if StoreTakes(f, x) then v < Limit(f) ==> WrotePixel(f, s, t, row, x, v) else t == s
  }

  predicate ReadsAs(f: Format, s: seq<bv8>, row: nat, x: nat, v: bv32) {
    InBlock(f, |s|, row, x) && GetPixel(f, s, row, x) == v
  }

  predicate ReadsSame(f: Format, s: seq<bv8>, t: seq<bv8>, row: nat, x: nat) {
    |t| == |s| && InBlock(f, |s|, row, x) && GetPixel(f, t, row, x) == GetPixel(f, s, row, x)
  }

  /** After a store of an in-range value, that pixel reads as the value and every other pixel of every row as before. */
  lemma GetAfterSet(f: Format, s: seq<bv8>, t: seq<bv8>, width: nat, height: nat, rowBytes: nat, x: nat, y: nat,
                    v: bv32, x': nat, y': nat, row: nat, row': nat)
    requires Fits(f, |s|, width, height, rowBytes) && x < width && y < height && x' < width && y' < height
    requires row == y * rowBytes && row' == y' * rowBytes
    requires v < Limit(f) && StoreTakes(f, x) && SetOutcome(f, s, t, row, x, v)
    ensures if x' == x && y' == y then ReadsAs(f, t, row', x', v) else ReadsSame(f, s, t, row', x')
  {
    hide Put, Shows, GetPixel, Ordered, Bpp, BlockBytes, BlockPixels, Limit, InBlock, PixelPos, Fits;
    RowsInside(f, |s|, width, height, rowBytes, x, y);
    RowsInside(f, |s|, width, height, rowBytes, x', y');
    if x' == x && y' == y {
      SetHere(f, s, t, row, x, v);
    } else {
      FieldsDisjoint(f, |s|, width, height, rowBytes, x, y, x', y', row, row');
      SetElsewhere(f, s, t, row, x, v, row', x');
    }
  }

  lemma SetHere(f: Format, s: seq<bv8>, t: seq<bv8>, row: nat, x: nat, v: bv32)
    requires |t| == |s| && InBlock(f, |s|, row, x) && Aligned(f, row) && v < Limit(f) && WrotePixel(f, s, t, row, x, v)
    ensures ReadsAs(f, t, row, x, v)
  {
    hide Put, Shows, GetPixel, Ordered, Bpp, BlockBytes, BlockPixels, Limit, InBlock, PixelPos;
    GetIsPixel(f, t, row, x);
    PutShows(Ordered(Swaps(f), s), Ordered(Swaps(f), t), PixelPos(f, row, x), Bpp(f), v);
    ShowsUnique(f, t, row, x, v, GetPixel(f, t, row, x));
  }

  lemma SetElsewhere(f: Format, s: seq<bv8>, t: seq<bv8>, row: nat, x: nat, v: bv32, row': nat, x': nat)
    requires |t| == |s| && InBlock(f, |s|, row', x') && Aligned(f, row') && WrotePixel(f, s, t, row, x, v)
    requires PixelPos(f, row', x') + Bpp(f) <= PixelPos(f, row, x)
             || PixelPos(f, row, x) + Bpp(f) <= PixelPos(f, row', x')
    ensures ReadsSame(f, s, t, row', x')
  {
    hide WrotePixel, IsPixel, GetPixel, Ordered, Bpp, BlockBytes, BlockPixels, Limit, InBlock, PixelPos;
    var w := GetPixel(f, s, row', x');
    GetIsPixel(f, s, row', x');
    StillShows(f, s, t, row, x, v, row', x', w);
    GetIsPixel(f, t, row', x');
    ShowsUnique(f, t, row', x', w, GetPixel(f, t, row', x'));
  }

  lemma StillShows(f: Format, s: seq<bv8>, t: seq<bv8>, row: nat, x: nat, v: bv32, row': nat, x': nat, w: bv32)
    requires WrotePixel(f, s, t, row, x, v) && IsPixel(f, s, row', x', w)
    requires PixelPos(f, row', x') + Bpp(f) <= PixelPos(f, row, x)
             || PixelPos(f, row, x) + Bpp(f) <= PixelPos(f, row', x')
    ensures IsPixel(f, t, row', x', w)
  {
    hide Put, Shows, Ordered, Bpp, Limit, PixelPos, Swaps;
    PutKeeps(Ordered(Swaps(f), s), Ordered(Swaps(f), t), PixelPos(f, row, x), Bpp(f), v, PixelPos(f, row', x'), w);
  }

  /**
   Setting a pixel and getting it back returns the value for all buffers and values exactly for
   the pixels that the setter's switch covers: all of them, except x % 8 in 4..7 of the 14b layout.
   */
  lemma SetThenGet(f: Format, width: nat, height: nat, rowBytes: nat, len: nat, x: nat, y: nat)
    requires Fits(f, len, width, height, rowBytes) && x < width && y < height
    ensures InBlock(f, len, y * rowBytes, x)
    ensures (forall s: seq<bv8>, t: seq<bv8>, v: bv32 {:trigger SetOutcome(f, s, t, y * rowBytes, x, v)} ::
               |s| == len && v < Limit(f) && SetOutcome(f, s, t, y * rowBytes, x, v) ==>
                 GetPixel(f, t, y * rowBytes, x) == v)
            <==> f != F14b || x % 8 in {0, 1, 2, 3}
  {
    hide GetPixel, WrotePixel;
    RowsInside(f, len, width, height, rowBytes, x, y);
    var row := y * rowBytes;
    if StoreTakes(f, x) {
      forall s: seq<bv8>, t: seq<bv8>, v: bv32 | |s| == len && v < Limit(f) && SetOutcome(f, s, t, row, x, v)
        ensures GetPixel(f, t, row, x) == v
      {
        GetAfterSet(f, s, t, width, height, rowBytes, x, y, v, x, y, row, row);
      }
    } else {
      var s: seq<bv8> := seq(len, _ => 0);
      var v: bv32 := if GetPixel(f, s, row, x) == 0 then 1 else 0;
      assert SetOutcome(f, s, s, row, x, v) && v < Limit(f);
    }
  }

  /** A little-endian getter is the big-endian getter of the same width on the byte-swapped buffer. */
  lemma GetSwapped(f: Format, s: seq<bv8>, row: nat, x: nat)
    requires Swaps(f) && InBlock(f, |s|, row, x) && Aligned(f, row)
    ensures InBlock(InOrder(f), |s|, row, x)
    ensures GetPixel(f, s, row, x) == GetPixel(InOrder(f), Swapped(s), row, x)
  {
    hide Shows, GetPixel;
    HalfBlock(f, |s|, row, x);
    GetIsPixel(f, s, row, x);
    GetIsPixel(InOrder(f), Swapped(s), row, x);
    ShowsUnique(InOrder(f), Swapped(s), row, x, GetPixel(f, s, row, x), GetPixel(InOrder(f), Swapped(s), row, x));
  }

  lemma HalfBlock(f: Format, len: nat, row: nat, x: nat)
    requires Swaps(f) && InBlock(f, len, row, x)
    ensures InBlock(InOrder(f), len, row, x)
  {
    match f
    case F10l => assert x / 4 <= 2 * (x / 8) + 1;
    case F12l => assert x / 2 <= 2 * (x / 4) + 1;
    case F14l => assert x / 4 <= 2 * (x / 8) + 1;
    case F16l =>
  }

  /**
   A little-endian store is the big-endian store on the byte-swapped buffer: swapping the bytes,
   storing with the big-endian setter and swapping back gives the same buffer. Where the big-endian
   setter leaves the column out, this holds only for the value that the pixel has anyway.
   */
  lemma SetSwapped(f: Format, s: seq<bv8>, t: seq<bv8>, u: seq<bv8>, row: nat, x: nat, v: bv32)
    requires Swaps(f) && v < Limit(f) && InBlock(f, |s|, row, x) && Aligned(f, row)
    requires SetOutcome(f, s, t, row, x, v)
    requires SetOutcome(InOrder(f), Swapped(s), u, row, x, v)
    ensures Swapped(u) == t <==> StoreTakes(InOrder(f), x) || GetPixel(f, s, row, x) == v
  {
    hide Put, Shows, InBlock, GetPixel;
    if StoreTakes(InOrder(f), x) {
      PutUnique(Swapped(s), Swapped(t), u, PixelPos(f, row, x), Bpp(f), v);
      SwappedTwice(t);
    } else {
      SwappedTwice(s);
      StoreSame(f, s, t, row, x, v);
    }
  }

  /** A store that takes changes the buffer exactly if the pixel had another value. */
  lemma StoreSame(f: Format, s: seq<bv8>, t: seq<bv8>, row: nat, x: nat, v: bv32)
    requires |t| == |s| && InBlock(f, |s|, row, x) && Aligned(f, row) && v < Limit(f) && WrotePixel(f, s, t, row, x, v)
    ensures s == t <==> GetPixel(f, s, row, x) == v
  {
    hide Put, Shows, GetPixel, Ordered, Bpp, InBlock, PixelPos, Limit;
    SetHere(f, s, t, row, x, v);
    if GetPixel(f, s, row, x) == v {
      GetIsPixel(f, s, row, x);
      var p, n := PixelPos(f, row, x), Bpp(f);
      PutShown(Ordered(Swaps(f), s), p, n, v);
      PutUnique(Ordered(Swaps(f), s), Ordered(Swaps(f), s), Ordered(Swaps(f), t), p, n, v);
      OrderedSame(f, s, t);
    }
  }

  lemma OrderedSame(f: Format, s: seq<bv8>, t: seq<bv8>)
    requires Ordered(Swaps(f), s) == Ordered(Swaps(f), t)
    ensures s == t
  {
    if Swaps(f) {
      SwappedTwice(s);
      SwappedTwice(t);
    }
  }
}
