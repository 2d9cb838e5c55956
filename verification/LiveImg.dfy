/**
 Live view frames as RGB images: liveimg.c. A frame is converted row by row from the bottom into
 three planes, and the planes are packed from the bottom again.
 */
module LiveImg {
  import opened Arithmetic
  import opened Buffers
  import opened Words

  datatype Color = Color(r: byte, g: byte, b: byte)

  function Clip(v: int): byte { if v < 0 then 0 else if v > 255 then 255 else v }

  /** A byte as int8_t. */
  function Signed(b: byte): int { if b < 128 then b as int else b as int - 256 }

  // The shifts to the right are arithmetic, so they round down, as division by 4096 does here.

  function YuvToR(y: byte, v: int): byte { Clip((4096 * (y as int) + v * 5743 + 2048) / 4096) }

  function YuvToG(y: byte, u: int, v: int): byte { Clip((4096 * (y as int) - u * 1411 - v * 2925 + 2048) / 4096) }

  function YuvToB(y: byte, u: int): byte { Clip((4096 * (y as int) + u * 7258 + 2048) / 4096) }

  function YuvColor(y: byte, u: int, v: int): Color { Color(YuvToR(y, v), YuvToG(y, u, v), YuvToB(y, u)) }

  /** U Y V Y Y Y for four pixels; U Y V Y for two, with chroma biased by 128 or signed. */
  datatype Layout = Yuv8 | Yuv8b | Yuv8c

  function GroupPixels(f: Layout): nat { if f.Yuv8? then 4 else 2 }

  function GroupBytes(f: Layout): nat { if f.Yuv8? then 6 else 4 }

  /** The luma byte of a pixel inside its group. */
  function LumaAt(f: Layout, k: nat): nat {
    if k == 0 then 1 else if k == 1 then 3 else if k == 2 then 4 else 5
  }

  function Chroma(f: Layout, b: byte): int { if f.Yuv8b? then b as int - 128 else Signed(b) }

  /** A component is v / 4096 rounded to the nearest whole number, and the nearest byte if that is none. */
  predicate Rounds(v: int, c: byte) {
    && (c < 255 ==> v < 4096 * (c as int) + 2048)
    && (c > 0 ==> 4096 * (c as int) - 2048 <= v)
  }

  /** There is only one such byte. */
  lemma RoundsOnce(v: int, c: byte, d: byte)
    requires Rounds(v, c) && Rounds(v, d)
    ensures c == d
  {
  }

  /** The three components of a colour: luma, and what the chroma adds to it in each. */
  lemma ColorRounds(y: byte, u: int, v: int)
    ensures var luma, c := 4096 * (y as int), YuvColor(y, u, v);
            Rounds(luma + 5743 * v, c.r) && Rounds(luma - 1411 * u - 2925 * v, c.g) && Rounds(luma + 7258 * u, c.b)
  {
    ClipRounds(4096 * (y as int) + v * 5743);
    ClipRounds(4096 * (y as int) - u * 1411 - v * 2925);
    ClipRounds(4096 * (y as int) + u * 7258);
  }

  lemma ClipRounds(v: int)
    ensures Rounds(v, Clip((v + 2048) / 4096))
  {
  }

  /** Chroma is a signed byte: the byte of the frame as it is, or moved by 128. */
  lemma ChromaIs(f: Layout, b: byte)
    ensures -128 <= Chroma(f, b) < 128
    ensures (b as int - Chroma(f, b)) % 256 == if f.Yuv8b? then 128 else 0
  {
  }

  /** Without colour: neutral chroma makes every luma the grey of that value, in each layout. */
  lemma NeutralIsGrey(f: Layout, y: byte)
    ensures var n: byte := if f.Yuv8b? then 128 else 0; YuvColor(y, Chroma(f, n), Chroma(f, n)) == Color(y, y, y)
  {
    LumaAlone(y);
  }

  lemma LumaAlone(y: byte)
    ensures (4096 * (y as int) + 2048) / 4096 == y as int
  {
  }

  /** The bytes of a frame row. */
  function RowBytes(f: Layout, bufWidth: nat): nat { if f.Yuv8? then bufWidth * 12 / 8 else bufWidth * 16 / 8 }

  /** A frame row of whole groups has exactly their bytes. */
  lemma RowOfGroups(f: Layout, k: nat)
    ensures RowBytes(f, GroupPixels(f) * k) == k * GroupBytes(f)
    ensures forall h: nat :: FrameFits(f, h * (k * GroupBytes(f)), k * GroupBytes(f), GroupPixels(f) * k, h)
  {
    if f.Yuv8? {
      DivModIs(4 * k * 12, 8, 6 * k, 0);
    } else {
      DivModIs(2 * k * 16, 8, 4 * k, 0);
    }
  }

  /** The group of a pixel lies in the buffer. */
  predicate HasColor(f: Layout, s: seq<byte>, row: nat, x: nat) {
    row + x / GroupPixels(f) * GroupBytes(f) + GroupBytes(f) <= |s|
  }

  /** The colour of pixel x of the frame row that starts at a byte offset: its own luma, its group's chroma. */
  function SourceColor(f: Layout, s: seq<byte>, row: nat, x: nat): Color
    requires HasColor(f, s, row, x)
  {
    var n := GroupPixels(f);
    var at := row + x / n * GroupBytes(f);
    YuvColor(s[at + LumaAt(f, x % n)], Chroma(f, s[at]), Chroma(f, s[at + 2]))
  }

  /** Which source pixel an output column shows. */
  function SourceColumn(f: Layout, skip: bool, c: nat): nat {
    if !skip then c else if f.Yuv8? then 4 * (c / 2) + c % 2 else 2 * c
  }

  function OutWidth(skip: bool, width: nat): nat { if skip then width / 2 else width }

  /** The frame lies in the buffer, and a row consists of whole groups. */
  predicate FrameFits(f: Layout, len: nat, rowBytes: nat, width: nat, height: nat) {
    width % GroupPixels(f) == 0 && width / GroupPixels(f) * GroupBytes(f) <= rowBytes && height * rowBytes <= len
  }

  lemma RowInside(i: nat, height: nat, rowBytes: nat)
    requires i < height
    ensures i * rowBytes + rowBytes <= height * rowBytes
  {
    TimesStep(i + 1, rowBytes);
    TimesGrows(i + 1, height, rowBytes);
  }

  /** A row of k groups of four pixels. */
  lemma ColumnInSixes(skip: bool, k: nat, c: nat)
    requires c < OutWidth(skip, 4 * k)
    ensures SourceColumn(Yuv8, skip, c) < 4 * k && SourceColumn(Yuv8, skip, c) / 4 < k
  {
    if skip {
      var u, r := c / 2, c % 2;
      DivModIs(4 * k, 2, 2 * k, 0);
      assert c == 2 * u + r && u < k;
      DivModIs(4 * u + r, 4, u, r);
    } else {
      assert c == 4 * (c / 4) + c % 4;
    }
  }

  /** A row of k groups of two pixels. */
  lemma ColumnInFours(f: Layout, skip: bool, k: nat, c: nat)
    requires !f.Yuv8? && c < OutWidth(skip, 2 * k)
    ensures SourceColumn(f, skip, c) < 2 * k && SourceColumn(f, skip, c) / 2 < k
  {
    if skip {
      DivModIs(2 * k, 2, k, 0);
      DivModIs(2 * c, 2, c, 0);
    } else {
      assert c == 2 * (c / 2) + c % 2;
    }
  }

  lemma ColumnInside(f: Layout, skip: bool, width: nat, c: nat)
    requires width % GroupPixels(f) == 0 && c < OutWidth(skip, width)
    ensures SourceColumn(f, skip, c) < width
    ensures SourceColumn(f, skip, c) / GroupPixels(f) * GroupBytes(f) + GroupBytes(f)
            <= width / GroupPixels(f) * GroupBytes(f)
  {
    hide OutWidth, SourceColumn;
    var k := width / GroupPixels(f);
    var g := SourceColumn(f, skip, c) / GroupPixels(f);
    if f.Yuv8? {
      assert width == 4 * k;
      ColumnInSixes(skip, k, c);
    } else {
      assert width == 2 * k;
      ColumnInFours(f, skip, k, c);
    }
    TimesStep(g + 1, GroupBytes(f));
    TimesGrows(g + 1, k, GroupBytes(f));
  }

  /** The image that a frame shows, top row first. */
  function Picture(f: Layout, s: seq<byte>, rowBytes: nat, width: nat, height: nat, skip: bool): (rows: seq<seq<Color>>)
    requires FrameFits(f, |s|, rowBytes, width, height)
    ensures |rows| == height && forall i :: 0 <= i < height ==> |rows[i]| == OutWidth(skip, width)
  {
    seq(height, i requires 0 <= i < height => PictureRow(f, s, rowBytes, width, height, skip, i))
  }

  function PictureRow(f: Layout, s: seq<byte>, rowBytes: nat, width: nat, height: nat, skip: bool, i: nat)
    : (row: seq<Color>)
    requires FrameFits(f, |s|, rowBytes, width, height) && i < height
    ensures |row| == OutWidth(skip, width)
  {
    RowInside(i, height, rowBytes);
    seq(OutWidth(skip, width), c requires 0 <= c < OutWidth(skip, width) =>
      ColumnInside(f, skip, width, c);
      SourceColor(f, s, i * rowBytes, SourceColumn(f, skip, c)))
  }

  /** Rows one after the other, the last one first. */
  function FromBottom<T>(rows: seq<seq<T>>): seq<T> {
    if rows == [] then [] else FromBottom(rows[1..]) + rows[0]
  }

  function FromTop<T>(rows: seq<seq<T>>): seq<T> {
    if rows == [] then [] else rows[0] + FromTop(rows[1..])
  }

  predicate Rectangular<T>(rows: seq<seq<T>>, w: nat) {
    forall i :: 0 <= i < |rows| ==> |rows[i]| == w
  }

  lemma {:induction false} BottomSize<T>(rows: seq<seq<T>>, w: nat)
    requires Rectangular(rows, w)
    ensures |FromBottom(rows)| == |rows| * w
  {
    if rows != [] {
      BottomSize(rows[1..], w);
      assert |rows| * w == (|rows| - 1) * w + w;
    }
  }

  /** What has been written before row i, counted from the top, is followed by that row. */
  lemma {:induction false} BottomPrefix<T>(rows: seq<seq<T>>, i: nat)
    requires i < |rows|
    ensures FromBottom(rows[i + 1..]) + rows[i] <= FromBottom(rows)
    ensures FromBottom(rows[i..]) == FromBottom(rows[i + 1..]) + rows[i]
  {
    assert rows[i..][1..] == rows[i + 1..];
    if i > 0 {
      BottomPrefix(rows[1..], i - 1);
      assert rows[1..][i - 1..] == rows[i..] && rows[1..][i..] == rows[i + 1..];
    } else {
      assert rows[0..] == rows;
    }
  }

  lemma {:induction false} TopAt<T>(rows: seq<seq<T>>, w: nat, j: nat, c: nat)
    requires Rectangular(rows, w) && j < |rows| && c < w
    ensures j * w + c < |FromTop(rows)| && FromTop(rows)[j * w + c] == rows[j][c]
  {
    if j > 0 {
      TopAt(rows[1..], w, j - 1, c);
      assert j * w == (j - 1) * w + w;
    }
  }

  /** The three planes of a pimg. */
  class Planes {
    const r: array<byte>
    const g: array<byte>
    const b: array<byte>

    constructor (size: nat)
      ensures Valid() && r.Length == size && fresh(r) && fresh(g) && fresh(b)
    {
      r, g, b := new byte[size], new byte[size], new byte[size];
    }

    ghost predicate Valid()
      reads this
    {
      r.Length == g.Length == b.Length && r != g && r != b && g != b
    }

    ghost function At(k: nat): Color
      requires Valid() && k < r.Length
      reads this, r, g, b
    {
      Color(r[k], g[k], b[k])
    }

    ghost function Colors(): (s: seq<Color>)
      requires Valid()
      reads this, r, g, b
      ensures |s| == r.Length
    {
      seq(r.Length, k requires 0 <= k < r.Length reads this, r, g, b => At(k))
    }

    method Put(k: nat, y: byte, u: int, v: int)
      requires Valid() && k < r.Length
      modifies r, g, b
      ensures Valid() && Colors() == old(Colors())[k := YuvColor(y, u, v)]
    {
      r[k] := YuvToR(y, v);
      g[k] := YuvToG(y, u, v);
      b[k] := YuvToB(y, u);
    }
  }

  /** The first n colours of a row stand from position k on, and nothing else has changed. */
  ghost predicate RowSoFar(was: seq<Color>, now: seq<Color>, k: nat, row: seq<Color>, n: nat) {
    && |now| == |was| && n <= |row| && k + |row| <= |was|
    && now == was[..k] + row[..n] + was[k + n..]
  }

  lemma RowGoesOn(was: seq<Color>, now: seq<Color>, k: nat, row: seq<Color>, n: nat)
    requires RowSoFar(was, now, k, row, n) && n < |row|
    ensures RowSoFar(was, now[k + n := row[n]], k, row, n + 1)
  {
    var a, b := now[k + n := row[n]], was[..k] + row[..n + 1] + was[k + n + 1..];
    assert forall i :: 0 <= i < |was| ==> a[i] == b[i];
  }

  /** One element of a picture row. */
  lemma RowAt(f: Layout, s: seq<byte>, rowBytes: nat, width: nat, height: nat, skip: bool, i: nat, row: nat, c: nat)
    requires FrameFits(f, |s|, rowBytes, width, height) && i < height && row == i * rowBytes
             && c < OutWidth(skip, width)
    ensures var x := SourceColumn(f, skip, c);
            HasColor(f, s, row, x) && PictureRow(f, s, rowBytes, width, height, skip, i)[c] == SourceColor(f, s, row, x)
  {
    RowInside(i, height, rowBytes);
    ColumnInside(f, skip, width, c);
  }

  /** Pixel j of the group at column 4 * q of a frame row; the columns that skip leaves out are the last two. */
  lemma GroupOfSix(s: seq<byte>, rowBytes: nat, width: nat, height: nat, skip: bool, i: nat, row: nat, q: nat, j: nat)
    requires FrameFits(Yuv8, |s|, rowBytes, width, height) && i < height && row == i * rowBytes && 4 * q < width
             && j < if skip then 2 else 4
    ensures var p, n := row + 6 * q, OutWidth(skip, 4 * q) + j;
            var want := PictureRow(Yuv8, s, rowBytes, width, height, skip, i);
            p + 6 <= |s| && n < |want| && want[n] == YuvColor(s[p + LumaAt(Yuv8, j)], Signed(s[p]), Signed(s[p + 2]))
  {
    hide PictureRow, YuvColor, Signed, FrameFits, OutWidth, SourceColumn, LumaAt;
    GroupInside(Yuv8, |s|, rowBytes, width, height, q);
    ColumnOfGroup(skip, width, q, j);
    RowAt(Yuv8, s, rowBytes, width, height, skip, i, row, OutWidth(skip, 4 * q) + j);
    DivModIs(4 * q + j, 4, q, j);
  }

  lemma ColumnOfGroup(skip: bool, width: nat, q: nat, j: nat)
    requires j < (if skip then 2 else 4) && 4 * q + 4 <= width
    ensures OutWidth(skip, 4 * q) + j < OutWidth(skip, width)
    ensures SourceColumn(Yuv8, skip, OutWidth(skip, 4 * q) + j) == 4 * q + j
  {
    if skip {
      DivModIs(4 * q, 2, 2 * q, 0);
      DivModIs(2 * q + j, 2, q, j);
      assert width == 2 * (width / 2) + width % 2;
    }
  }

  /** The pixels of that group, in pairs. */
  lemma PairOfSix(s: seq<byte>, rowBytes: nat, width: nat, height: nat, skip: bool, i: nat, row: nat, q: nat)
    requires FrameFits(Yuv8, |s|, rowBytes, width, height) && i < height && row == i * rowBytes && 4 * q < width
    ensures var p, n := row + 6 * q, OutWidth(skip, 4 * q);
            var want := PictureRow(Yuv8, s, rowBytes, width, height, skip, i);
            && p + 6 <= |s| && n + 2 <= |want|
            && Pair(want, n, s[p + 1], s[p + 3], Signed(s[p]), Signed(s[p + 2]))
            && (!skip ==> n + 4 <= |want| && Pair(want, n + 2, s[p + 4], s[p + 5], Signed(s[p]), Signed(s[p + 2])))
  {
    hide PictureRow, YuvColor, Signed, FrameFits, OutWidth;
    GroupOfSix(s, rowBytes, width, height, skip, i, row, q, 0);
    GroupOfSix(s, rowBytes, width, height, skip, i, row, q, 1);
    if !skip {
      GroupOfSix(s, rowBytes, width, height, skip, i, row, q, 2);
      GroupOfSix(s, rowBytes, width, height, skip, i, row, q, 3);
    }
  }

  predicate Pair(row: seq<Color>, n: nat, y0: byte, y1: byte, u: int, v: int)
    requires n + 2 <= |row|
  {
    row[n] == YuvColor(y0, u, v) && row[n + 1] == YuvColor(y1, u, v)
  }

  /** The next pixel of a row. */
  method PutNext(im: Planes, k: nat, y: byte, u: int, v: int, ghost was: seq<Color>, ghost at: nat,
                 ghost row: seq<Color>, ghost n: nat)
    requires im.Valid() && k == at + n && n < |row| && RowSoFar(was, im.Colors(), at, row, n)
             && row[n] == YuvColor(y, u, v)
    modifies im.r, im.g, im.b
    ensures RowSoFar(was, im.Colors(), at, row, n + 1)
  {
    hide YuvColor;
    RowGoesOn(was, im.Colors(), at, row, n);
    im.Put(k, y, u, v);
  }

  /** Two pixels that share their chroma. */
  method PutPair(im: Planes, k: nat, y0: byte, y1: byte, u: int, v: int, ghost was: seq<Color>, ghost at: nat,
                 ghost row: seq<Color>, ghost n: nat)
    requires im.Valid() && k == at + n && n + 2 <= |row| && RowSoFar(was, im.Colors(), at, row, n)
             && Pair(row, n, y0, y1, u, v)
    modifies im.r, im.g, im.b
    ensures RowSoFar(was, im.Colors(), at, row, n + 2)
  {
    hide YuvColor, RowSoFar;
    PutNext(im, k, y0, u, v, was, at, row, n);
    PutNext(im, k + 1, y1, u, v, was, at, row, n + 1);
  }

  lemma GroupInside(f: Layout, len: nat, rowBytes: nat, width: nat, height: nat, q: nat)
    requires FrameFits(f, len, rowBytes, width, height) && GroupPixels(f) * q < width
    ensures GroupPixels(f) * (q + 1) <= width
  {
    var k := width / GroupPixels(f);
    if f.Yuv8? { assert width == 4 * k; } else { assert width == 2 * k; }
  }

  /** Pixel j of the group at column 2 * q of a frame row in the other two layouts; skip leaves out the second. */
  lemma PixelOfFour(f: Layout, s: seq<byte>, rowBytes: nat, width: nat, height: nat, skip: bool, i: nat, row: nat,
                    q: nat, j: nat)
    requires !f.Yuv8? && FrameFits(f, |s|, rowBytes, width, height) && i < height && row == i * rowBytes
             && 2 * q < width
    requires j < if skip then 1 else 2
    ensures var p, n := row + 4 * q, OutWidth(skip, 2 * q) + j;
            var want := PictureRow(f, s, rowBytes, width, height, skip, i);
            p + 4 <= |s| && n < |want| && want[n] == YuvColor(s[p + LumaAt(f, j)], Chroma(f, s[p]), Chroma(f, s[p + 2]))
  {
    hide PictureRow, YuvColor, Chroma, FrameFits, OutWidth, SourceColumn, LumaAt;
    GroupInside(f, |s|, rowBytes, width, height, q);
    ColumnOfFour(f, skip, width, q, j);
    RowAt(f, s, rowBytes, width, height, skip, i, row, OutWidth(skip, 2 * q) + j);
    DivModIs(2 * q + j, 2, q, j);
  }

  lemma ColumnOfFour(f: Layout, skip: bool, width: nat, q: nat, j: nat)
    requires !f.Yuv8? && j < (if skip then 1 else 2) && 2 * q + 2 <= width
    ensures OutWidth(skip, 2 * q) + j < OutWidth(skip, width)
    ensures SourceColumn(f, skip, OutWidth(skip, 2 * q) + j) == 2 * q + j
  {
    if skip {
      DivModIs(2 * q, 2, q, 0);
      assert width == 2 * (width / 2) + width % 2;
    }
  }

  /** The pixels that the group at column x = 2 * q yields in the other two layouts. */
  lemma GroupOfFour(f: Layout, s: seq<byte>, rowBytes: nat, width: nat, height: nat, skip: bool, i: nat, row: nat,
                    q: nat)
    requires !f.Yuv8? && FrameFits(f, |s|, rowBytes, width, height) && i < height && row == i * rowBytes
             && 2 * q < width
    ensures var p, n := row + 4 * q, OutWidth(skip, 2 * q);
            var want := PictureRow(f, s, rowBytes, width, height, skip, i);
            && p + 4 <= |s| && n + (if skip then 1 else 2) <= |want|
            && want[n] == YuvColor(s[p + 1], Chroma(f, s[p]), Chroma(f, s[p + 2]))
            && (!skip ==> want[n + 1] == YuvColor(s[p + 3], Chroma(f, s[p]), Chroma(f, s[p + 2])))
  {
    hide PictureRow, YuvColor, FrameFits, Chroma, OutWidth;
    PixelOfFour(f, s, rowBytes, width, height, skip, i, row, q, 0);
    if !skip {
      PixelOfFour(f, s, rowBytes, width, height, skip, i, row, q, 1);
    }
  }

  /** The row loop of yuv_live_to_cd_rgb: six bytes for four pixels, or with skip for two. */
  method YuvRow(s: seq<byte>, ghost rowBytes: nat, width: nat, ghost height: nat, skip: bool, ghost i: nat, row: nat,
                im: Planes, at: nat)
    returns (k: nat)
    requires FrameFits(Yuv8, |s|, rowBytes, width, height) && i < height && row == i * rowBytes
    requires im.Valid() && at + OutWidth(skip, width) <= im.r.Length
    modifies im.r, im.g, im.b
    ensures k == at + OutWidth(skip, width)
    ensures var row := PictureRow(Yuv8, s, rowBytes, width, height, skip, i);
            RowSoFar(old(im.Colors()), im.Colors(), at, row, |row|)
  {
    hide RowSoFar, YuvColor, PictureRow, Signed, FrameFits, Pair;
    ghost var was, want := im.Colors(), PictureRow(Yuv8, s, rowBytes, width, height, skip, i);
    RowBegins(was, at, want);
    var x, p := 0, row;
    ghost var q := 0;
    k := at;
    WholeGroups(Yuv8, |s|, rowBytes, width, height);
    while x < width
      invariant x <= width && x == 4 * q && p == row + 6 * q
      invariant k == at + OutWidth(skip, x)
      invariant RowSoFar(was, im.Colors(), at, want, OutWidth(skip, x))
    {
      ghost var n := OutWidth(skip, x);
      PairOfSix(s, rowBytes, width, height, skip, i, row, q);
      var u, v := Signed(s[p]), Signed(s[p + 2]);
      PutPair(im, k, s[p + 1], s[p + 3], u, v, was, at, want, n);
      k := k + 2;
      if !skip {
        PutPair(im, k, s[p + 4], s[p + 5], u, v, was, at, want, n + 2);
        k := k + 2;
      }
      x := x + 4;
      p := p + 6;
      q := q + 1;
    }
  }

  lemma WholeGroups(f: Layout, len: nat, rowBytes: nat, width: nat, height: nat)
    requires FrameFits(f, len, rowBytes, width, height)
    ensures width % GroupPixels(f) == 0
  {
  }

  /** The row loop of yuvb_live_to_cd_rgb and yuvc_live_to_cd_rgb: four bytes for two pixels, or with skip for one. */
  method YuvbRow(f: Layout, s: seq<byte>, ghost rowBytes: nat, width: nat, ghost height: nat, skip: bool, ghost i: nat,
                 row: nat, im: Planes, at: nat)
    returns (k: nat)
    requires !f.Yuv8? && FrameFits(f, |s|, rowBytes, width, height) && i < height && row == i * rowBytes
    requires im.Valid() && at + OutWidth(skip, width) <= im.r.Length
    modifies im.r, im.g, im.b
    ensures k == at + OutWidth(skip, width)
    ensures var row := PictureRow(f, s, rowBytes, width, height, skip, i);
            RowSoFar(old(im.Colors()), im.Colors(), at, row, |row|)
  {
    hide RowSoFar, YuvColor, PictureRow, Signed, FrameFits, Chroma;
    ghost var was, want := im.Colors(), PictureRow(f, s, rowBytes, width, height, skip, i);
    RowBegins(was, at, want);
    var x, p := 0, row;
    ghost var q := 0;
    k := at;
    WholeGroups(f, |s|, rowBytes, width, height);
    while x < width
      invariant x <= width && x == 2 * q && p == row + 4 * q
      invariant k == at + OutWidth(skip, x)
      invariant RowSoFar(was, im.Colors(), at, want, OutWidth(skip, x))
    {
      ghost var n := OutWidth(skip, x);
      GroupOfFour(f, s, rowBytes, width, height, skip, i, row, q);
      var u, v := Chroma(f, s[p]), Chroma(f, s[p + 2]);
      PutNext(im, k, s[p + 1], u, v, was, at, want, n);
      k := k + 1;
      if !skip {
        PutNext(im, k, s[p + 3], u, v, was, at, want, n + 1);
        k := k + 1;
      }
      x := x + 2;
      p := p + 4;
      q := q + 1;
    }
  }

  lemma RowBegins(was: seq<Color>, k: nat, row: seq<Color>)
    requires k + |row| <= |was|
    ensures RowSoFar(was, was, k, row, 0)
  {
  }

  /**
   yuv_live_to_cd_rgb, yuvb_live_to_cd_rgb and yuvc_live_to_cd_rgb: the planes get the rows of the
   picture, from the bottom row of the frame to the top one.
   */
  method LiveToRgb(f: Layout, s: seq<byte>, bufWidth: nat, width: nat, height: nat, skip: bool, im: Planes)
    requires FrameFits(f, |s|, RowBytes(f, bufWidth), width, height)
    requires im.Valid() && im.r.Length == height * OutWidth(skip, width)
    modifies im.r, im.g, im.b
    ensures im.Colors() == FromBottom(Picture(f, s, RowBytes(f, bufWidth), width, height, skip))
  {
    hide FrameFits, RowBytes, PictureRow, FromBottom, OutWidth;
    var rowInc := RowBytes(f, bufWidth);
    ghost var pic := Picture(f, s, rowInc, width, height, skip);
    ghost var w := OutWidth(skip, width);
    BottomSize(pic, w);
    BottomEnd(pic);
    var pRow: int := (height - 1) * rowInc;
    var row := 0;
    var k: nat := 0;
    while row < height
      invariant row <= height && pRow == (height - 1 - row) * rowInc
      invariant k <= im.r.Length && k == |FromBottom(pic[height - row..])|
                && im.Colors()[..k] == FromBottom(pic[height - row..])
    {
      ghost var i := height - 1 - row;
      ghost var was := im.Colors();
      BottomPrefix(pic, i);
      RowInside(i, height, rowInc);
      if f.Yuv8? {
        k := YuvRow(s, rowInc, width, height, skip, i, pRow, im, k);
      } else {
        k := YuvbRow(f, s, rowInc, width, height, skip, i, pRow, im, k);
      }
      RowDone(was, im.Colors(), k - w, pic[i]);
      TimesStep(height - 1 - row, rowInc);
      row := row + 1;
      pRow := pRow - rowInc;
    }
    assert pic[0..] == pic;
  }

  lemma BottomEnd<T>(rows: seq<seq<T>>)
    ensures FromBottom(rows[|rows|..]) == []
  {
  }

  lemma RowDone(was: seq<Color>, now: seq<Color>, k: nat, row: seq<Color>)
    requires RowSoFar(was, now, k, row, |row|)
    ensures now[..k + |row|] == was[..k] + row
  {
  }

  // Packing

  datatype Pixel = Pixel(color: Color, alpha: byte)

  /** What is stored for a pixel, in a packed image with or without alpha. */
  function PixelBytes(alpha: bool, p: Pixel): (s: seq<byte>)
    ensures |s| == Depth(alpha)
  {
    [p.color.r, p.color.g, p.color.b] + if alpha then [p.alpha] else []
  }

  function Depth(alpha: bool): nat { if alpha then 4 else 3 }

  function Bytes(alpha: bool, s: seq<Pixel>): (r: seq<byte>)
    ensures |r| == |s| * Depth(alpha)
  {
    if s == [] then [] else Bytes(alpha, s[..|s| - 1]) + PixelBytes(alpha, s[|s| - 1])
  }

  lemma {:induction false} BytesSplit(alpha: bool, a: seq<Pixel>, b: seq<Pixel>)
    ensures Bytes(alpha, a + b) == Bytes(alpha, a) + Bytes(alpha, b)
  {
    hide PixelBytes;
    if b == [] {
      assert a + b == a;
    } else {
      var n := |b| - 1;
      BytesSplit(alpha, a, b[..n]);
      assert (a + b)[..|a| + n] == a + b[..n];
    }
  }

  /** The bytes of one pixel of a packed image; d stands for the depth, since the solver is slow at products. */
  lemma {:induction false} BytesAt(alpha: bool, s: seq<Pixel>, k: nat, d: nat)
    requires k < |s| && d == Depth(alpha)
    ensures k * d + d <= |Bytes(alpha, s)| && Bytes(alpha, s)[k * d..k * d + d] == PixelBytes(alpha, s[k])
    decreases |s|
  {
    hide PixelBytes, Depth;
    var n := |s| - 1;
    var front, last := Bytes(alpha, s[..n]), PixelBytes(alpha, s[n]);
    TimesStep(|s|, d);
    TimesGrows(0, k, d);
    if k < n {
      BytesAt(alpha, s[..n], k, d);
      SliceInFront(front, last, k * d, k * d + d);
    } else {
      SliceBehind(front, last, 0, d);
    }
  }

  /** The rows, top row first, of an image that is stored from the bottom. */
  function RowsOf<T>(s: seq<T>, w: nat, h: nat): (rows: seq<seq<T>>)
    requires |s| == h * w
    ensures |rows| == h && Rectangular(rows, w)
  {
    if h == 0 then []
    else
      TimesStep(h, w);
      [s[(h - 1) * w..]] + RowsOf(s[..(h - 1) * w], w, h - 1)
  }

  lemma RowsOfTail<T>(s: seq<T>, w: nat, h: nat, i: nat)
    requires |s| == h * w && 0 < i < h
    ensures |s[..(h - 1) * w]| == (h - 1) * w && RowsOf(s, w, h)[i] == RowsOf(s[..(h - 1) * w], w, h - 1)[i - 1]
  {
    TimesStep(h, w);
  }

  lemma {:induction false} RowsOfAt<T>(s: seq<T>, w: nat, h: nat, i: nat)
    requires |s| == h * w && i < h
    ensures 0 <= (h - 1 - i) * w && (h - 1 - i) * w + w <= |s|
            && RowsOf(s, w, h)[i] == s[(h - 1 - i) * w..(h - 1 - i) * w + w]
  {
    hide Rectangular, RowsOf;
    var m, n := (h - 1) * w, (h - 1 - i) * w;
    RowSizes(h, w, i);
    if i > 0 {
      RowsOfAt(s[..m], w, h - 1, i - 1);
      assert (h - 1 - 1 - (i - 1)) * w == n;
      SliceInFront(s[..m], s[m..], n, n + w);
      Rejoined(s, m);
      RowsOfTail(s, w, h, i);
    } else {
      RowsOfHead(s, w, h);
    }
  }

  lemma RowSizes(h: nat, w: nat, i: nat)
    requires i < h
    ensures (h - 1) * w + w == h * w && 0 <= (h - 1 - i) * w && (h - 1 - i) * w + w <= h * w
    ensures i > 0 ==> (h - 1 - i) * w + w <= (h - 1) * w
  {
    TimesStep(h, w);
    TimesGrows(0, h - 1 - i, w);
    TimesGrows(h - 1 - i, h - 1, w);
    if i > 0 {
      TimesGrows(h - i, h - 1, w);
      TimesStep(h - i, w);
    }
  }

  lemma Rejoined<T>(s: seq<T>, m: nat)
    requires m <= |s|
    ensures s[..m] + s[m..] == s
  {
  }

  lemma RowsOfHead<T>(s: seq<T>, w: nat, h: nat)
    requires |s| == h * w && h > 0
    ensures 0 <= (h - 1) * w && (h - 1) * w + w == |s| && RowsOf(s, w, h)[0] == s[(h - 1) * w..(h - 1) * w + w]
  {
    TimesStep(h, w);
  }

  /** Cutting an image stored from the bottom into rows undoes storing it. */
  lemma {:induction false} FlipTwice<T>(rows: seq<seq<T>>, w: nat)
    requires Rectangular(rows, w)
    ensures |FromBottom(rows)| == |rows| * w && RowsOf(FromBottom(rows), w, |rows|) == rows
  {
    BottomSize(rows, w);
    if rows != [] {
      FlipTwice(rows[1..], w);
      TimesStep(|rows|, w);
      var s := FromBottom(rows);
      assert s[..(|rows| - 1) * w] == FromBottom(rows[1..]) && s[(|rows| - 1) * w..] == rows[0];
    }
  }

  ghost function PixelAt(im: Planes, a: array?<byte>, k: nat): Pixel
    requires im.Valid() && k < im.r.Length && (a != null ==> a.Length == im.r.Length)
    reads im, im.r, im.g, im.b, a
  {
    Pixel(im.At(k), if a == null then 255 else a[k])
  }

  ghost function Pixels(im: Planes, a: array?<byte>): (s: seq<Pixel>)
    requires im.Valid() && (a != null ==> a.Length == im.r.Length)
    reads im, im.r, im.g, im.b, a
    ensures |s| == im.r.Length
  {
    seq(im.r.Length,
        k requires 0 <= k < im.r.Length && im.Valid() && (a != null ==> a.Length == im.r.Length)
          reads im, im.r, im.g, im.b, a
        => PixelAt(im, a, k))
  }

  lemma PixelHere(im: Planes, a: array?<byte>, k: nat, w: nat, x: nat)
    requires im.Valid() && (a != null ==> a.Length == im.r.Length) && k + w <= im.r.Length && x < w
    ensures Pixels(im, a)[k..k + w][x]
            == Pixel(Color(im.r[k + x], im.g[k + x], im.b[k + x]), if a != null then a[k + x] else 255)
  {
    assert Pixels(im, a)[k + x] == PixelAt(im, a, k + x);
  }

  /** The stores of one pixel. */
  method PackPixel(data: array<byte>, q: nat, alpha: bool, px: Pixel)
    requires q + Depth(alpha) <= data.Length
    modifies data
    ensures data[..] == Splice(old(data[..]), q, PixelBytes(alpha, px))
  {
    hide Splice;
    ghost var before := data[..];
    data[q], data[q + 1], data[q + 2] := px.color.r, px.color.g, px.color.b;
    if alpha {
      data[q + 3] := px.alpha;
      SpliceIs(before, q, [px.color.r, px.color.g, px.color.b, px.alpha], data[..]);
      assert PixelBytes(alpha, px) == [px.color.r, px.color.g, px.color.b, px.alpha];
    } else {
      SpliceIs(before, q, [px.color.r, px.color.g, px.color.b], data[..]);
      assert PixelBytes(alpha, px) == [px.color.r, px.color.g, px.color.b];
    }
  }

  /** The row loop of pimg_to_packed. */
  method PackRow(im: Planes, a: array?<byte>, k: nat, w: nat, alpha: bool, data: array<byte>, p: nat)
    requires im.Valid() && (a != null ==> a.Length == im.r.Length && a != data) && data != im.r && data != im.g
             && data != im.b
    requires k + w <= im.r.Length && p + w * Depth(alpha) <= data.Length
    modifies data
    ensures data[..] == Splice(old(data[..]), p, Bytes(alpha, Pixels(im, a)[k..k + w]))
  {
    hide Splice, Bytes, PixelBytes, Pixels;
    ghost var was, want := data[..], Pixels(im, a)[k..k + w];
    var q := p;
    var x := 0;
    NoBytes(was, p, alpha, want);
    while x < w
      invariant x <= w && q == p + x * Depth(alpha)
      invariant data[..] == Splice(was, p, Bytes(alpha, want[..x])) && want == Pixels(im, a)[k..k + w]
    {
      OnePixelMore(was, p, alpha, want, x);
      PixelHere(im, a, k, w, x);
      var px := Pixel(Color(im.r[k + x], im.g[k + x], im.b[k + x]), if a != null then a[k + x] else 255);
      PackPixel(data, q, alpha, px);
      q := q + Depth(alpha);
      x := x + 1;
    }
    assert want[..w] == want;
  }

  lemma NoBytes(was: seq<byte>, p: nat, alpha: bool, want: seq<Pixel>)
    requires p <= |was|
    ensures was == Splice(was, p, Bytes(alpha, want[..0]))
  {
  }

  lemma OnePixelMore(was: seq<byte>, p: nat, alpha: bool, want: seq<Pixel>, x: nat)
    requires x < |want| && p + |want| * Depth(alpha) <= |was|
    ensures p + x * Depth(alpha) + Depth(alpha) <= |was| && p + (x + 1) * Depth(alpha) <= |was|
    ensures Splice(Splice(was, p, Bytes(alpha, want[..x])), p + x * Depth(alpha), PixelBytes(alpha, want[x]))
            == Splice(was, p, Bytes(alpha, want[..x + 1]))
  {
    hide Splice, PixelBytes;
    assert want[..x + 1][..x] == want[..x];
    SpliceTwice(was, p, Bytes(alpha, want[..x]), PixelBytes(alpha, want[x]));
  }

  lemma TopStep<T>(rows: seq<seq<T>>, y: nat)
    requires 0 < y <= |rows|
    ensures FromTop(rows[y - 1..]) == rows[y - 1] + FromTop(rows[y..])
  {
    assert rows[y - 1..][1..] == rows[y..];
  }

  /** A row stored in front of the rows below it. */
  lemma RowStored(was: seq<byte>, now: seq<byte>, p: nat, row: seq<byte>, below: seq<byte>)
    requires p + |row| + |below| == |was| && was[p + |row|..] == below && now == Splice(was, p, row)
    ensures now[p..] == row + below
  {
  }

  lemma RowPacked(alpha: bool, rows: seq<seq<Pixel>>, y: nat, was: seq<byte>, now: seq<byte>, p: nat, q: nat)
    requires 0 < y <= |rows| && q == p + |Bytes(alpha, rows[y - 1])| <= |was|
    requires was[q..] == Bytes(alpha, FromTop(rows[y..])) && now == Splice(was, p, Bytes(alpha, rows[y - 1]))
    ensures now[p..] == Bytes(alpha, FromTop(rows[y - 1..]))
  {
    hide Bytes, FromTop, Splice;
    TopStep(rows, y);
    BytesSplit(alpha, rows[y - 1], FromTop(rows[y..]));
    RowStored(was, now, p, Bytes(alpha, rows[y - 1]), Bytes(alpha, FromTop(rows[y..])));
  }

  lemma PackSizes(y: nat, h: nat, w: nat, d: nat)
    requires 0 < y <= h
    ensures 0 <= (y - 1) * w * d && (y - 1) * w * d + w * d == y * w * d && y * w * d <= h * w * d
    ensures (h - y) * w + w == (h - (y - 1)) * w && (h - y) * w + w <= h * w && 0 <= (h - y) * w
  {
    TimesStep(y, w);
    assert (y * w - w) * d == y * w * d - w * d;
    TimesGrows(y, h, w);
    assert (h - (y - 1)) * w == (h - y) * w + w;
    TimesGrows(h - (y - 1), h, w);
    TimesGrows(y * w, h * w, d);
    TimesGrows(0, y - 1, w);
    TimesGrows(0, (y - 1) * w, d);
    TimesGrows(0, h - y, w);
  }

  /**
   pimg_to_packed. The planes are read from their first row on and written from the last row of the
   packed image upwards. A buffer of the right size is used again.
   */
  method ToPacked(im: Planes, a: array?<byte>, w: nat, h: nat, alpha: bool, buf: array?<byte>)
    returns (data: array<byte>)
    requires im.Valid() && im.r.Length == h * w && (a != null ==> a.Length == im.r.Length)
    requires buf != null ==> buf != im.r && buf != im.g && buf != im.b && buf != a
    modifies if buf == null then {} else {buf}
    ensures data == buf || fresh(data)
    ensures im.Valid() && Pixels(im, a) == old(Pixels(im, a))
    ensures data[..] == Packed(alpha, Pixels(im, a), w, h) && data.Length == h * w * Depth(alpha)
  {
    hide Bytes, FromTop, RowsOf, Splice, Rectangular, Pixels;
    var depth := Depth(alpha);
    var size := h * w * depth;
    if buf != null && buf.Length == size {
      data := buf;
    } else {
      data := new byte[size];
    }
    ghost var px := Pixels(im, a);
    ghost var rows := RowsOf(px, w, h);
    TopEnd(rows, alpha);
    var y: nat, k: nat := h, 0;
    ghost var at: nat := size;
    while y > 0
      invariant y <= h && k == (h - y) * w && at == y * w * depth && at <= data.Length == size
      invariant data != im.r && data != im.g && data != im.b && data != a && Pixels(im, a) == px
      invariant data[at..] == Bytes(alpha, FromTop(rows[y..]))
    {
      PackSizes(y, h, w, depth);
      RowsOfAt(px, w, h, y - 1);
      var p: nat := (y - 1) * w * depth;
      ghost var was := data[..];
      PackRow(im, a, k, w, alpha, data, p);
      RowPacked(alpha, rows, y, was, data[..], p, at);
      at := p;
      k := k + w;
      y := y - 1;
    }
    assert rows[0..] == rows && data[0..] == data[..];
  }

  lemma TopEnd(rows: seq<seq<Pixel>>, alpha: bool)
    ensures Bytes(alpha, FromTop(rows[|rows|..])) == []
  {
  }

  lemma {:induction false} BottomAt<T>(rows: seq<seq<T>>, w: nat, j: nat, c: nat)
    requires Rectangular(rows, w) && j < |rows| && c < w
    ensures 0 <= (|rows| - 1 - j) * w + c < |FromBottom(rows)|
            && FromBottom(rows)[(|rows| - 1 - j) * w + c] == rows[j][c]
    decreases |rows|
  {
    BottomSize(rows, w);
    BottomSize(rows[1..], w);
    if j > 0 {
      BottomAt(rows[1..], w, j - 1, c);
    }
  }

  predicate SameColors(px: seq<Pixel>, colors: seq<Color>) {
    |px| == |colors| && forall k :: 0 <= k < |px| ==> px[k].color == colors[k]
  }

  /** The packed form of an image whose planes hold these pixels. */
  function Packed(alpha: bool, px: seq<Pixel>, w: nat, h: nat): seq<byte>
    requires |px| == h * w
  {
    Bytes(alpha, FromTop(RowsOf(px, w, h)))
  }

  /** The colour in column c of row j of a packed image. */
  function PackedColor(alpha: bool, data: seq<byte>, w: nat, j: nat, c: nat): Option<Color> {
    ColorAt(data, (j * w + c) * Depth(alpha))
  }

  /** The alpha byte there. */
  function PackedAlpha(data: seq<byte>, w: nat, j: nat, c: nat): Option<byte> { ByteAt(data, (j * w + c) * 4 + 3) }

  function ByteAt(data: seq<byte>, at: int): Option<byte> { if 0 <= at < |data| then Some(data[at]) else None }

  function ColorAt(data: seq<byte>, at: int): Option<Color> {
    if 0 <= at && at + 3 <= |data| then Some(Color(data[at], data[at + 1], data[at + 2])) else None
  }

  /**
   The two flips cancel: column c of row j of the packed image is the colour of frame row j at the
   source column of c, with its own luma and the chroma of its group. The alpha bytes are those of the
   planes, which start with the bottom row.
   */
  lemma PackedShowsFrame(f: Layout, s: seq<byte>, rowBytes: nat, width: nat, height: nat, skip: bool,
                         px: seq<Pixel>, alpha: bool, j: nat, c: nat)
    requires FrameFits(f, |s|, rowBytes, width, height) && j < height && c < OutWidth(skip, width)
    requires |px| == height * OutWidth(skip, width)
             && SameColors(px, FromBottom(Picture(f, s, rowBytes, width, height, skip)))
    ensures var x := SourceColumn(f, skip, c);
            && x < width && HasColor(f, s, j * rowBytes, x)
            && PackedColor(alpha, Packed(alpha, px, OutWidth(skip, width), height), OutWidth(skip, width), j, c)
               == Some(SourceColor(f, s, j * rowBytes, x))
    ensures alpha ==> var w := OutWidth(skip, width);
              AlphaShown(AlphasOf(px), w, height, Packed(alpha, px, w, height), j, c)
  {
    hide FrameFits, SourceColor, HasColor, PictureRow, Bytes, FromTop, FromBottom, RowsOf, Rectangular, OutWidth,
      SourceColumn, ColorAt, ByteAt;
    var w := OutWidth(skip, width);
    var pic := Picture(f, s, rowBytes, width, height, skip);
    var rows := RowsOf(px, w, height);
    PictureIsRectangular(f, s, rowBytes, width, height, skip);
    BottomAt(pic, w, j, c);
    RowsOfAt(px, w, height, j);
    var start := (height - 1 - j) * w;
    assert rows[j][c] == px[start + c];
    assert px[start + c].color == pic[j][c];
    TopAt(rows, w, j, c);
    var flat, k := FromTop(rows), j * w + c;
    BytesAt(alpha, flat, k, Depth(alpha));
    TimesGrows(0, k, Depth(alpha));
    ColorStored(Bytes(alpha, flat), k * Depth(alpha), alpha, flat[k]);
    WidthInside(f, |s|, rowBytes, width, height, skip, c);
    RowAt(f, s, rowBytes, width, height, skip, j, j * rowBytes, c);
  }

  /**
   A frame shown: liveimg_get_viewport_pimg and pimg_to_packed one after the other. Whatever the planes
   and the buffer held before, column c of row j of the result has the colour of frame row j at the
   source column of c.
   */
  method ShowFrame(f: Layout, s: seq<byte>, bufWidth: nat, width: nat, height: nat, skip: bool,
                   im: Planes, a: array?<byte>, alpha: bool, buf: array?<byte>)
    returns (data: array<byte>)
    requires FrameFits(f, |s|, RowBytes(f, bufWidth), width, height)
    requires im.Valid() && im.r.Length == height * OutWidth(skip, width)
    requires a != null ==> a.Length == im.r.Length && a != im.r && a != im.g && a != im.b
    requires buf != null ==> buf != im.r && buf != im.g && buf != im.b && buf != a
    modifies im.r, im.g, im.b, if buf == null then {} else {buf}
    ensures data == buf || fresh(data)
    ensures data.Length == height * OutWidth(skip, width) * Depth(alpha)
    ensures forall j, c :: 0 <= j < height && 0 <= c < OutWidth(skip, width) ==>
              Shown(f, s, RowBytes(f, bufWidth), width, skip, alpha, data[..], j, c)
              && (alpha ==> AlphaShown(Alphas(a, im.r.Length), OutWidth(skip, width), height, data[..], j, c))
  {
    hide FrameFits, RowBytes, FromBottom, Picture, Packed, OutWidth, Pixels, Shown, AlphaShown, Alphas;
    var w := OutWidth(skip, width);
    LiveToRgb(f, s, bufWidth, width, height, skip, im);
    ghost var px := Pixels(im, a);
    PixelColors(im, a);
    data := ToPacked(im, a, w, height, alpha, buf);
    forall j, c | 0 <= j < height && 0 <= c < w
      ensures Shown(f, s, RowBytes(f, bufWidth), width, skip, alpha, data[..], j, c)
              && (alpha ==> AlphaShown(Alphas(a, im.r.Length), w, height, data[..], j, c))
    {
      ShownAt(f, s, RowBytes(f, bufWidth), width, height, skip, px, alpha, j, c);
    }
  }

  /** Column c of row j of the packed image is the pixel of the frame that it is to show. */
  predicate Shown(f: Layout, s: seq<byte>, rowBytes: nat, width: nat, skip: bool, alpha: bool, data: seq<byte>,
                  j: nat, c: nat)
  {
    var x := SourceColumn(f, skip, c);
    && x < width && HasColor(f, s, j * rowBytes, x)
    && PackedColor(alpha, data, OutWidth(skip, width), j, c) == Some(SourceColor(f, s, j * rowBytes, x))
  }

  /** Its alpha byte is that of the planes, which start with the bottom row. */
  predicate AlphaShown(alphas: seq<byte>, w: nat, height: nat, data: seq<byte>, j: nat, c: nat) {
    var k := (height - 1 - j) * w + c;
    0 <= k < |alphas| && PackedAlpha(data, w, j, c) == Some(alphas[k])
  }

  /** The alpha values of an image: those of its plane, or all opaque if it has none. */
  ghost function Alphas(a: array?<byte>, size: nat): seq<byte>
    reads a
  {
    if a == null then seq(size, _ => 255) else a[..]
  }

  function AlphasOf(px: seq<Pixel>): seq<byte> { seq(|px|, i requires 0 <= i < |px| => px[i].alpha) }

  lemma ShownAt(f: Layout, s: seq<byte>, rowBytes: nat, width: nat, height: nat, skip: bool,
                px: seq<Pixel>, alpha: bool, j: nat, c: nat)
    requires FrameFits(f, |s|, rowBytes, width, height) && j < height && c < OutWidth(skip, width)
    requires |px| == height * OutWidth(skip, width)
             && SameColors(px, FromBottom(Picture(f, s, rowBytes, width, height, skip)))
    ensures var data := Packed(alpha, px, OutWidth(skip, width), height);
            && Shown(f, s, rowBytes, width, skip, alpha, data, j, c)
            && (alpha ==> AlphaShown(AlphasOf(px), OutWidth(skip, width), height, data, j, c))
  {
    hide FrameFits, SourceColor, HasColor, SourceColumn, FromBottom, Picture, Packed, OutWidth, PackedColor, SameColors;
    PackedShowsFrame(f, s, rowBytes, width, height, skip, px, alpha, j, c);
  }

  lemma PixelColors(im: Planes, a: array?<byte>)
    requires im.Valid() && (a != null ==> a.Length == im.r.Length)
    ensures SameColors(Pixels(im, a), im.Colors()) && AlphasOf(Pixels(im, a)) == Alphas(a, im.r.Length)
  {
  }

  lemma PictureIsRectangular(f: Layout, s: seq<byte>, rowBytes: nat, width: nat, height: nat, skip: bool)
    requires FrameFits(f, |s|, rowBytes, width, height)
    ensures Rectangular(Picture(f, s, rowBytes, width, height, skip), OutWidth(skip, width))
  {
  }

  lemma WidthInside(f: Layout, len: nat, rowBytes: nat, width: nat, height: nat, skip: bool, c: nat)
    requires FrameFits(f, len, rowBytes, width, height) && c < OutWidth(skip, width)
    ensures SourceColumn(f, skip, c) < width
  {
    ColumnInside(f, skip, width, c);
  }

  lemma ColorStored(data: seq<byte>, at: nat, alpha: bool, p: Pixel)
    requires at + Depth(alpha) <= |data| && data[at..at + Depth(alpha)] == PixelBytes(alpha, p)
    ensures ColorAt(data, at) == Some(p.color)
    ensures alpha ==> ByteAt(data, at + 3) == Some(p.alpha)
  {
    var d := data[at..at + Depth(alpha)];
    assert alpha ==> d[3] == data[at + 3];
    assert d[0] == data[at] && d[1] == data[at + 1] && d[2] == data[at + 2];
  }
}
