/**
 Bad-pixel interpolation on grids of pixel values (rawimg.c: patch_pixels). The scan updates the
 image in place, so pixels that come later in raster order see values that were patched before.
 */
module RawPatch {
  import opened Arithmetic
  import opened Words
  import opened RawFormat
  import opened RawGrid

  const CFA_GREEN := 1

  /** The parts of raw_image_t that the scan reads, apart from the pixels. */
  datatype Frame = Frame(fmt: Format, width: nat, height: nat, top: nat, left: nat, bottom: nat, right: nat,
                         cfa: seq<nat>, black: int)

  /** The active area lies inside the image, and the colour pattern has four entries. */
  predicate Sane(p: Frame) {
    p.left <= p.right <= p.width && p.top <= p.bottom <= p.height && |p.cfa| == 4 && p.black >= 0
  }

  predicate Framed(p: Frame, g: Grid) { IsGrid(g, p.width, p.height) && Sane(p) }

  function CfaColor(p: Frame, x: nat, y: nat): nat
    requires |p.cfa| == 4
  {
    p.cfa[x % 2 + y % 2 * 2]
  }

  function PixelSafe(p: Frame, g: Grid, x: nat, y: nat): int
    requires Framed(p, g)
  {
    if x >= p.width || y >= p.height then 0 else g[y][x]
  }

  /** Offsets of the four pixels that a pixel is interpolated from: diagonal ones for green, two away otherwise. */
  function Offsets(green: bool): (o: seq<(int, int)>)
    ensures |o| == 4
  {
    if green then [(-1, -1), (1, -1), (-1, 1), (1, 1)] else [(-2, 0), (2, 0), (0, -2), (0, 2)]
  }

  function Neighbours(p: Frame, g: Grid, x: nat, y: nat): (ns: seq<int>)
    requires Framed(p, g)
    ensures |ns| == 4
  {
    var o := Offsets(CfaColor(p, x, y) == CFA_GREEN);
    [PixelSafe(p, g, U32(x + o[0].0), U32(y + o[0].1)), PixelSafe(p, g, U32(x + o[1].0), U32(y + o[1].1)),
     PixelSafe(p, g, U32(x + o[2].0), U32(y + o[2].1)), PixelSafe(p, g, U32(x + o[3].0), U32(y + o[3].1))]
  }

  datatype Tally = Tally(total: int, count: nat)

  /** Total and number of the values above the black level. */
  function TallyOf(ns: seq<int>, black: int): Tally {
    if |ns| == 0 then Tally(0, 0)
    else
      var n, t := ns[|ns| - 1], TallyOf(ns[..|ns| - 1], black);
      if n > black then Tally(t.total + n, t.count + 1) else t
  }


  /** The value that pixel (x, y) is given, if any neighbour contributes. */
  function PatchValue(p: Frame, g: Grid, x: nat, y: nat): Option<int>
    requires Framed(p, g)
  {
    var t := TallyOf(Neighbours(p, g, x, y), p.black);
    if t.count != 0 then Some(t.total / t.count) else None
  }

  datatype Scan = Scan(grid: Grid, patched: set<(nat, nat)>)

  /** The scan from pixel (x, y) on: the final grid and the pixels that were given a value. */
  function PatchFrom(p: Frame, bad: int, g: Grid, x: nat, y: nat): (r: Scan)
    requires Framed(p, g)
    ensures Framed(p, r.grid)
    decreases p.bottom - y, p.right - x
  {
    if y >= p.bottom then Scan(g, {})
    else if x >= p.right then PatchFrom(p, bad, g, p.left, y + 1)
    else if g[y][x] > bad then PatchFrom(p, bad, g, x + 1, y)
    else
      match PatchValue(p, g, x, y)
      case None => PatchFrom(p, bad, g, x + 1, y)
      case Some(v) =>
        var r := PatchFrom(p, bad, Store(p.fmt, g, x, y, v), x + 1, y);
        Scan(r.grid, r.patched + {(x, y)})
  }

  /** The scan goes on with the next row, and ends below the last one. */
  lemma ScanRowEnds(p: Frame, bad: int, g: Grid, y: nat)
    requires Framed(p, g)
    ensures y < p.bottom ==> PatchFrom(p, bad, g, p.right, y) == PatchFrom(p, bad, g, p.left, y + 1)
    ensures y >= p.bottom ==> PatchFrom(p, bad, g, p.left, y) == Scan(g, {})
  {
  }

  // Which pixels a scan reaches, and what it finds there

  /** The scan that stands at (x, y) still visits (a, b). */
  predicate Visits(p: Frame, x: nat, y: nat, a: nat, b: nat) {
    p.left <= a < p.right && y <= b < p.bottom && (b == y ==> x <= a)
  }

  /** The grid that the scan finds at (x, y): final values before it in raster order, original ones after. */
  function Midway(p: Frame, start: Grid, final: Grid, x: nat, y: nat): (g: Grid)
    requires Framed(p, start) && Framed(p, final)
    ensures Framed(p, g)
  {
    seq(p.height, b requires 0 <= b < p.height =>
      seq(p.width, a requires 0 <= a < p.width => if b < y || (b == y && a < x) then final[b][a] else start[b][a]))
  }

  /** What the scan did to pixel (a, b), given its original value and the grid that the scan found there. */
  predicate Explained(p: Frame, bad: int, was: int, midway: Grid, now: int, listed: bool, visited: bool, a: nat, b: nat)
    requires Framed(p, midway)
  {
    var v := PatchValue(p, midway, a, b);
    var patched := visited && was <= bad && v.Some?;
    && (listed <==> patched)
    && now == if patched && StoreTakes(p.fmt, a) then v.value else was
  }

  lemma {:induction false} ScanKeepsPassed(p: Frame, bad: int, g: Grid, x: nat, y: nat, a: nat, b: nat)
    requires Framed(p, g) && a < p.width && b < p.height && !Visits(p, x, y, a, b) && p.left <= x
    ensures PatchFrom(p, bad, g, x, y).grid[b][a] == g[b][a]
    ensures (a, b) !in PatchFrom(p, bad, g, x, y).patched
    decreases p.bottom - y, p.right - x
  {
    hide PatchValue;
    if y >= p.bottom {
    } else if x >= p.right {
      ScanKeepsPassed(p, bad, g, p.left, y + 1, a, b);
    } else if g[y][x] > bad || PatchValue(p, g, x, y).None? {
      ScanKeepsPassed(p, bad, g, x + 1, y, a, b);
    } else {
      ScanKeepsPassed(p, bad, Store(p.fmt, g, x, y, PatchValue(p, g, x, y).value), x + 1, y, a, b);
    }
  }

  lemma MidwayIsNow(p: Frame, bad: int, g: Grid, x: nat, y: nat)
    requires Framed(p, g) && p.left <= x < p.right && y < p.bottom
    ensures Midway(p, g, PatchFrom(p, bad, g, x, y).grid, x, y) == g
  {
    var r := PatchFrom(p, bad, g, x, y).grid;
    var m := Midway(p, g, r, x, y);
    forall a, b | 0 <= a < p.width && 0 <= b < p.height
      ensures m[b][a] == g[b][a]
    {
      if b < y || (b == y && a < x) { ScanKeepsPassed(p, bad, g, x, y, a, b); }
    }
    SameGrid(m, g, p.width, p.height);
  }

  lemma MidwayLater(p: Frame, g: Grid, h: Grid, final: Grid, x: nat, y: nat, a: nat, b: nat, v: int)
    requires Framed(p, g) && Framed(p, final) && x < p.width && y < p.height && h == Store(p.fmt, g, x, y, v)
    requires y < b || (y == b && x < a)
    ensures Framed(p, h) && Midway(p, g, final, a, b) == Midway(p, h, final, a, b)
  {
    SameGrid(Midway(p, g, final, a, b), Midway(p, h, final, a, b), p.width, p.height);
  }

  lemma ScanExplainsHere(p: Frame, bad: int, g: Grid, x: nat, y: nat)
    requires Framed(p, g) && Visits(p, x, y, x, y)
    ensures var r := PatchFrom(p, bad, g, x, y);
            Explained(p, bad, g[y][x], g, r.grid[y][x], (x, y) in r.patched, true, x, y)
  {
    hide PatchValue;
    if g[y][x] > bad || PatchValue(p, g, x, y).None? {
      ScanKeepsPassed(p, bad, g, x + 1, y, x, y);
    } else {
      ScanKeepsPassed(p, bad, Store(p.fmt, g, x, y, PatchValue(p, g, x, y).value), x + 1, y, x, y);
    }
  }

  lemma StoreElsewhere(p: Frame, g: Grid, x: nat, y: nat, a: nat, b: nat, v: int)
    requires Framed(p, g) && x < p.width && y < p.height && a < p.width && b < p.height && (a != x || b != y)
    ensures Framed(p, Store(p.fmt, g, x, y, v)) && Store(p.fmt, g, x, y, v)[b][a] == g[b][a]
  {
  }

  /** The scan in closed form: every pixel of the final grid and every member of the patched set is accounted for. */
  lemma {:induction false} ScanExplained(p: Frame, bad: int, g: Grid, x: nat, y: nat, a: nat, b: nat)
    requires Framed(p, g) && a < p.width && b < p.height && p.left <= x
    ensures var r := PatchFrom(p, bad, g, x, y);
            Explained(p, bad, g[b][a], Midway(p, g, r.grid, a, b), r.grid[b][a], (a, b) in r.patched,
                      Visits(p, x, y, a, b), a, b)
    decreases p.bottom - y, p.right - x
  {
    hide PatchValue, Midway, Store;
    if !Visits(p, x, y, a, b) {
      hide Visits;
      ScanKeepsPassed(p, bad, g, x, y, a, b);
    } else if x >= p.right {
      ScanExplained(p, bad, g, p.left, y + 1, a, b);
    } else if a == x && b == y {
      MidwayIsNow(p, bad, g, x, y);
      ScanExplainsHere(p, bad, g, x, y);
    } else if g[y][x] > bad || PatchValue(p, g, x, y).None? {
      hide Explained;
      ScanExplained(p, bad, g, x + 1, y, a, b);
    } else {
      hide Explained;
      var v := PatchValue(p, g, x, y).value;
      var h := Store(p.fmt, g, x, y, v);
      FramedStore(p, g, x, y, v);
      StoreElsewhere(p, g, x, y, a, b, v);
      ScanExplained(p, bad, h, x + 1, y, a, b);
      MidwayLater(p, g, h, PatchFrom(p, bad, h, x + 1, y).grid, x, y, a, b, v);
    }
  }

  lemma FramedStore(p: Frame, g: Grid, x: nat, y: nat, v: int)
    requires Framed(p, g) && x < p.width && y < p.height
    ensures Framed(p, Store(p.fmt, g, x, y, v))
  {
  }

  // Where the value of a patched pixel comes from

  predicate InImage(p: Frame, a: int, b: int) { 0 <= a < p.width && 0 <= b < p.height }

  /** A neighbour value is the neighbour's pixel if that lies in the image, and 0 otherwise. */
  predicate NeighbourIs(p: Frame, g: Grid, n: int, a: int, b: int)
    requires Framed(p, g)
  {
    n == if InImage(p, a, b) then g[b][a] else 0
  }

  function Moved(x: nat, d: int): nat { U32(x + d) }

  /** Unsigned wrap-around takes a coordinate that leaves the image to another one outside it. */
  ghost predicate StaysOutside(size: nat) {
    forall x, d :: 0 <= x < size && -2 <= d <= 2 ==> Moved(x, d) == x + d || (x + d < 0 && Moved(x, d) >= size)
  }

  /** It does for images of up to 2^32 - 2 columns or rows, and for no larger ones. */
  lemma WrapLeavesImage(size: nat)
    requires 0 < size < U32_SIZE
    ensures StaysOutside(size) <==> size < U32_SIZE - 1
  {
    if size == U32_SIZE - 1 {
      assert Moved(0, -2) == U32_SIZE - 2;
    }
  }

  lemma MovedOne(size: nat, x: nat, d: int)
    requires x < size < U32_SIZE - 1 && -2 <= d <= 2
    ensures Moved(x, d) == x + d || (x + d < 0 && Moved(x, d) >= size)
  {
    WrapLeavesImage(size);
  }

  lemma SmallOffsets(green: bool, i: nat)
    requires i < 4
    ensures -2 <= Offsets(green)[i].0 <= 2 && -2 <= Offsets(green)[i].1 <= 2
  {
    if i == 0 {} else if i == 1 {} else if i == 2 {} else {}
  }

  lemma NeighbourAt(p: Frame, g: Grid, x: nat, y: nat, i: nat)
    requires Framed(p, g) && i < 4
    ensures var o := Offsets(CfaColor(p, x, y) == CFA_GREEN)[i];
            Neighbours(p, g, x, y)[i] == PixelSafe(p, g, Moved(x, o.0), Moved(y, o.1))
  {
    hide U32, PixelSafe, CfaColor, Offsets;
    if i == 0 {} else if i == 1 {} else if i == 2 {} else {}
  }

  lemma NeighbourValue(p: Frame, g: Grid, x: nat, y: nat, i: nat)
    requires Framed(p, g) && x < p.width < U32_SIZE - 1 && y < p.height < U32_SIZE - 1 && i < 4
    ensures var o := Offsets(CfaColor(p, x, y) == CFA_GREEN)[i];
            NeighbourIs(p, g, Neighbours(p, g, x, y)[i], x + o.0, y + o.1)
  {
    hide Moved, Offsets, CfaColor, Neighbours;
    var green := CfaColor(p, x, y) == CFA_GREEN;
    var o := Offsets(green)[i];
    SmallOffsets(green, i);
    NeighbourAt(p, g, x, y, i);
    MovedOne(p.width, x, o.0);
    MovedOne(p.height, y, o.1);
  }

  predicate Small(p: Frame) { p.width < U32_SIZE - 1 && p.height < U32_SIZE - 1 }

  lemma SmallStaysOutside(p: Frame)
    requires 0 < p.width < U32_SIZE && 0 < p.height < U32_SIZE
    ensures Small(p) <==> StaysOutside(p.width) && StaysOutside(p.height)
  {
    hide StaysOutside;
    WrapLeavesImage(p.width);
    WrapLeavesImage(p.height);
  }

  /** The pixel at a place, and 0 outside the image. */
  function At(p: Frame, g: Grid, a: int, b: int): int
    requires Framed(p, g)
  {
    if InImage(p, a, b) then g[b][a] else 0
  }

  /** n, if it is above the black level. */
  function Bright(p: Frame, n: int): int { if n > p.black then n else 0 }

  function IsBright(p: Frame, n: int): nat { if n > p.black then 1 else 0 }

  /** v is the mean of those of four values that are above the black level, rounded down, and None if there are none. */
  predicate MeanOf(p: Frame, v: Option<int>, n0: int, n1: int, n2: int, n3: int) {
    var c := IsBright(p, n0) + IsBright(p, n1) + IsBright(p, n2) + IsBright(p, n3);
    var s := Bright(p, n0) + Bright(p, n1) + Bright(p, n2) + Bright(p, n3);
    if c == 0 then v == None else v.Some? && c * v.value <= s < c * (v.value + 1)
  }

  /**
   v is the mean of the bright neighbours of a pixel: the four diagonal ones for green (1), and for other
   colours those two columns to the left and right and two rows above and below.
   */
  predicate Mean(p: Frame, g: Grid, x: nat, y: nat, v: Option<int>)
    requires Framed(p, g)
  {
    if CfaColor(p, x, y) == 1 then
      MeanOf(p, v, At(p, g, x - 1, y - 1), At(p, g, x + 1, y - 1), At(p, g, x - 1, y + 1), At(p, g, x + 1, y + 1))
    else
      MeanOf(p, v, At(p, g, x - 2, y), At(p, g, x + 2, y), At(p, g, x, y - 2), At(p, g, x, y + 2))
  }

  /** The pattern is a tile of two columns and two rows, row by row. */
  lemma CfaTiles(p: Frame, i: nat, j: nat)
    requires |p.cfa| == 4
    ensures CfaColor(p, 2 * i, 2 * j) == p.cfa[0] && CfaColor(p, 2 * i + 1, 2 * j) == p.cfa[1]
    ensures CfaColor(p, 2 * i, 2 * j + 1) == p.cfa[2] && CfaColor(p, 2 * i + 1, 2 * j + 1) == p.cfa[3]
  {
  }

  /** The value that a pixel is given is the mean of its bright neighbours, and it is given none if there are none. */
  lemma PatchIsMean(p: Frame, g: Grid, x: nat, y: nat)
    requires Framed(p, g) && Small(p) && x < p.width && y < p.height
    ensures Mean(p, g, x, y, PatchValue(p, g, x, y))
  {
    hide CfaColor, Neighbours, PatchValue, MeanOf, At, NeighbourIs;
    NeighbourValue(p, g, x, y, 0);
    NeighbourValue(p, g, x, y, 1);
    NeighbourValue(p, g, x, y, 2);
    NeighbourValue(p, g, x, y, 3);
    var ns := Neighbours(p, g, x, y);
    NeighbourIsAt(p, g, x, y, 0);
    NeighbourIsAt(p, g, x, y, 1);
    NeighbourIsAt(p, g, x, y, 2);
    NeighbourIsAt(p, g, x, y, 3);
    MeanOfNeighbours(p, g, x, y);
  }

  lemma NeighbourIsAt(p: Frame, g: Grid, x: nat, y: nat, i: nat)
    requires Framed(p, g) && Small(p) && x < p.width && y < p.height && i < 4
    ensures var o := Offsets(CfaColor(p, x, y) == CFA_GREEN)[i];
            Neighbours(p, g, x, y)[i] == At(p, g, x + o.0, y + o.1)
  {
    hide CfaColor, Neighbours, Offsets;
    NeighbourValue(p, g, x, y, i);
  }

  lemma TallyFour(p: Frame, ns: seq<int>)
    requires |ns| == 4
    ensures TallyOf(ns, p.black)
            == Tally(Bright(p, ns[0]) + Bright(p, ns[1]) + Bright(p, ns[2]) + Bright(p, ns[3]),
                     IsBright(p, ns[0]) + IsBright(p, ns[1]) + IsBright(p, ns[2]) + IsBright(p, ns[3]))
  {
    hide TallyOf;
    TallyIs(ns, p.black, 4);
    TallyIs(ns, p.black, 3);
    TallyIs(ns, p.black, 2);
    TallyIs(ns, p.black, 1);
    NoTally(p.black);
    assert ns[..4] == ns && ns[..0] == [];
  }

  lemma NoTally(black: int)
    ensures TallyOf([], black) == Tally(0, 0)
  {
  }

  lemma MeanFloor(total: int, count: nat)
    requires count > 0
    ensures count * (total / count) <= total < count * (total / count + 1)
  {
    assert total == count * (total / count) + total % count;
  }

  lemma MeanOfNeighbours(p: Frame, g: Grid, x: nat, y: nat)
    requires Framed(p, g)
    ensures var ns := Neighbours(p, g, x, y); MeanOf(p, PatchValue(p, g, x, y), ns[0], ns[1], ns[2], ns[3])
  {
    hide Neighbours, TallyOf, Bright, IsBright;
    var t := TallyOf(Neighbours(p, g, x, y), p.black);
    TallyFour(p, Neighbours(p, g, x, y));
    if t.count != 0 { MeanFloor(t.total, t.count); }
  }

  lemma TallyIs(ns: seq<int>, black: int, n: nat)
    requires 0 < n <= |ns|
    ensures var t, u := TallyOf(ns[..n], black), TallyOf(ns[..n - 1], black);
            t == if ns[n - 1] > black then Tally(u.total + ns[n - 1], u.count + 1) else u
  {
    assert ns[..n][..n - 1] == ns[..n - 1];
  }

  /** On each diagonal of the 2 x 2 pattern either both colours are green or none is. */
  predicate GreenPaired(cfa: seq<nat>) {
    |cfa| == 4 && (cfa[0] == CFA_GREEN <==> cfa[3] == CFA_GREEN) && (cfa[1] == CFA_GREEN <==> cfa[2] == CFA_GREEN)
  }

  /**
   A pixel is interpolated from pixels of its own colour only, wherever it lies, if and only if the
   pattern is such that green on a diagonal is green on both its places. Every Bayer pattern is, and so is
   the pattern of zeros that an image has by default.
   */
  lemma NeighbourColor(p: Frame)
    requires |p.cfa| == 4
    ensures (forall x: nat, y: nat, i: nat :: i < 4 ==> SameColor(p, x, y, i)) <==> GreenPaired(p.cfa)
  {
    if GreenPaired(p.cfa) {
      forall x: nat, y: nat, i: nat | i < 4
        ensures SameColor(p, x, y, i)
      {
        OwnColor(p, x, y, i);
      }
    } else {
      var x, y, i := OtherColor(p);
    }
  }

  /** A green pixel next to one of another colour on its diagonal. */
  lemma OtherColor(p: Frame) returns (x: nat, y: nat, i: nat)
    requires |p.cfa| == 4 && !GreenPaired(p.cfa)
    ensures i < 4 && !SameColor(p, x, y, i)
  {
    if p.cfa[0] == CFA_GREEN != p.cfa[3] {
      x, y, i := 0, 0, 3;
    } else if p.cfa[3] == CFA_GREEN != p.cfa[0] {
      x, y, i := 1, 1, 0;
    } else if p.cfa[1] == CFA_GREEN {
      x, y, i := 1, 0, 2;
    } else {
      x, y, i := 0, 1, 1;
    }
  }

  /** Neighbour i of pixel (x, y) has the colour of that pixel, if there is one. */
  predicate SameColor(p: Frame, x: nat, y: nat, i: nat)
    requires |p.cfa| == 4 && i < 4
  {
    var o := Offsets(CfaColor(p, x, y) == CFA_GREEN)[i];
    x + o.0 >= 0 && y + o.1 >= 0 ==> CfaColor(p, x + o.0, y + o.1) == CfaColor(p, x, y)
  }

  lemma Parity(n: nat, d: int, odd: bool)
    requires n + d >= 0 && (if odd then d == 1 || d == -1 else d == 0 || d == 2 || d == -2)
    ensures (n + d) % 2 == if odd then 1 - n % 2 else n % 2
  {
  }

  /** Green's neighbours are on the other rows and columns, the others' on their own. */
  lemma OffsetParity(green: bool, i: nat)
    requires i < 4
    ensures var o := Offsets(green)[i];
            if green then (o.0 == 1 || o.0 == -1) && (o.1 == 1 || o.1 == -1)
            else (o.0 == 0 || o.0 == 2 || o.0 == -2) && (o.1 == 0 || o.1 == 2 || o.1 == -2)
  {
    if i == 0 {} else if i == 1 {} else if i == 2 {} else {}
  }

  lemma OwnColor(p: Frame, x: nat, y: nat, i: nat)
    requires GreenPaired(p.cfa) && i < 4
    ensures SameColor(p, x, y, i)
  {
    hide Offsets;
    var green := CfaColor(p, x, y) == CFA_GREEN;
    var o := Offsets(green)[i];
    OffsetParity(green, i);
    if x + o.0 >= 0 && y + o.1 >= 0 {
      Parity(x, o.0, green);
      Parity(y, o.1, green);
    }
  }

  lemma {:induction false} NothingCounted(ns: seq<int>, black: int)
    requires TallyOf(ns, black).count == 0
    ensures TallyOf(ns, black).total == 0
  {
    if |ns| > 0 { NothingCounted(ns[..|ns| - 1], black); }
  }

  lemma AddedBetween(lo: int, hi: int, total: int, count: nat, n: int)
    requires lo * count <= total <= hi * count
    ensures (if n < lo then n else lo) * (count + 1) <= total + n <= (if n > hi then n else hi) * (count + 1)
  {
    if n < lo { assert (lo - n) * count >= 0; }
    if n > hi { assert (n - hi) * count >= 0; }
  }

  /** The mean of the counted values lies between two of them. */
  lemma {:induction false} TallyBetween(ns: seq<int>, black: int) returns (i: nat, j: nat)
    requires TallyOf(ns, black).count != 0
    ensures i < |ns| && j < |ns| && black < ns[i] && black < ns[j]
    ensures var t := TallyOf(ns, black); ns[i] * t.count <= t.total <= ns[j] * t.count
  {
    var k := |ns| - 1;
    var t := TallyOf(ns[..k], black);
    if t.count == 0 {
      NothingCounted(ns[..k], black);
      i, j := k, k;
    } else {
      i, j := TallyBetween(ns[..k], black);
      AddedBetween(ns[i], ns[j], t.total, t.count, ns[k]);
      if ns[k] > black && ns[k] < ns[i] { i := k; }
      if ns[k] > black && ns[k] > ns[j] { j := k; }
    }
  }

  lemma MeanBetween(total: int, count: nat, lo: int, hi: int)
    requires count != 0 && lo * count <= total <= hi * count
    ensures lo <= total / count <= hi
  {
    var q, r := total / count, total % count;
    assert total == count * q + r;
    Below(count, lo, q, r);
    Below(count, q, hi, 0);
  }

  lemma Below(m: nat, a: int, b: int, r: nat)
    requires r < m && m * a <= m * b + r
    ensures a <= b
  {
    var d := a - b;
    assert m * d <= r;
    Multiple(m, d);
  }

  /** A patched value lies between two neighbours that are above the black level. */
  lemma PatchBetween(p: Frame, g: Grid, x: nat, y: nat) returns (i: nat, j: nat)
    requires Framed(p, g) && PatchValue(p, g, x, y).Some?
    ensures i < 4 && j < 4
    ensures var ns := Neighbours(p, g, x, y); p.black < ns[i] <= PatchValue(p, g, x, y).value <= ns[j]
  {
    hide Neighbours;
    var ns := Neighbours(p, g, x, y);
    var t := TallyOf(ns, p.black);
    i, j := TallyBetween(ns, p.black);
    MeanBetween(t.total, t.count, ns[i], ns[j]);
  }

  /** Pixel (c, d) has the colour of (x, y) and its value is above the black level. */
  predicate Source(p: Frame, g: Grid, x: nat, y: nat, c: nat, d: nat)
    requires Framed(p, g)
  {
    c < p.width && d < p.height && CfaColor(p, c, d) == CfaColor(p, x, y) && g[d][c] > p.black
  }

  /**
   With a paired pattern, a patched value lies between two pixels of the image that have the same
   colour and are above the black level.
   */
  lemma PatchSources(p: Frame, g: Grid, x: nat, y: nat) returns (lo: (nat, nat), hi: (nat, nat))
    requires Framed(p, g) && Small(p) && GreenPaired(p.cfa) && x < p.width && y < p.height
             && PatchValue(p, g, x, y).Some?
    ensures Source(p, g, x, y, lo.0, lo.1) && Source(p, g, x, y, hi.0, hi.1)
    ensures g[lo.1][lo.0] <= PatchValue(p, g, x, y).value <= g[hi.1][hi.0]
  {
    hide PatchValue, Neighbours, Offsets, GreenPaired, CfaColor;
    var i, j := PatchBetween(p, g, x, y);
    lo := SourceOf(p, g, x, y, i);
    hi := SourceOf(p, g, x, y, j);
  }

  lemma SourceOf(p: Frame, g: Grid, x: nat, y: nat, i: nat) returns (c: (nat, nat))
    requires Framed(p, g) && Small(p) && GreenPaired(p.cfa) && x < p.width && y < p.height && i < 4
    requires Neighbours(p, g, x, y)[i] > p.black
    ensures Source(p, g, x, y, c.0, c.1) && g[c.1][c.0] == Neighbours(p, g, x, y)[i]
  {
    hide Neighbours, CfaColor, GreenPaired;
    var o := Offsets(CfaColor(p, x, y) == CFA_GREEN)[i];
    NeighbourValue(p, g, x, y, i);
    OwnColor(p, x, y, i);
    c := (x + o.0, y + o.1);
  }

  /**
   The whole scan: pixels outside the active area and pixels above the bad value are untouched; a
   patched pixel gets a value above the black level, between two pixels of its own colour as they
   were when the scan reached it; and the set of patched pixels is exactly accounted for.
   */
  lemma PatchedPixel(p: Frame, bad: int, g: Grid, a: nat, b: nat) returns (lo: (nat, nat), hi: (nat, nat))
    requires Framed(p, g) && Small(p) && GreenPaired(p.cfa) && a < p.width && b < p.height
    ensures var r := PatchFrom(p, bad, g, p.left, p.top);
            var m := Midway(p, g, r.grid, a, b);
            if (a, b) in r.patched then
              && p.left <= a < p.right && p.top <= b < p.bottom && g[b][a] <= bad
              && Source(p, m, a, b, lo.0, lo.1) && Source(p, m, a, b, hi.0, hi.1)
              && PatchValue(p, m, a, b).Some?
              && m[lo.1][lo.0] <= PatchValue(p, m, a, b).value <= m[hi.1][hi.0]
              && Mean(p, m, a, b, PatchValue(p, m, a, b))
              && r.grid[b][a] == (if StoreTakes(p.fmt, a) then PatchValue(p, m, a, b).value else g[b][a])
            else
              r.grid[b][a] == g[b][a]
  {
    hide PatchFrom, PatchValue, Midway, GreenPaired, Source, Mean;
    var r := PatchFrom(p, bad, g, p.left, p.top);
    ScanExplained(p, bad, g, p.left, p.top, a, b);
    lo, hi := (0, 0), (0, 0);
    if (a, b) in r.patched {
      lo, hi := PatchSources(p, Midway(p, g, r.grid, a, b), a, b);
      PatchIsMean(p, Midway(p, g, r.grid, a, b), a, b);
    }
  }

  /** Every pixel of colour c that is above the black level lies in lo..hi. */
  ghost predicate Hull(p: Frame, g: Grid, c: nat, lo: int, hi: int)
    requires Framed(p, g)
  {
    forall x, y :: 0 <= x < p.width && 0 <= y < p.height && CfaColor(p, x, y) == c && g[y][x] > p.black ==>
      lo <= g[y][x] <= hi
  }

  /** Interpolation invents no new extremes: each colour plane stays within the range of its good pixels. */
  lemma {:induction false} HullKept(p: Frame, bad: int, g: Grid, x: nat, y: nat, c: nat, lo: int, hi: int)
    requires Framed(p, g) && Small(p) && GreenPaired(p.cfa) && Hull(p, g, c, lo, hi)
    ensures Hull(p, PatchFrom(p, bad, g, x, y).grid, c, lo, hi)
    decreases p.bottom - y, p.right - x
  {
    hide PatchValue, GreenPaired, Hull, Store;
    if y >= p.bottom {
    } else if x >= p.right {
      HullKept(p, bad, g, p.left, y + 1, c, lo, hi);
    } else if g[y][x] > bad || PatchValue(p, g, x, y).None? {
      HullKept(p, bad, g, x + 1, y, c, lo, hi);
    } else {
      var v := PatchValue(p, g, x, y).value;
      FramedStore(p, g, x, y, v);
      HullAfterStore(p, g, x, y, c, lo, hi);
      HullKept(p, bad, Store(p.fmt, g, x, y, v), x + 1, y, c, lo, hi);
    }
  }

  lemma HullAfterStore(p: Frame, g: Grid, x: nat, y: nat, c: nat, lo: int, hi: int)
    requires Framed(p, g) && Small(p) && GreenPaired(p.cfa) && Hull(p, g, c, lo, hi) && x < p.width && y < p.height
    requires PatchValue(p, g, x, y).Some?
    ensures var h := Store(p.fmt, g, x, y, PatchValue(p, g, x, y).value); Framed(p, h) && Hull(p, h, c, lo, hi)
  {
    hide PatchValue, GreenPaired;
    var u, w := PatchSources(p, g, x, y);
    assert CfaColor(p, x, y) == c ==> lo <= g[u.1][u.0] && g[w.1][w.0] <= hi;
  }

  /** In a column that the setter takes, and with a bad value not above black, patched pixels are those that change. */
  lemma PatchedIsChanged(p: Frame, bad: int, g: Grid, a: nat, b: nat)
    requires Framed(p, g) && a < p.width && b < p.height && bad <= p.black && StoreTakes(p.fmt, a)
    ensures var r := PatchFrom(p, bad, g, p.left, p.top); (a, b) in r.patched <==> r.grid[b][a] != g[b][a]
  {
    hide PatchFrom, PatchValue, Midway;
    var r := PatchFrom(p, bad, g, p.left, p.top);
    ScanExplained(p, bad, g, p.left, p.top, a, b);
    if (a, b) in r.patched {
      var i, j := PatchBetween(p, Midway(p, g, r.grid, a, b), a, b);
    }
  }

  /** A patched value is in the range of the pixels it comes from. */
  lemma PatchInRange(p: Frame, g: Grid, x: nat, y: nat, cap: int)
    requires Framed(p, g) && PatchValue(p, g, x, y).Some? && cap > 0
    requires forall a, b :: 0 <= a < p.width && 0 <= b < p.height ==> 0 <= g[b][a] < cap
    ensures 0 <= PatchValue(p, g, x, y).value < cap
  {
    var i, j := PatchBetween(p, g, x, y);
  }
}
