/** What the number that patch_pixels reports means (rawimg.c: the Lua method img:patch_pixels). */
module RawCount {
  import opened Words
  import opened RawFormat
  import opened RawValues
  import opened RawGrid
  import opened RawPatch

  /** Neighbour i of a pixel lies in the image, after the unsigned arithmetic on its coordinates. */
  predicate NeighbourInside(p: Frame, a: nat, b: nat, i: nat)
    requires |p.cfa| == 4 && i < 4
  {
    var o := Offsets(CfaColor(p, a, b) == CFA_GREEN)[i];
    U32(a + o.0) < p.width && U32(b + o.1) < p.height
  }

  predicate HasNeighbour(p: Frame, a: nat, b: nat)
    requires |p.cfa| == 4
  {
    exists i :: 0 <= i < 4 && NeighbourInside(p, a, b, i)
  }

  predicate InRange(p: Frame, g: Grid)
    requires Framed(p, g)
  {
    forall x, y :: 0 <= x < p.width && 0 <= y < p.height ==> 0 <= g[y][x] < Cap(p.fmt)
  }

  /** The pixels of an image whose values differ afterwards. */
  function Changed(p: Frame, was: Grid, now: Grid): set<(nat, nat)>
    requires Framed(p, was) && Framed(p, now)
  {
    set a: nat, b: nat | a < p.width && b < p.height && now[b][a] != was[b][a] :: (a, b)
  }

  /** The count that is reported for an image is the number of its pixels that are modified. */
  predicate CountsChanges(p: Frame, bad: nat, g: Grid)
    requires Framed(p, g)
  {
    var r := PatchFrom(p, bad, g, p.left, p.top);
    |r.patched| == |Changed(p, g, r.grid)|
  }

  /**
   No pixel that can be patched at all can be given the value that it has, or be left out by the
   setter: a bad value is not above the black level, and the setter takes the column. If no value
   is above the black level, nothing is ever patched.
   */
  predicate ChangesAll(p: Frame, bad: nat)
    requires |p.cfa| == 4
  {
    p.black + 1 >= Cap(p.fmt)
    || forall a, b :: p.left <= a < p.right && p.top <= b < p.bottom && HasNeighbour(p, a, b) ==>
         bad <= p.black && StoreTakes(p.fmt, a)
  }

  /** The reported count is the number of modified pixels, for every image, if and only if ChangesAll. */
  lemma PatchCount(p: Frame, bad: nat)
    requires Sane(p) && p.width < U32_SIZE && p.height < U32_SIZE
    ensures (forall g: Grid :: Framed(p, g) && InRange(p, g) ==> CountsChanges(p, bad, g)) <==> ChangesAll(p, bad)
  {
    hide InRange, CountsChanges, HasNeighbour, Cap;
    if ChangesAll(p, bad) {
      forall g: Grid | Framed(p, g) && InRange(p, g)
        ensures CountsChanges(p, bad, g)
      {
        CountRight(p, bad, g);
      }
    } else {
      var a, b :| p.left <= a < p.right && p.top <= b < p.bottom && HasNeighbour(p, a, b)
                  && !(bad <= p.black && StoreTakes(p.fmt, a));
      var g := CountWrong(p, bad, a, b);
    }
  }

  lemma SameSize<T>(a: set<T>, b: set<T>)
    requires a <= b
    ensures |a| == |b| <==> a == b
  {
    assert b == a + (b - a);
  }

  /** Patched pixels are pixels of the active area. */
  lemma {:induction false} PatchedInside(p: Frame, bad: nat, g: Grid, x: nat, y: nat)
    requires Framed(p, g)
    ensures forall q :: q in PatchFrom(p, bad, g, x, y).patched ==> q.0 < p.right && q.1 < p.bottom
    decreases p.bottom - y, p.right - x
  {
    hide PatchValue, Store;
    if y >= p.bottom {
    } else if x >= p.right {
      PatchedInside(p, bad, g, p.left, y + 1);
    } else if g[y][x] > bad || PatchValue(p, g, x, y).None? {
      PatchedInside(p, bad, g, x + 1, y);
    } else {
      FramedStore(p, g, x, y, PatchValue(p, g, x, y).value);
      PatchedInside(p, bad, Store(p.fmt, g, x, y, PatchValue(p, g, x, y).value), x + 1, y);
    }
  }

  /** Only patched pixels change, so the count is right exactly if all of them do. */
  lemma CountIsAll(p: Frame, bad: nat, g: Grid)
    requires Framed(p, g)
    ensures var r := PatchFrom(p, bad, g, p.left, p.top);
            Changed(p, g, r.grid) <= r.patched && (CountsChanges(p, bad, g) <==> Changed(p, g, r.grid) == r.patched)
  {
    hide PatchFrom, PatchValue, Midway;
    var r := PatchFrom(p, bad, g, p.left, p.top);
    forall q | q in Changed(p, g, r.grid)
      ensures q in r.patched
    {
      ScanExplained(p, bad, g, p.left, p.top, q.0, q.1);
    }
    SameSize(Changed(p, g, r.grid), r.patched);
  }

  lemma StoreInRange(p: Frame, g: Grid, x: nat, y: nat)
    requires Framed(p, g) && InRange(p, g) && x < p.width && y < p.height && PatchValue(p, g, x, y).Some?
    ensures var h := Store(p.fmt, g, x, y, PatchValue(p, g, x, y).value); Framed(p, h) && InRange(p, h)
  {
    hide PatchValue, Cap;
    CapPositive(p.fmt);
    PatchInRange(p, g, x, y, Cap(p.fmt));
  }

  lemma CapPositive(f: Format)
    ensures Cap(f) > 0
  {
  }

  lemma {:induction false} ScanInRange(p: Frame, bad: nat, g: Grid, x: nat, y: nat)
    requires Framed(p, g) && InRange(p, g)
    ensures InRange(p, PatchFrom(p, bad, g, x, y).grid)
    decreases p.bottom - y, p.right - x
  {
    hide PatchValue, Store, InRange;
    if y >= p.bottom {
    } else if x >= p.right {
      ScanInRange(p, bad, g, p.left, y + 1);
    } else if g[y][x] > bad || PatchValue(p, g, x, y).None? {
      ScanInRange(p, bad, g, x + 1, y);
    } else {
      StoreInRange(p, g, x, y);
      ScanInRange(p, bad, Store(p.fmt, g, x, y, PatchValue(p, g, x, y).value), x + 1, y);
    }
  }

  lemma MidwayInRange(p: Frame, start: Grid, final: Grid, x: nat, y: nat)
    requires Framed(p, start) && Framed(p, final) && InRange(p, start) && InRange(p, final)
    ensures InRange(p, Midway(p, start, final, x, y))
  {
    hide Cap;
  }

  /** A neighbour value above the black level is that of a pixel of the image. */
  lemma SeenInside(p: Frame, g: Grid, a: nat, b: nat, i: nat)
    requires Framed(p, g) && InRange(p, g) && i < 4 && Neighbours(p, g, a, b)[i] > p.black
    ensures HasNeighbour(p, a, b) && Neighbours(p, g, a, b)[i] < Cap(p.fmt)
  {
    hide U32, Cap, CfaColor;
    var o := Offsets(CfaColor(p, a, b) == CFA_GREEN)[i];
    assert Neighbours(p, g, a, b)[i] == PixelSafe(p, g, U32(a + o.0), U32(b + o.1));
    assert NeighbourInside(p, a, b, i);
  }

  lemma CountRight(p: Frame, bad: nat, g: Grid)
    requires Sane(p) && p.width < U32_SIZE && p.height < U32_SIZE && Framed(p, g) && InRange(p, g) && ChangesAll(p, bad)
    ensures CountsChanges(p, bad, g)
  {
    hide PatchFrom, PatchValue, Midway, InRange, Neighbours, Cap, HasNeighbour, Visits, StoreTakes;
    var r := PatchFrom(p, bad, g, p.left, p.top);
    CountIsAll(p, bad, g);
    PatchedInside(p, bad, g, p.left, p.top);
    ScanInRange(p, bad, g, p.left, p.top);
    forall q | q in r.patched
      ensures q in Changed(p, g, r.grid)
    {
      PatchedChanges(p, bad, g, q.0, q.1);
    }
  }

  lemma PatchedChanges(p: Frame, bad: nat, g: Grid, a: nat, b: nat)
    requires Sane(p) && p.width < U32_SIZE && p.height < U32_SIZE && Framed(p, g) && InRange(p, g)
             && ChangesAll(p, bad) && a < p.width && b < p.height
    requires (a, b) in PatchFrom(p, bad, g, p.left, p.top).patched
    ensures PatchFrom(p, bad, g, p.left, p.top).grid[b][a] != g[b][a]
  {
    hide PatchFrom, PatchValue, Midway, InRange, Neighbours, Cap, HasNeighbour, StoreTakes;
    var r := PatchFrom(p, bad, g, p.left, p.top);
    var m := Midway(p, g, r.grid, a, b);
    ScanExplained(p, bad, g, p.left, p.top, a, b);
    ScanInRange(p, bad, g, p.left, p.top);
    MidwayInRange(p, g, r.grid, a, b);
    var i, j := PatchBetween(p, m, a, b);
    SeenInside(p, m, a, b, i);
    PatchedIsChanged(p, bad, g, a, b);
  }

  // Images for which the count is wrong

  /** The scan would leave a pixel alone as long as the image is this one. */
  predicate Still(p: Frame, bad: nat, g: Grid, a: nat, b: nat)
    requires Framed(p, g) && a < p.width && b < p.height
  {
    || g[b][a] > bad || !StoreTakes(p.fmt, a)
    || PatchValue(p, g, a, b) == None || PatchValue(p, g, a, b) == Some(g[b][a])
  }

  lemma StoreSame(p: Frame, g: Grid, a: nat, b: nat, v: int)
    requires Framed(p, g) && a < p.width && b < p.height && (v == g[b][a] || !StoreTakes(p.fmt, a))
    ensures Store(p.fmt, g, a, b, v) == g
  {
    if StoreTakes(p.fmt, a) { assert g[b][a := v] == g[b]; }
  }

  lemma {:induction false} ScanStill(p: Frame, bad: nat, g: Grid, x: nat, y: nat)
    requires Framed(p, g) && p.left <= x && p.top <= y
    requires forall a, b :: p.left <= a < p.right && p.top <= b < p.bottom ==> Still(p, bad, g, a, b)
    ensures PatchFrom(p, bad, g, x, y).grid == g
    decreases p.bottom - y, p.right - x
  {
    hide PatchValue, Store, StoreTakes;
    if y >= p.bottom {
    } else if x >= p.right {
      ScanStill(p, bad, g, p.left, y + 1);
    } else if g[y][x] > bad || PatchValue(p, g, x, y).None? {
      ScanStill(p, bad, g, x + 1, y);
    } else {
      assert Still(p, bad, g, x, y);
      StoreSame(p, g, x, y, PatchValue(p, g, x, y).value);
      ScanStill(p, bad, g, x + 1, y);
    }
  }

  lemma {:induction false} SomeCounted(ns: seq<int>, black: int, i: nat)
    requires i < |ns| && ns[i] > black
    ensures TallyOf(ns, black).count != 0
    decreases |ns|
  {
    var n := |ns| - 1;
    if i < n {
      assert ns[..n][i] == ns[i];
      SomeCounted(ns[..n], black, i);
    }
  }

  /** A patched pixel whose value stays makes the count too large. */
  lemma StillCounted(p: Frame, bad: nat, g: Grid, a: nat, b: nat)
    requires Framed(p, g) && p.left <= a < p.right && p.top <= b < p.bottom && g[b][a] <= bad
             && PatchValue(p, g, a, b).Some?
    requires forall c, d :: p.left <= c < p.right && p.top <= d < p.bottom ==> Still(p, bad, g, c, d)
    ensures !CountsChanges(p, bad, g)
  {
    hide PatchFrom, PatchValue, Still;
    var r := PatchFrom(p, bad, g, p.left, p.top);
    ScanStill(p, bad, g, p.left, p.top);
    SameGrid(Midway(p, g, g, a, b), g, p.width, p.height);
    ScanExplained(p, bad, g, p.left, p.top, a, b);
    CountIsAll(p, bad, g);
    assert (a, b) in r.patched && (a, b) !in Changed(p, g, r.grid);
  }

  /** In an image of one value above the black level, patching a pixel gives it that value. */
  lemma UniformPatch(p: Frame, v: int, a: nat, b: nat)
    requires Sane(p) && p.width < U32_SIZE && p.height < U32_SIZE && v > p.black
    ensures Framed(p, Uniform(p.width, p.height, v))
    ensures var w := PatchValue(p, Uniform(p.width, p.height, v), a, b);
            (w == None || w == Some(v)) && (HasNeighbour(p, a, b) ==> w == Some(v))
  {
    hide U32, Offsets, CfaColor;
    var g := Uniform(p.width, p.height, v);
    var ns := Neighbours(p, g, a, b);
    assert forall k :: 0 <= k < 4 ==> ns[k] == if NeighbourInside(p, a, b, k) then v else 0;
    if PatchValue(p, g, a, b).Some? {
      var i, j := PatchBetween(p, g, a, b);
    }
    if HasNeighbour(p, a, b) {
      var i :| 0 <= i < 4 && NeighbourInside(p, a, b, i);
      SomeCounted(ns, p.black, i);
    }
  }

  lemma MovedAway(x: nat, d: int)
    requires x < U32_SIZE && -2 <= d <= 2 && d != 0
    ensures U32(x + d) != x
  {
  }

  /** No pixel is its own neighbour. */
  lemma NotSelf(p: Frame, a: nat, b: nat, i: nat)
    requires |p.cfa| == 4 && i < 4 && a < U32_SIZE && b < U32_SIZE
    ensures var o := Offsets(CfaColor(p, a, b) == CFA_GREEN)[i]; U32(a + o.0) != a || U32(b + o.1) != b
  {
    hide U32, CfaColor;
    var o := Offsets(CfaColor(p, a, b) == CFA_GREEN)[i];
    assert -2 <= o.0 <= 2 && -2 <= o.1 <= 2 && (o.0 != 0 || o.1 != 0);
    if o.0 != 0 { MovedAway(a, o.0); } else { MovedAway(b, o.1); }
  }

  /** One black pixel among bright ones is given a value. */
  lemma LonePatch(p: Frame, g: Grid, a: nat, b: nat)
    requires Sane(p) && p.width < U32_SIZE && p.height < U32_SIZE && Framed(p, g) && a < p.width && b < p.height
             && HasNeighbour(p, a, b)
    requires forall c, d :: 0 <= c < p.width && 0 <= d < p.height && (c != a || d != b) ==> g[d][c] > p.black
    ensures PatchValue(p, g, a, b).Some?
  {
    hide U32, Offsets, CfaColor;
    var i :| 0 <= i < 4 && NeighbourInside(p, a, b, i);
    var o := Offsets(CfaColor(p, a, b) == CFA_GREEN)[i];
    NotSelf(p, a, b, i);
    var c, d := U32(a + o.0), U32(b + o.1);
    assert Neighbours(p, g, a, b)[i] == PixelSafe(p, g, c, d) == g[d][c];
    SomeCounted(Neighbours(p, g, a, b), p.black, i);
  }

  /** An image for which the count is wrong, for a pixel that can be patched without being changed. */
  lemma CountWrong(p: Frame, bad: nat, a: nat, b: nat) returns (g: Grid)
    requires Sane(p) && p.width < U32_SIZE && p.height < U32_SIZE && p.black + 1 < Cap(p.fmt) && p.left <= a < p.right
             && p.top <= b < p.bottom
             && HasNeighbour(p, a, b)
    requires bad > p.black || !StoreTakes(p.fmt, a)
    ensures Framed(p, g) && InRange(p, g) && !CountsChanges(p, bad, g)
  {
    hide PatchFrom, PatchValue, CountsChanges, HasNeighbour, Cap, StoreTakes;
    if bad > p.black {
      var v := p.black + 1;
      g := Uniform(p.width, p.height, v);
      forall c, d | p.left <= c < p.right && p.top <= d < p.bottom
        ensures Still(p, bad, g, c, d)
      {
        UniformPatch(p, v, c, d);
      }
      UniformPatch(p, v, a, b);
    } else {
      var bright := Uniform(p.width, p.height, Cap(p.fmt) - 1);
      g := Assign(bright, a, b, 0);
      LonePatch(p, g, a, b);
    }
    StillCounted(p, bad, g, a, b);
  }
}
