/**
 The nine packed pixel layouts of rawimg.c. Getters are functions of the buffer, setters update
 it in place; both are tied to one description of the layout: pixel (x, y) is the bpp-bit field
 at bit x * bpp of row y, in a stream that the little-endian layouts store with byte pairs swapped.
 */
module RawFormat {
  import opened Arithmetic
  import opened RawBits
  import opened Lbuf

  datatype Format = F8l | F10l | F10b | F12l | F12b | F14l | F14b | F16l | F16b

  function Bpp(f: Format): (n: nat)
    ensures 8 <= n <= 16
  {
    match f
    case F8l => 8
    case F10l | F10b => 10
    case F12l | F12b => 12
    case F14l | F14b => 14
    case F16l | F16b => 16
  }

  function BlockBytes(f: Format): (n: nat)
    ensures n > 0
  {
    match f
    case F8l => 1
    case F10l => 10
    case F10b => 5
    case F12l => 6
    case F12b => 3
    case F14l => 14
    case F14b => 7
    case F16l | F16b => 2
  }

  /** RAW_BLOCK_BYTES * 8 / bpp. */
  function BlockPixels(f: Format): (n: nat)
    ensures n > 0 && n == BlockBytes(f) * 8 / Bpp(f)
  {
    match f
    case F10l | F14l => 8
    case F10b | F12l | F14b => 4
    case F12b => 2
    case F8l | F16l | F16b => 1
  }

  /** Values of a layout are below this limit. */
  function Limit(f: Format): bv32 {
    match f
    case F8l => 0x100
    case F10l | F10b => 0x400
    case F12l | F12b => 0x1000
    case F14l | F14b => 0x4000
    case F16l | F16b => 0x10000
  }

  /** Layouts that store the stream with the bytes of each pair exchanged. */
  predicate Swaps(f: Format) { f in {F10l, F12l, F14l, F16l} }

  /** The layout of the same width that stores the stream in order. */
  function InOrder(f: Format): Format {
    match f
    case F10l => F10b
    case F12l => F12b
    case F14l => F14b
    case F16l => F16b
    case _ => f
  }

  /** The block that holds pixel x of the row at byte offset row lies inside a buffer of len bytes. */
  predicate InBlock(f: Format, len: nat, row: nat, x: nat) {
    row + x / BlockPixels(f) * BlockBytes(f) + BlockBytes(f) <= len
  }

  /** Rows of layouts with swapped bytes start at even offsets, as bind_lbuf establishes. */
  predicate Aligned(f: Format, row: nat) { Swaps(f) ==> row % 2 == 0 }

  /** First bit of pixel x of the row at byte offset row. */
  function PixelPos(f: Format, row: nat, x: nat): nat {
    8 * row + Bpp(f) * x
  }

  // Getters

  function GetPixel8l(p: seq<bv8>, row: nat, x: nat): bv32
    requires InBlock(F8l, |p|, row, x)
  {
    p[row + x] as bv32
  }

  function GetPixel10l(p: seq<bv8>, row: nat, x: nat): bv32
    requires InBlock(F10l, |p|, row, x)
  {
    var a := row + x / 8 * 10;
    match x % 8
    case 0 => Join10at0(p[a + 1], p[a])
    case 1 => Join10at2(p[a], p[a + 3])
    case 2 => Join10at4(p[a + 3], p[a + 2])
    case 3 => Join10at6(p[a + 2], p[a + 5])
    case 4 => Join10at0(p[a + 4], p[a + 7])
    case 5 => Join10at2(p[a + 7], p[a + 6])
    case 6 => Join10at4(p[a + 6], p[a + 9])
    case _ => Join10at6(p[a + 9], p[a + 8])
  }

  function GetPixel10b(p: seq<bv8>, row: nat, x: nat): bv32
    requires InBlock(F10b, |p|, row, x)
  {
    var a := row + x / 4 * 5;
    match x % 4
    case 0 => Join10at0(p[a], p[a + 1])
    case 1 => Join10at2(p[a + 1], p[a + 2])
    case 2 => Join10at4(p[a + 2], p[a + 3])
    case _ => Join10at6(p[a + 3], p[a + 4])
  }

  function GetPixel12l(p: seq<bv8>, row: nat, x: nat): bv32
    requires InBlock(F12l, |p|, row, x)
  {
    var a := row + x / 4 * 6;
    match x % 4
    case 0 => Join12at0(p[a + 1], p[a])
    case 1 => Join12at4(p[a], p[a + 3])
    case 2 => Join12at0(p[a + 2], p[a + 5])
    case _ => Join12at4(p[a + 5], p[a + 4])
  }

  function GetPixel12b(p: seq<bv8>, row: nat, x: nat): bv32
    requires InBlock(F12b, |p|, row, x)
  {
    var a := row + x / 2 * 3;
    match x % 2
    case 0 => Join12at0(p[a], p[a + 1])
    case _ => Join12at4(p[a + 1], p[a + 2])
  }

  function GetPixel14l(p: seq<bv8>, row: nat, x: nat): bv32
    requires InBlock(F14l, |p|, row, x)
  {
    var a := row + x / 8 * 14;
    match x % 8
    case 0 => Join14at0(p[a + 1], p[a])
    case 1 => Join14at6(p[a], p[a + 3], p[a + 2])
    case 2 => Join14at4(p[a + 2], p[a + 5], p[a + 4])
    case 3 => Join14at2(p[a + 4], p[a + 7])
    case 4 => Join14at0(p[a + 6], p[a + 9])
    case 5 => Join14at6(p[a + 9], p[a + 8], p[a + 11])
    case 6 => Join14at4(p[a + 11], p[a + 10], p[a + 13])
    case _ => Join14at2(p[a + 13], p[a + 12])
  }

  function GetPixel14b(p: seq<bv8>, row: nat, x: nat): bv32
    requires InBlock(F14b, |p|, row, x)
  {
    var a := row + x / 4 * 7;
    match x % 4
    case 0 => Join14at0(p[a], p[a + 1])
    case 1 => Join14at6(p[a + 1], p[a + 2], p[a + 3])
    case 2 => Join14at4(p[a + 3], p[a + 4], p[a + 5])
    case _ => Join14at2(p[a + 5], p[a + 6])
  }

  /** The source reads a host short; the host is little-endian. */
  function GetPixel16l(p: seq<bv8>, row: nat, x: nat): bv32
    requires InBlock(F16l, |p|, row, x)
  {
    Join16at0(p[row + x * 2 + 1], p[row + x * 2])
  }

  function GetPixel16b(p: seq<bv8>, row: nat, x: nat): bv32
    requires InBlock(F16b, |p|, row, x)
  {
    Join16at0(p[row + x * 2], p[row + x * 2 + 1])
  }

  /** Dispatch through the format table. */
  function GetPixel(f: Format, p: seq<bv8>, row: nat, x: nat): bv32
    requires InBlock(f, |p|, row, x)
  {
    match f
    case F8l => GetPixel8l(p, row, x)
    case F10l => GetPixel10l(p, row, x)
    case F10b => GetPixel10b(p, row, x)
    case F12l => GetPixel12l(p, row, x)
    case F12b => GetPixel12b(p, row, x)
    case F14l => GetPixel14l(p, row, x)
    case F14b => GetPixel14b(p, row, x)
    case F16l => GetPixel16l(p, row, x)
    case F16b => GetPixel16b(p, row, x)
  }

  // What the getters read

  /** Pixel x of the row starts Bpp * (x mod block) bits into its block. */
  lemma PhasePos(f: Format, row: nat, x: nat, n: nat)
    requires n == BlockPixels(f)
    ensures PixelPos(f, row, x) == 8 * (row + x / n * BlockBytes(f)) + Bpp(f) * (x % n)
  {
    assert x == n * (x / n) + x % n;
  }

  lemma EvenBlock(row: nat, half: nat)
    requires row % 2 == 0
    ensures (row + 2 * half) % 2 == 0
  {
    DivModIs(row + 2 * half, 2, row / 2 + half, 0);
  }

  // Where the pixels of each layout lie, with the numbers filled in

  lemma Place10l(len: nat, row: nat, x: nat)
    requires InBlock(F10l, len, row, x)
    ensures row + x / 8 * 10 + 10 <= len && Bpp(F10l) == 10
    ensures PixelPos(F10l, row, x) == 8 * (row + x / 8 * 10) + 10 * (x % 8)
    ensures row % 2 == 0 ==> (row + x / 8 * 10) % 2 == 0
  {
    PhasePos(F10l, row, x, 8);
    if row % 2 == 0 { EvenBlock(row, x / 8 * 5); }
  }

  lemma Place10b(len: nat, row: nat, x: nat)
    requires InBlock(F10b, len, row, x)
    ensures row + x / 4 * 5 + 5 <= len && Bpp(F10b) == 10
    ensures PixelPos(F10b, row, x) == 8 * (row + x / 4 * 5) + 10 * (x % 4)
  {
    PhasePos(F10b, row, x, 4);
  }

  lemma Place12l(len: nat, row: nat, x: nat)
    requires InBlock(F12l, len, row, x)
    ensures row + x / 4 * 6 + 6 <= len && Bpp(F12l) == 12
    ensures PixelPos(F12l, row, x) == 8 * (row + x / 4 * 6) + 12 * (x % 4)
    ensures row % 2 == 0 ==> (row + x / 4 * 6) % 2 == 0
  {
    PhasePos(F12l, row, x, 4);
    if row % 2 == 0 { EvenBlock(row, x / 4 * 3); }
  }

  lemma Place12b(len: nat, row: nat, x: nat)
    requires InBlock(F12b, len, row, x)
    ensures row + x / 2 * 3 + 3 <= len && Bpp(F12b) == 12
    ensures PixelPos(F12b, row, x) == 8 * (row + x / 2 * 3) + 12 * (x % 2)
  {
    PhasePos(F12b, row, x, 2);
  }

  lemma Place14l(len: nat, row: nat, x: nat)
    requires InBlock(F14l, len, row, x)
    ensures row + x / 8 * 14 + 14 <= len && Bpp(F14l) == 14
    ensures PixelPos(F14l, row, x) == 8 * (row + x / 8 * 14) + 14 * (x % 8)
    ensures row % 2 == 0 ==> (row + x / 8 * 14) % 2 == 0
  {
    PhasePos(F14l, row, x, 8);
    if row % 2 == 0 { EvenBlock(row, x / 8 * 7); }
  }

  lemma Place14b(len: nat, row: nat, x: nat)
    requires InBlock(F14b, len, row, x)
    ensures row + x / 4 * 7 + 7 <= len && Bpp(F14b) == 14
    ensures PixelPos(F14b, row, x) == 8 * (row + x / 4 * 7) + 14 * (x % 4)
  {
    PhasePos(F14b, row, x, 4);
  }

  lemma EvenPlaces(a: nat)
    requires a % 2 == 0
    ensures PlaceOf(true, a) == a + 1 && PlaceOf(true, a + 1) == a && PlaceOf(true, a + 2) == a + 3
            && PlaceOf(true, a + 3) == a + 2
    ensures PlaceOf(true, a + 4) == a + 5 && PlaceOf(true, a + 5) == a + 4 && PlaceOf(true, a + 6) == a + 7
            && PlaceOf(true, a + 7) == a + 6
    ensures PlaceOf(true, a + 8) == a + 9 && PlaceOf(true, a + 9) == a + 8 && PlaceOf(true, a + 10) == a + 11
            && PlaceOf(true, a + 11) == a + 10
    ensures PlaceOf(true, a + 12) == a + 13 && PlaceOf(true, a + 13) == a + 12
  {
  }

  lemma FalsePlaces()
    ensures forall k: nat :: PlaceOf(false, k) == k
  {
  }

  /** i and j hold bytes k and k + 1 of the ordered buffer. */
  ghost predicate Places2(swap: bool, len: nat, k: nat, i: nat, j: nat) {
    i < len && j < len && i != j && k + 1 < len && i == PlaceOf(swap, k) && j == PlaceOf(swap, k + 1)
  }

  ghost predicate Places3(swap: bool, len: nat, k: nat, i: nat, j: nat, m: nat) {
    Places2(swap, len, k, i, j) && m < len && m != i && m != j && k + 2 < len && m == PlaceOf(swap, k + 2)
  }

  lemma Read2(swap: bool, p: seq<bv8>, pos: nat, k: nat, i: nat, j: nat, off: nat, n: nat, v: bv32)
    requires Places2(swap, |p|, k, i, j) && pos == 8 * k + off && off < 8 && n <= 16 && 8 < off + n <= 16
    requires PickedByte(p[i], p[i], v, off, n, 2, 0) && PickedByte(p[j], p[j], v, off, n, 2, 1)
    ensures Shows(Ordered(swap, p), pos, n, v)
  {
    hide PickedByte, Shows, Put;
    OrderedAt(swap, p, k);
    OrderedAt(swap, p, k + 1);
    StoredField(Ordered(swap, p), Ordered(swap, p), k, 2, off, n, v);
    PutShows(Ordered(swap, p), Ordered(swap, p), pos, n, v);
  }

  lemma Read3(swap: bool, p: seq<bv8>, pos: nat, k: nat, i: nat, j: nat, m: nat, off: nat, n: nat, v: bv32)
    requires Places3(swap, |p|, k, i, j, m) && pos == 8 * k + off && off < 8 && n <= 16 && 16 < off + n <= 24
    requires PickedByte(p[i], p[i], v, off, n, 3, 0) && PickedByte(p[j], p[j], v, off, n, 3, 1)
             && PickedByte(p[m], p[m], v, off, n, 3, 2)
    ensures Shows(Ordered(swap, p), pos, n, v)
  {
    hide PickedByte, Shows, Put;
    OrderedAt(swap, p, k);
    OrderedAt(swap, p, k + 1);
    OrderedAt(swap, p, k + 2);
    StoredField(Ordered(swap, p), Ordered(swap, p), k, 3, off, n, v);
    PutShows(Ordered(swap, p), Ordered(swap, p), pos, n, v);
  }

  /** v is what the layout says pixel x of the row is. */
  ghost predicate IsPixel(f: Format, p: seq<bv8>, row: nat, x: nat, v: bv32) {
    v < Limit(f) && Shows(Ordered(Swaps(f), p), PixelPos(f, row, x), Bpp(f), v)
  }

  lemma GetField8l(p: seq<bv8>, row: nat, x: nat)
    requires InBlock(F8l, |p|, row, x)
    ensures IsPixel(F8l, p, row, x, GetPixel8l(p, row, x))
  {
    hide Shows, Put, Picked;
    var v := GetPixel8l(p, row, x);
    Joined8at0(p[row + x]);
    StoredField(p, p, row + x, 1, 0, 8, v);
    PutShows(p, p, 8 * (row + x), 8, v);
  }

  lemma GetField10l(p: seq<bv8>, row: nat, x: nat)
    requires InBlock(F10l, |p|, row, x) && row % 2 == 0
    ensures IsPixel(F10l, p, row, x, GetPixel10l(p, row, x))
  {
    hide PickedByte, Shows, PlaceOf, InBlock, PixelPos, Bpp, BlockBytes, BlockPixels;
    var a, pos, v := row + x / 8 * 10, PixelPos(F10l, row, x), GetPixel10l(p, row, x);
    Place10l(|p|, row, x);
    EvenPlaces(a);
    match x % 8
    case 0 =>
      Joined10at0(p[a + 1], p[a]);
      Read2(true, p, pos, a, a + 1, a, 0, 10, v);
    case 1 =>
      Joined10at2(p[a], p[a + 3]);
      Read2(true, p, pos, a + 1, a, a + 3, 2, 10, v);
    case 2 =>
      Joined10at4(p[a + 3], p[a + 2]);
      Read2(true, p, pos, a + 2, a + 3, a + 2, 4, 10, v);
    case 3 =>
      Joined10at6(p[a + 2], p[a + 5]);
      Read2(true, p, pos, a + 3, a + 2, a + 5, 6, 10, v);
    case 4 =>
      Joined10at0(p[a + 4], p[a + 7]);
      Read2(true, p, pos, a + 5, a + 4, a + 7, 0, 10, v);
    case 5 =>
      Joined10at2(p[a + 7], p[a + 6]);
      Read2(true, p, pos, a + 6, a + 7, a + 6, 2, 10, v);
    case 6 =>
      Joined10at4(p[a + 6], p[a + 9]);
      Read2(true, p, pos, a + 7, a + 6, a + 9, 4, 10, v);
    case _ =>
      Joined10at6(p[a + 9], p[a + 8]);
      Read2(true, p, pos, a + 8, a + 9, a + 8, 6, 10, v);
  }

  lemma GetField10b(p: seq<bv8>, row: nat, x: nat)
    requires InBlock(F10b, |p|, row, x)
    ensures IsPixel(F10b, p, row, x, GetPixel10b(p, row, x))
  {
    hide PickedByte, Shows, InBlock, PixelPos, Bpp, BlockBytes, BlockPixels;
    var a, pos, v := row + x / 4 * 5, PixelPos(F10b, row, x), GetPixel10b(p, row, x);
    Place10b(|p|, row, x);
    match x % 4
    case 0 =>
      Joined10at0(p[a], p[a + 1]);
      Read2(false, p, pos, a, a, a + 1, 0, 10, v);
    case 1 =>
      Joined10at2(p[a + 1], p[a + 2]);
      Read2(false, p, pos, a + 1, a + 1, a + 2, 2, 10, v);
    case 2 =>
      Joined10at4(p[a + 2], p[a + 3]);
      Read2(false, p, pos, a + 2, a + 2, a + 3, 4, 10, v);
    case _ =>
      Joined10at6(p[a + 3], p[a + 4]);
      Read2(false, p, pos, a + 3, a + 3, a + 4, 6, 10, v);
  }

  lemma GetField12l(p: seq<bv8>, row: nat, x: nat)
    requires InBlock(F12l, |p|, row, x) && row % 2 == 0
    ensures IsPixel(F12l, p, row, x, GetPixel12l(p, row, x))
  {
    hide PickedByte, Shows, PlaceOf, InBlock, PixelPos, Bpp, BlockBytes, BlockPixels;
    var a, pos, v := row + x / 4 * 6, PixelPos(F12l, row, x), GetPixel12l(p, row, x);
    Place12l(|p|, row, x);
    EvenPlaces(a);
    match x % 4
    case 0 =>
      Joined12at0(p[a + 1], p[a]);
      Read2(true, p, pos, a, a + 1, a, 0, 12, v);
    case 1 =>
      Joined12at4(p[a], p[a + 3]);
      Read2(true, p, pos, a + 1, a, a + 3, 4, 12, v);
    case 2 =>
      Joined12at0(p[a + 2], p[a + 5]);
      Read2(true, p, pos, a + 3, a + 2, a + 5, 0, 12, v);
    case _ =>
      Joined12at4(p[a + 5], p[a + 4]);
      Read2(true, p, pos, a + 4, a + 5, a + 4, 4, 12, v);
  }

  lemma GetField12b(p: seq<bv8>, row: nat, x: nat)
    requires InBlock(F12b, |p|, row, x)
    ensures IsPixel(F12b, p, row, x, GetPixel12b(p, row, x))
  {
    hide PickedByte, Shows, InBlock, PixelPos, Bpp, BlockBytes, BlockPixels;
    var a, pos, v := row + x / 2 * 3, PixelPos(F12b, row, x), GetPixel12b(p, row, x);
    Place12b(|p|, row, x);
    match x % 2
    case 0 =>
      Joined12at0(p[a], p[a + 1]);
      Read2(false, p, pos, a, a, a + 1, 0, 12, v);
    case _ =>
      Joined12at4(p[a + 1], p[a + 2]);
      Read2(false, p, pos, a + 1, a + 1, a + 2, 4, 12, v);
  }

  lemma GetField14l(p: seq<bv8>, row: nat, x: nat)
    requires InBlock(F14l, |p|, row, x) && row % 2 == 0
    ensures IsPixel(F14l, p, row, x, GetPixel14l(p, row, x))
  {
    hide PickedByte, Shows, PlaceOf, InBlock, PixelPos, Bpp, BlockBytes, BlockPixels;
    var a, pos, v := row + x / 8 * 14, PixelPos(F14l, row, x), GetPixel14l(p, row, x);
    Place14l(|p|, row, x);
    EvenPlaces(a);
    match x % 8
    case 0 =>
      Joined14at0(p[a + 1], p[a]);
      Read2(true, p, pos, a, a + 1, a, 0, 14, v);
    case 1 =>
      Joined14at6(p[a], p[a + 3], p[a + 2]);
      Read3(true, p, pos, a + 1, a, a + 3, a + 2, 6, 14, v);
    case 2 =>
      Joined14at4(p[a + 2], p[a + 5], p[a + 4]);
      Read3(true, p, pos, a + 3, a + 2, a + 5, a + 4, 4, 14, v);
    case 3 =>
      Joined14at2(p[a + 4], p[a + 7]);
      Read2(true, p, pos, a + 5, a + 4, a + 7, 2, 14, v);
    case 4 =>
      Joined14at0(p[a + 6], p[a + 9]);
      Read2(true, p, pos, a + 7, a + 6, a + 9, 0, 14, v);
    case 5 =>
      Joined14at6(p[a + 9], p[a + 8], p[a + 11]);
      Read3(true, p, pos, a + 8, a + 9, a + 8, a + 11, 6, 14, v);
    case 6 =>
      Joined14at4(p[a + 11], p[a + 10], p[a + 13]);
      Read3(true, p, pos, a + 10, a + 11, a + 10, a + 13, 4, 14, v);
    case _ =>
      Joined14at2(p[a + 13], p[a + 12]);
      Read2(true, p, pos, a + 12, a + 13, a + 12, 2, 14, v);
  }

  lemma GetField14b(p: seq<bv8>, row: nat, x: nat)
    requires InBlock(F14b, |p|, row, x)
    ensures IsPixel(F14b, p, row, x, GetPixel14b(p, row, x))
  {
    hide PickedByte, Shows, InBlock, PixelPos, Bpp, BlockBytes, BlockPixels;
    var a, pos, v := row + x / 4 * 7, PixelPos(F14b, row, x), GetPixel14b(p, row, x);
    Place14b(|p|, row, x);
    match x % 4
    case 0 =>
      Joined14at0(p[a], p[a + 1]);
      Read2(false, p, pos, a, a, a + 1, 0, 14, v);
    case 1 =>
      Joined14at6(p[a + 1], p[a + 2], p[a + 3]);
      Read3(false, p, pos, a + 1, a + 1, a + 2, a + 3, 6, 14, v);
    case 2 =>
      Joined14at4(p[a + 3], p[a + 4], p[a + 5]);
      Read3(false, p, pos, a + 3, a + 3, a + 4, a + 5, 4, 14, v);
    case _ =>
      Joined14at2(p[a + 5], p[a + 6]);
      Read2(false, p, pos, a + 5, a + 5, a + 6, 2, 14, v);
  }

  lemma GetField16(f: Format, p: seq<bv8>, row: nat, x: nat)
    requires f in {F16l, F16b} && InBlock(f, |p|, row, x) && Aligned(f, row)
    ensures IsPixel(f, p, row, x, GetPixel(f, p, row, x))
  {
    hide PickedByte, Shows, PlaceOf;
    var a, pos := row + x * 2, PixelPos(f, row, x);
    if f.F16l? {
      EvenPlaces(a);
      Joined16at0(p[a + 1], p[a]);
      Read2(true, p, pos, a, a + 1, a, 0, 16, GetPixel16l(p, row, x));
    } else {
      FalsePlaces();
      Joined16at0(p[a], p[a + 1]);
      Read2(false, p, pos, a, a, a + 1, 0, 16, GetPixel16b(p, row, x));
    }
  }

  /** Every getter returns the bpp-bit field at bit x * bpp of the row, in the layout's byte order. */
  lemma GetIsPixel(f: Format, p: seq<bv8>, row: nat, x: nat)
    requires InBlock(f, |p|, row, x) && Aligned(f, row)
    ensures IsPixel(f, p, row, x, GetPixel(f, p, row, x))
  {
    hide Shows;
    match f
    case F8l => GetField8l(p, row, x);
    case F10l => GetField10l(p, row, x);
    case F10b => GetField10b(p, row, x);
    case F12l => GetField12l(p, row, x);
    case F12b => GetField12b(p, row, x);
    case F14l => GetField14l(p, row, x);
    case F14b => GetField14b(p, row, x);
    case F16l => GetField16(f, p, row, x);
    case F16b => GetField16(f, p, row, x);
  }

  // Setters

  method Store2(p: array<bv8>, i: nat, j: nat, w: (bv8, bv8), ghost swap: bool, ghost pos: nat, ghost k: nat,
                ghost off: nat, ghost n: nat, ghost v: bv32)
    requires Places2(swap, p.Length, k, i, j) && pos == 8 * k + off && off < 8 && n <= 16 && 8 < off + n <= 16
    modifies p
    ensures old(PickedByte(w.0, p[i], v, off, n, 2, 0) && PickedByte(w.1, p[j], v, off, n, 2, 1)) ==>
              Put(Ordered(swap, old(p[..])), Ordered(swap, p[..]), pos, n, v)
  {
    hide PickedByte, Put, PlaceOf, Ordered;
    ghost var s := p[..];
    p[i], p[j] := w.0, w.1;
    assert p[..] == s[i := w.0][j := w.1];
    OrderedUpdate(swap, s, k, w.0);
    OrderedUpdate(swap, s[i := w.0], k + 1, w.1);
    if PickedByte(w.0, s[i], v, off, n, 2, 0) && PickedByte(w.1, s[j], v, off, n, 2, 1) {
      OrderedAt(swap, s, k + 1);
      StoredField(Ordered(swap, s), Ordered(swap, p[..]), k, 2, off, n, v);
    }
  }

  method Store3(p: array<bv8>, i: nat, j: nat, m: nat, w: (bv8, bv8, bv8), ghost swap: bool, ghost pos: nat,
                ghost k: nat, ghost off: nat, ghost n: nat, ghost v: bv32)
    requires Places3(swap, p.Length, k, i, j, m) && pos == 8 * k + off && off < 8 && n <= 16 && 16 < off + n <= 24
    modifies p
    ensures old(PickedByte(w.0, p[i], v, off, n, 3, 0) && PickedByte(w.1, p[j], v, off, n, 3, 1)
                && PickedByte(w.2, p[m], v, off, n, 3, 2)) ==>
              Put(Ordered(swap, old(p[..])), Ordered(swap, p[..]), pos, n, v)
  {
    hide PickedByte, Put, PlaceOf, Ordered;
    ghost var s := p[..];
    p[i], p[j], p[m] := w.0, w.1, w.2;
    assert p[..] == s[i := w.0][j := w.1][m := w.2];
    OrderedUpdate(swap, s, k, w.0);
    OrderedUpdate(swap, s[i := w.0], k + 1, w.1);
    OrderedUpdate(swap, s[i := w.0][j := w.1], k + 2, w.2);
    if PickedByte(w.0, s[i], v, off, n, 3, 0) && PickedByte(w.1, s[j], v, off, n, 3, 1)
      && PickedByte(w.2, s[m], v, off, n, 3, 2) {
      OrderedAt(swap, s, k + 1);
      OrderedAt(swap, s, k + 2);
      StoredField(Ordered(swap, s), Ordered(swap, p[..]), k, 3, off, n, v);
    }
  }

  /** A store of v to pixel x of the row wrote its field and nothing else. */
  ghost predicate WrotePixel(f: Format, s: seq<bv8>, t: seq<bv8>, row: nat, x: nat, v: bv32) {
    Put(Ordered(Swaps(f), s), Ordered(Swaps(f), t), PixelPos(f, row, x), Bpp(f), v)
  }

  method SetPixel8l(p: array<bv8>, row: nat, x: nat, value: bv32)
    requires InBlock(F8l, p.Length, row, x)
    modifies p
    ensures Narrow(value, 8) ==> WrotePixel(F8l, old(p[..]), p[..], row, x, value)
  {
    hide Picked, Put;
    ghost var s := p[..];
    p[row + x] := Low8(value);
    assert p[..] == s[row + x := Low8(value)];
    Whole0(s[row + x], value);
    StoredField(s, p[..], row + x, 1, 0, 8, value);
  }

  method SetPixel10l(p: array<bv8>, row: nat, x: nat, value: bv32)
    requires InBlock(F10l, p.Length, row, x) && row % 2 == 0
    modifies p
    ensures Narrow(value, 10) ==> WrotePixel(F10l, old(p[..]), p[..], row, x, value)
  {
    hide Narrow, PickedByte, Put, PlaceOf, Split10at0, Split10at2, Split10at4, Split10at6, Ordered, InBlock, PixelPos,
      Bpp, BlockBytes, BlockPixels;
    var a := row + x / 8 * 10;
    ghost var pos := PixelPos(F10l, row, x);
    Place10l(p.Length, row, x);
    EvenPlaces(a);
    match x % 8 {
      case 0 =>
        Splitted10at0(p[a + 1], p[a], value);
        Store2(p, a + 1, a, Split10at0(p[a + 1], p[a], value), true, pos, a, 0, 10, value);
      case 1 =>
        Splitted10at2(p[a], p[a + 3], value);
        Store2(p, a, a + 3, Split10at2(p[a], p[a + 3], value), true, pos, a + 1, 2, 10, value);
      case 2 =>
        Splitted10at4(p[a + 3], p[a + 2], value);
        Store2(p, a + 3, a + 2, Split10at4(p[a + 3], p[a + 2], value), true, pos, a + 2, 4, 10, value);
      case 3 =>
        Splitted10at6(p[a + 2], p[a + 5], value);
        Store2(p, a + 2, a + 5, Split10at6(p[a + 2], p[a + 5], value), true, pos, a + 3, 6, 10, value);
      case 4 =>
        Splitted10at0(p[a + 4], p[a + 7], value);
        Store2(p, a + 4, a + 7, Split10at0(p[a + 4], p[a + 7], value), true, pos, a + 5, 0, 10, value);
      case 5 =>
        Splitted10at2(p[a + 7], p[a + 6], value);
        Store2(p, a + 7, a + 6, Split10at2(p[a + 7], p[a + 6], value), true, pos, a + 6, 2, 10, value);
      case 6 =>
        Splitted10at4(p[a + 6], p[a + 9], value);
        Store2(p, a + 6, a + 9, Split10at4(p[a + 6], p[a + 9], value), true, pos, a + 7, 4, 10, value);
      case _ =>
        Splitted10at6(p[a + 9], p[a + 8], value);
        Store2(p, a + 9, a + 8, Split10at6(p[a + 9], p[a + 8], value), true, pos, a + 8, 6, 10, value);
    }
  }

  method SetPixel10b(p: array<bv8>, row: nat, x: nat, value: bv32)
    requires InBlock(F10b, p.Length, row, x)
    modifies p
    ensures Narrow(value, 10) ==> WrotePixel(F10b, old(p[..]), p[..], row, x, value)
  {
    hide Narrow, PickedByte, Put, Split10at0, Split10at2, Split10at4, Split10at6, Ordered, InBlock, PixelPos, Bpp,
      BlockBytes, BlockPixels;
    var a := row + x / 4 * 5;
    ghost var pos := PixelPos(F10b, row, x);
    Place10b(p.Length, row, x);
    match x % 4 {
      case 0 =>
        Splitted10at0(p[a], p[a + 1], value);
        Store2(p, a, a + 1, Split10at0(p[a], p[a + 1], value), false, pos, a, 0, 10, value);
      case 1 =>
        Splitted10at2(p[a + 1], p[a + 2], value);
        Store2(p, a + 1, a + 2, Split10at2(p[a + 1], p[a + 2], value), false, pos, a + 1, 2, 10, value);
      case 2 =>
        Splitted10at4(p[a + 2], p[a + 3], value);
        Store2(p, a + 2, a + 3, Split10at4(p[a + 2], p[a + 3], value), false, pos, a + 2, 4, 10, value);
      case _ =>
        Splitted10at6(p[a + 3], p[a + 4], value);
        Store2(p, a + 3, a + 4, Split10at6(p[a + 3], p[a + 4], value), false, pos, a + 3, 6, 10, value);
    }
  }

  method SetPixel12l(p: array<bv8>, row: nat, x: nat, value: bv32)
    requires InBlock(F12l, p.Length, row, x) && row % 2 == 0
    modifies p
    ensures Narrow(value, 12) ==> WrotePixel(F12l, old(p[..]), p[..], row, x, value)
  {
    hide Narrow, PickedByte, Put, PlaceOf, Split12at0, Split12at4, Ordered, InBlock, PixelPos, Bpp, BlockBytes,
      BlockPixels;
    var a := row + x / 4 * 6;
    ghost var pos := PixelPos(F12l, row, x);
    Place12l(p.Length, row, x);
    EvenPlaces(a);
    match x % 4 {
      case 0 =>
        Splitted12at0(p[a + 1], p[a], value);
        Store2(p, a + 1, a, Split12at0(p[a + 1], p[a], value), true, pos, a, 0, 12, value);
      case 1 =>
        Splitted12at4(p[a], p[a + 3], value);
        Store2(p, a, a + 3, Split12at4(p[a], p[a + 3], value), true, pos, a + 1, 4, 12, value);
      case 2 =>
        Splitted12at0(p[a + 2], p[a + 5], value);
        Store2(p, a + 2, a + 5, Split12at0(p[a + 2], p[a + 5], value), true, pos, a + 3, 0, 12, value);
      case _ =>
        Splitted12at4(p[a + 5], p[a + 4], value);
        Store2(p, a + 5, a + 4, Split12at4(p[a + 5], p[a + 4], value), true, pos, a + 4, 4, 12, value);
    }
  }

  method SetPixel12b(p: array<bv8>, row: nat, x: nat, value: bv32)
    requires InBlock(F12b, p.Length, row, x)
    modifies p
    ensures Narrow(value, 12) ==> WrotePixel(F12b, old(p[..]), p[..], row, x, value)
  {
    hide Narrow, PickedByte, Put, Split12at0, Split12at4, Ordered, InBlock, PixelPos, Bpp, BlockBytes, BlockPixels;
    var a := row + x / 2 * 3;
    ghost var pos := PixelPos(F12b, row, x);
    Place12b(p.Length, row, x);
    match x % 2 {
      case 0 =>
        Splitted12at0(p[a], p[a + 1], value);
        Store2(p, a, a + 1, Split12at0(p[a], p[a + 1], value), false, pos, a, 0, 12, value);
      case _ =>
        Splitted12at4(p[a + 1], p[a + 2], value);
        Store2(p, a + 1, a + 2, Split12at4(p[a + 1], p[a + 2], value), false, pos, a + 1, 4, 12, value);
    }
  }

  method SetPixel14l(p: array<bv8>, row: nat, x: nat, value: bv32)
    requires InBlock(F14l, p.Length, row, x) && row % 2 == 0
    modifies p
    ensures Narrow(value, 14) ==> WrotePixel(F14l, old(p[..]), p[..], row, x, value)
  {
    hide Narrow, PickedByte, Put, PlaceOf, Split14at0, Split14at2, Split14at4, Split14at6, Ordered, InBlock, PixelPos,
      Bpp, BlockBytes, BlockPixels;
    var a := row + x / 8 * 14;
    ghost var pos := PixelPos(F14l, row, x);
    Place14l(p.Length, row, x);
    EvenPlaces(a);
    match x % 8 {
      case 0 =>
        Splitted14at0(p[a + 1], p[a], value);
        Store2(p, a + 1, a, Split14at0(p[a + 1], p[a], value), true, pos, a, 0, 14, value);
      case 1 =>
        Splitted14at6(p[a], p[a + 3], p[a + 2], value);
        Store3(p, a, a + 3, a + 2, Split14at6(p[a], p[a + 3], p[a + 2], value), true, pos, a + 1, 6, 14, value);
      case 2 =>
        Splitted14at4(p[a + 2], p[a + 5], p[a + 4], value);
        Store3(p, a + 2, a + 5, a + 4, Split14at4(p[a + 2], p[a + 5], p[a + 4], value), true, pos, a + 3, 4, 14, value);
      case 3 =>
        Splitted14at2(p[a + 4], p[a + 7], value);
        Store2(p, a + 4, a + 7, Split14at2(p[a + 4], p[a + 7], value), true, pos, a + 5, 2, 14, value);
      case 4 =>
        Splitted14at0(p[a + 6], p[a + 9], value);
        Store2(p, a + 6, a + 9, Split14at0(p[a + 6], p[a + 9], value), true, pos, a + 7, 0, 14, value);
      case 5 =>
        Splitted14at6(p[a + 9], p[a + 8], p[a + 11], value);
        Store3(p, a + 9, a + 8, a + 11, Split14at6(p[a + 9], p[a + 8], p[a + 11], value), true, pos, a + 8, 6, 14,
               value);
      case 6 =>
        Splitted14at4(p[a + 11], p[a + 10], p[a + 13], value);
        Store3(p, a + 11, a + 10, a + 13, Split14at4(p[a + 11], p[a + 10], p[a + 13], value), true, pos, a + 10, 4, 14,
               value);
      case _ =>
        Splitted14at2(p[a + 13], p[a + 12], value);
        Store2(p, a + 13, a + 12, Split14at2(p[a + 13], p[a + 12], value), true, pos, a + 12, 2, 14, value);
    }
  }

  /** The source selects the stores by x % 8, so pixels with x % 8 in 4..7 are not written at all. */
  method SetPixel14b(p: array<bv8>, row: nat, x: nat, value: bv32)
    requires InBlock(F14b, p.Length, row, x)
    modifies p
    ensures Narrow(value, 14) && x % 8 < 4 ==> WrotePixel(F14b, old(p[..]), p[..], row, x, value)
    ensures x % 8 >= 4 ==> p[..] == old(p[..])
  {
    hide Narrow, PickedByte, Put, Split14at0, Split14at2, Split14at4, Split14at6, Ordered, InBlock, PixelPos, Bpp,
      BlockBytes, BlockPixels;
    var a := row + x / 4 * 7;
    ghost var pos := PixelPos(F14b, row, x);
    Place14b(p.Length, row, x);
    match x % 8 {
      case 0 =>
        Splitted14at0(p[a], p[a + 1], value);
        Store2(p, a, a + 1, Split14at0(p[a], p[a + 1], value), false, pos, a, 0, 14, value);
      case 1 =>
        Splitted14at6(p[a + 1], p[a + 2], p[a + 3], value);
        Store3(p, a + 1, a + 2, a + 3, Split14at6(p[a + 1], p[a + 2], p[a + 3], value), false, pos, a + 1, 6, 14,
               value);
      case 2 =>
        Splitted14at4(p[a + 3], p[a + 4], p[a + 5], value);
        Store3(p, a + 3, a + 4, a + 5, Split14at4(p[a + 3], p[a + 4], p[a + 5], value), false, pos, a + 3, 4, 14,
               value);
      case 3 =>
        Splitted14at2(p[a + 5], p[a + 6], value);
        Store2(p, a + 5, a + 6, Split14at2(p[a + 5], p[a + 6], value), false, pos, a + 5, 2, 14, value);
      case _ =>
    }
  }

  method SetPixel16l(p: array<bv8>, row: nat, x: nat, value: bv32)
    requires InBlock(F16l, p.Length, row, x) && row % 2 == 0
    modifies p
    ensures Narrow(value, 16) ==> WrotePixel(F16l, old(p[..]), p[..], row, x, value)
  {
    hide Narrow, PickedByte, Put, PlaceOf, Split16at0, Ordered;
    var a := row + x * 2;
    EvenPlaces(a);
    Splitted16at0(p[a + 1], p[a], value);
    Store2(p, a + 1, a, Split16at0(p[a + 1], p[a], value), true, PixelPos(F16l, row, x), a, 0, 16, value);
  }

  method SetPixel16b(p: array<bv8>, row: nat, x: nat, value: bv32)
    requires InBlock(F16b, p.Length, row, x)
    modifies p
    ensures Narrow(value, 16) ==> WrotePixel(F16b, old(p[..]), p[..], row, x, value)
  {
    hide Narrow, PickedByte, Put, Split16at0, Ordered;
    var a := row + x * 2;
    Splitted16at0(p[a], p[a + 1], value);
    Store2(p, a, a + 1, Split16at0(p[a], p[a + 1], value), false, PixelPos(F16b, row, x), a, 0, 16, value);
  }

  /** Whether the setter of the layout writes pixel x at all. */
  predicate StoreTakes(f: Format, x: nat) { f.F14b? ==> x % 8 < 4 }

  /** Dispatch through the format table. */
  method SetPixel(f: Format, p: array<bv8>, row: nat, x: nat, value: bv32)
    requires InBlock(f, p.Length, row, x) && Aligned(f, row)
    modifies p
    ensures value < Limit(f) && StoreTakes(f, x) ==> WrotePixel(f, old(p[..]), p[..], row, x, value)
    ensures !StoreTakes(f, x) ==> p[..] == old(p[..])
  {
    hide Put;
    match f
    case F8l => SetPixel8l(p, row, x, value);
    case F10l => SetPixel10l(p, row, x, value);
    case F10b => SetPixel10b(p, row, x, value);
    case F12l => SetPixel12l(p, row, x, value);
    case F12b => SetPixel12b(p, row, x, value);
    case F14l => SetPixel14l(p, row, x, value);
    case F14b => SetPixel14b(p, row, x, value);
    case F16l => SetPixel16l(p, row, x, value);
    case F16b => SetPixel16b(p, row, x, value);
  }
}
