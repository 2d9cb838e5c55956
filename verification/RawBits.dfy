/**
 Byte buffers as bit streams, most significant bit of each byte first, and the byte expressions
 of rawimg.c: what each of them does to the bits of the bytes it touches.
 */
module RawBits {
  import opened Buffers

  /** Bit j of a byte, counted from the most significant bit. */
  predicate ByteBit(b: bv8, j: int)
    requires 0 <= j < 8
  {
    match j
    case 0 => b & 0x80 != 0
    case 1 => b & 0x40 != 0
    case 2 => b & 0x20 != 0
    case 3 => b & 0x10 != 0
    case 4 => b & 0x08 != 0
    case 5 => b & 0x04 != 0
    case 6 => b & 0x02 != 0
    case _ => b & 0x01 != 0
  }

  /** Bit j of the low half of an unsigned int, counted from the most significant of its 16 bits. */
  predicate ValueBit(v: bv32, j: int)
    requires 0 <= j < 16
  {
    match j
    case 0 => v & 0x8000 != 0
    case 1 => v & 0x4000 != 0
    case 2 => v & 0x2000 != 0
    case 3 => v & 0x1000 != 0
    case 4 => v & 0x0800 != 0
    case 5 => v & 0x0400 != 0
    case 6 => v & 0x0200 != 0
    case 7 => v & 0x0100 != 0
    case 8 => v & 0x0080 != 0
    case 9 => v & 0x0040 != 0
    case 10 => v & 0x0020 != 0
    case 11 => v & 0x0010 != 0
    case 12 => v & 0x0008 != 0
    case 13 => v & 0x0004 != 0
    case 14 => v & 0x0002 != 0
    case _ => v & 0x0001 != 0
  }

  /** The buffer read as one bit stream. */
  function Stream(s: seq<bv8>): (bits: seq<bool>)
    ensures |bits| == 8 * |s|
  {
    seq(8 * |s|, k requires 0 <= k < 8 * |s| => ByteBit(s[k / 8], k % 8))
  }

  /** The n low bits of a value, most significant first. */
  function ValueBits(v: bv32, n: nat): (r: seq<bool>)
    requires n <= 16
    ensures |r| == n
  {
    seq(n, t requires 0 <= t < n => ValueBit(v, 16 - n + t))
  }

  lemma SameByte(a: bv8, b: bv8)
    requires forall j :: 0 <= j < 8 ==> ByteBit(a, j) == ByteBit(b, j)
    ensures a == b
  {
    assert ByteBit(a, 0) == ByteBit(b, 0) && ByteBit(a, 1) == ByteBit(b, 1) && ByteBit(a, 2) == ByteBit(b, 2)
      && ByteBit(a, 3) == ByteBit(b, 3);
    assert ByteBit(a, 4) == ByteBit(b, 4) && ByteBit(a, 5) == ByteBit(b, 5) && ByteBit(a, 6) == ByteBit(b, 6)
      && ByteBit(a, 7) == ByteBit(b, 7);
  }

  /** The stream determines the buffer. */
  lemma StreamInjective(s: seq<bv8>, t: seq<bv8>)
    requires Stream(s) == Stream(t)
    ensures s == t
  {
    hide ByteBit;
    assert 8 * |s| == 8 * |t|;
    forall i | 0 <= i < |s|
      ensures s[i] == t[i]
    {
      forall j | 0 <= j < 8
        ensures ByteBit(s[i], j) == ByteBit(t[i], j)
      {
        assert Stream(s)[8 * i + j] == Stream(t)[8 * i + j];
      }
      SameByte(s[i], t[i]);
    }
  }

  lemma SameBits16(v: bv32, w: bv32)
    requires v < 0x10000 && w < 0x10000
    requires ValueBit(v, 0) == ValueBit(w, 0) && ValueBit(v, 1) == ValueBit(w, 1) && ValueBit(v, 2) == ValueBit(w, 2)
             && ValueBit(v, 3) == ValueBit(w, 3)
    requires ValueBit(v, 4) == ValueBit(w, 4) && ValueBit(v, 5) == ValueBit(w, 5) && ValueBit(v, 6) == ValueBit(w, 6)
             && ValueBit(v, 7) == ValueBit(w, 7)
    requires ValueBit(v, 8) == ValueBit(w, 8) && ValueBit(v, 9) == ValueBit(w, 9) && ValueBit(v, 10) == ValueBit(w, 10)
             && ValueBit(v, 11) == ValueBit(w, 11)
    requires ValueBit(v, 12) == ValueBit(w, 12) && ValueBit(v, 13) == ValueBit(w, 13)
             && ValueBit(v, 14) == ValueBit(w, 14) && ValueBit(v, 15) == ValueBit(w, 15)
    ensures v == w
  {
  }

  // Fields

  /** v is the n-bit field at bit pos of the stream. */
  ghost predicate Shows(s: seq<bv8>, pos: nat, n: nat, v: bv32) {
    n <= 16 && pos + n <= 8 * |s| && Stream(s)[pos..pos + n] == ValueBits(v, n)
  }

  /** t is s with the n-bit field at pos replaced by v and every other bit kept. */
  ghost predicate Put(s: seq<bv8>, t: seq<bv8>, pos: nat, n: nat, v: bv32) {
    && |t| == |s| && n <= 16 && pos + n <= 8 * |s|
    && Stream(t) == Splice(Stream(s), pos, ValueBits(v, n))
  }

  /** A stored field reads back. */
  lemma PutShows(s: seq<bv8>, t: seq<bv8>, pos: nat, n: nat, v: bv32)
    requires Put(s, t, pos, n, v)
    ensures Shows(t, pos, n, v)
  {
    hide Stream, ValueBits;
    SpliceReads(Stream(s), pos, ValueBits(v, n));
  }

  /** Storing one field keeps every field that does not overlap it. */
  lemma PutKeeps(s: seq<bv8>, t: seq<bv8>, pos: nat, n: nat, v: bv32, other: nat, w: bv32)
    requires Put(s, t, pos, n, v) && (other + n <= pos || pos + n <= other)
    requires Shows(s, other, n, w)
    ensures Shows(t, other, n, w)
  {
    hide Stream, ValueBits;
    SpliceKeeps(Stream(s), pos, ValueBits(v, n), other, n);
  }

  /** A store is determined by the buffer before it. */
  lemma PutUnique(s: seq<bv8>, t: seq<bv8>, u: seq<bv8>, pos: nat, n: nat, v: bv32)
    requires Put(s, t, pos, n, v) && Put(s, u, pos, n, v)
    ensures t == u
  {
    hide Stream, ValueBits;
    StreamInjective(t, u);
  }

  /** Storing what a field already holds changes nothing. */
  lemma PutShown(s: seq<bv8>, pos: nat, n: nat, v: bv32)
    requires Shows(s, pos, n, v)
    ensures Put(s, s, pos, n, v)
  {
    hide Stream, ValueBits;
    assert Splice(Stream(s), pos, Stream(s)[pos..pos + n]) == Stream(s);
  }

  // Bytes of a field

  /** Bit j of byte b after the 8 - h - tail bits following its first h became those of v from lo on. */
  predicate Pick(b: bv8, v: bv32, h: nat, lo: nat, tail: nat, j: nat)
    requires h + tail <= 8 && lo + 8 - h - tail <= 16 && j < 8
  {
    if j < h || j >= 8 - tail then ByteBit(b, j) else ValueBit(v, lo + j - h)
  }

  ghost predicate Picked(x: bv8, b: bv8, v: bv32, h: nat, lo: nat, tail: nat)
    requires h + tail <= 8 && lo + 8 - h - tail <= 16
  {
    && ByteBit(x, 0) == Pick(b, v, h, lo, tail, 0) && ByteBit(x, 1) == Pick(b, v, h, lo, tail, 1)
    && ByteBit(x, 2) == Pick(b, v, h, lo, tail, 2) && ByteBit(x, 3) == Pick(b, v, h, lo, tail, 3)
    && ByteBit(x, 4) == Pick(b, v, h, lo, tail, 4) && ByteBit(x, 5) == Pick(b, v, h, lo, tail, 5)
    && ByteBit(x, 6) == Pick(b, v, h, lo, tail, 6) && ByteBit(x, 7) == Pick(b, v, h, lo, tail, 7)
  }

  /** Byte q of the w bytes that an n-bit field starting at bit off covers. */
  ghost predicate PickedByte(x: bv8, b: bv8, v: bv32, off: nat, n: nat, w: nat, q: nat)
    requires q < w && off < 8 && n <= 16 && 8 * w - 8 < off + n <= 8 * w && (w > 1 ==> off + n >= 8)
  {
    Picked(x, b, v, if q == 0 then off else 0, if q == 0 then 16 - n else 16 - n + 8 * q - off,
           if q == w - 1 then 8 * w - off - n else 0)
  }

  lemma PickedAt(x: bv8, b: bv8, v: bv32, h: nat, lo: nat, tail: nat, j: nat)
    requires h + tail <= 8 && lo + 8 - h - tail <= 16 && j < 8
    requires Picked(x, b, v, h, lo, tail)
    ensures ByteBit(x, j) == Pick(b, v, h, lo, tail, j)
  {
    hide ByteBit, ValueBit, Pick;
    assert j == 0 || j == 1 || j == 2 || j == 3 || j == 4 || j == 5 || j == 6 || j == 7;
  }

  /** Changing the bytes that a field covers so that they carry v is a store of v. */
  lemma StoredField(s: seq<bv8>, t: seq<bv8>, i: nat, w: nat, off: nat, n: nat, v: bv32)
    requires |t| == |s| && i + w <= |s| && off < 8 && n <= 16 && 8 * w - 8 < off + n <= 8 * w
             && (w > 1 ==> off + n >= 8)
    requires forall k :: 0 <= k < |s| && !(i <= k < i + w) ==> t[k] == s[k]
    requires forall k :: i <= k < i + w ==> PickedByte(t[k], s[k], v, off, n, w, k - i)
    ensures Put(s, t, 8 * i + off, n, v)
  {
    hide ByteBit, ValueBit, Picked;
    var a, b := Stream(t), Splice(Stream(s), 8 * i + off, ValueBits(v, n));
    forall k | 0 <= k < 8 * |s|
      ensures a[k] == b[k]
    {
      var p, j := k / 8, k % 8;
      if i <= p < i + w {
        var q := p - i;
        assert PickedByte(t[p], s[p], v, off, n, w, q);
        PickedAt(t[p], s[p], v, if q == 0 then off else 0, if q == 0 then 16 - n else 16 - n + 8 * q - off,
                 if q == w - 1 then 8 * w - off - n else 0, j);
      }
    }
  }

  /** Conversion of an unsigned int to uint8_t. */
  function Low8(v: bv32): bv8 { (v & 0xff) as bv8 }

  // Reads: Join<n>at<off> is the source's expression for an n-bit pixel that starts at bit off of byte a.

  function Join10at0(a: bv8, b: bv8): bv32 { (0x3fc & ((a as bv32) << 2)) | ((b >> 6) as bv32) }

  function Join10at2(a: bv8, b: bv8): bv32 { (0x3f0 & ((a as bv32) << 4)) | ((b >> 4) as bv32) }

  function Join10at4(a: bv8, b: bv8): bv32 { (0x3c0 & ((a as bv32) << 6)) | ((b >> 2) as bv32) }

  function Join10at6(a: bv8, b: bv8): bv32 { (0x300 & ((a as bv32) << 8)) | (b as bv32) }

  function Join12at0(a: bv8, b: bv8): bv32 { ((a as bv32) << 4) | ((b >> 4) as bv32) }

  function Join12at4(a: bv8, b: bv8): bv32 { (((a & 0x0F) as bv32) << 8) | (b as bv32) }

  function Join14at0(a: bv8, b: bv8): bv32 { ((a as bv32) << 6) | ((b >> 2) as bv32) }

  function Join14at6(a: bv8, b: bv8, c: bv8): bv32
  {
    (((a & 0x03) as bv32) << 12) | ((b as bv32) << 4) | ((c >> 4) as bv32)
  }

  function Join14at4(a: bv8, b: bv8, c: bv8): bv32
  {
    (((a & 0x0F) as bv32) << 10) | ((b as bv32) << 2) | ((c >> 6) as bv32)
  }

  function Join14at2(a: bv8, b: bv8): bv32 { (((a & 0x3F) as bv32) << 8) | (b as bv32) }

  function Join16at0(a: bv8, b: bv8): bv32 { ((a as bv32) << 8) | (b as bv32) }

  lemma Joined10at0(a: bv8, b: bv8)
    ensures Join10at0(a, b) < 0x400
    ensures PickedByte(a, a, Join10at0(a, b), 0, 10, 2, 0)
    ensures PickedByte(b, b, Join10at0(a, b), 0, 10, 2, 1)
  {
  }

  lemma Joined10at2(a: bv8, b: bv8)
    ensures Join10at2(a, b) < 0x400
    ensures PickedByte(a, a, Join10at2(a, b), 2, 10, 2, 0)
    ensures PickedByte(b, b, Join10at2(a, b), 2, 10, 2, 1)
  {
  }

  lemma Joined10at4(a: bv8, b: bv8)
    ensures Join10at4(a, b) < 0x400
    ensures PickedByte(a, a, Join10at4(a, b), 4, 10, 2, 0)
    ensures PickedByte(b, b, Join10at4(a, b), 4, 10, 2, 1)
  {
  }

  lemma Joined10at6(a: bv8, b: bv8)
    ensures Join10at6(a, b) < 0x400
    ensures PickedByte(a, a, Join10at6(a, b), 6, 10, 2, 0)
    ensures PickedByte(b, b, Join10at6(a, b), 6, 10, 2, 1)
  {
  }

  lemma Joined12at0(a: bv8, b: bv8)
    ensures Join12at0(a, b) < 0x1000
    ensures PickedByte(a, a, Join12at0(a, b), 0, 12, 2, 0)
    ensures PickedByte(b, b, Join12at0(a, b), 0, 12, 2, 1)
  {
  }

  lemma Joined12at4(a: bv8, b: bv8)
    ensures Join12at4(a, b) < 0x1000
    ensures PickedByte(a, a, Join12at4(a, b), 4, 12, 2, 0)
    ensures PickedByte(b, b, Join12at4(a, b), 4, 12, 2, 1)
  {
  }

  lemma Joined14at0(a: bv8, b: bv8)
    ensures Join14at0(a, b) < 0x4000
    ensures PickedByte(a, a, Join14at0(a, b), 0, 14, 2, 0)
    ensures PickedByte(b, b, Join14at0(a, b), 0, 14, 2, 1)
  {
  }

  lemma Joined14at6(a: bv8, b: bv8, c: bv8)
    ensures Join14at6(a, b, c) < 0x4000
    ensures PickedByte(a, a, Join14at6(a, b, c), 6, 14, 3, 0)
    ensures PickedByte(b, b, Join14at6(a, b, c), 6, 14, 3, 1)
    ensures PickedByte(c, c, Join14at6(a, b, c), 6, 14, 3, 2)
  {
  }

  lemma Joined14at4(a: bv8, b: bv8, c: bv8)
    ensures Join14at4(a, b, c) < 0x4000
    ensures PickedByte(a, a, Join14at4(a, b, c), 4, 14, 3, 0)
    ensures PickedByte(b, b, Join14at4(a, b, c), 4, 14, 3, 1)
    ensures PickedByte(c, c, Join14at4(a, b, c), 4, 14, 3, 2)
  {
  }

  lemma Joined14at2(a: bv8, b: bv8)
    ensures Join14at2(a, b) < 0x4000
    ensures PickedByte(a, a, Join14at2(a, b), 2, 14, 2, 0)
    ensures PickedByte(b, b, Join14at2(a, b), 2, 14, 2, 1)
  {
  }

  lemma Joined16at0(a: bv8, b: bv8)
    ensures Join16at0(a, b) < 0x10000
    ensures PickedByte(a, a, Join16at0(a, b), 0, 16, 2, 0)
    ensures PickedByte(b, b, Join16at0(a, b), 0, 16, 2, 1)
  {
  }

  lemma Joined8at0(a: bv8)
    ensures a as bv32 < 0x100 && PickedByte(a, a, a as bv32, 0, 8, 1, 0)
  {
  }

  // Bytes assigned from v >> k, bytes merged with v << k, and bytes merged with v >> k for an n-bit v.

  lemma Whole0(b: bv8, v: bv32)
    ensures Picked(Low8(v), b, v, 0, 8, 0)
  {
  }

  lemma Whole2(b: bv8, v: bv32)
    ensures Picked(Low8(v >> 2), b, v, 0, 6, 0)
  {
  }

  lemma Whole4(b: bv8, v: bv32)
    ensures Picked(Low8(v >> 4), b, v, 0, 4, 0)
  {
  }

  lemma Whole6(b: bv8, v: bv32)
    ensures Picked(Low8(v >> 6), b, v, 0, 2, 0)
  {
  }

  lemma Whole8(b: bv8, v: bv32)
    ensures Picked(Low8(v >> 8), b, v, 0, 0, 0)
  {
  }

  lemma Tail2(b: bv8, v: bv32)
    ensures Picked((b & 0x03) | Low8(v << 2), b, v, 0, 10, 2)
  {
  }

  lemma Tail4(b: bv8, v: bv32)
    ensures Picked((b & 0x0F) | Low8(v << 4), b, v, 0, 12, 4)
  {
  }

  lemma Tail6(b: bv8, v: bv32)
    ensures Picked((b & 0x3F) | Low8(v << 6), b, v, 0, 14, 6)
  {
  }

  lemma Head10by4(b: bv8, v: bv32)
    requires v < 0x400
    ensures Picked((b & 0xC0) | Low8(v >> 4), b, v, 2, 6, 0)
  {
  }

  lemma Head10by6(b: bv8, v: bv32)
    requires v < 0x400
    ensures Picked((b & 0xF0) | Low8(v >> 6), b, v, 4, 6, 0)
  {
  }

  lemma Head10by8(b: bv8, v: bv32)
    requires v < 0x400
    ensures Picked((b & 0xFC) | Low8(v >> 8), b, v, 6, 6, 0)
  {
  }

  lemma Head12by8(b: bv8, v: bv32)
    requires v < 0x1000
    ensures Picked((b & 0xF0) | Low8(v >> 8), b, v, 4, 4, 0)
  {
  }

  lemma Head14by12(b: bv8, v: bv32)
    requires v < 0x4000
    ensures Picked((b & 0xFC) | Low8(v >> 12), b, v, 6, 2, 0)
  {
  }

  lemma Head14by10(b: bv8, v: bv32)
    requires v < 0x4000
    ensures Picked((b & 0xF0) | Low8(v >> 10), b, v, 4, 2, 0)
  {
  }

  lemma Head14by8(b: bv8, v: bv32)
    requires v < 0x4000
    ensures Picked((b & 0xC0) | Low8(v >> 8), b, v, 2, 2, 0)
  {
  }

  // Writes: Split<n>at<off> are the bytes the source stores for an n-bit pixel that starts at bit off of byte a.

  function Split10at0(a: bv8, b: bv8, v: bv32): (bv8, bv8) { (Low8(v >> 2), (b & 0x3F) | Low8(v << 6)) }

  function Split10at2(a: bv8, b: bv8, v: bv32): (bv8, bv8) { ((a & 0xC0) | Low8(v >> 4), (b & 0x0F) | Low8(v << 4)) }

  function Split10at4(a: bv8, b: bv8, v: bv32): (bv8, bv8) { ((a & 0xF0) | Low8(v >> 6), (b & 0x03) | Low8(v << 2)) }

  function Split10at6(a: bv8, b: bv8, v: bv32): (bv8, bv8) { ((a & 0xFC) | Low8(v >> 8), Low8(v)) }

  function Split12at0(a: bv8, b: bv8, v: bv32): (bv8, bv8) { (Low8(v >> 4), (b & 0x0F) | Low8(v << 4)) }

  function Split12at4(a: bv8, b: bv8, v: bv32): (bv8, bv8) { ((a & 0xF0) | Low8(v >> 8), Low8(v)) }

  function Split14at0(a: bv8, b: bv8, v: bv32): (bv8, bv8) { (Low8(v >> 6), (b & 0x03) | Low8(v << 2)) }

  function Split14at6(a: bv8, b: bv8, c: bv8, v: bv32): (bv8, bv8, bv8)
  {
    ((a & 0xFC) | Low8(v >> 12), Low8(v >> 4), (c & 0x0F) | Low8(v << 4))
  }

  function Split14at4(a: bv8, b: bv8, c: bv8, v: bv32): (bv8, bv8, bv8)
  {
    ((a & 0xF0) | Low8(v >> 10), Low8(v >> 2), (c & 0x3F) | Low8(v << 6))
  }

  function Split14at2(a: bv8, b: bv8, v: bv32): (bv8, bv8) { ((a & 0xC0) | Low8(v >> 8), Low8(v)) }

  function Split16at0(a: bv8, b: bv8, v: bv32): (bv8, bv8) { (Low8(v >> 8), Low8(v)) }

  /** The value has at most n bits, for the widths that pixels have. */
  predicate Narrow(v: bv32, n: nat) {
    match n
    case 8 => v < 0x100
    case 10 => v < 0x400
    case 12 => v < 0x1000
    case 14 => v < 0x4000
    case 16 => v < 0x10000
    case _ => false
  }

  lemma Splitted10at0(a: bv8, b: bv8, v: bv32)
    ensures Narrow(v, 10) ==> PickedByte(Split10at0(a, b, v).0, a, v, 0, 10, 2, 0)
    ensures Narrow(v, 10) ==> PickedByte(Split10at0(a, b, v).1, b, v, 0, 10, 2, 1)
  {
    hide ByteBit, ValueBit, Pick, Low8;
    if Narrow(v, 10) {
      Whole2(a, v);
      Tail6(b, v);
    }
  }

  lemma Splitted10at2(a: bv8, b: bv8, v: bv32)
    ensures Narrow(v, 10) ==> PickedByte(Split10at2(a, b, v).0, a, v, 2, 10, 2, 0)
    ensures Narrow(v, 10) ==> PickedByte(Split10at2(a, b, v).1, b, v, 2, 10, 2, 1)
  {
    hide ByteBit, ValueBit, Pick, Low8;
    if Narrow(v, 10) {
      Head10by4(a, v);
      Tail4(b, v);
    }
  }

  lemma Splitted10at4(a: bv8, b: bv8, v: bv32)
    ensures Narrow(v, 10) ==> PickedByte(Split10at4(a, b, v).0, a, v, 4, 10, 2, 0)
    ensures Narrow(v, 10) ==> PickedByte(Split10at4(a, b, v).1, b, v, 4, 10, 2, 1)
  {
    hide ByteBit, ValueBit, Pick, Low8;
    if Narrow(v, 10) {
      Head10by6(a, v);
      Tail2(b, v);
    }
  }

  lemma Splitted10at6(a: bv8, b: bv8, v: bv32)
    ensures Narrow(v, 10) ==> PickedByte(Split10at6(a, b, v).0, a, v, 6, 10, 2, 0)
    ensures Narrow(v, 10) ==> PickedByte(Split10at6(a, b, v).1, b, v, 6, 10, 2, 1)
  {
    hide ByteBit, ValueBit, Pick, Low8;
    if Narrow(v, 10) {
      Head10by8(a, v);
      Whole0(b, v);
    }
  }

  lemma Splitted12at0(a: bv8, b: bv8, v: bv32)
    ensures Narrow(v, 12) ==> PickedByte(Split12at0(a, b, v).0, a, v, 0, 12, 2, 0)
    ensures Narrow(v, 12) ==> PickedByte(Split12at0(a, b, v).1, b, v, 0, 12, 2, 1)
  {
    hide ByteBit, ValueBit, Pick, Low8;
    if Narrow(v, 12) {
      Whole4(a, v);
      Tail4(b, v);
    }
  }

  lemma Splitted12at4(a: bv8, b: bv8, v: bv32)
    ensures Narrow(v, 12) ==> PickedByte(Split12at4(a, b, v).0, a, v, 4, 12, 2, 0)
    ensures Narrow(v, 12) ==> PickedByte(Split12at4(a, b, v).1, b, v, 4, 12, 2, 1)
  {
    hide ByteBit, ValueBit, Pick, Low8;
    if Narrow(v, 12) {
      Head12by8(a, v);
      Whole0(b, v);
    }
  }

  lemma Splitted14at0(a: bv8, b: bv8, v: bv32)
    ensures Narrow(v, 14) ==> PickedByte(Split14at0(a, b, v).0, a, v, 0, 14, 2, 0)
    ensures Narrow(v, 14) ==> PickedByte(Split14at0(a, b, v).1, b, v, 0, 14, 2, 1)
  {
    hide ByteBit, ValueBit, Pick, Low8;
    if Narrow(v, 14) {
      Whole6(a, v);
      Tail2(b, v);
    }
  }

  lemma Splitted14at6(a: bv8, b: bv8, c: bv8, v: bv32)
    ensures Narrow(v, 14) ==> PickedByte(Split14at6(a, b, c, v).0, a, v, 6, 14, 3, 0)
    ensures Narrow(v, 14) ==> PickedByte(Split14at6(a, b, c, v).1, b, v, 6, 14, 3, 1)
    ensures Narrow(v, 14) ==> PickedByte(Split14at6(a, b, c, v).2, c, v, 6, 14, 3, 2)
  {
    hide ByteBit, ValueBit, Pick, Low8;
    if Narrow(v, 14) {
      Head14by12(a, v);
      Whole4(b, v);
      Tail4(c, v);
    }
  }

  lemma Splitted14at4(a: bv8, b: bv8, c: bv8, v: bv32)
    ensures Narrow(v, 14) ==> PickedByte(Split14at4(a, b, c, v).0, a, v, 4, 14, 3, 0)
    ensures Narrow(v, 14) ==> PickedByte(Split14at4(a, b, c, v).1, b, v, 4, 14, 3, 1)
    ensures Narrow(v, 14) ==> PickedByte(Split14at4(a, b, c, v).2, c, v, 4, 14, 3, 2)
  {
    hide ByteBit, ValueBit, Pick, Low8;
    if Narrow(v, 14) {
      Head14by10(a, v);
      Whole2(b, v);
      Tail6(c, v);
    }
  }

  lemma Splitted14at2(a: bv8, b: bv8, v: bv32)
    ensures Narrow(v, 14) ==> PickedByte(Split14at2(a, b, v).0, a, v, 2, 14, 2, 0)
    ensures Narrow(v, 14) ==> PickedByte(Split14at2(a, b, v).1, b, v, 2, 14, 2, 1)
  {
    hide ByteBit, ValueBit, Pick, Low8;
    if Narrow(v, 14) {
      Head14by8(a, v);
      Whole0(b, v);
    }
  }

  lemma Splitted16at0(a: bv8, b: bv8, v: bv32)
    ensures Narrow(v, 16) ==> PickedByte(Split16at0(a, b, v).0, a, v, 0, 16, 2, 0)
    ensures Narrow(v, 16) ==> PickedByte(Split16at0(a, b, v).1, b, v, 0, 16, 2, 1)
  {
    hide ByteBit, ValueBit, Pick, Low8;
    if Narrow(v, 16) {
      Whole8(a, v);
      Whole0(b, v);
    }
  }
}
