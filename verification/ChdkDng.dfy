/** Sub-image DNGs: rc_process_dng of chdku.lua puts the data into a full image of 0xff bytes. */
module ChdkDng {
  import opened Arithmetic
  import opened Buffers
  import opened Words
  import opened Lbuf

  const PADDING: bv8 := 0xff

  /** Byte k of padding, data and padding again. */
  function PaddedByte(data: seq<bv8>, offset: nat, k: nat): bv8 {
    if offset <= k < offset + |data| then data[k - offset] else PADDING
  }

  function Padded(full: nat, data: seq<bv8>, offset: nat): (s: seq<bv8>)
    ensures |s| == full
  {
    seq(full, k requires 0 <= k < full => PaddedByte(data, offset, k))
  }

  function Pads(n: nat): (s: seq<bv8>)
    ensures |s| == n && forall k :: 0 <= k < n ==> s[k] == 0xff
  {
    seq(n, _ => PADDING)
  }

  /** If the sub-image fits, the result is padding, the data and padding of exactly the full size. */
  lemma PaddedFits(full: nat, data: seq<bv8>, offset: nat)
    requires offset + |data| <= full
    ensures Padded(full, data, offset) == Pads(offset) + data + Pads(full - offset - |data|)
  {
  }

  /** If it does not, the end of the data is cut off. */
  lemma PaddedCut(full: nat, data: seq<bv8>, offset: nat)
    requires offset <= full <= offset + |data|
    ensures Padded(full, data, offset) == Pads(offset) + data[..full - offset]
  {
  }

  /** The line offset of the source, whose fraction every fill drops. */
  function DataOffset(width: nat, lstart: nat, bpp: nat): nat { width * lstart * bpp / 8 }

  /** Where a line starts: at a byte of its own if lines are whole bytes, and else in the middle of the byte here. */
  lemma OffsetOfLine(width: nat, lstart: nat, bpp: nat)
    ensures 8 * DataOffset(width, lstart, bpp) <= lstart * (width * bpp) < 8 * DataOffset(width, lstart, bpp) + 8
    ensures width * bpp % 8 == 0 ==> DataOffset(width, lstart, bpp) == lstart * (width * bpp / 8)
  {
    Reordered(width, lstart, bpp);
    if width * bpp % 8 == 0 {
      var n := width * bpp / 8;
      Reordered(8, lstart, n);
      DivModIs(width * lstart * bpp, 8, lstart * n, 0);
    }
  }

  lemma Reordered(a: nat, b: nat, c: nat)
    ensures a * b * c == b * (a * c)
  {
  }

  lemma FillOnes(full: nat, offset: nat, count: Option<nat>)
    requires full < U32_SIZE - 1 && (count.Some? ==> count.value < U32_SIZE)
    ensures FillSize(full, 1, offset, count) ==
            if offset >= full then 0
            else if count.Some? && count.value < full - offset then count.value else full - offset
  {
    assert full / 1 == full;
  }

  lemma FillOnce(full: nat, n: nat, offset: nat)
    requires n < U32_SIZE
    ensures FillSize(full, n, offset, Some(1))
            == if n == 0 || offset >= full then 0 else if n < full - offset then n else full - offset
  {
  }

  lemma PatternOfOne(n: nat, k: nat)
    requires k < n
    ensures Pattern([PADDING], n)[k] == PADDING
  {
  }

  /** What one fill leaves at a position. */
  lemma FillAt(was: seq<bv8>, now: seq<bv8>, offset: nat, piece: seq<bv8>, k: nat)
    requires now == if piece == [] then was else if offset + |piece| <= |was| then Splice(was, offset, piece) else was
    requires piece == [] || offset + |piece| <= |was|
    requires k < |was|
    ensures |now| == |was| && now[k] == if offset <= k < offset + |piece| then piece[k - offset] else was[k]
  {
  }

  /**
   The three fills that make a full image of a sub-image: bytes in front of the data, the data, and
   the rest, for sizes below the point where the default count would wrap around.
   */
  method PadSubImage(full: nat, data: seq<bv8>, width: nat, lstart: nat, bpp: nat) returns (raw: array<bv8>)
    requires full < U32_SIZE - 1 && DataOffset(width, lstart, bpp) + |data| < U32_SIZE
    ensures fresh(raw) && raw[..] == Padded(full, data, DataOffset(width, lstart, bpp))
  {
    hide Splice, Pattern, FillSize, DataOffset;
    raw := new bv8[full];
    var offset := DataOffset(width, lstart, bpp);
    ghost var s0 := raw[..];
    var n1 := Fill(raw, [PADDING], 0, Some(offset));
    ghost var s1 := raw[..];
    var n2 := Fill(raw, data, offset, Some(1));
    ghost var s2 := raw[..];
    var n3 := Fill(raw, [PADDING], offset + |data|, None);
    FillOnes(full, 0, Some(offset));
    FillOnce(full, |data|, offset);
    FillOnes(full, offset + |data|, None);
    forall k | 0 <= k < full
      ensures raw[..][k] == PaddedByte(data, offset, k)
    {
      ThreeFills(full, data, offset, n1, n2, n3, s0, s1, s2, raw[..], k);
    }
  }

  lemma ThreeFills(full: nat, data: seq<bv8>, offset: nat, n1: nat, n2: nat, n3: nat,
                   s0: seq<bv8>, s1: seq<bv8>, s2: seq<bv8>, s3: seq<bv8>, k: nat)
    requires |s0| == full && k < full
    requires n1 == if offset < full then offset else full
    requires n2 == if |data| == 0 || offset >= full then 0 else if |data| < full - offset then |data| else full - offset
    requires n3 == if offset + |data| >= full then 0 else full - (offset + |data|)
    requires s1 == if n1 == 0 then s0 else Splice(s0, 0, Pattern([PADDING], n1))
    requires s2 == if n2 == 0 then s1 else Splice(s1, offset, Pattern(data, n2))
    requires s3 == if n3 == 0 then s2 else Splice(s2, offset + |data|, Pattern([PADDING], n3))
    ensures |s3| == full && s3[k] == PaddedByte(data, offset, k)
  {
    hide Splice, Pattern;
    if n1 > 0 { FillAt(s0, s1, 0, Pattern([PADDING], n1), k); }
    if n2 > 0 { FillAt(s1, s2, offset, Pattern(data, n2), k); PatternFront(data, n2); }
    if n3 > 0 { FillAt(s2, s3, offset + |data|, Pattern([PADDING], n3), k); }
    if k < n1 { PatternOfOne(n1, k); }
    if offset + |data| <= k { PatternOfOne(n3, k - (offset + |data|)); }
  }
}
