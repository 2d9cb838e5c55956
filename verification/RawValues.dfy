/**
 Pixel values as numbers. The getters and setters work on machine words; the image code above
 them does plain unsigned arithmetic on values below 2^16. This module joins the two bit by bit.
 */
module RawValues {
  import opened Arithmetic
  import opened RawBits
  import opened RawFormat
  import opened RawPixels

  lemma Pow2Values()
    ensures Pow2(8) == 0x100 && Pow2(10) == 0x400 && Pow2(12) == 0x1000 && Pow2(14) == 0x4000 && Pow2(16) == 0x10000
  {
    assert Pow2(2) == 4;
    assert Pow2(4) == 16;
    assert Pow2(6) == 64;
  }

  /** The number that a list of bits denotes, most significant first. */
  function Number(bits: seq<bool>): nat {
    if |bits| == 0 then 0 else 2 * Number(bits[..|bits| - 1]) + (if bits[|bits| - 1] then 1 else 0)
  }

  function BitsOf(n: nat, k: nat): (bits: seq<bool>)
    ensures |bits| == k
  {
    if k == 0 then [] else BitsOf(n / 2, k - 1) + [n % 2 == 1]
  }

  lemma {:induction false} NumberOfBits(n: nat, k: nat)
    requires n < Pow2(k)
    ensures Number(BitsOf(n, k)) == n
  {
    if k > 0 {
      NumberOfBits(n / 2, k - 1);
      assert BitsOf(n, k)[..k - 1] == BitsOf(n / 2, k - 1);
    }
  }

  lemma {:induction false} LeadingZeros(bits: seq<bool>, k: nat)
    requires k <= |bits| && forall j :: 0 <= j < k ==> !bits[j]
    ensures Number(bits) < Pow2(|bits| - k)
  {
    if |bits| == k {
      if k > 0 { LeadingZeros(bits[..k - 1], k - 1); }
    } else {
      LeadingZeros(bits[..|bits| - 1], k);
    }
  }

  lemma {:induction false} HighBitsZero(n: nat, m: nat, k: nat, j: nat)
    requires n < Pow2(m) && m <= k && j < k - m
    ensures !BitsOf(n, k)[j]
  {
    if j < k - 1 {
      HighBitsZero(n / 2, if m == 0 then 0 else m - 1, k - 1, j);
    }
  }

  /** A 16-bit word shifted left by one with a new last bit. */
  function Append(v: bv32, b: bool): bv32 { ((v << 1) | (if b then 1 else 0)) & 0xffff }

  lemma AppendBits(v: bv32, b: bool)
    ensures Append(v, b) < 0x10000
    ensures ValueBit(Append(v, b), 0) == ValueBit(v, 1) && ValueBit(Append(v, b), 1) == ValueBit(v, 2)
            && ValueBit(Append(v, b), 2) == ValueBit(v, 3) && ValueBit(Append(v, b), 3) == ValueBit(v, 4)
    ensures ValueBit(Append(v, b), 4) == ValueBit(v, 5) && ValueBit(Append(v, b), 5) == ValueBit(v, 6)
            && ValueBit(Append(v, b), 6) == ValueBit(v, 7) && ValueBit(Append(v, b), 7) == ValueBit(v, 8)
    ensures ValueBit(Append(v, b), 8) == ValueBit(v, 9) && ValueBit(Append(v, b), 9) == ValueBit(v, 10)
            && ValueBit(Append(v, b), 10) == ValueBit(v, 11) && ValueBit(Append(v, b), 11) == ValueBit(v, 12)
    ensures ValueBit(Append(v, b), 12) == ValueBit(v, 13) && ValueBit(Append(v, b), 13) == ValueBit(v, 14)
            && ValueBit(Append(v, b), 14) == ValueBit(v, 15) && ValueBit(Append(v, b), 15) == b
  {
  }

  lemma AppendBit(v: bv32, b: bool, j: nat)
    requires j < 16
    ensures Append(v, b) < 0x10000 && ValueBit(Append(v, b), j) == if j == 15 then b else ValueBit(v, j + 1)
  {
    hide ValueBit, Append;
    AppendBits(v, b);
    assert j == 0 || j == 1 || j == 2 || j == 3 || j == 4 || j == 5 || j == 6 || j == 7 ||
           j == 8 || j == 9 || j == 10 || j == 11 || j == 12 || j == 13 || j == 14 || j == 15;
  }

  /** The word whose low bits are the given ones. */
  function Word(bits: seq<bool>): bv32 {
    if |bits| == 0 then 0 else Append(Word(bits[..|bits| - 1]), bits[|bits| - 1])
  }

  lemma {:induction false} WordBit(bits: seq<bool>, t: nat)
    requires t < |bits| <= 16
    ensures Word(bits) < 0x10000 && ValueBit(Word(bits), 16 - |bits| + t) == bits[t]
  {
    hide ValueBit, Append;
    AppendBit(Word(bits[..|bits| - 1]), bits[|bits| - 1], 16 - |bits| + t);
    if t < |bits| - 1 { WordBit(bits[..|bits| - 1], t); }
  }

  lemma WordBits(bits: seq<bool>)
    requires |bits| == 16
    ensures Word(bits) < 0x10000 && ValueBits(Word(bits), 16) == bits
  {
    hide ValueBit, Word;
    WordBit(bits, 0);
    forall j | 0 <= j < 16
      ensures ValueBit(Word(bits), j) == bits[j]
    {
      WordBit(bits, j);
    }
  }

  /** The number a word below 2^16 holds, and the word for a number. */
  function ValueOf(v: bv32): nat { Number(ValueBits(v, 16)) }

  function WordOf(n: nat): bv32 { Word(BitsOf(n, 16)) }

  /** Values of a layout are below this number. */
  function Cap(f: Format): nat { Pow2(Bpp(f)) }

  lemma ValueInRange(f: Format, v: bv32)
    requires v < Limit(f)
    ensures ValueOf(v) < Cap(f) <= 0x10000
  {
    hide ValueBit, Limit;
    Pow2Values();
    HighBitsClear(f, v);
    LeadingZeros(ValueBits(v, 16), 16 - Bpp(f));
  }

  lemma WordInRange(f: Format, n: nat)
    requires n < Cap(f)
    ensures WordOf(n) < Limit(f) && ValueOf(WordOf(n)) == n
  {
    hide ValueBit, Limit, Word, BitsOf;
    Pow2Values();
    var bits := BitsOf(n, 16);
    WordBits(bits);
    NumberOfBits(n, 16);
    forall j | 0 <= j < 16 - Bpp(f)
      ensures !ValueBit(WordOf(n), j)
    {
      HighBitsZero(n, Bpp(f), 16, j);
      assert ValueBits(WordOf(n), 16)[j] == bits[j];
    }
    ClearHighBits(f, WordOf(n));
  }

  lemma ClearHighBits(f: Format, v: bv32)
    requires v < 0x10000 && forall j :: 0 <= j < 16 - Bpp(f) ==> !ValueBit(v, j)
    ensures v < Limit(f)
  {
    if Bpp(f) < 16 { assert !ValueBit(v, 0) && !ValueBit(v, 1); }
    if Bpp(f) < 14 { assert !ValueBit(v, 2) && !ValueBit(v, 3); }
    if Bpp(f) < 12 { assert !ValueBit(v, 4) && !ValueBit(v, 5); }
    if Bpp(f) < 10 { assert !ValueBit(v, 6) && !ValueBit(v, 7); }
  }
}
