/** Machine words: unsigned wrap-around and the two byte orders of the data layer. */
module Words {

  datatype Option<T> = None | Some(value: T)

  type byte = b: int | 0 <= b < 256

  const U16_SIZE := 0x1_0000
  const U32_SIZE := 0x1_0000_0000

  /** A 16-bit word. */
  type half = w: int | 0 <= w < U16_SIZE

  /** A 32-bit word. */
  type word = w: int | 0 <= w < U32_SIZE

  function Zeros(n: nat): (z: seq<byte>)
    ensures |z| == n
  {
    seq(n, _ => 0)
  }

  function U8(i: int): byte { i % 256 }

  function U16(i: int): (r: nat)
    ensures r < U16_SIZE
  {
    i % U16_SIZE
  }

  function U32(i: int): (r: nat)
    ensures r < U32_SIZE
  {
    i % U32_SIZE
  }

  lemma Small16(i: nat)
    requires i < U16_SIZE
    ensures U16(i) == i
  {
  }

  lemma Small32(i: nat)
    requires i < U32_SIZE
    ensures U32(i) == i
  {
  }

  /** For proofs that keep the word sizes hidden. */
  lemma Tiny32(i: nat)
    requires i < 0x1_0000
    ensures U32(i) == i
  {
  }

  /** The 16-bit word at an offset, in big or little endian order. */
  function Get16(big: bool, s: seq<byte>, at: nat): (v: nat)
    requires at + 2 <= |s|
    ensures v < U16_SIZE
  {
    if big then 0x100 * (s[at] as int) + s[at + 1] else s[at] + 0x100 * (s[at + 1] as int)
  }

  function Get32(big: bool, s: seq<byte>, at: nat): (v: nat)
    requires at + 4 <= |s|
    ensures v < U32_SIZE
  {
    if big then Get16(big, s, at) * U16_SIZE + Get16(big, s, at + 2)
    else Get16(big, s, at) + Get16(big, s, at + 2) * U16_SIZE
  }

  function Put16(big: bool, v: nat): (s: seq<byte>)
    requires v < U16_SIZE
    ensures |s| == 2
  {
    if big then [v / 0x100, v % 0x100] else [v % 0x100, v / 0x100]
  }

  function Put32(big: bool, v: nat): (s: seq<byte>)
    requires v < U32_SIZE
    ensures |s| == 4
  {
    if big then Put16(big, v / U16_SIZE) + Put16(big, v % U16_SIZE)
    else Put16(big, v % U16_SIZE) + Put16(big, v / U16_SIZE)
  }

  /** A stored word is read back wherever it lies. */
  lemma GetPut16(big: bool, s: seq<byte>, at: nat, v: nat)
    requires v < U16_SIZE && at + 2 <= |s| && s[at..at + 2] == Put16(big, v)
    ensures Get16(big, s, at) == v
  {
    assert s[at] == s[at..at + 2][0] && s[at + 1] == s[at..at + 2][1];
  }

  /** What the two byte orders mean: with the lowest byte first or last, the bytes are the digits of the word. */
  lemma WordSums(s: seq<byte>, at: nat)
    requires at + 4 <= |s|
    ensures var a: int, b: int, c: int, d: int := s[at], s[at + 1], s[at + 2], s[at + 3];
            && Get32(false, s, at) == a + 0x100 * b + 0x1_0000 * c + 0x100_0000 * d
            && Get32(true, s, at) == 0x100_0000 * a + 0x1_0000 * b + 0x100 * c + d
  {
  }

  lemma WordHalves(s: seq<byte>, at: nat, a: seq<byte>, b: seq<byte>)
    requires |a| == |b| == 2 && at + 4 <= |s| && s[at..at + 4] == a + b
    ensures s[at..at + 2] == a && s[at + 2..at + 4] == b
  {
    var part := s[at..at + 4];
    assert part[..2] == a && part[2..] == b;
    assert part[..2] == s[at..at + 2] && part[2..] == s[at + 2..at + 4];
  }

  lemma GetPut32(big: bool, s: seq<byte>, at: nat, v: nat)
    requires v < U32_SIZE && at + 4 <= |s| && s[at..at + 4] == Put32(big, v)
    ensures Get32(big, s, at) == v
  {
    hide Get16, Put16;
    var hi, lo := v / U16_SIZE, v % U16_SIZE;
    if big {
      WordHalves(s, at, Put16(big, hi), Put16(big, lo));
      GetPut16(big, s, at, hi);
      GetPut16(big, s, at + 2, lo);
    } else {
      WordHalves(s, at, Put16(big, lo), Put16(big, hi));
      GetPut16(big, s, at, lo);
      GetPut16(big, s, at + 2, hi);
    }
  }
}
