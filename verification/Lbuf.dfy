/** In-place byte buffer operations of lbuf.c. */
module Lbuf {
  import opened Arithmetic
  import opened Buffers
  import opened Words

  /** The buffer with the two bytes of each pair exchanged; a last odd byte stays. */
  function Swapped<T>(s: seq<T>): (r: seq<T>)
    ensures |r| == |s|
  {
    seq(|s|, i requires 0 <= i < |s| => if i % 2 == 1 then s[i - 1] else if i + 1 < |s| then s[i + 1] else s[i])
  }

  /** Swapping byte pairs is its own inverse. */
  lemma SwappedTwice<T>(s: seq<T>)
    ensures Swapped(Swapped(s)) == s
  {
  }

  /** A buffer as it is, or with its byte pairs swapped. */
  function Ordered<T>(swap: bool, s: seq<T>): (r: seq<T>)
    ensures |r| == |s|
  {
    if swap then Swapped(s) else s
  }

  /** Where byte k of the ordered buffer lies in the buffer itself. */
  function PlaceOf(swap: bool, k: nat): nat {
    if !swap then k else if k % 2 == 0 then k + 1 else k - 1
  }

  lemma OrderedAt<T>(swap: bool, s: seq<T>, k: nat)
    requires k < |s| && PlaceOf(swap, k) < |s|
    ensures Ordered(swap, s)[k] == s[PlaceOf(swap, k)]
  {
  }

  lemma OrderedUpdate<T>(swap: bool, s: seq<T>, k: nat, u: T)
    requires k < |s| && PlaceOf(swap, k) < |s|
    ensures Ordered(swap, s)[k] == s[PlaceOf(swap, k)]
    ensures Ordered(swap, s[PlaceOf(swap, k) := u]) == Ordered(swap, s)[k := u]
  {
    if swap {
      var p := PlaceOf(true, k);
      var a, b := Swapped(s[p := u]), Swapped(s)[k := u];
      forall i | 0 <= i < |s|
        ensures a[i] == b[i]
      {
        if i % 2 == 0 && i + 1 < |s| {
          assert a[i] == s[p := u][i + 1];
        }
      }
    }
  }

  /**
   lbuf:reverse_bytes(). The source's bound buf->len-1 is unsigned and wraps for an empty
   buffer, so the caller has to pass a non-empty one.
   */
  method ReverseBytes(buf: array<bv8>)
    requires buf.Length > 0
    modifies buf
    ensures buf[..] == Swapped(old(buf[..]))
  {
    ghost var was := buf[..];
    var i := 0;
    while i < buf.Length - 1
      invariant 0 <= i <= buf.Length && i % 2 == 0
      invariant forall k :: 0 <= k < i ==> buf[k] == Swapped(was)[k]
      invariant forall k :: i <= k < buf.Length ==> buf[k] == was[k]
    {
      var t := buf[i + 1];
      buf[i + 1] := buf[i];
      buf[i] := t;
      i := i + 2;
    }
  }

  /** The first n bytes of a value repeated for ever. */
  function Pattern(value: seq<bv8>, n: nat): (s: seq<bv8>)
    requires value != []
    ensures |s| == n
  {
    seq(n, k requires 0 <= k < n => value[k % |value|])
  }

  /** The number of copies that a fill asks for: by default one more than fits. */
  function Copies(bufLen: nat, valueLen: nat, count: Option<nat>): nat
    requires valueLen > 0
  {
    if count.Some? then count.value else bufLen / valueLen + 1
  }

  /** The number of bytes that a fill asks for: the product is cut to 32 bits. */
  function Wanted(bufLen: nat, valueLen: nat, count: Option<nat>): nat
    requires valueLen > 0
  {
    U32(Copies(bufLen, valueLen, count) * valueLen)
  }

  /** The number of bytes that a fill writes. */
  function FillSize(bufLen: nat, valueLen: nat, offset: nat, count: Option<nat>): nat {
    if valueLen == 0 || offset >= bufLen then 0 else Min(Wanted(bufLen, valueLen, count), bufLen - offset)
  }

  /**
   A fill writes all the copies that it is asked for, as far as there is room, if and only if their
   size is below 2^32 or its low 32 bits still reach to the end of the buffer. By default the copies
   are meant to reach there.
   */
  lemma FillExact(bufLen: nat, valueLen: nat, offset: nat, count: Option<nat>)
    requires valueLen > 0 && offset < bufLen < U32_SIZE
    ensures var size, room := Copies(bufLen, valueLen, count) * valueLen, bufLen - offset;
            && (FillSize(bufLen, valueLen, offset, count) == Min(size, room)
                <==> size < U32_SIZE || size % U32_SIZE >= room)
            && (count.None? ==> Min(size, room) == room)
  {
    if count.None? {
      assert bufLen == valueLen * (bufLen / valueLen) + bufLen % valueLen;
      assert (bufLen / valueLen + 1) * valueLen == valueLen * (bufLen / valueLen) + valueLen;
    }
  }

  /** 2^31 copies of two bytes fill nothing. */
  lemma FillWrapsAround()
    ensures FillSize(2, 2, 0, Some(0x8000_0000)) == 0
  {
  }

  /** Full copies, one after the other. */
  lemma PatternGrows(value: seq<bv8>, i: nat, rest: nat)
    requires value != [] && rest <= |value|
    ensures Pattern(value, i * |value|) + value[..rest] == Pattern(value, i * |value| + rest)
  {
    var n := i * |value|;
    var a, b := Pattern(value, n) + value[..rest], Pattern(value, n + rest);
    forall k | 0 <= k < n + rest
      ensures a[k] == b[k]
    {
      if k >= n && k < n + |value| { DivModIs(k, |value|, i, k - n); }
    }
  }

  /** A fill shorter than the value copies just its front. */
  lemma PatternFront(value: seq<bv8>, n: nat)
    requires n <= |value| && value != []
    ensures Pattern(value, n) == value[..n]
    ensures n > 0 ==> Pattern(value[..n], n) == value[..n]
  {
    forall k | 0 <= k < n
      ensures k % |value| == k && k % n == k
    {
      DivModIs(k, |value|, 0, k);
      DivModIs(k, n, 0, k);
    }
  }

  /** memcpy into the buffer. */
  method Copy(buf: array<bv8>, at: nat, value: seq<bv8>, n: nat)
    requires n <= |value| && at + n <= buf.Length
    modifies buf
    ensures buf[..] == Splice(old(buf[..]), at, value[..n])
  {
    hide Splice;
    ghost var was := buf[..];
    forall k | 0 <= k < n {
      buf[at + k] := value[k];
    }
    SpliceIs(was, at, value[..n], buf[..]);
  }

  /**
   lbuf:fill(value, offset, count): the value again and again from offset on, for as many bytes as
   are asked for or as there is room, and nothing else. A count of None is the default.
   */
  method Fill(buf: array<bv8>, value: seq<bv8>, offset: nat, count: Option<nat>) returns (written: nat)
    modifies buf
    ensures written == FillSize(buf.Length, |value|, offset, count)
    ensures buf[..] == if written == 0 then old(buf[..]) else Splice(old(buf[..]), offset, Pattern(value, written))
  {
    hide Splice, Pattern;
    if |value| == 0 || offset >= buf.Length {
      return 0;
    }
    var fillBytes := Wanted(buf.Length, |value|, count);
    if buf.Length - offset < fillBytes {
      fillBytes := buf.Length - offset;
    }
    var fillLen := |value|;
    if fillLen > fillBytes {
      fillLen := fillBytes;
      PatternFront(value, fillBytes);
    } else {
      assert value[..fillLen] == value;
    }
    if fillBytes == 0 {
      return 0;
    }
    FillWith(buf, value[..fillLen], offset, fillBytes);
    return fillBytes;
  }

  /** The copies of a value that fit, and the front of one more. */
  method FillCopies(buf: array<bv8>, value: seq<bv8>, offset: nat, count: nat, rest: nat)
    requires value != [] && rest < |value| && offset + (count * |value| + rest) <= buf.Length
    modifies buf
    ensures buf[..] == Splice(old(buf[..]), offset, Pattern(value, count * |value| + rest))
  {
    hide Splice, Pattern;
    ghost var was := buf[..];
    var n := |value|;
    var p, i := offset, 0;
    NoPattern(was, offset, value);
    while i < count
      invariant i <= count && p == offset + i * n
      invariant buf[..] == Splice(was, offset, Pattern(value, i * n))
    {
      Room(i, count, n);
      Copy(buf, p, value, n);
      Continued(was, offset, value, i, n);
      assert value[..n] == value;
      i := i + 1;
      p := p + n;
    }
    if rest != 0 {
      Copy(buf, p, value, rest);
    }
    Continued(was, offset, value, count, rest);
  }

  lemma Room(i: nat, count: nat, n: nat)
    requires i < count
    ensures i * n + n == (i + 1) * n <= count * n
  {
    TimesGrows(i + 1, count, n);
  }

  lemma NoPattern(was: seq<bv8>, offset: nat, value: seq<bv8>)
    requires value != [] && offset <= |was|
    ensures was == Splice(was, offset, Pattern(value, 0 * |value|))
  {
  }

  lemma Continued(was: seq<bv8>, offset: nat, value: seq<bv8>, i: nat, rest: nat)
    requires value != [] && rest <= |value| && offset + (i * |value| + rest) <= |was|
    ensures var n := i * |value|;
            && Splice(Splice(was, offset, Pattern(value, n)), offset + n, value[..rest])
               == Splice(was, offset, Pattern(value, n + rest))
            && (rest == 0 ==> Pattern(value, n) == Pattern(value, n + rest))
            && (rest == |value| ==> n + rest == (i + 1) * |value|)
  {
    hide Splice, Pattern;
    PatternGrows(value, i, rest);
    SpliceTwice(was, offset, Pattern(value, i * |value|), value[..rest]);
  }

  /** The part of fill that writes. */
  method FillWith(buf: array<bv8>, value: seq<bv8>, offset: nat, fillBytes: nat)
    requires 0 < |value| <= fillBytes && offset + fillBytes <= buf.Length
    modifies buf
    ensures buf[..] == Splice(old(buf[..]), offset, Pattern(value, fillBytes))
  {
    hide Splice, Pattern;
    ghost var was := buf[..];
    if |value| == 1 {
      forall k | 0 <= k < fillBytes {
        buf[offset + k] := value[0];
      }
      OneByte(value, fillBytes);
      SpliceIs(was, offset, Pattern(value, fillBytes), buf[..]);
    } else {
      var count: nat, rest: nat := fillBytes / |value|, fillBytes % |value|;
      assert fillBytes == |value| * count + rest;
      FillCopies(buf, value, offset, count, rest);
    }
  }

  lemma OneByte(value: seq<bv8>, n: nat)
    requires |value| == 1
    ensures forall k :: 0 <= k < n ==> Pattern(value, n)[k] == value[0]
  {
  }
}
