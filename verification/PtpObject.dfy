/** What ptp-pack.c packs itself: strings, ObjectInfo and property values. */
module PtpObject {
  import opened Buffers
  import opened Words
  import opened PtpData
  import opened PtpProp
  import opened PtpUnpack

  // A C string is given by its bytes in front of the zero that ends it.

  /** A char as the source widens it to 16 bits, with its sign. */
  function Widened(b: byte): half { if b < 128 then b else 0xFF00 + b as int }

  /** As signed numbers, the 16-bit character and the char are the same. */
  lemma WidenedKeepsSign(b: byte)
    ensures (if Widened(b) < 0x8000 then Widened(b) else Widened(b) - 0x1_0000) == if b < 0x80 then b else b - 0x100
  {
  }

  function Wide(big: bool, w: seq<byte>): (s: seq<byte>)
    ensures |s| == 2 * |w|
  {
    if w == [] then [] else Wide(big, w[..|w| - 1]) + Put16(big, Widened(w[|w| - 1]))
  }

  /** What ptp_pack_string writes: the length goes through uint8_t, and the last zero is left to the buffer. */
  function PackedString(big: bool, w: seq<byte>): (s: seq<byte>)
    ensures |s| == 1 + 2 * U8(|w|)
  {
    [U8(U8(|w|) + 1)] + Wide(big, w[..U8(|w|)])
  }

  /** ptp_pack_string */
  method PackStringTo(big: bool, w: seq<byte>, data: array<byte>, offset: nat) returns (len: nat)
    requires offset + 1 + 2 * U8(|w|) <= data.Length
    modifies data
    ensures data[..] == Splice(old(data[..]), offset, PackedString(big, w)) && len == U8(|w|)
  {
    hide Splice, Put16, Wide;
    ghost var was := data[..];
    len := U8(|w|);
    data[offset] := U8(len + 1);
    var i := 0;
    CountStored(was, offset, len, data[..], big, w);
    while i < len && i < MAX_STRING
      invariant i <= len && data[..] == Splice(was, offset, [U8(len + 1)] + Wide(big, w[..i]))
    {
      ghost var before := data[..];
      var c := Put16(big, Widened(w[i]));
      data[offset + i * 2 + 1], data[offset + i * 2 + 2] := c[0], c[1];
      CharStored(was, offset, len, before, data[..], big, w, i);
      i := i + 1;
    }
  }

  lemma CountStored(was: seq<byte>, offset: nat, len: nat, now: seq<byte>, big: bool, w: seq<byte>)
    requires offset < |was| && now == was[offset := U8(len + 1)]
    ensures now == Splice(was, offset, [U8(len + 1)] + Wide(big, w[..0]))
  {
    assert [U8(len + 1)] + Wide(big, w[..0]) == [U8(len + 1)];
  }

  lemma CharStored(was: seq<byte>, offset: nat, len: nat, before: seq<byte>, now: seq<byte>, big: bool, w: seq<byte>,
                   i: nat)
    requires i < |w| && offset + 3 + 2 * i <= |was| && |before| == |was|
    requires before == Splice(was, offset, [U8(len + 1)] + Wide(big, w[..i]))
    requires var c := Put16(big, Widened(w[i])); now == before[offset + i * 2 + 1 := c[0]][offset + i * 2 + 2 := c[1]]
    ensures now == Splice(was, offset, [U8(len + 1)] + Wide(big, w[..i + 1]))
  {
    hide Put16, Splice, Widened, U16_SIZE;
    var c := Put16(big, Widened(w[i]));
    SpliceIs(before, offset + 1 + 2 * i, c, now);
    SpliceTwice(was, offset, [U8(len + 1)] + Wide(big, w[..i]), c);
    assert w[..i + 1][..i] == w[..i];
    assert [U8(len + 1)] + Wide(big, w[..i + 1]) == [U8(len + 1)] + Wide(big, w[..i]) + c;
  }

  lemma {:induction false} WideAt(big: bool, w: seq<byte>, k: nat)
    requires k < |w|
    ensures Wide(big, w)[2 * k..2 * k + 2] == Put16(big, Widened(w[k]))
  {
    hide Put16, Widened, U16_SIZE;
    var n := |w| - 1;
    if k < n {
      WideAt(big, w[..n], k);
      SliceInFront(Wide(big, w[..n]), Put16(big, Widened(w[n])), 2 * k, 2 * k + 2);
    } else {
      SliceBehind(Wide(big, w[..n]), Put16(big, Widened(w[n])), 0, 2);
    }
  }

  /** The sign of a char does not matter when the low byte is taken. */
  lemma HeldChar(big: bool, s: seq<byte>, at: nat, w: seq<byte>, k: nat)
    requires k < |w| && Holds(s, at, Wide(big, w))
    ensures at + 2 * |w| <= |s| && U8(Get16(big, s, at + 2 * k)) == w[k]
  {
    hide Put16, Get16, Wide;
    WideAt(big, w, k);
    SliceOfSlice(s, at, at + 2 * |w|, 2 * k, 2 * k + 2);
    GetPut16(big, s, at + 2 * k, Widened(w[k]));
  }

  /** A packed string of up to 254 characters with two bytes behind it is read back, with its last zero. */
  lemma PackedStringBack(big: bool, s: seq<byte>, off: nat, w: seq<byte>)
    requires |w| <= 254 && off < U16_SIZE && Holds(s, off, PackedString(big, w)) && off + 3 + 2 * |w| <= |s|
    ensures ReadString(big, s, off) == Read(Some(w + [0]), off + 2 * (|w| + 1) + 1)
  {
    hide Get16, Wide, U16, U16_SIZE, U32_SIZE, Holds;
    assert w[..U8(|w|)] == w;
    Small16(off);
    HoldsBoth(s, off, [U8(|w| + 1)], Wide(big, w));
    Read8Of(s, off, U8(|w| + 1));
    var n := |w| + 1;
    forall i | 0 <= i < n
      ensures Chars(big, s, off + 1, n)[i] == (w + [0])[i]
    {
      if i < |w| { HeldChar(big, s, off + 1, w, i); }
    }
    assert Chars(big, s, off + 1, n) == w + [0];
  }

  /**
   Of a string of 255 characters the count is 0, which means no string. Of longer ones nothing is packed but
   the characters by which their number exceeds the last multiple of 256.
   */
  lemma PackedStringWraps(big: bool, w: seq<byte>)
    ensures PackedString(big, w) == PackedString(big, w[..|w| % 256])
    ensures PackedString(big, w)[0] == if |w| % 256 == 255 then 0 else |w| % 256 + 1
  {
    assert w[..|w| % 256][..|w| % 256] == w[..|w| % 256];
  }

  /** A longer string is lost: what is read has at most 255 bytes with the last zero, or is null. */
  lemma LongStringLost(big: bool, s: seq<byte>, off: nat, w: seq<byte>)
    requires |w| > 254 && ReadString(big, s, off).Read?
    ensures ReadString(big, s, off).value != Some(w + [0])
  {
    hide Get16;
    assert |w + [0]| == |w| + 1;
  }

  // ObjectInfo, section 5.3.1

  datatype ObjectInfo = ObjectInfo(storageID: word, objectFormat: half, protectionStatus: half,
                                   objectCompressedSize: word, thumbFormat: half, thumbCompressedSize: word,
                                   thumbPixWidth: word, thumbPixHeight: word, imagePixWidth: word,
                                   imagePixHeight: word, imageBitDepth: word, parentObject: word,
                                   associationType: half, associationDesc: word, sequenceNumber: word)

  const OI_FILENAME_LEN := 52
  const OI_FILENAME := 53

  /** The first eight fields. */
  function FixedFront(big: bool, oi: ObjectInfo): (s: seq<byte>)
    ensures |s| == 26
  {
    Put32(big, oi.storageID) + Put16(big, oi.objectFormat) + Put16(big, oi.protectionStatus)
    + Put32(big, oi.objectCompressedSize) + Put16(big, oi.thumbFormat) + Put32(big, oi.thumbCompressedSize)
    + Put32(big, oi.thumbPixWidth) + Put32(big, oi.thumbPixHeight)
  }

  /** The part of the dataset with a fixed size. */
  function Fixed(big: bool, oi: ObjectInfo): (s: seq<byte>)
    ensures |s| == OI_FILENAME_LEN
  {
    FixedFront(big, oi) + Put32(big, oi.imagePixWidth) + Put32(big, oi.imagePixHeight) + Put32(big, oi.imageBitDepth)
    + Put32(big, oi.parentObject) + Put16(big, oi.associationType) + Put32(big, oi.associationDesc)
    + Put32(big, oi.sequenceNumber)
  }

  function Allocated(name: seq<byte>): nat { OI_FILENAME + (|name| + 1) * 2 + 4 }

  /** The name, and zeros up to the end of the allocation. */
  function NamePart(big: bool, name: seq<byte>): (s: seq<byte>)
    ensures |s| == 2 * |name| + 7
  {
    PackedString(big, name) + Zeros(2 * |name| + 7 - (1 + 2 * U8(|name|)))
  }

  /** The dataset that ptp_pack_OI makes; it has no dates. */
  function PackedOI(big: bool, oi: ObjectInfo, name: seq<byte>): (s: seq<byte>)
    ensures |s| == Allocated(name)
  {
    Fixed(big, oi) + NamePart(big, name)
  }

  /** A buffer of zeros of which the front has been written. */
  predicate Filled(s: seq<byte>, front: seq<byte>) {
    |front| <= |s| && s == front + Zeros(|s| - |front|)
  }

  lemma FilledOn(was: seq<byte>, front: seq<byte>, piece: seq<byte>)
    requires Filled(was, front) && |front| + |piece| <= |was|
    ensures Filled(Splice(was, |front|, piece), front + piece)
  {
    var now := Splice(was, |front|, piece);
    var want := front + piece + Zeros(|was| - |front + piece|);
    forall k | 0 <= k < |was|
      ensures now[k] == want[k]
    {
      if k < |front| {
        assert now[k] == was[k] == front[k];
      } else if k >= |front| + |piece| {
        assert now[k] == was[k] == 0;
      }
    }
  }

  method Store16(big: bool, data: array<byte>, at: nat, v: half, ghost front: seq<byte>)
    requires Filled(data[..], front) && at == |front| && at + 2 <= data.Length
    modifies data
    ensures Filled(data[..], front + Put16(big, v))
  {
    hide Filled, Put16;
    ghost var was := data[..];
    var c := Put16(big, v);
    data[at], data[at + 1] := c[0], c[1];
    SpliceIs(was, at, c, data[..]);
    FilledOn(was, front, c);
  }

  method Store32(big: bool, data: array<byte>, at: nat, v: word, ghost front: seq<byte>)
    requires Filled(data[..], front) && at == |front| && at + 4 <= data.Length
    modifies data
    ensures Filled(data[..], front + Put32(big, v))
  {
    hide Filled, Put32;
    ghost var was := data[..];
    var c := Put32(big, v);
    data[at], data[at + 1], data[at + 2], data[at + 3] := c[0], c[1], c[2], c[3];
    SpliceIs(was, at, c, data[..]);
    FilledOn(was, front, c);
  }

  method PackFront(big: bool, oi: ObjectInfo, data: array<byte>)
    requires Filled(data[..], []) && data.Length >= OI_FILENAME
    modifies data
    ensures Filled(data[..], FixedFront(big, oi))
  {
    hide Filled, Put16, Put32, U16_SIZE, U32_SIZE;
    Store32(big, data, 0, oi.storageID, []);
    ghost var f := [] + Put32(big, oi.storageID);
    Store16(big, data, 4, oi.objectFormat, f);
    f := f + Put16(big, oi.objectFormat);
    Store16(big, data, 6, oi.protectionStatus, f);
    f := f + Put16(big, oi.protectionStatus);
    Store32(big, data, 8, oi.objectCompressedSize, f);
    f := f + Put32(big, oi.objectCompressedSize);
    Store16(big, data, 12, oi.thumbFormat, f);
    f := f + Put16(big, oi.thumbFormat);
    Store32(big, data, 14, oi.thumbCompressedSize, f);
    f := f + Put32(big, oi.thumbCompressedSize);
    Store32(big, data, 18, oi.thumbPixWidth, f);
    f := f + Put32(big, oi.thumbPixWidth);
    Store32(big, data, 22, oi.thumbPixHeight, f);
    assert [] + Put32(big, oi.storageID) == Put32(big, oi.storageID);
  }

  /** ptp_pack_OI; it returns the length that the source computes from the length of the name as uint8_t. */
  method PackOI(big: bool, oi: ObjectInfo, name: seq<byte>) returns (data: array<byte>, length: nat)
    ensures fresh(data) && data[..] == PackedOI(big, oi, name)
    ensures length == data.Length <==> |name| < 256
    ensures length == OI_FILENAME + 2 * (|name| % 256 + 1) + 4 <= data.Length
  {
    hide Filled, Put16, Put32, FixedFront, Splice, PackedString, U16_SIZE, U32_SIZE;
    data := new byte[OI_FILENAME + (|name| + 1) * 2 + 4](_ => 0);
    NothingFilled(data[..]);
    PackFront(big, oi, data);
    ghost var f := FixedFront(big, oi);
    Store32(big, data, 26, oi.imagePixWidth, f);
    f := f + Put32(big, oi.imagePixWidth);
    Store32(big, data, 30, oi.imagePixHeight, f);
    f := f + Put32(big, oi.imagePixHeight);
    Store32(big, data, 34, oi.imageBitDepth, f);
    f := f + Put32(big, oi.imageBitDepth);
    Store32(big, data, 38, oi.parentObject, f);
    f := f + Put32(big, oi.parentObject);
    Store16(big, data, 42, oi.associationType, f);
    f := f + Put16(big, oi.associationType);
    Store32(big, data, 44, oi.associationDesc, f);
    f := f + Put32(big, oi.associationDesc);
    Store32(big, data, 48, oi.sequenceNumber, f);
    ghost var was := data[..];
    var nameLen := PackStringTo(big, name, data, OI_FILENAME_LEN);
    FilledOn(was, Fixed(big, oi), PackedString(big, name));
    FilledWhole(big, oi, name, data[..]);
    length := OI_FILENAME + (nameLen + 1) * 2 + (0 + 1) * 4;
  }

  lemma NothingFilled(s: seq<byte>)
    requires forall k :: 0 <= k < |s| ==> s[k] == 0
    ensures Filled(s, [])
  {
  }

  lemma FilledWhole(big: bool, oi: ObjectInfo, name: seq<byte>, s: seq<byte>)
    requires |s| == Allocated(name) && Filled(s, Fixed(big, oi) + PackedString(big, name))
    ensures s == PackedOI(big, oi, name)
  {
    hide Fixed, PackedString, U8, Zeros, U16_SIZE, U32_SIZE;
    var f, p := Fixed(big, oi), PackedString(big, name);
    assert f + p + Zeros(|s| - |f + p|) == f + (p + Zeros(|s| - |f + p|));
  }

  /** What ptp_unpack_OI reads; a date of 15 characters or fewer, or none, leaves the time as it was. */
  datatype ObjectRead = ObjectRead(info: ObjectInfo, filename: Text, capture: Text, modification: Text)

  function InfoAt(big: bool, s: seq<byte>): ObjectInfo
    requires |s| >= OI_FILENAME_LEN
  {
    ObjectInfo(Get32(big, s, 0), Get16(big, s, 4), Get16(big, s, 6), Get32(big, s, 8), Get16(big, s, 12),
               Get32(big, s, 14), Get32(big, s, 18), Get32(big, s, 22), Get32(big, s, 26), Get32(big, s, 30),
               Get32(big, s, 34), Get32(big, s, 38), Get16(big, s, 42), Get32(big, s, 44), Get32(big, s, 48))
  }

  function ReadOI(big: bool, s: seq<byte>): Read<ObjectRead> {
    if |s| < OI_FILENAME_LEN then Short
    else
      var name :- ReadString(big, s, OI_FILENAME_LEN);
      var capture :- ReadString(big, s, name.1);
      var modification :- ReadString(big, s, capture.1);
      Read(ObjectRead(InfoAt(big, s), name.0, capture.0, modification.0), modification.1)
  }

  /** ptp_unpack_OI, up to the conversion of dates that are long enough. */
  method UnpackOI(big: bool, data: seq<byte>) returns (oi: ObjectRead)
    requires ReadOI(big, data).Read?
    ensures ReadOI(big, data).value == oi
  {
    hide Get16, Get32, ReadString;
    var filename, nameLen := UnpackString(big, data, OI_FILENAME_LEN);
    var capture, captureLen := UnpackString(big, data, OI_FILENAME_LEN + nameLen * 2 + 1);
    var modification, modLen := UnpackString(big, data, OI_FILENAME_LEN + nameLen * 2 + captureLen * 2 + 2);
    oi := ObjectRead(InfoAt(big, data), filename, capture, modification);
  }

  lemma FrontBack(big: bool, s: seq<byte>, oi: ObjectInfo)
    requires Holds(s, 0, FixedFront(big, oi))
    ensures |s| >= 26 && Get32(big, s, 0) == oi.storageID && Get16(big, s, 4) == oi.objectFormat
            && Get16(big, s, 6) == oi.protectionStatus
            && Get32(big, s, 8) == oi.objectCompressedSize && Get16(big, s, 12) == oi.thumbFormat
            && Get32(big, s, 14) == oi.thumbCompressedSize
            && Get32(big, s, 18) == oi.thumbPixWidth && Get32(big, s, 22) == oi.thumbPixHeight
  {
    hide Put16, Put32, Get16, Get32, Holds, U16_SIZE, U32_SIZE;
    var f1 := Put32(big, oi.storageID);
    var f2 := f1 + Put16(big, oi.objectFormat);
    var f3 := f2 + Put16(big, oi.protectionStatus);
    var f4 := f3 + Put32(big, oi.objectCompressedSize);
    var f5 := f4 + Put16(big, oi.thumbFormat);
    var f6 := f5 + Put32(big, oi.thumbCompressedSize);
    var f7 := f6 + Put32(big, oi.thumbPixWidth);
    Field32(big, s, f7, oi.thumbPixHeight);
    Field32(big, s, f6, oi.thumbPixWidth);
    Field32(big, s, f5, oi.thumbCompressedSize);
    Field16(big, s, f4, oi.thumbFormat);
    Field32(big, s, f3, oi.objectCompressedSize);
    Field16(big, s, f2, oi.protectionStatus);
    Field16(big, s, f1, oi.objectFormat);
    assert [] + f1 == f1;
    Field32(big, s, [], oi.storageID);
  }

  lemma Field32(big: bool, s: seq<byte>, front: seq<byte>, v: word)
    requires Holds(s, 0, front + Put32(big, v))
    ensures Holds(s, 0, front) && |front| + 4 <= |s| && Get32(big, s, |front|) == v
  {
    hide Put32, Get32;
    HoldsBoth(s, 0, front, Put32(big, v));
    Read32Of(big, s, |front|, v);
  }

  lemma Field16(big: bool, s: seq<byte>, front: seq<byte>, v: half)
    requires Holds(s, 0, front + Put16(big, v))
    ensures Holds(s, 0, front) && |front| + 2 <= |s| && Get16(big, s, |front|) == v
  {
    hide Put16, Get16;
    HoldsBoth(s, 0, front, Put16(big, v));
    Read16Of(big, s, |front|, v);
  }

  lemma FixedBack(big: bool, s: seq<byte>, oi: ObjectInfo)
    requires Holds(s, 0, Fixed(big, oi))
    ensures |s| >= OI_FILENAME_LEN && InfoAt(big, s) == oi
  {
    hide Put16, Put32, Get16, Get32, Holds, FixedFront, U16_SIZE, U32_SIZE;
    var f1 := FixedFront(big, oi);
    var f2 := f1 + Put32(big, oi.imagePixWidth);
    var f3 := f2 + Put32(big, oi.imagePixHeight);
    var f4 := f3 + Put32(big, oi.imageBitDepth);
    var f5 := f4 + Put32(big, oi.parentObject);
    var f6 := f5 + Put16(big, oi.associationType);
    var f7 := f6 + Put32(big, oi.associationDesc);
    Field32(big, s, f7, oi.sequenceNumber);
    Field32(big, s, f6, oi.associationDesc);
    Field16(big, s, f5, oi.associationType);
    Field32(big, s, f4, oi.parentObject);
    Field32(big, s, f3, oi.imageBitDepth);
    Field32(big, s, f2, oi.imagePixHeight);
    Field32(big, s, f1, oi.imagePixWidth);
    FrontBack(big, s, oi);
  }

  /**
   A packed ObjectInfo is read back with every field, both dates absent and nothing read outside it,
   exactly if its name has at most 254 characters.
   */
  lemma ObjectBack(big: bool, oi: ObjectInfo, name: seq<byte>)
    ensures |name| <= 254 <==> var r := ReadOI(big, PackedOI(big, oi, name));
                               r.Read? && r.value == ObjectRead(oi, Some(name + [0]), None, None)
  {
    hide Fixed, PackedString, ReadString, InfoAt, Zeros, Holds;
    var s := PackedOI(big, oi, name);
    if |name| <= 254 {
      ShortObject(big, oi, name);
      FixedBack(big, s, oi);
    } else if ReadString(big, s, OI_FILENAME_LEN).Read? {
      LongStringLost(big, s, OI_FILENAME_LEN, name);
    }
  }

  lemma ShortObject(big: bool, oi: ObjectInfo, name: seq<byte>)
    requires |name| <= 254
    ensures var s, at := PackedOI(big, oi, name), OI_FILENAME + 2 * (|name| + 1);
            && Holds(s, 0, Fixed(big, oi))
            && ReadString(big, s, OI_FILENAME_LEN) == Read(Some(name + [0]), at)
            && ReadString(big, s, at) == Read(None, at + 1) && ReadString(big, s, at + 1) == Read(None, at + 2)
  {
    hide Fixed, PackedString, ReadString, Holds, Zeros, U8, NamePart, U32_SIZE;
    var s, at := PackedOI(big, oi, name), OI_FILENAME + 2 * (|name| + 1);
    HoldsWhole(s);
    HoldsBoth(s, 0, Fixed(big, oi), NamePart(big, name));
    ShortName(big, s, name);
    PackedStringBack(big, s, OI_FILENAME_LEN, name);
    NullString(big, s, at);
    NullString(big, s, at + 1);
  }

  lemma ShortName(big: bool, s: seq<byte>, name: seq<byte>)
    requires |name| <= 254 && |s| == Allocated(name) && Holds(s, OI_FILENAME_LEN, NamePart(big, name))
    ensures var at := OI_FILENAME + 2 * (|name| + 1);
            Holds(s, OI_FILENAME_LEN, PackedString(big, name)) && s[at] == 0 && s[at + 1] == 0
  {
    hide PackedString, Zeros, Holds, U32_SIZE, U16_SIZE;
    var at, p, z := OI_FILENAME + 2 * (|name| + 1), PackedString(big, name), Zeros(6);
    HoldsBoth(s, OI_FILENAME_LEN, p, z);
    ZeroByte(s, OI_FILENAME_LEN + |p|, 2);
    ZeroByte(s, OI_FILENAME_LEN + |p|, 3);
  }

  lemma ZeroByte(s: seq<byte>, at: nat, k: nat)
    requires k < 6 && Holds(s, at, Zeros(6))
    ensures at + 6 <= |s| && s[at + k] == 0
  {
    assert s[at + k] == s[at..at + 6][k];
  }

  lemma NullString(big: bool, s: seq<byte>, at: nat)
    requires at < |s| && at < U16_SIZE && s[at] == 0
    ensures ReadString(big, s, at) == Read(None, at + 1)
  {
  }

  /** The dataset of section 5.3.1 with its name and both dates, as the standard writes strings. */
  function StandardOI(big: bool, oi: ObjectInfo, name: seq<half>, capture: seq<half>,
                      modification: seq<half>): seq<byte>
    requires |name| <= 254 && |capture| <= 254 && |modification| <= 254
  {
    Fixed(big, oi) + PackString(big, name) + PackString(big, capture) + PackString(big, modification)
  }

  /** It is read back with every field, its name and each date in its place, whatever follows. */
  lemma ReadOIOf(big: bool, oi: ObjectInfo, name: seq<half>, capture: seq<half>, modification: seq<half>,
                 tail: seq<byte>)
    requires |name| <= 254 && |capture| <= 254 && |modification| <= 254
    ensures var s := StandardOI(big, oi, name, capture, modification);
            ReadOI(big, s + tail) == Read(ObjectRead(oi, TextOf(name), TextOf(capture), TextOf(modification)), |s|)
  {
    hide Fixed, ReadString, PackString, InfoAt, TextOf, Holds;
    var f, a, b, c := Fixed(big, oi), PackString(big, name), PackString(big, capture), PackString(big, modification);
    StringSizes(big, name);
    StringSizes(big, capture);
    StringSizes(big, modification);
    var s := f + a + b + c + tail;
    HoldsWhole(s);
    HoldsBoth(s, 0, f + a + b + c, tail);
    HoldsBoth(s, 0, f + a + b, c);
    HoldsBoth(s, 0, f + a, b);
    HoldsBoth(s, 0, f, a);
    FixedBack(big, s, oi);
    ReadStringOf(big, s, |f|, name);
    ReadStringOf(big, s, |f + a|, capture);
    ReadStringOf(big, s, |f + a + b|, modification);
  }

  lemma StringSizes(big: bool, t: seq<half>)
    requires |t| <= 254
    ensures |PackString(big, t)| <= 511
  {
    hide Put16;
  }

  // Property values

  /** ptp_unpack_DPV; for a type that is not supported the pointer stays as it was. */
  method UnpackDPV(big: bool, data: seq<byte>, was: Value, dt: nat) returns (v: Value)
    requires ReadValue(big, data, 0, dt).Read?
    ensures v == if dt in {1, 2, 3, 4, 5, 6, 0xFFFF} then ReadValue(big, data, 0, dt).value else was
  {
    hide Get16, Get32, ReadString;
    v := was;
    if IsScalar(dt) {
      var w := if dt <= 2 then data[0] as nat else if dt <= 4 then Get16(big, data, 0) else Get32(big, data, 0);
      v := Number(AsType(dt, w));
    } else if dt == STR {
      var text, len := UnpackString(big, data, 0);
      v := String(text);
    }
  }

  /** A property value to be packed: a number of the type, or a C string. */
  datatype Packable = PackNumber(n: int) | PackText(w: seq<byte>)

  predicate Fits(dt: nat, v: Packable) {
    if IsScalar(dt) then v.PackNumber? && InType(dt, v.n) else dt == STR ==> v.PackText?
  }

  function PackedDPV(big: bool, dt: nat, v: Packable): seq<byte>
    requires Fits(dt, v)
  {
    if IsScalar(dt) then PackScalar(big, dt, v.n)
    else if dt == STR then
      var p := PackedString(big, v.w);
      p + Zeros(|v.w| * 2 + 3 - |p|)
    else []
  }

  /** ptp_pack_DPV; a type that is not supported gives a null pointer and size zero. */
  method PackDPV(big: bool, v: Packable, dt: nat) returns (dpv: array?<byte>, size: nat)
    requires Fits(dt, v)
    ensures dpv == null <==> dt !in {1, 2, 3, 4, 5, 6, 0xFFFF}
    ensures if dpv == null then size == 0 else size == dpv.Length && dpv[..] == PackedDPV(big, dt, v)
  {
    hide PackedString, Splice, Put16, Put32, Filled;
    dpv, size := null, 0;
    if IsScalar(dt) {
      var bytes := PackScalar(big, dt, v.n);
      size := Size(dt);
      dpv := new byte[size](k requires 0 <= k < |bytes| => bytes[k]);
    } else if dt == STR {
      size := |v.w| * 2 + 3;
      dpv := new byte[size](_ => 0);
      ghost var was := dpv[..];
      NothingFilled(was);
      var len := PackStringTo(big, v.w, dpv, 0);
      FilledOn(was, [], PackedString(big, v.w));
      FilledText(PackedString(big, v.w), dpv[..]);
    }
  }

  lemma FilledText(p: seq<byte>, s: seq<byte>)
    requires Filled(s, [] + p)
    ensures |p| <= |s| && s == p + Zeros(|s| - |p|)
  {
    assert [] + p == p;
  }

  /** A packed value is read back: numbers always, strings exactly if they have at most 254 characters. */
  lemma ValueBack(big: bool, dt: nat, v: Packable)
    requires Supported(dt) && Fits(dt, v)
    ensures var r := ReadValue(big, PackedDPV(big, dt, v), 0, dt);
            if IsScalar(dt) then r == Read(Number(v.n), Size(dt))
            else (r.Read? && r.value == String(Some(v.w + [0])) <==> |v.w| <= 254)
  {
    hide PackScalar, ReadScalar, PackedString, ReadString, Holds, InType;
    var s := PackedDPV(big, dt, v);
    HoldsWhole(s);
    if IsScalar(dt) {
      ReadScalarOf(big, s, 0, dt, v.n);
    } else if |v.w| <= 254 {
      HoldsBoth(s, 0, PackedString(big, v.w), Zeros(|v.w| * 2 + 3 - |PackedString(big, v.w)|));
      PackedStringBack(big, s, 0, v.w);
    } else if ReadString(big, s, 0).Read? {
      LongStringLost(big, s, 0, v.w);
    }
  }
}
