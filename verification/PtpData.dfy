/**
 Datasets of ptp-pack.c: what the unpackers make of a buffer, and the layouts of PIMA 15740:2000
 that they are meant to invert. Offsets go through uint16_t wherever the source passes them so.
 */
module PtpData {
  import opened Buffers
  import opened Words

  /** Something read at an offset, and the offset behind it; Short means that the buffer ends before. */
  datatype Read<+T> = Short | Read(value: T, next: nat) {
    predicate IsFailure() { Short? }

    function PropagateFailure<U>(): Read<U>
      requires IsFailure()
    {
      Short
    }

    function Extract(): (T, nat)
      requires !IsFailure()
    {
      (value, next)
    }
  }

  /** The memory that a char pointer leads to, its last byte being zero; None is the null pointer. */
  type Text = Option<seq<byte>>

  function Read8(s: seq<byte>, at: nat): Read<nat> {
    if at < |s| then Read(s[at] as int, at + 1) else Short
  }

  function Read16(big: bool, s: seq<byte>, at: nat): Read<nat> {
    if at + 2 <= |s| then Read(Get16(big, s, at), at + 2) else Short
  }

  function Read32(big: bool, s: seq<byte>, at: nat): Read<nat> {
    if at + 4 <= |s| then Read(Get32(big, s, at), at + 4) else Short
  }

  /** The low bytes of n 16-bit characters, the last one made zero. */
  function Chars(big: bool, s: seq<byte>, at: nat, n: nat): (t: seq<byte>)
    requires at + 2 * n <= |s|
    ensures |t| == n
  {
    seq(n, i requires 0 <= i < n => if i == n - 1 then 0 else U8(Get16(big, s, at + 2 * i)))
  }

  /** ptp_unpack_string, and the offset that its callers compute from the length. */
  function ReadString(big: bool, s: seq<byte>, off: nat): Read<Text> {
    var at := U16(off);
    if at >= |s| then Short
    else
      var n := s[at];
      if at + 1 + 2 * (n as int) > |s| then Short
      else Read(if n == 0 then None else Some(Chars(big, s, at + 1, n)), off + 2 * (n as int) + 1)
  }

  function Array16(big: bool, s: seq<byte>, at: nat, n: nat): (a: seq<nat>)
    requires at + 2 * n <= |s|
    ensures |a| == n
  {
    seq(n, i requires 0 <= i < n => Get16(big, s, at + 2 * i))
  }

  function Array32(big: bool, s: seq<byte>, at: nat, n: nat): (a: seq<nat>)
    requires at + 4 * n <= |s|
    ensures |a| == n
  {
    seq(n, i requires 0 <= i < n => Get32(big, s, at + 4 * i))
  }

  /** ptp_unpack_uint16_t_array */
  function ReadArray16(big: bool, s: seq<byte>, off: nat): Read<seq<nat>> {
    var at := U16(off);
    if at + 4 > |s| then Short
    else
      var n := Get32(big, s, at);
      if at + 4 + 2 * n > |s| then Short else Read(Array16(big, s, at + 4, n), off + 2 * n + 4)
  }

  /** ptp_unpack_uint32_t_array */
  function ReadArray32(big: bool, s: seq<byte>, off: nat): Read<seq<nat>> {
    var at := U16(off);
    if at + 4 > |s| then Short
    else
      var n := Get32(big, s, at);
      if at + 4 + 4 * n > |s| then Short else Read(Array32(big, s, at + 4, n), off + 4 * n + 4)
  }

  // Layouts of section 5.3 of the standard: counted arrays and counted strings of 16-bit characters

  function Pack16(big: bool, a: seq<half>): (s: seq<byte>)
    ensures |s| == 2 * |a|
  {
    if a == [] then [] else Pack16(big, a[..|a| - 1]) + Put16(big, a[|a| - 1])
  }

  function Pack32(big: bool, a: seq<word>): (s: seq<byte>)
    ensures |s| == 4 * |a|
  {
    if a == [] then [] else Pack32(big, a[..|a| - 1]) + Put32(big, a[|a| - 1])
  }

  /** A string of up to 254 characters. The empty string has no characters at all, not even the last zero. */
  function PackString(big: bool, t: seq<half>): seq<byte>
    requires |t| <= 254
  {
    if t == [] then [0] else [(|t| + 1) as byte] + Pack16(big, t + [0])
  }

  function PackArray16(big: bool, a: seq<half>): seq<byte>
    requires |a| < U32_SIZE
  {
    Put32(big, |a|) + Pack16(big, a)
  }

  function PackArray32(big: bool, a: seq<word>): seq<byte>
    requires |a| < U32_SIZE
  {
    Put32(big, |a|) + Pack32(big, a)
  }

  /** The text that a string is to be read as. */
  function TextOf(t: seq<half>): Text {
    if t == [] then None else Some(seq(|t|, i requires 0 <= i < |t| => U8(t[i])) + [0])
  }

  /** A piece of a dataset stands at an offset. */
  predicate Holds(s: seq<byte>, at: nat, piece: seq<byte>) {
    at + |piece| <= |s| && s[at..at + |piece|] == piece
  }

  lemma HoldsBoth(s: seq<byte>, at: nat, a: seq<byte>, b: seq<byte>)
    requires Holds(s, at, a + b)
    ensures Holds(s, at, a) && Holds(s, at + |a|, b)
  {
    var piece := s[at..at + |a + b|];
    assert s[at..at + |a|] == piece[..|a|] == a;
    assert s[at + |a|..at + |a| + |b|] == piece[|a|..] == b;
  }

  lemma HoldsWhole(s: seq<byte>)
    ensures Holds(s, 0, s)
  {
  }

  lemma {:induction false} Pack16At(big: bool, a: seq<half>, k: nat)
    requires k < |a|
    ensures Pack16(big, a)[2 * k..2 * k + 2] == Put16(big, a[k])
  {
    hide Put16, U16_SIZE;
    var n := |a| - 1;
    if k < n {
      Pack16At(big, a[..n], k);
      SliceInFront(Pack16(big, a[..n]), Put16(big, a[n]), 2 * k, 2 * k + 2);
    } else {
      SliceBehind(Pack16(big, a[..n]), Put16(big, a[n]), 0, 2);
    }
  }

  lemma {:induction false} Pack32At(big: bool, a: seq<word>, k: nat)
    requires k < |a|
    ensures Pack32(big, a)[4 * k..4 * k + 4] == Put32(big, a[k])
  {
    hide Put32, U32_SIZE;
    var n := |a| - 1;
    if k < n {
      Pack32At(big, a[..n], k);
      SliceInFront(Pack32(big, a[..n]), Put32(big, a[n]), 4 * k, 4 * k + 4);
    } else {
      SliceBehind(Pack32(big, a[..n]), Put32(big, a[n]), 0, 4);
    }
  }

  lemma HeldAt16(big: bool, s: seq<byte>, at: nat, a: seq<half>, k: nat)
    requires k < |a| && Holds(s, at, Pack16(big, a))
    ensures at + 2 * |a| <= |s| && Get16(big, s, at + 2 * k) == a[k]
  {
    hide Put16, Get16, U16_SIZE, U32_SIZE, Pack16;
    Pack16At(big, a, k);
    SliceOfSlice(s, at, at + 2 * |a|, 2 * k, 2 * k + 2);
    GetPut16(big, s, at + 2 * k, a[k]);
  }

  lemma HeldAt32(big: bool, s: seq<byte>, at: nat, a: seq<word>, k: nat)
    requires k < |a| && Holds(s, at, Pack32(big, a))
    ensures at + 4 * |a| <= |s| && Get32(big, s, at + 4 * k) == a[k]
  {
    hide Put32, Get32, U16_SIZE, U32_SIZE, Pack32;
    Pack32At(big, a, k);
    SliceOfSlice(s, at, at + 4 * |a|, 4 * k, 4 * k + 4);
    GetPut32(big, s, at + 4 * k, a[k]);
  }

  lemma Read16Of(big: bool, s: seq<byte>, at: nat, v: half)
    requires Holds(s, at, Put16(big, v))
    ensures Read16(big, s, at) == Read(v as int, at + 2)
  {
    hide Put16, Get16;
    GetPut16(big, s, at, v);
  }

  lemma Read32Of(big: bool, s: seq<byte>, at: nat, v: word)
    requires Holds(s, at, Put32(big, v))
    ensures Read32(big, s, at) == Read(v as int, at + 4)
  {
    hide Put32, Get32;
    GetPut32(big, s, at, v);
  }

  lemma Read8Of(s: seq<byte>, at: nat, v: byte)
    requires Holds(s, at, [v])
    ensures Read8(s, at) == Read(v as int, at + 1)
  {
    OneByteHeld(s, at, v);
  }

  /** The low bytes of packed characters. */
  lemma CharsOf(big: bool, s: seq<byte>, at: nat, t: seq<half>)
    requires t != [] && Holds(s, at, Pack16(big, t + [0]))
    ensures at + 2 * (|t| + 1) <= |s| && Chars(big, s, at, |t| + 1) == TextOf(t).value
  {
    hide Get16, Put16, Pack16;
    var n := |t| + 1;
    forall i | 0 <= i < n
      ensures Chars(big, s, at, n)[i] == TextOf(t).value[i]
    {
      HeldAt16(big, s, at, t + [0], i);
    }
  }

  lemma ReadStringAt(big: bool, s: seq<byte>, off: nat, n: nat)
    requires off < U16_SIZE && off < |s| && s[off] == n && off + 1 + 2 * n <= |s|
    ensures ReadString(big, s, off) == Read(if n == 0 then None else Some(Chars(big, s, off + 1, n)), off + 2 * n + 1)
  {
    hide Get16, Chars;
  }

  /** A string of the standard is read back, as low bytes, wherever it lies below 64 KiB. */
  lemma ReadStringOf(big: bool, s: seq<byte>, off: nat, t: seq<half>)
    requires |t| <= 254 && off < U16_SIZE && Holds(s, off, PackString(big, t))
    ensures ReadString(big, s, off) == Read(TextOf(t), off + |PackString(big, t)|)
  {
    hide ReadString, Pack16, Chars, TextOf, Holds;
    if t == [] {
      OneByteHeld(s, off, 0);
      ReadStringAt(big, s, off, 0);
      NoText(t);
    } else {
      var n := |t| + 1;
      HoldsBoth(s, off, [n as byte], Pack16(big, t + [0]));
      OneByteHeld(s, off, n as byte);
      CharsOf(big, s, off + 1, t);
      ReadStringAt(big, s, off, n);
      SomeText(t);
    }
  }

  lemma OneByteHeld(s: seq<byte>, at: nat, v: byte)
    requires Holds(s, at, [v])
    ensures at < |s| && s[at] == v
  {
    assert s[at] == s[at..at + 1][0];
  }

  lemma NoText(t: seq<half>)
    requires t == []
    ensures TextOf(t) == None
  {
  }

  lemma SomeText(t: seq<half>)
    requires t != []
    ensures TextOf(t).Some?
  {
  }

  lemma ReadArray16Of(big: bool, s: seq<byte>, off: nat, a: seq<half>)
    requires |a| < U32_SIZE && off < U16_SIZE && Holds(s, off, PackArray16(big, a))
    ensures ReadArray16(big, s, off) == Read(a, off + |PackArray16(big, a)|)
  {
    hide Get16, Put16, Pack16, Get32, Put32;
    HoldsBoth(s, off, Put32(big, |a|), Pack16(big, a));
    Read32Of(big, s, off, |a|);
    forall i | 0 <= i < |a|
      ensures Array16(big, s, off + 4, |a|)[i] == a[i]
    {
      HeldAt16(big, s, off + 4, a, i);
    }
    assert Array16(big, s, off + 4, |a|) == a;
  }

  lemma ReadArray32Of(big: bool, s: seq<byte>, off: nat, a: seq<word>)
    requires |a| < U32_SIZE && off < U16_SIZE && Holds(s, off, PackArray32(big, a))
    ensures ReadArray32(big, s, off) == Read(a, off + |PackArray32(big, a)|)
  {
    hide Get16, Put16, Pack32, Get32, Put32;
    HoldsBoth(s, off, Put32(big, |a|), Pack32(big, a));
    Read32Of(big, s, off, |a|);
    forall i | 0 <= i < |a|
      ensures Array32(big, s, off + 4, |a|)[i] == a[i]
    {
      HeldAt32(big, s, off + 4, a, i);
    }
    assert Array32(big, s, off + 4, |a|) == a;
  }

  // DeviceInfo, section 5.5.1

  datatype DeviceInfo = DeviceInfo(standardVersion: nat, vendorExtensionID: nat, vendorExtensionVersion: nat,
                                   vendorExtensionDesc: Text, functionalMode: nat,
                                   operations: seq<nat>, events: seq<nat>, properties: seq<nat>,
                                   captureFormats: seq<nat>, imageFormats: seq<nat>,
                                   manufacturer: Text, model: Text, deviceVersion: Text, serialNumber: Text)

  /** ptp_unpack_DI */
  function ReadDI(big: bool, s: seq<byte>): Read<DeviceInfo> {
    var a :- Read16(big, s, 0);
    var b :- Read32(big, s, 2);
    var c :- Read16(big, s, 6);
    var d :- ReadString(big, s, 8);
    var e :- Read16(big, s, d.1);
    var f :- ReadArray16(big, s, e.1);
    var g :- ReadArray16(big, s, f.1);
    var h :- ReadArray16(big, s, g.1);
    var i :- ReadArray16(big, s, h.1);
    var j :- ReadArray16(big, s, i.1);
    var k :- ReadString(big, s, j.1);
    var l :- ReadString(big, s, k.1);
    var m :- ReadString(big, s, l.1);
    var n :- ReadString(big, s, m.1);
    Read(DeviceInfo(a.0, b.0, c.0, d.0, e.0, f.0, g.0, h.0, i.0, j.0, k.0, l.0, m.0, n.0), n.1)
  }

  /** A DeviceInfo as a responder has it: strings are 16-bit characters. */
  datatype Device = Device(standardVersion: half, vendorExtensionID: word, vendorExtensionVersion: half,
                           vendorExtensionDesc: seq<half>, functionalMode: half,
                           operations: seq<half>, events: seq<half>, properties: seq<half>,
                           captureFormats: seq<half>, imageFormats: seq<half>,
                           manufacturer: seq<half>, model: seq<half>, deviceVersion: seq<half>, serialNumber: seq<half>)

  predicate Encodable(d: Device) {
    && |d.vendorExtensionDesc| <= 254 && |d.manufacturer| <= 254 && |d.model| <= 254 && |d.deviceVersion| <= 254
    && |d.serialNumber| <= 254
    && |d.operations| < U16_SIZE && |d.events| < U16_SIZE && |d.properties| < U16_SIZE && |d.captureFormats| < U16_SIZE
    && |d.imageFormats| < U16_SIZE
  }

  function PackStrings(big: bool, d: Device): seq<byte>
    requires Encodable(d)
  {
    PackString(big, d.manufacturer)
    + (PackString(big, d.model) + (PackString(big, d.deviceVersion) + PackString(big, d.serialNumber)))
  }

  function PackArrays(big: bool, d: Device): seq<byte>
    requires Encodable(d)
  {
    PackArray16(big, d.operations)
    + (PackArray16(big, d.events)
       + (PackArray16(big, d.properties)
          + (PackArray16(big, d.captureFormats) + (PackArray16(big, d.imageFormats) + PackStrings(big, d)))))
  }

  /** The layout of the standard. */
  function PackDevice(big: bool, d: Device): seq<byte>
    requires Encodable(d)
  {
    Put16(big, d.standardVersion) + (Put32(big, d.vendorExtensionID) + (Put16(big, d.vendorExtensionVersion)
    + (PackString(big, d.vendorExtensionDesc) + (Put16(big, d.functionalMode) + PackArrays(big, d)))))
  }

  function InfoOf(d: Device): DeviceInfo {
    DeviceInfo(d.standardVersion, d.vendorExtensionID, d.vendorExtensionVersion, TextOf(d.vendorExtensionDesc),
               d.functionalMode, d.operations, d.events, d.properties, d.captureFormats, d.imageFormats,
               TextOf(d.manufacturer), TextOf(d.model), TextOf(d.deviceVersion), TextOf(d.serialNumber))
  }

  /** The four strings at the end. */
  lemma StringsOf(big: bool, s: seq<byte>, at: nat, d: Device)
    requires Encodable(d) && |s| < U16_SIZE && Holds(s, at, PackStrings(big, d))
    ensures var k, l, m, n := d.manufacturer, d.model, d.deviceVersion, d.serialNumber;
            var at1 := at + |PackString(big, k)|;
            var at2 := at1 + |PackString(big, l)|;
            var at3 := at2 + |PackString(big, m)|;
            && ReadString(big, s, at) == Read(TextOf(k), at1) && ReadString(big, s, at1) == Read(TextOf(l), at2)
            && ReadString(big, s, at2) == Read(TextOf(m), at3)
            && ReadString(big, s, at3) == Read(TextOf(n), at3 + |PackString(big, n)|)
  {
    hide PackString, ReadString, TextOf, Holds;
    var k, l, m, n := PackString(big, d.manufacturer), PackString(big, d.model), PackString(big, d.deviceVersion),
      PackString(big, d.serialNumber);
    TwoPieces(s, at, k, l + (m + n));
    TwoPieces(s, at + |k|, l, m + n);
    TwoPieces(s, at + |k| + |l|, m, n);
    ReadStringOf(big, s, at, d.manufacturer);
    ReadStringOf(big, s, at + |k|, d.model);
    ReadStringOf(big, s, at + |k| + |l|, d.deviceVersion);
    ReadStringOf(big, s, at + |k| + |l| + |m|, d.serialNumber);
  }

  lemma TwoPieces(s: seq<byte>, at: nat, a: seq<byte>, b: seq<byte>)
    requires Holds(s, at, a + b)
    ensures Holds(s, at, a) && Holds(s, at + |a|, b) && at <= |s| && at + |a| <= |s|
  {
    HoldsBoth(s, at, a, b);
  }

  lemma ArraysOf(big: bool, s: seq<byte>, at: nat, d: Device)
    requires Encodable(d) && |s| < U16_SIZE && Holds(s, at, PackArrays(big, d))
    ensures var at1 := at + |PackArray16(big, d.operations)|;
            var at2 := at1 + |PackArray16(big, d.events)|;
            var at3 := at2 + |PackArray16(big, d.properties)|;
            var at4 := at3 + |PackArray16(big, d.captureFormats)|;
            var at5 := at4 + |PackArray16(big, d.imageFormats)|;
            && ReadArray16(big, s, at) == Read(d.operations, at1) && ReadArray16(big, s, at1) == Read(d.events, at2)
            && ReadArray16(big, s, at2) == Read(d.properties, at3)
            && ReadArray16(big, s, at3) == Read(d.captureFormats, at4)
            && ReadArray16(big, s, at4) == Read(d.imageFormats, at5) && Holds(s, at5, PackStrings(big, d))
  {
    hide PackArray16, ReadArray16, Holds, PackStrings;
    var a, b, c := PackArray16(big, d.operations), PackArray16(big, d.events), PackArray16(big, d.properties);
    var e, f, rest := PackArray16(big, d.captureFormats), PackArray16(big, d.imageFormats), PackStrings(big, d);
    TwoPieces(s, at, a, b + (c + (e + (f + rest))));
    TwoPieces(s, at + |a|, b, c + (e + (f + rest)));
    TwoPieces(s, at + |a| + |b|, c, e + (f + rest));
    TwoPieces(s, at + |a| + |b| + |c|, e, f + rest);
    TwoPieces(s, at + |a| + |b| + |c| + |e|, f, rest);
    ReadArray16Of(big, s, at, d.operations);
    ReadArray16Of(big, s, at + |a|, d.events);
    ReadArray16Of(big, s, at + |a| + |b|, d.properties);
    ReadArray16Of(big, s, at + |a| + |b| + |c|, d.captureFormats);
    ReadArray16Of(big, s, at + |a| + |b| + |c| + |e|, d.imageFormats);
  }

  /** Every DeviceInfo below 64 KiB is recovered field by field, in both byte orders. */
  lemma ReadDIOf(big: bool, d: Device)
    requires Encodable(d) && |PackDevice(big, d)| < U16_SIZE
    ensures ReadDI(big, PackDevice(big, d)) == Read(InfoOf(d), |PackDevice(big, d)|)
  {
    hide PackArray16, ReadArray16, PackString, ReadString, Holds, PackStrings, PackArrays, Put16, Put32, Read16,
      Read32, TextOf;
    var s := PackDevice(big, d);
    var a, b, c := Put16(big, d.standardVersion), Put32(big, d.vendorExtensionID), Put16(big, d.vendorExtensionVersion);
    var e, f, rest := PackString(big, d.vendorExtensionDesc), Put16(big, d.functionalMode), PackArrays(big, d);
    HoldsWhole(s);
    TwoPieces(s, 0, a, b + (c + (e + (f + rest))));
    TwoPieces(s, 2, b, c + (e + (f + rest)));
    TwoPieces(s, 6, c, e + (f + rest));
    TwoPieces(s, 8, e, f + rest);
    TwoPieces(s, 8 + |e|, f, rest);
    Read16Of(big, s, 0, d.standardVersion);
    Read32Of(big, s, 2, d.vendorExtensionID);
    Read16Of(big, s, 6, d.vendorExtensionVersion);
    ReadStringOf(big, s, 8, d.vendorExtensionDesc);
    Read16Of(big, s, 8 + |e|, d.functionalMode);
    ArraysOf(big, s, 8 + |e| + 2, d);
    var at := 8 + |e| + 2 + |PackArray16(big, d.operations)| + |PackArray16(big, d.events)|
      + |PackArray16(big, d.properties)|
              + |PackArray16(big, d.captureFormats)| + |PackArray16(big, d.imageFormats)|;
    StringsOf(big, s, at, d);
    DeviceSize(big, d);
  }

  lemma DeviceSize(big: bool, d: Device)
    requires Encodable(d)
    ensures |PackDevice(big, d)| == 8 + |PackString(big, d.vendorExtensionDesc)| + 2 + |PackArray16(big, d.operations)|
              + |PackArray16(big, d.events)| + |PackArray16(big, d.properties)| + |PackArray16(big, d.captureFormats)|
              + |PackArray16(big, d.imageFormats)| + |PackString(big, d.manufacturer)| + |PackString(big, d.model)|
              + |PackString(big, d.deviceVersion)| + |PackString(big, d.serialNumber)|
  {
    hide PackArray16, PackString, Put16, Put32;
  }
}
