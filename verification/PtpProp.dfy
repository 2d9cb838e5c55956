/** Property values and descriptions of ptp-pack.c: DevicePropDesc, section 13.3.3 of PIMA 15740:2000. */
module PtpProp {
  import opened Buffers
  import opened Words
  import opened PtpData

  const STR := 0xFFFF

  /** The integer types INT8, UINT8, INT16, UINT16, INT32 and UINT32. */
  predicate IsScalar(dt: nat) { 1 <= dt <= 6 }

  predicate Supported(dt: nat) { IsScalar(dt) || dt == STR }

  function Size(dt: nat): nat
    requires IsScalar(dt)
  {
    if dt <= 2 then 1 else if dt <= 4 then 2 else 4
  }

  function Modulus(dt: nat): nat
    requires IsScalar(dt)
  {
    if dt <= 2 then 0x100 else if dt <= 4 then U16_SIZE else U32_SIZE
  }

  /** The types with odd numbers are signed. */
  predicate InType(dt: nat, n: int)
    requires IsScalar(dt)
  {
    if dt % 2 == 1 then 2 * n + Modulus(dt) >= 0 && 2 * n < Modulus(dt) else 0 <= n < Modulus(dt)
  }

  function AsType(dt: nat, w: nat): int
    requires IsScalar(dt)
  {
    if dt % 2 == 1 && 2 * w >= Modulus(dt) then w - Modulus(dt) else w
  }

  /** The values of each type. */
  lemma TypeRanges(n: int)
    ensures (InType(1, n) <==> -0x80 <= n < 0x80) && (InType(2, n) <==> 0 <= n < 0x100)
    ensures (InType(3, n) <==> -0x8000 <= n < 0x8000) && (InType(4, n) <==> 0 <= n < 0x1_0000)
    ensures (InType(5, n) <==> -0x8000_0000 <= n < 0x8000_0000) && (InType(6, n) <==> 0 <= n < 0x1_0000_0000)
  {
  }

  /** Which of them a stored word is: the one that differs from it by a multiple of the number of words. */
  lemma TypedWord(dt: nat, w: nat)
    requires IsScalar(dt) && w < (if dt <= 2 then 0x100 else if dt <= 4 then 0x1_0000 else 0x1_0000_0000)
    ensures InType(dt, AsType(dt, w))
    ensures (w - AsType(dt, w)) % (if dt <= 2 then 0x100 else if dt <= 4 then 0x1_0000 else 0x1_0000_0000) == 0
  {
  }

  /** What a value pointer leads to. */
  datatype Value = Missing | Number(n: int) | String(text: Text)

  function ReadScalar(big: bool, s: seq<byte>, at: nat, dt: nat): Read<int>
    requires IsScalar(dt)
  {
    var w :- if dt <= 2 then Read8(s, at) else if dt <= 4 then Read16(big, s, at) else Read32(big, s, at);
    Read(AsType(dt, w.0), w.1)
  }

  /** One value of a property; nothing is read for the types that are not supported. */
  function ReadValue(big: bool, s: seq<byte>, at: nat, dt: nat): Read<Value> {
    if IsScalar(dt) then
      var n :- ReadScalar(big, s, at, dt);
      Read(Number(n.0), n.1)
    else if dt == STR then
      var t :- ReadString(big, s, at);
      Read(String(t.0), t.1)
    else Read(Missing, at)
  }

  function ReadValues(big: bool, s: seq<byte>, at: nat, dt: nat, n: nat): Read<seq<Value>> {
    if n == 0 then Read([], at)
    else
      var front :- ReadValues(big, s, at, dt, n - 1);
      var v :- ReadValue(big, s, front.1, dt);
      Read(front.0 + [v.0], v.1)
  }

  datatype Form = NoForm | Range(low: Value, high: Value, step: Value) | Enumeration(values: seq<Value>)

  datatype PropDesc = PropDesc(code: nat, dataType: nat, getSet: nat, factory: Value, current: Value, flag: nat,
                               form: Form)

  const RANGE := 1
  const ENUMERATION := 2

  function ReadForm(big: bool, s: seq<byte>, at: nat, dt: nat, flag: nat): Read<Form> {
    if flag == RANGE && IsScalar(dt) then
      var a :- ReadValue(big, s, at, dt);
      var b :- ReadValue(big, s, a.1, dt);
      var c :- ReadValue(big, s, b.1, dt);
      Read(Range(a.0, b.0, c.0), c.1)
    else if flag == ENUMERATION then
      var n :- Read16(big, s, at);
      var vs :- ReadValues(big, s, n.1, dt, n.0);
      Read(Enumeration(vs.0), vs.1)
    else Read(NoForm, at)
  }

  /** ptp_unpack_DPD. A type that is not supported leaves the values null and the form flag zero. */
  function ReadDPD(big: bool, s: seq<byte>): Read<PropDesc> {
    var code :- Read16(big, s, 0);
    var dt :- Read16(big, s, 2);
    var getSet :- Read8(s, 4);
    if !Supported(dt.0) then Read(PropDesc(code.0, dt.0, getSet.0, Missing, Missing, 0, NoForm), 5)
    else
      var a :- ReadValue(big, s, 5, dt.0);
      var b :- ReadValue(big, s, a.1, dt.0);
      var flag :- Read8(s, b.1);
      var form :- ReadForm(big, s, flag.1, dt.0, flag.0);
      Read(PropDesc(code.0, dt.0, getSet.0, a.0, b.0, flag.0, form.0), form.1)
  }

  // The layout of the standard

  /** A value as the responder has it. */
  datatype Datum = Num(n: int) | Str(t: seq<half>)

  predicate OfType(dt: nat, d: Datum) {
    if IsScalar(dt) then d.Num? && InType(dt, d.n) else dt == STR && d.Str? && |d.t| <= 254
  }

  function PackScalar(big: bool, dt: nat, n: int): (s: seq<byte>)
    requires IsScalar(dt) && InType(dt, n)
    ensures |s| == Size(dt)
  {
    if dt <= 2 then [U8(n)] else if dt <= 4 then Put16(big, U16(n)) else Put32(big, U32(n))
  }

  function PackDatum(big: bool, dt: nat, d: Datum): seq<byte>
    requires OfType(dt, d)
  {
    if d.Num? then PackScalar(big, dt, d.n) else PackString(big, d.t)
  }

  function ValueOf(d: Datum): Value { if d.Num? then Number(d.n) else String(TextOf(d.t)) }

  function PackData(big: bool, dt: nat, ds: seq<Datum>): seq<byte>
    requires forall k :: 0 <= k < |ds| ==> OfType(dt, ds[k])
  {
    if ds == [] then [] else PackData(big, dt, ds[..|ds| - 1]) + PackDatum(big, dt, ds[|ds| - 1])
  }

  function ValuesOf(ds: seq<Datum>): (vs: seq<Value>)
    ensures |vs| == |ds|
  {
    seq(|ds|, i requires 0 <= i < |ds| => ValueOf(ds[i]))
  }

  datatype Allowed = Anything | Between(low: Datum, high: Datum, step: Datum) | OneOf(values: seq<Datum>)

  datatype Property = Property(code: half, dataType: half, getSet: byte, factory: Datum, current: Datum,
                               allowed: Allowed)

  /** A description of a supported type; ranges are of numbers. */
  predicate Describable(p: Property) {
    && Supported(p.dataType) && OfType(p.dataType, p.factory) && OfType(p.dataType, p.current)
    && match p.allowed
       case Anything => true
       case Between(a, b, c) =>
         IsScalar(p.dataType) && OfType(p.dataType, a) && OfType(p.dataType, b) && OfType(p.dataType, c)
       case OneOf(vs) => |vs| < U16_SIZE && forall k :: 0 <= k < |vs| ==> OfType(p.dataType, vs[k])
  }

  function Flag(a: Allowed): byte {
    match a case Anything => 0 case Between(_, _, _) => RANGE case OneOf(_) => ENUMERATION
  }

  function FormOf(a: Allowed): Form {
    match a
    case Anything => NoForm
    case Between(x, y, z) => Range(ValueOf(x), ValueOf(y), ValueOf(z))
    case OneOf(vs) => Enumeration(ValuesOf(vs))
  }

  function PackForm(big: bool, p: Property): seq<byte>
    requires Describable(p)
  {
    match p.allowed
    case Anything => []
    case Between(a, b, c) =>
      PackDatum(big, p.dataType, a) + (PackDatum(big, p.dataType, b) + PackDatum(big, p.dataType, c))
    case OneOf(vs) => Put16(big, |vs|) + PackData(big, p.dataType, vs)
  }

  function PackProperty(big: bool, p: Property): seq<byte>
    requires Describable(p)
  {
    Put16(big, p.code) + (Put16(big, p.dataType) + ([p.getSet] + (PackDatum(big, p.dataType, p.factory)
    + (PackDatum(big, p.dataType, p.current) + ([Flag(p.allowed)] + PackForm(big, p))))))
  }

  function DescOf(p: Property): PropDesc {
    PropDesc(p.code, p.dataType, p.getSet, ValueOf(p.factory), ValueOf(p.current), Flag(p.allowed), FormOf(p.allowed))
  }

  lemma AsTypeOf(dt: nat, n: int)
    requires IsScalar(dt) && InType(dt, n)
    ensures AsType(dt, n % Modulus(dt)) == n
  {
  }

  lemma ReadScalarOf(big: bool, s: seq<byte>, at: nat, dt: nat, n: int)
    requires IsScalar(dt) && InType(dt, n) && Holds(s, at, PackScalar(big, dt, n))
    ensures ReadScalar(big, s, at, dt) == Read(n, at + Size(dt))
  {
    hide Holds, Put16, Put32, Read8, Read16, Read32, InType, AsType;
    AsTypeOf(dt, n);
    if dt <= 2 {
      Read8Of(s, at, U8(n));
    } else if dt <= 4 {
      Read16Of(big, s, at, U16(n));
    } else {
      Read32Of(big, s, at, U32(n));
    }
  }

  lemma ReadValueOf(big: bool, s: seq<byte>, at: nat, dt: nat, d: Datum)
    requires OfType(dt, d) && |s| < U16_SIZE && at <= |s| && Holds(s, at, PackDatum(big, dt, d))
    ensures ReadValue(big, s, at, dt) == Read(ValueOf(d), at + |PackDatum(big, dt, d)|)
  {
    hide Holds, PackScalar, PackString, ReadScalar, ReadString, TextOf, InType;
    if d.Num? {
      ReadScalarOf(big, s, at, dt, d.n);
    } else {
      ReadStringOf(big, s, at, d.t);
    }
  }

  lemma {:induction false} ReadValuesOf(big: bool, s: seq<byte>, at: nat, dt: nat, ds: seq<Datum>)
    requires forall k :: 0 <= k < |ds| ==> OfType(dt, ds[k])
    requires |s| < U16_SIZE && at <= |s| && Holds(s, at, PackData(big, dt, ds))
    ensures ReadValues(big, s, at, dt, |ds|) == Read(ValuesOf(ds), at + |PackData(big, dt, ds)|)
    decreases |ds|
  {
    hide Holds, PackDatum, ReadValue, ValueOf, OfType;
    if ds != [] {
      var n := |ds| - 1;
      var front, last := PackData(big, dt, ds[..n]), PackDatum(big, dt, ds[n]);
      TwoPieces(s, at, front, last);
      ReadValuesOf(big, s, at, dt, ds[..n]);
      ReadValueOf(big, s, at + |front|, dt, ds[n]);
      assert ValuesOf(ds) == ValuesOf(ds[..n]) + [ValueOf(ds[n])];
    }
  }

  lemma ReadFormOf(big: bool, s: seq<byte>, at: nat, p: Property)
    requires Describable(p) && |s| < U16_SIZE && at <= |s| && Holds(s, at, PackForm(big, p))
    ensures ReadForm(big, s, at, p.dataType, Flag(p.allowed) as nat) == Read(FormOf(p.allowed), at + |PackForm(big, p)|)
  {
    hide Holds, PackDatum, ReadValue, ReadValues, ValueOf, OfType, PackData, Put16, Read16, ValuesOf;
    match p.allowed
    case Anything =>
    case Between(a, b, c) =>
      var x, y, z := PackDatum(big, p.dataType, a), PackDatum(big, p.dataType, b), PackDatum(big, p.dataType, c);
      TwoPieces(s, at, x, y + z);
      TwoPieces(s, at + |x|, y, z);
      ReadValueOf(big, s, at, p.dataType, a);
      ReadValueOf(big, s, at + |x|, p.dataType, b);
      ReadValueOf(big, s, at + |x| + |y|, p.dataType, c);
    case OneOf(vs) =>
      TwoPieces(s, at, Put16(big, |vs|), PackData(big, p.dataType, vs));
      Read16Of(big, s, at, |vs|);
      ReadValuesOf(big, s, at + 2, p.dataType, vs);
  }

  /** Every description of a supported type below 64 KiB is recovered field by field, in both byte orders. */
  lemma ReadDPDOf(big: bool, p: Property)
    requires Describable(p) && |PackProperty(big, p)| < U16_SIZE
    ensures ReadDPD(big, PackProperty(big, p)) == Read(DescOf(p), |PackProperty(big, p)|)
  {
    hide Holds, PackDatum, ReadValue, ReadForm, ValueOf, OfType, Put16, Read16, Read8, PackForm, FormOf, Supported;
    var s := PackProperty(big, p);
    var dt := p.dataType;
    var a, b, rest := PackDatum(big, dt, p.factory), PackDatum(big, dt, p.current), PackForm(big, p);
    HoldsWhole(s);
    TwoPieces(s, 0, Put16(big, p.code), Put16(big, dt) + ([p.getSet] + (a + (b + ([Flag(p.allowed)] + rest)))));
    TwoPieces(s, 2, Put16(big, dt), [p.getSet] + (a + (b + ([Flag(p.allowed)] + rest))));
    TwoPieces(s, 4, [p.getSet], a + (b + ([Flag(p.allowed)] + rest)));
    TwoPieces(s, 5, a, b + ([Flag(p.allowed)] + rest));
    TwoPieces(s, 5 + |a|, b, [Flag(p.allowed)] + rest);
    TwoPieces(s, 5 + |a| + |b|, [Flag(p.allowed)], rest);
    Read16Of(big, s, 0, p.code);
    Read16Of(big, s, 2, dt);
    Read8Of(s, 4, p.getSet);
    ReadValueOf(big, s, 5, dt, p.factory);
    ReadValueOf(big, s, 5 + |a|, dt, p.current);
    Read8Of(s, 5 + |a| + |b|, Flag(p.allowed));
    ReadFormOf(big, s, 5 + |a| + |b| + 1, p);
  }

  /** Of a type that is not supported only the code, the type and the access are read. */
  lemma UnsupportedDPD(big: bool, code: half, dt: half, getSet: byte, tail: seq<byte>)
    requires dt !in {1, 2, 3, 4, 5, 6, 0xFFFF}
    ensures ReadDPD(big, Put16(big, code) + Put16(big, dt) + [getSet] + tail)
            == Read(PropDesc(code, dt, getSet, Missing, Missing, 0, NoForm), 5)
  {
    hide Holds, Put16, Read16, Read8;
    var a, b := Put16(big, code), Put16(big, dt);
    var s := a + b + [getSet] + tail;
    HoldsWhole(s);
    TwoPieces(s, 0, a + b + [getSet], tail);
    TwoPieces(s, 0, a + b, [getSet]);
    TwoPieces(s, 0, a, b);
    Read16Of(big, s, 0, code);
    Read16Of(big, s, 2, dt);
    Read8Of(s, 4, getSet);
  }

  /** A form flag other than 1 and 2, and the flag of a range for strings, are kept, and no form is read. */
  lemma FormlessDPD(big: bool, p: Property, flag: byte, tail: seq<byte>)
    requires Describable(p) && flag != 2 && (flag == 1 ==> p.dataType == 0xFFFF)
    requires |PackDatum(big, p.dataType, p.factory)| + |PackDatum(big, p.dataType, p.current)| + 6 + |tail| < U16_SIZE
    ensures var a, b := PackDatum(big, p.dataType, p.factory), PackDatum(big, p.dataType, p.current);
            ReadDPD(big, Put16(big, p.code) + Put16(big, p.dataType) + [p.getSet] + a + b + [flag] + tail)
            == Read(PropDesc(p.code, p.dataType, p.getSet, ValueOf(p.factory), ValueOf(p.current), flag, NoForm),
                    6 + |a| + |b|)
  {
    hide Holds, PackDatum, ReadValue, ReadForm, ValueOf, OfType, Put16, Read16, Read8, Supported, U16_SIZE, U32_SIZE;
    var dt := p.dataType;
    var h, a, b := Put16(big, p.code) + Put16(big, dt), PackDatum(big, dt, p.factory), PackDatum(big, dt, p.current);
    var s := h + [p.getSet] + a + b + [flag] + tail;
    HoldsWhole(s);
    TwoPieces(s, 0, h + [p.getSet] + a + b + [flag], tail);
    TwoPieces(s, 0, h + [p.getSet] + a + b, [flag]);
    TwoPieces(s, 0, h + [p.getSet] + a, b);
    TwoPieces(s, 0, h + [p.getSet], a);
    TwoPieces(s, 0, h, [p.getSet]);
    TwoPieces(s, 0, Put16(big, p.code), Put16(big, dt));
    Read16Of(big, s, 0, p.code);
    Read16Of(big, s, 2, dt);
    Read8Of(s, 4, p.getSet);
    ReadValueOf(big, s, 5, dt, p.factory);
    ReadValueOf(big, s, 5 + |a|, dt, p.current);
    Read8Of(s, 5 + |a| + |b|, flag);
    NoFormRead(big, s, 6 + |a| + |b|, dt, flag);
  }

  lemma NoFormRead(big: bool, s: seq<byte>, at: nat, dt: nat, flag: byte)
    requires flag != 2 && (flag == 1 ==> dt == 0xFFFF)
    ensures ReadForm(big, s, at, dt, flag) == Read(NoForm, at)
  {
  }
}
