/** The unpackers of ptp-pack.c for DeviceInfo and DevicePropDesc. */
module PtpUnpack {
  import opened Buffers
  import opened Words
  import opened PtpData
  import opened PtpProp

  /** The longest string that the loops go over. */
  const MAX_STRING := 255

  /** ptp_unpack_string; the text is None for a null pointer. */
  method UnpackString(big: bool, data: seq<byte>, offset: nat) returns (text: Text, len: nat)
    requires ReadString(big, data, offset).Read?
    ensures ReadString(big, data, offset) == Read(text, offset + 2 * len + 1) && len == data[U16(offset)]
  {
    hide Get16;
    var at := U16(offset);
    text := None;
    len := data[at];
    if len != 0 {
      var chars := new byte[len](_ => 0);
      var i := 0;
      while i < len && i < MAX_STRING
        invariant i <= len
        invariant forall k :: 0 <= k < i ==> chars[k] == U8(Get16(big, data, at + 1 + 2 * k))
      {
        chars[i] := U8(Get16(big, data, at + 2 * i + 1));
        i := i + 1;
      }
      chars[len - 1] := 0;
      assert chars[..] == Chars(big, data, at + 1, len);
      text := Some(chars[..]);
    }
  }

  /** ptp_unpack_uint32_t_array */
  method UnpackArray32(big: bool, data: seq<byte>, offset: nat) returns (a: seq<nat>, n: nat)
    requires ReadArray32(big, data, offset).Read?
    ensures ReadArray32(big, data, offset) == Read(a, offset + 4 * n + 4) && |a| == n
  {
    hide Get32;
    var at := U16(offset);
    n := Get32(big, data, at);
    var elements := new nat[n];
    var i := 0;
    while n > i
      invariant i <= n
      invariant forall k :: 0 <= k < i ==> elements[k] == Get32(big, data, at + 4 + 4 * k)
    {
      elements[i] := Get32(big, data, at + 4 * (i + 1));
      i := i + 1;
    }
    a := elements[..];
    assert a == Array32(big, data, at + 4, n);
  }

  /** ptp_unpack_uint16_t_array */
  method UnpackArray16(big: bool, data: seq<byte>, offset: nat) returns (a: seq<nat>, n: nat)
    requires ReadArray16(big, data, offset).Read?
    ensures ReadArray16(big, data, offset) == Read(a, offset + 2 * n + 4) && |a| == n
  {
    hide Get16, Get32;
    var at := U16(offset);
    n := Get32(big, data, at);
    var elements := new nat[n];
    var i := 0;
    while n > i
      invariant i <= n
      invariant forall k :: 0 <= k < i ==> elements[k] == Get16(big, data, at + 4 + 2 * k)
    {
      elements[i] := Get16(big, data, at + 2 * (i + 2));
      i := i + 1;
    }
    a := elements[..];
    assert a == Array16(big, data, at + 4, n);
  }

  const DI_VENDOR_ID := 2
  const DI_VENDOR_VERSION := 6
  const DI_VENDOR_DESC := 8
  const DI_FUNCTIONAL_MODE := 8
  const DI_OPERATIONS := 10

  /** ptp_unpack_DI, with its running total of the lengths of what has no fixed size. */
  method UnpackDI(big: bool, data: seq<byte>) returns (di: DeviceInfo)
    requires ReadDI(big, data).Read?
    ensures ReadDI(big, data).value == di
  {
    hide Get16, Get32, ReadString, ReadArray16, U16, U16_SIZE, U32_SIZE;
    var version := Get16(big, data, 0);
    var vendorId := Get32(big, data, DI_VENDOR_ID);
    var vendorVersion := Get16(big, data, DI_VENDOR_VERSION);
    var desc, len := UnpackString(big, data, DI_VENDOR_DESC);
    var total := len * 2 + 1;
    var mode := Get16(big, data, DI_FUNCTIONAL_MODE + total);
    var operations, n1 := UnpackArray16(big, data, DI_OPERATIONS + total);
    total := total + n1 * 2 + 4;
    var events, n2 := UnpackArray16(big, data, DI_OPERATIONS + total);
    total := total + n2 * 2 + 4;
    var properties, n3 := UnpackArray16(big, data, DI_OPERATIONS + total);
    total := total + n3 * 2 + 4;
    var captureFormats, n4 := UnpackArray16(big, data, DI_OPERATIONS + total);
    total := total + n4 * 2 + 4;
    var imageFormats, n5 := UnpackArray16(big, data, DI_OPERATIONS + total);
    total := total + n5 * 2 + 4;
    var manufacturer, model, deviceVersion, serial;
    manufacturer, len := UnpackString(big, data, DI_OPERATIONS + total);
    total := total + len * 2 + 1;
    model, len := UnpackString(big, data, DI_OPERATIONS + total);
    total := total + len * 2 + 1;
    deviceVersion, len := UnpackString(big, data, DI_OPERATIONS + total);
    total := total + len * 2 + 1;
    serial, len := UnpackString(big, data, DI_OPERATIONS + total);
    di := DeviceInfo(version, vendorId, vendorVersion, desc, mode, operations, events, properties, captureFormats,
                     imageFormats, manufacturer, model, deviceVersion, serial);
  }

  const DPD_FACTORY := 5

  /** The macros CTVA and MCTVA, and the string cases beside them: one value at the running total. */
  method TakeValue(big: bool, data: seq<byte>, dt: nat, total: nat) returns (v: Value, next: nat)
    requires ReadValue(big, data, DPD_FACTORY + total, dt).Read?
    ensures ReadValue(big, data, DPD_FACTORY + total, dt) == Read(v, DPD_FACTORY + next)
  {
    hide Get16, Get32, ReadString;
    v, next := Missing, total;
    if IsScalar(dt) {
      var at := DPD_FACTORY + total;
      var w := if dt <= 2 then data[at] as nat else if dt <= 4 then Get16(big, data, at) else Get32(big, data, at);
      v, next := Number(AsType(dt, w)), total + Size(dt);
    } else if dt == STR {
      var text, len := UnpackString(big, data, DPD_FACTORY + total);
      v, next := String(text), total + len * 2 + 1;
    }
  }

  /** ptp_unpack_DPD */
  method UnpackDPD(big: bool, data: seq<byte>) returns (dpd: PropDesc)
    requires ReadDPD(big, data).Read?
    ensures ReadDPD(big, data).value == dpd
  {
    hide Get16, Get32, ReadValue, ReadValues, ReadForm;
    var code, dt, getSet := Get16(big, data, 0), Get16(big, data, 2), data[4];
    var factory, current, total := Missing, Missing, 0;
    if Supported(dt) {
      factory, total := TakeValue(big, data, dt, total);
      current, total := TakeValue(big, data, dt, total);
      SomeRead(big, data, dt);
    }
    if total == 0 {
      return PropDesc(code, dt, getSet, factory, current, 0, NoForm);
    }
    var flag := data[DPD_FACTORY + total];
    total := total + 1;
    var form := UnpackForm(big, data, dt, flag, total);
    return PropDesc(code, dt, getSet, factory, current, flag, form);
  }

  /** Values of a supported type take bytes. */
  lemma SomeRead(big: bool, data: seq<byte>, dt: nat)
    requires Supported(dt)
    ensures forall at :: ReadValue(big, data, at, dt).Read? ==> ReadValue(big, data, at, dt).next > at
  {
  }

  /** The form of a property description. */
  method UnpackForm(big: bool, data: seq<byte>, dt: nat, flag: nat, total0: nat) returns (form: Form)
    requires ReadForm(big, data, DPD_FACTORY + total0, dt, flag).Read?
    ensures ReadForm(big, data, DPD_FACTORY + total0, dt, flag).value == form
  {
    hide Get16, Get32, ReadValue, ReadValues;
    form := NoForm;
    var total := total0;
    if flag == RANGE {
      if IsScalar(dt) {
        var low, high, step;
        low, total := TakeValue(big, data, dt, total);
        high, total := TakeValue(big, data, dt, total);
        step, total := TakeValue(big, data, dt, total);
        form := Range(low, high, step);
      }
    } else if flag == ENUMERATION {
      var n := Get16(big, data, DPD_FACTORY + total);
      total := total + 2;
      var values := UnpackValues(big, data, dt, n, total);
      form := Enumeration(values);
    }
  }

  lemma {:induction false} ReadFewer(big: bool, s: seq<byte>, at: nat, dt: nat, n: nat, m: nat)
    requires m <= n && ReadValues(big, s, at, dt, n).Read?
    ensures ReadValues(big, s, at, dt, m).Read?
  {
    if m < n {
      ReadFewer(big, s, at, dt, n - 1, m);
    }
  }

  /** The values of an enumeration form. */
  method UnpackValues(big: bool, data: seq<byte>, dt: nat, n: nat, total0: nat) returns (values: seq<Value>)
    requires ReadValues(big, data, DPD_FACTORY + total0, dt, n).Read?
    ensures ReadValues(big, data, DPD_FACTORY + total0, dt, n).value == values
  {
    hide ReadValue;
    var target := new Value[n](_ => Missing);
    var total, i := total0, 0;
    while i < n
      invariant i <= n && ReadValues(big, data, DPD_FACTORY + total0, dt, i) == Read(target[..i], DPD_FACTORY + total)
    {
      ReadFewer(big, data, DPD_FACTORY + total0, dt, n, i + 1);
      ghost var before := target[..i];
      target[i], total := TakeValue(big, data, dt, total);
      assert target[..i + 1] == before + [target[i]];
      i := i + 1;
    }
    values := target[..];
    assert target[..n] == values;
  }
}
