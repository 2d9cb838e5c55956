/**
 The containers of the two transports as ptp.c reads and writes them: generic containers on USB
 bulk pipes and PTP/IP packets on TCP, all little endian. Head, Phase and Answer say what the
 code makes of a stream; the Of lemmas say that this inverts the layouts.
 */
module PtpWire {
  import opened Arithmetic
  import opened Buffers
  import opened Words
  import opened PtpPort

  const USB_HEADER := 12
  const USB_COMMAND := 1
  const USB_DATA := 2
  const USB_RESPONSE := 3

  const TCP_HEADER := 8
  const TCP_ROOM := 264
  const TCP_REQ := 6
  const TCP_RESP := 7
  const TCP_START := 9
  const TCP_DATA := 10
  const TCP_END := 12

  /** PTPContainer: params has five elements, of which nparam are meaningful. */
  datatype Container = Container(code: nat, session: nat, trans: nat, params: seq<word>, nparam: nat)

  predicate Sane(c: Container) {
    c.code < U16_SIZE && c.trans < U32_SIZE && |c.params| == 5 && c.nparam <= 5
  }

  function Flatten(pieces: seq<seq<byte>>): seq<byte> {
    if pieces == [] then [] else pieces[0] + Flatten(pieces[1..])
  }

  lemma FlattenSplit(a: seq<seq<byte>>, b: seq<seq<byte>>)
    ensures Flatten(a + b) == Flatten(a) + Flatten(b)
  {
    if a == [] {
      assert a + b == b;
    } else {
      assert (a + b)[1..] == a[1..] + b;
      FlattenSplit(a[1..], b);
    }
  }

  lemma FlattenOne(a: seq<byte>)
    ensures Flatten([a]) == a
  {
    assert Flatten([a]) == a + Flatten([]);
  }

  /** Parameters one after the other. */
  function ParamBytes(ps: seq<word>): (s: seq<byte>)
    ensures |s| == 4 * |ps|
  {
    if ps == [] then [] else ParamBytes(ps[..|ps| - 1]) + Put32(false, ps[|ps| - 1])
  }

  lemma {:induction false} ParamAt(ps: seq<word>, k: nat)
    requires k < |ps|
    ensures ParamBytes(ps)[4 * k..4 * k + 4] == Put32(false, ps[k])
  {
    hide Put32, U32_SIZE;
    var n := |ps| - 1;
    var front, last := ParamBytes(ps[..n]), Put32(false, ps[n]);
    if k < n {
      ParamAt(ps[..n], k);
      SliceInFront(front, last, 4 * k, 4 * k + 4);
    } else {
      SliceBehind(front, last, 0, 4);
    }
  }

  lemma OneMore(ps: seq<word>, k: nat)
    requires k < |ps|
    ensures ParamBytes(ps[..k + 1]) == ParamBytes(ps[..k]) + Put32(false, ps[k])
  {
    hide Put32;
    assert ps[..k + 1][..k] == ps[..k];
  }

  lemma ParamsInRow(ps: seq<word>)
    requires |ps| == 5
    ensures ParamBytes(ps) == Put32(false, ps[0]) + Put32(false, ps[1]) + Put32(false, ps[2]) + Put32(false, ps[3])
            + Put32(false, ps[4])
  {
    hide Put32, U32_SIZE;
    OneMore(ps, 0);
    OneMore(ps, 1);
    OneMore(ps, 2);
    OneMore(ps, 3);
    OneMore(ps, 4);
    assert ps[..5] == ps && ParamBytes(ps[..0]) == [];
  }

  lemma {:induction false} ParamsCut(ps: seq<word>, n: nat)
    requires n <= |ps|
    ensures ParamBytes(ps)[..4 * n] == ParamBytes(ps[..n])
  {
    hide Put32;
    if n < |ps| {
      var front := ps[..|ps| - 1];
      ParamsCut(front, n);
      assert front[..n] == ps[..n];
      SliceInFront(ParamBytes(front), Put32(false, ps[|ps| - 1]), 0, 4 * n);
    } else {
      assert ps[..n] == ps;
    }
  }

  function ParamOf(ps: seq<word>, i: nat): word { if i < |ps| then ps[i] else 0 }

  /** Up to five parameters, padded with zeros. */
  function FiveOf(ps: seq<word>): (r: seq<word>)
    requires |ps| <= 5
    ensures |r| == 5
  {
    [ParamOf(ps, 0), ParamOf(ps, 1), ParamOf(ps, 2), ParamOf(ps, 3), ParamOf(ps, 4)]
  }

  /** The five parameters that are read from a container padded with zeros. */
  function ParamsFrom(s: seq<byte>, at: nat): (ps: seq<word>)
    requires at + 20 <= |s|
    ensures |ps| == 5
  {
    [Get32(false, s, at), Get32(false, s, at + 4), Get32(false, s, at + 8), Get32(false, s, at + 12),
     Get32(false, s, at + 16)]
  }

  lemma ParamReadAt(s: seq<byte>, at: nat, ps: seq<word>, i: nat)
    requires |ps| <= 5 && at + 20 <= |s| && i < 5
    requires s[at..at + 20] == ParamBytes(ps) + Zeros(20 - 4 * |ps|)
    ensures Get32(false, s, at + 4 * i) == ParamOf(ps, i)
  {
    hide Get32, Put32, ParamBytes, Zeros, U16_SIZE, U32_SIZE;
    if i < |ps| {
      ParamPresent(s, at, ps, i);
    } else {
      ZeroRead(s, at, ParamBytes(ps), 20 - 4 * |ps|, 20, 4 * i);
    }
  }

  lemma ParamPresent(s: seq<byte>, at: nat, ps: seq<word>, i: nat)
    requires |ps| <= 5 && at + 20 <= |s| && i < |ps|
    requires s[at..at + 20] == ParamBytes(ps) + Zeros(20 - 4 * |ps|)
    ensures Get32(false, s, at + 4 * i) == ps[i]
  {
    hide *;
    var front, zeros := ParamBytes(ps), Zeros(20 - 4 * |ps|);
    ParamAt(ps, i);
    SliceInFront(front, zeros, 4 * i, 4 * i + 4);
    ReadInside(s, at, front + zeros, 20, 4 * i, ps[i]);
  }

  lemma ReadInside(s: seq<byte>, at: nat, part: seq<byte>, size: nat, p: nat, w: nat)
    requires |part| == size && at + size <= |s| && s[at..at + size] == part && p + 4 <= size
    requires w < U32_SIZE && part[p..p + 4] == Put32(false, w)
    ensures Get32(false, s, at + p) == w
  {
    hide Get32, Put32;
    SliceOfSlice(s, at, at + size, p, p + 4);
    GetPut32(false, s, at + p, w);
  }

  lemma ZeroRead(s: seq<byte>, at: nat, front: seq<byte>, n: nat, size: nat, p: nat)
    requires size == |front| + n && at + size <= |s| && |front| <= p && p + 4 <= size
    requires s[at..at + size] == front + Zeros(n)
    ensures Get32(false, s, at + p) == 0
  {
    hide Get32, Put32, Zeros;
    ZerosBehind(front, n, p);
    ReadInside(s, at, front + Zeros(n), size, p, 0);
  }

  lemma ZerosBehind(front: seq<byte>, n: nat, p: nat)
    requires |front| <= p && p + 4 <= |front| + n
    ensures (front + Zeros(n))[p..p + 4] == Put32(false, 0)
  {
  }

  lemma ParamsRead(s: seq<byte>, at: nat, ps: seq<word>)
    requires |ps| <= 5 && at + 20 <= |s|
    requires s[at..at + 20] == ParamBytes(ps) + Zeros(20 - 4 * |ps|)
    ensures ParamsFrom(s, at) == FiveOf(ps)
  {
    hide *;
    forall i | 0 <= i < 5
      ensures Get32(false, s, at + 4 * i) == ParamOf(ps, i)
    {
      ParamReadAt(s, at, ps, i);
    }
    FiveRead(s, at, ps);
  }

  lemma FiveRead(s: seq<byte>, at: nat, ps: seq<word>)
    requires |ps| <= 5 && at + 20 <= |s|
    requires forall i :: 0 <= i < 5 ==> Get32(false, s, at + 4 * i) == ParamOf(ps, i)
    ensures ParamsFrom(s, at) == FiveOf(ps)
  {
    hide Get32;
    assert Get32(false, s, at + 4 * 0) == ParamOf(ps, 0);
    assert Get32(false, s, at + 4 * 1) == ParamOf(ps, 1);
    assert Get32(false, s, at + 4 * 2) == ParamOf(ps, 2);
    assert Get32(false, s, at + 4 * 3) == ParamOf(ps, 3);
    assert Get32(false, s, at + 4 * 4) == ParamOf(ps, 4);
  }

  /** What the control reader takes from the front of a stream. */
  datatype Head = Starved | Head(bytes: seq<byte>, known: bool)

  // A stream whose next container would overrun the structure it is read into is treated like one
  // that has run dry. The functions that read require that this does not happen.

  /** What the data phase takes from a stream: it runs dry, stops with an error after some data, or yields the data. */
  datatype Phase = Dry | Stop(rc: int, rest: seq<byte>, had: seq<byte>) | Got(payload: seq<byte>, rest: seq<byte>)

  /** What the response phase takes from a stream. */
  datatype Answer = Missing | Answer(rc: int, reply: Option<Container>, rest: seq<byte>)

  // USB

  function UsbContainer(kind: nat, code: nat, trans: nat, payload: seq<byte>): (s: seq<byte>)
    requires kind < 0x100 && code < U16_SIZE && trans < U32_SIZE
    ensures |s| == USB_HEADER + |payload|
  {
    Put32(false, U32(USB_HEADER + |payload|)) + Put16(false, kind) + Put16(false, code) + Put32(false, trans) + payload
  }

  /** The bytes of a header, one by one. */
  lemma UsbHeaderBytes(kind: byte, c0: byte, c1: byte, t0: byte, t1: byte, t2: byte, t3: byte, payload: seq<byte>)
    requires |payload| < 0x100 - USB_HEADER
    ensures UsbContainer(kind, c0 + 0x100 * c1, t0 + 0x100 * t1 + 0x1_0000 * t2 + 0x100_0000 * t3, payload)
            == [USB_HEADER + |payload|, 0, 0, 0, kind, 0, c0, c1, t0, t1, t2, t3] + payload
  {
    hide Put32, Put16;
    LittleBytes(USB_HEADER + |payload|, 0, 0, 0);
    LittleBytes(t0, t1, t2, t3);
    LittleHalf(kind, 0);
    LittleHalf(c0, c1);
    Tiny32(USB_HEADER + |payload|);
  }

  lemma LittleHalf(b0: byte, b1: byte)
    ensures Put16(false, b0 + 0x100 * b1) == [b0, b1]
  {
    DivModIs(b0 + 0x100 * b1, 0x100, b1, b0);
  }

  lemma LittleBytes(b0: byte, b1: byte, b2: byte, b3: byte)
    ensures Put32(false, b0 + 0x100 * b1 + 0x1_0000 * b2 + 0x100_0000 * b3) == [b0, b1, b2, b3]
  {
    hide Put16;
    var lo, hi := b0 + 0x100 * b1, b2 + 0x100 * b3;
    DivModIs(b0 + 0x100 * b1 + 0x1_0000 * b2 + 0x100_0000 * b3, U16_SIZE, hi, lo);
    LittleHalf(b0, b1);
    LittleHalf(b2, b3);
  }

  function Length(b: seq<byte>): (n: nat)
    requires |b| >= 4
    ensures n < U32_SIZE
  {
    Get32(false, b, 0)
  }

  function UsbType(b: seq<byte>): nat
    requires |b| >= USB_HEADER
  {
    Get16(false, b, 4)
  }

  function UsbCode(b: seq<byte>): (n: nat)
    requires |b| >= USB_HEADER
    ensures n < U16_SIZE
  {
    Get16(false, b, 6)
  }

  function UsbTrans(b: seq<byte>): nat
    requires |b| >= USB_HEADER
  {
    Get32(false, b, 8)
  }

  /** ptp_usb_read_control: a response is read whole, of a data container only the header. */
  function UsbHead(s: seq<byte>): (h: Head)
    ensures h.Head? ==> USB_HEADER <= |h.bytes| <= |s| && h.bytes == s[..|h.bytes|]
  {
    if |s| < USB_HEADER then Starved
    else if UsbType(s) == USB_RESPONSE && Length(s) > USB_HEADER then
      if |s| < Length(s) then Starved else Head(s[..Length(s)], true)
    else Head(s[..USB_HEADER], UsbType(s) == USB_RESPONSE || UsbType(s) == USB_DATA)
  }

  /** A response that comes next fits into PTPUSBBulkContainer. */
  predicate UsbFits(s: seq<byte>) {
    |s| >= USB_HEADER && UsbType(s) == USB_RESPONSE ==> Length(s) <= BUFFER_SIZE
  }

  /** ptp_usb_getdata */
  function UsbPhase(s: seq<byte>, code: nat): Phase {
    match UsbHead(s)
    case Starved => Dry
    case Head(b, known) =>
      var rest := s[|b|..];
      if !known then Stop(ERROR_BADPARAM, rest, [])
      else if UsbType(b) != USB_DATA then Stop(ERROR_DATA_EXPECTED, rest, [])
      else if UsbCode(b) != code then Stop(UsbCode(b), rest, [])
      else
        var n := U32(Length(b) - USB_HEADER);
        if |rest| < n then Dry else Got(rest[..n], rest[n..])
  }

  function UsbReply(b: seq<byte>, session: nat): Container
    requires |b| >= USB_HEADER + 20
  {
    Container(UsbCode(b), session, UsbTrans(b), ParamsFrom(b, USB_HEADER), U8(U32(Length(b) - USB_HEADER) / 4))
  }

  function Padded(b: seq<byte>, size: nat): (r: seq<byte>)
    requires |b| <= size
    ensures |r| == size
  {
    b + Zeros(size - |b|)
  }

  /**
   ptp_usb_getresp. The code of the container that is passed in is still that of the operation, so
   the usual response is a mismatch whose code happens to be RC_OK.
   */
  function UsbAnswer(s: seq<byte>, code: nat, session: nat): Answer {
    match if UsbFits(s) then UsbHead(s) else Starved
    case Starved => Missing
    case Head(b, known) =>
      var rest := s[|b|..];
      if !known then Answer(ERROR_BADPARAM, None, rest)
      else if UsbType(b) != USB_RESPONSE then Answer(ERROR_RESP_EXPECTED, None, rest)
      else if UsbCode(b) != code && UsbCode(b) != RC_OK then Answer(UsbCode(b), None, rest)
      else Answer(RC_OK, Some(UsbReply(Padded(b, BUFFER_SIZE), session)), rest)
  }

  /** The fields of a container are read back from any stream that it starts. */
  lemma UsbFields(kind: nat, code: nat, trans: nat, payload: seq<byte>, tail: seq<byte>)
    requires kind < 0x100 && code < U16_SIZE && trans < U32_SIZE
    ensures var s := UsbContainer(kind, code, trans, payload) + tail;
            && Length(s) == U32(USB_HEADER + |payload|) && UsbType(s) == kind && UsbCode(s) == code
            && UsbTrans(s) == trans
            && s[USB_HEADER..] == payload + tail
  {
    hide Get16, Get32, Put16, Put32;
    var n := U32(USB_HEADER + |payload|);
    var s := UsbContainer(kind, code, trans, payload) + tail;
    assert s[0..4] == Put32(false, n) && s[4..6] == Put16(false, kind);
    assert s[6..8] == Put16(false, code) && s[8..12] == Put32(false, trans);
    GetPut32(false, s, 0, n);
    GetPut16(false, s, 4, kind);
    GetPut16(false, s, 6, code);
    GetPut32(false, s, 8, trans);
  }

  lemma UsbPhaseOf(code: nat, trans: nat, payload: seq<byte>, tail: seq<byte>)
    requires code < U16_SIZE && trans < U32_SIZE && USB_HEADER + |payload| < U32_SIZE
    ensures UsbPhase(UsbContainer(USB_DATA, code, trans, payload) + tail, code) == Got(payload, tail)
    ensures UsbFits(UsbContainer(USB_DATA, code, trans, payload) + tail)
  {
    hide UsbContainer, Get16, Get32, U16_SIZE;
    UsbFields(USB_DATA, code, trans, payload, tail);
    var s := UsbContainer(USB_DATA, code, trans, payload) + tail;
    UsbHeadFields(s);
    Behind(payload, tail);
  }

  /** The header of a stream holds the same fields as the stream. */
  lemma UsbHeadFields(s: seq<byte>)
    requires UsbHead(s).Head?
    ensures var b := UsbHead(s).bytes;
            Length(b) == Length(s) && UsbType(b) == UsbType(s) && UsbCode(b) == UsbCode(s) && UsbTrans(b) == UsbTrans(s)
  {
  }

  lemma UsbResponseHead(code: nat, trans: nat, ps: seq<word>, tail: seq<byte>)
    requires code < U16_SIZE && trans < U32_SIZE && |ps| <= 5
    ensures var r := UsbContainer(USB_RESPONSE, code, trans, ParamBytes(ps));
            UsbHead(r + tail) == Head(r, true) && UsbFits(r + tail)
  {
    hide UsbContainer, ParamBytes, Length, UsbType, UsbHead, UsbFits, U32, U16_SIZE, U32_SIZE;
    var params := ParamBytes(ps);
    var r := UsbContainer(USB_RESPONSE, code, trans, params);
    UsbFields(USB_RESPONSE, code, trans, params, tail);
    Tiny32(|r|);
    WholeHead(r, tail);
  }

  lemma WholeHead(r: seq<byte>, tail: seq<byte>)
    requires USB_HEADER <= |r| <= BUFFER_SIZE && Length(r + tail) == |r| && UsbType(r + tail) == USB_RESPONSE
    ensures UsbHead(r + tail) == Head(r, true) && UsbFits(r + tail)
  {
    hide Get16, Get32;
    Behind(r, tail);
  }

  lemma ParamCount(n: nat)
    requires n <= 5
    ensures U32(12 + 4 * n) == 12 + 4 * n && U8(U32(12 + 4 * n - 12) / 4) == n
  {
  }

  /** The fields of a response that is padded with zeros. */
  lemma PaddedFields(code: nat, trans: nat, ps: seq<word>, r: seq<byte>, full: seq<byte>)
    requires code < U16_SIZE && trans < U32_SIZE && |ps| <= 5
    requires r == UsbContainer(USB_RESPONSE, code, trans, ParamBytes(ps)) && full == Padded(r, BUFFER_SIZE)
    ensures UsbCode(full) == code && UsbTrans(full) == trans && Length(full) == 12 + 4 * |ps|
    ensures full[USB_HEADER..] == ParamBytes(ps) + Zeros(BUFFER_SIZE - |r|)
  {
    hide UsbContainer, Length, UsbType, UsbCode, UsbTrans, ParamBytes, Zeros, U32, U16_SIZE, U32_SIZE;
    UsbFields(USB_RESPONSE, code, trans, ParamBytes(ps), Zeros(BUFFER_SIZE - |r|));
    ParamCount(|ps|);
  }

  lemma UsbReplyOf(code: nat, trans: nat, ps: seq<word>, session: nat)
    requires code < U16_SIZE && trans < U32_SIZE && |ps| <= 5
    ensures var r := UsbContainer(USB_RESPONSE, code, trans, ParamBytes(ps));
            UsbReply(Padded(r, BUFFER_SIZE), session) == Container(code, session, trans, FiveOf(ps), |ps|)
  {
    hide UsbContainer, Length, UsbCode, UsbTrans, ParamBytes, FiveOf, ParamsFrom, Zeros, U32, U8, Padded, U16_SIZE,
      U32_SIZE;
    var r := UsbContainer(USB_RESPONSE, code, trans, ParamBytes(ps));
    var full := Padded(r, BUFFER_SIZE);
    PaddedFields(code, trans, ps, r, full);
    ParamCount(|ps|);
    ParamsPadded(full, USB_HEADER, ps, BUFFER_SIZE - |r|);
  }

  lemma ParamsPadded(full: seq<byte>, at: nat, ps: seq<word>, n: nat)
    requires |ps| <= 5 && at + 20 <= |full| && full[at..] == ParamBytes(ps) + Zeros(n)
    ensures ParamsFrom(full, at) == FiveOf(ps)
  {
    hide ParamBytes, Zeros, ParamsFrom, FiveOf, U16_SIZE, U32_SIZE;
    var front := ParamBytes(ps);
    SliceOfSlice(full, at, |full|, 0, 20);
    ZerosCut(front, n);
    assert full[at..at + 20] == (front + Zeros(n))[..20];
    ParamsRead(full, at, ps);
  }

  lemma ZerosCut(front: seq<byte>, n: nat)
    requires |front| <= 20 <= |front| + n
    ensures (front + Zeros(n))[..20] == front + Zeros(20 - |front|)
  {
  }

  /** A response of at most five parameters, instead of data as well as after it. */
  lemma UsbAnswerOf(code: nat, trans: nat, ps: seq<word>, tail: seq<byte>, op: nat, session: nat)
    requires code < U16_SIZE && trans < U32_SIZE && |ps| <= 5
    ensures var s := UsbContainer(USB_RESPONSE, code, trans, ParamBytes(ps)) + tail;
            && UsbFits(s) && UsbPhase(s, op) == Stop(ERROR_DATA_EXPECTED, tail, [])
            && UsbAnswer(s, op, session)
               == if code == op || code == RC_OK
                  then Answer(RC_OK, Some(Container(code, session, trans, FiveOf(ps), |ps|)), tail)
                  else Answer(code, None, tail)
  {
    hide UsbContainer, Get16, Get32, UsbReply, FiveOf, ParamBytes, UsbHead, Padded;
    var r := UsbContainer(USB_RESPONSE, code, trans, ParamBytes(ps));
    UsbResponseHead(code, trans, ps, tail);
    UsbReplyOf(code, trans, ps, session);
    UsbFields(USB_RESPONSE, code, trans, ParamBytes(ps), tail);
    UsbHeadFields(r + tail);
    Behind(r, tail);
  }

  /**
   Containers that are not what is expected. Of a type other than DATA (2) and RESPONSE (3), only the header is
   taken, and it is BADPARAM. Data for another operation ends the data phase with its code. Data in
   place of a response is RESP_EXPECTED, a response in place of data is DATA_EXPECTED.
   */
  lemma UsbRefuses(kind: byte, code: half, trans: word, payload: seq<byte>, tail: seq<byte>, op: nat, session: nat)
    requires |payload| <= 500
    ensures var s, after := UsbContainer(kind, code, trans, payload) + tail, payload + tail;
            && (kind !in {2, 3} ==> UsbPhase(s, op) == Stop(0x02FC, after, [])
                                    && UsbAnswer(s, op, session) == Answer(0x02FC, None, after))
            && (kind == 2 && code != op ==> UsbPhase(s, op) == Stop(code, after, []))
            && (kind == 2 ==> UsbAnswer(s, op, session) == Answer(0x02FD, None, after))
            && (kind == 3 ==> UsbPhase(s, op) == Stop(0x02FE, tail, []))
  {
    hide UsbContainer, Get16, Get32, UsbReply, Padded;
    var c := UsbContainer(kind, code, trans, payload);
    UsbFields(kind, code, trans, payload, tail);
    Tiny32(USB_HEADER + |payload|);
    UsbHeadFields(c + tail);
    Behind(c, tail);
  }

  /** The usual response, byte by byte: it is taken as success whatever the operation was. */
  lemma UsbOkResponse(t0: byte, t1: byte, t2: byte, t3: byte, tail: seq<byte>, op: nat, session: nat)
    ensures var trans := t0 + 0x100 * t1 + 0x1_0000 * t2 + 0x100_0000 * t3;
            UsbAnswer([12, 0, 0, 0, 3, 0, 0x01, 0x20, t0, t1, t2, t3] + tail, op, session)
            == Answer(0x2001, Some(Container(0x2001, session, trans, [0, 0, 0, 0, 0], 0)), tail)
  {
    hide UsbContainer, UsbAnswer;
    var trans := t0 + 0x100 * t1 + 0x1_0000 * t2 + 0x100_0000 * t3;
    var s: seq<byte> := [12, 0, 0, 0, 3, 0, 0x01, 0x20, t0, t1, t2, t3];
    UsbHeaderBytes(3, 0x01, 0x20, t0, t1, t2, t3, []);
    assert s + [] == s && ParamBytes([]) == [];
    UsbAnswerOf(0x2001, trans, [], tail, op, session);
  }

  // TCP

  function TcpPacket(kind: nat, body: seq<byte>): (s: seq<byte>)
    requires kind < 0x100
    ensures |s| == TCP_HEADER + |body|
  {
    Put32(false, U32(TCP_HEADER + |body|)) + Put32(false, kind) + body
  }

  lemma TcpHeaderBytes(kind: byte, body: seq<byte>)
    requires |body| < 0x100 - TCP_HEADER
    ensures TcpPacket(kind, body) == [TCP_HEADER + |body|, 0, 0, 0, kind, 0, 0, 0] + body
  {
    hide Put32;
    LittleBytes(TCP_HEADER + |body|, 0, 0, 0);
    LittleBytes(kind, 0, 0, 0);
    Tiny32(TCP_HEADER + |body|);
  }

  function TcpType(b: seq<byte>): nat
    requires |b| >= TCP_HEADER
  {
    Get32(false, b, 4)
  }

  /** The packets that are read whole: INIT_CMD_ACK, INIT_FAIL, RESP and START_DATA. */
  predicate TcpWhole(kind: nat) {
    kind == 2 || kind == 5 || kind == TCP_RESP || kind == TCP_START
  }

  /** ptp_tcp_read_control: of DATA and END_DATA the header and the transaction ID are read. */
  function TcpHead(s: seq<byte>): (h: Head)
    ensures h.Head? ==> TCP_HEADER <= |h.bytes| <= |s| && h.bytes == s[..|h.bytes|]
  {
    if |s| < TCP_HEADER then Starved
    else if TcpWhole(TcpType(s)) then
      var n := if Length(s) > TCP_HEADER then Length(s) else TCP_HEADER;
      if |s| < n then Starved else Head(s[..n], true)
    else if TcpType(s) == TCP_DATA || TcpType(s) == TCP_END then
      if |s| < TCP_HEADER + 4 then Starved else Head(s[..TCP_HEADER + 4], true)
    else Head(s[..TCP_HEADER], false)
  }

  /** A packet that is read whole fits into PTPIPContainer. */
  predicate TcpFits(s: seq<byte>) {
    |s| >= TCP_HEADER && TcpWhole(TcpType(s)) ==> Length(s) <= TCP_ROOM
  }

  /** The size of the data in a DATA or END_DATA packet, unsigned. */
  function TcpLoad(b: seq<byte>): (n: nat)
    requires |b| >= 4
    ensures n < U32_SIZE
  {
    U32(Length(b) - 12)
  }

  /** The loop of ptp_tcp_getdata over DATA and END_DATA packets, and the END_DATA behind it. */
  function TcpPackets(s: seq<byte>, total: nat, got: seq<byte>, ended: bool): Phase
    decreases |s|
  {
    match TcpHead(s)
    case Starved => Dry
    case Head(b, known) =>
      var rest := s[|b|..];
      if !known then Stop(ERROR_BADPARAM, rest, got)
      else if TcpType(b) != TCP_DATA && TcpType(b) != TCP_END then Stop(ERROR_DATA_EXPECTED, rest, got)
      else
        var n := TcpLoad(b);
        if |rest| < n then Dry
        else if |got| + n < total then TcpPackets(rest[n..], total, got + rest[..n], ended || TcpType(b) == TCP_END)
        else if ended || TcpType(b) == TCP_END then Got(got + rest[..n], rest[n..])
        else TcpEnd(rest[n..], got + rest[..n])
  }

  function TcpEnd(s: seq<byte>, got: seq<byte>): Phase {
    match TcpHead(s)
    case Starved => Dry
    case Head(b, known) =>
      var rest := s[|b|..];
      if !known then Stop(ERROR_BADPARAM, rest, got)
      else if TcpType(b) != TCP_END then Stop(ERROR_DATA_EXPECTED, rest, got)
      else Got(got, rest)
  }

  function TcpTotal(b: seq<byte>): nat
    requires |b| >= 20
  {
    Get32(false, b, 12) + U32_SIZE * Get32(false, b, 16)
  }

  /** START_DATA is long enough to hold the total that is read from it. */
  predicate TcpStarts(s: seq<byte>) {
    TcpFits(s) && (|s| >= TCP_HEADER && TcpType(s) == TCP_START ==> Length(s) >= 20)
  }

  /** ptp_tcp_getdata */
  function TcpPhase(s: seq<byte>): Phase {
    match if TcpStarts(s) then TcpHead(s) else Starved
    case Starved => Dry
    case Head(b, known) =>
      var rest := s[|b|..];
      if !known then Stop(ERROR_BADPARAM, rest, [])
      else if TcpType(b) != TCP_START then Stop(ERROR_DATA_EXPECTED, rest, [])
      else TcpPackets(rest, TcpTotal(b), [], false)
  }

  function TcpReply(b: seq<byte>, session: nat): Container
    requires |b| >= 34
  {
    Container(Get16(false, b, 8), session, Get32(false, b, 10), ParamsFrom(b, 14), U8(U32(Length(b) - 14) / 4))
  }

  /** ptp_tcp_getresp, which fills the container in even if the packet is no response. */
  function TcpAnswer(s: seq<byte>, code: nat, session: nat): Answer {
    match if TcpFits(s) then TcpHead(s) else Starved
    case Starved => Missing
    case Head(b, known) =>
      var rest := s[|b|..];
      if !known then Answer(ERROR_BADPARAM, None, rest)
      else
        var full := Padded(b, TCP_ROOM);
        var reply := TcpReply(full, session);
        if TcpType(b) != TCP_RESP then Answer(ERROR_RESP_EXPECTED, Some(reply), rest)
        else if reply.code != code then Answer(reply.code, Some(reply), rest)
        else Answer(RC_OK, Some(reply), rest)
  }

  lemma TcpFields(kind: nat, body: seq<byte>, tail: seq<byte>)
    requires kind < 0x100
    ensures var s := TcpPacket(kind, body) + tail;
            Length(s) == U32(TCP_HEADER + |body|) && TcpType(s) == kind && s[TCP_HEADER..] == body + tail
  {
    hide Get16, Get32, Put16, Put32, U16_SIZE;
    var n := U32(TCP_HEADER + |body|);
    var s := TcpPacket(kind, body) + tail;
    assert s[0..4] == Put32(false, n) && s[4..8] == Put32(false, kind);
    GetPut32(false, s, 0, n);
    GetPut32(false, s, 4, kind);
  }

  lemma WholePacket(kind: nat, body: seq<byte>, tail: seq<byte>)
    requires kind < 0x100 && TcpWhole(kind) && |body| <= TCP_ROOM - TCP_HEADER
    ensures var p := TcpPacket(kind, body); TcpHead(p + tail) == Head(p, true) && TcpFits(p + tail)
    ensures Length(TcpPacket(kind, body)) == TCP_HEADER + |body| && TcpType(TcpPacket(kind, body)) == kind
  {
    hide TcpPacket, Get16, Get32, U16_SIZE;
    var p := TcpPacket(kind, body);
    TcpFields(kind, body, tail);
    TcpFields(kind, body, []);
    assert p + [] == p;
    Behind(p, tail);
  }

  /** DATA and END_DATA: a transaction ID and some of the data. */
  function TcpPiece(kind: nat, trans: nat, piece: seq<byte>): (s: seq<byte>)
    requires kind < 0x100 && trans < U32_SIZE
    ensures |s| == 12 + |piece|
  {
    TcpPacket(kind, Put32(false, trans) + piece)
  }

  lemma PieceHead(kind: nat, trans: nat, piece: seq<byte>, tail: seq<byte>)
    requires (kind == TCP_DATA || kind == TCP_END) && trans < U32_SIZE && 12 + |piece| < U32_SIZE
    ensures var s := TcpPiece(kind, trans, piece) + tail;
            && TcpHead(s) == Head(s[..12], true) && TcpType(s[..12]) == kind && TcpLoad(s[..12]) == |piece|
            && s[12..] == piece + tail && TcpStarts(s) && Get32(false, s, 8) == trans
  {
    hide TcpPacket, Get16, Get32, Put32, U16_SIZE;
    var body := Put32(false, trans) + piece;
    TcpFields(kind, body, tail);
    var s := TcpPiece(kind, trans, piece) + tail;
    assert s[8..12] == s[8..][..4] == Put32(false, trans);
    GetPut32(false, s, 8, trans);
    assert s[12..] == s[8..][4..] == (body + tail)[4..] == piece + tail;
    FieldsOfFront(s, 12);
  }

  lemma FieldsOfFront(s: seq<byte>, n: nat)
    requires 8 <= n <= |s|
    ensures Length(s[..n]) == Length(s) && TcpType(s[..n]) == TcpType(s)
  {
  }

  /** How a responder may spread data over packets. */
  datatype Split = Split(pieces: seq<seq<byte>>, last: seq<byte>)

  function Whole(d: Split): seq<byte> { Flatten(d.pieces) + d.last }

  predicate Sized(d: Split) {
    && |Whole(d)| < U32_SIZE * U32_SIZE && 12 + |d.last| < U32_SIZE
    && forall k :: 0 <= k < |d.pieces| ==> 12 + |d.pieces[k]| < U32_SIZE
  }

  /** The data is not complete before the last DATA packet, given how much has come already. */
  predicate Needed(pieces: seq<seq<byte>>, had: nat, total: nat) {
    |pieces| <= 1 || had + |Flatten(pieces[..|pieces| - 1])| < total
  }

  function TcpPieces(trans: nat, pieces: seq<seq<byte>>): seq<byte>
    requires trans < U32_SIZE
  {
    if pieces == [] then [] else TcpPiece(TCP_DATA, trans, pieces[0]) + TcpPieces(trans, pieces[1..])
  }

  lemma PieceStep(kind: nat, trans: nat, piece: seq<byte>, after: seq<byte>, total: nat, got: seq<byte>)
    requires (kind == TCP_DATA || kind == TCP_END) && trans < U32_SIZE && 12 + |piece| < U32_SIZE
    ensures TcpPackets(TcpPiece(kind, trans, piece) + after, total, got, false)
            == if |got| + |piece| < total then TcpPackets(after, total, got + piece, kind == TCP_END)
               else if kind == TCP_END then Got(got + piece, after) else TcpEnd(after, got + piece)
    ensures TcpEnd(TcpPiece(kind, trans, piece) + after, got)
            == if kind == TCP_END then Got(got, piece + after) else Stop(ERROR_DATA_EXPECTED, piece + after, got)
  {
    hide TcpPiece, TcpHead, TcpType, TcpLoad, U16_SIZE, U32_SIZE, TcpStarts;
    PieceHead(kind, trans, piece, after);
    Behind(piece, after);
  }

  /** Whatever the split, the data is put together again, provided that no DATA packet comes after its end. */
  lemma {:induction false} PacketsOf(trans: nat, pieces: seq<seq<byte>>, last: seq<byte>, total: nat, got: seq<byte>,
                                     tail: seq<byte>)
    requires trans < U32_SIZE && 12 + |last| < U32_SIZE && forall k :: 0 <= k < |pieces| ==> 12 + |pieces[k]| < U32_SIZE
    requires |got| + |Flatten(pieces)| + |last| == total
    ensures var out := TcpPackets(TcpPieces(trans, pieces) + TcpPiece(TCP_END, trans, last) + tail, total, got, false);
            if Needed(pieces, |got|, total) then out == Got(got + Flatten(pieces) + last, tail)
            else out.Stop? && out.rc == ERROR_DATA_EXPECTED
    decreases |pieces|
  {
    hide TcpPiece, TcpPackets, TcpEnd;
    var end := TcpPiece(TCP_END, trans, last);
    if pieces == [] {
      assert TcpPieces(trans, pieces) + end + tail == end + tail;
      assert got + Flatten(pieces) + last == got + last;
      PieceStep(TCP_END, trans, last, tail, total, got);
    } else {
      var p, more := pieces[0], pieces[1..];
      var after := TcpPieces(trans, more) + end + tail;
      assert TcpPieces(trans, pieces) + end + tail == TcpPiece(TCP_DATA, trans, p) + after;
      PieceStep(TCP_DATA, trans, p, after, total, got);
      NeededTail(pieces, |got|, total);
      if |got| + |p| < total {
        PacketsOf(trans, more, last, total, got + p, tail);
        assert (got + p) + Flatten(more) + last == got + Flatten(pieces) + last;
      } else {
        AllRead(trans, more, last, tail, got + p);
        assert Flatten(more) == [] && last == [];
        assert got + Flatten(pieces) + last == got + p;
      }
    }
  }

  lemma FlattenFirst(pieces: seq<seq<byte>>)
    requires pieces != []
    ensures Flatten(pieces) == pieces[0] + Flatten(pieces[1..])
    ensures |pieces| == 1 ==> Flatten(pieces) == pieces[0]
  {
  }

  lemma {:induction false} NeededTail(pieces: seq<seq<byte>>, had: nat, total: nat)
    requires pieces != [] && had + |Flatten(pieces)| <= total
    ensures had + |pieces[0]| < total ==>
            (Needed(pieces, had, total) <==> Needed(pieces[1..], had + |pieces[0]|, total))
    ensures had + |pieces[0]| == total ==> (Needed(pieces, had, total) <==> |pieces| == 1)
  {
    hide Flatten;
    if |pieces| > 1 {
      var front := pieces[..|pieces| - 1];
      FlattenFirst(front);
      assert front[1..] == pieces[1..][..|pieces| - 2] && front[0] == pieces[0];
    }
  }

  /** With all data read, only an empty END_DATA may follow. */
  lemma AllRead(trans: nat, more: seq<seq<byte>>, last: seq<byte>, tail: seq<byte>, got: seq<byte>)
    requires trans < U32_SIZE && 12 + |last| < U32_SIZE && forall k :: 0 <= k < |more| ==> 12 + |more[k]| < U32_SIZE
    requires Flatten(more) == [] && last == []
    ensures var out := TcpEnd(TcpPieces(trans, more) + TcpPiece(TCP_END, trans, last) + tail, got);
            if more == [] then out == Got(got, tail) else out.Stop? && out.rc == ERROR_DATA_EXPECTED
  {
    hide TcpPiece, TcpEnd;
    var end := TcpPiece(TCP_END, trans, last);
    if more == [] {
      assert TcpPieces(trans, more) + end + tail == end + tail;
      PieceStep(TCP_END, trans, last, tail, 0, got);
      assert last + tail == tail;
    } else {
      var after := TcpPieces(trans, more[1..]) + end + tail;
      assert TcpPieces(trans, more) + end + tail == TcpPiece(TCP_DATA, trans, more[0]) + after;
      PieceStep(TCP_DATA, trans, more[0], after, 0, got);
    }
  }

  function TcpStart(trans: nat, total: nat): seq<byte>
    requires trans < U32_SIZE && total < U32_SIZE * U32_SIZE
  {
    TcpPacket(TCP_START, Put32(false, trans) + Put32(false, total % U32_SIZE) + Put32(false, total / U32_SIZE))
  }

  lemma StartHead(trans: nat, total: nat, tail: seq<byte>)
    requires trans < U32_SIZE && total < U32_SIZE * U32_SIZE
    ensures var p := TcpStart(trans, total);
            && TcpStarts(p + tail) && TcpHead(p + tail) == Head(p, true) && TcpType(p) == TCP_START && |p| == 20
            && TcpTotal(p) == total && Get32(false, p, 8) == trans
  {
    hide Get16, Get32, Put32, U16_SIZE;
    var body := Put32(false, trans) + Put32(false, total % U32_SIZE) + Put32(false, total / U32_SIZE);
    var p := TcpStart(trans, total);
    WholePacket(TCP_START, body, tail);
    TcpFields(TCP_START, body, tail);
    assert p[8..] == body;
    assert p[8..12] == Put32(false, trans);
    GetPut32(false, p, 8, trans);
    assert p[12..16] == Put32(false, total % U32_SIZE) && p[16..20] == Put32(false, total / U32_SIZE);
    GetPut32(false, p, 12, total % U32_SIZE);
    GetPut32(false, p, 16, total / U32_SIZE);
  }

  /** A whole data phase. */
  function TcpStream(trans: nat, d: Split): seq<byte>
    requires trans < U32_SIZE && Sized(d)
  {
    TcpStart(trans, |Whole(d)|) + (TcpPieces(trans, d.pieces) + TcpPiece(TCP_END, trans, d.last))
  }

  lemma TcpPhaseOf(trans: nat, d: Split, tail: seq<byte>)
    requires trans < U32_SIZE && Sized(d)
    ensures TcpStarts(TcpStream(trans, d) + tail)
    ensures var out := TcpPhase(TcpStream(trans, d) + tail);
            if Needed(d.pieces, 0, |Whole(d)|) then out == Got(Whole(d), tail)
            else out.Stop? && out.rc == ERROR_DATA_EXPECTED
  {
    hide TcpStart, TcpHead, TcpType, TcpTotal, TcpPackets, TcpPieces, TcpPiece, TcpStarts, U16_SIZE, Needed;
    var start, rest := TcpStart(trans, |Whole(d)|),
      TcpPieces(trans, d.pieces) + TcpPiece(TCP_END, trans, d.last) + tail;
    assert TcpStream(trans, d) + tail == start + rest;
    StartHead(trans, |Whole(d)|, rest);
    Behind(start, rest);
    PacketsOf(trans, d.pieces, d.last, |Whole(d)|, [], tail);
    assert [] + Flatten(d.pieces) + d.last == Whole(d);
  }

  function TcpResponse(code: nat, trans: nat, ps: seq<word>): seq<byte>
    requires code < U16_SIZE && trans < U32_SIZE
  {
    TcpPacket(TCP_RESP, Put16(false, code) + Put32(false, trans) + ParamBytes(ps))
  }

  /** A response, instead of data as well as after it. */
  lemma TcpAnswerOf(code: nat, trans: nat, ps: seq<word>, tail: seq<byte>, op: nat, session: nat)
    requires code < U16_SIZE && trans < U32_SIZE && |ps| <= 5
    ensures var s := TcpResponse(code, trans, ps) + tail;
            && TcpStarts(s) && TcpPhase(s) == Stop(ERROR_DATA_EXPECTED, tail, [])
            && TcpAnswer(s, op, session) == Answer(if code == op then RC_OK else code,
                                                   Some(Container(code, session, trans, FiveOf(ps), |ps|)), tail)
  {
    hide TcpResponse, TcpReply, TcpHead, TcpType, FiveOf, Padded, TcpPackets, Length, U16_SIZE, U32_SIZE;
    var r := TcpResponse(code, trans, ps);
    TcpResponseHead(code, trans, ps, tail);
    TcpReplyOf(code, trans, ps, session);
    Behind(r, tail);
  }

  lemma TcpResponseHead(code: nat, trans: nat, ps: seq<word>, tail: seq<byte>)
    requires code < U16_SIZE && trans < U32_SIZE && |ps| <= 5
    ensures var r := TcpResponse(code, trans, ps);
            && |r| == 14 + 4 * |ps| && TcpHead(r + tail) == Head(r, true) && TcpType(r) == TCP_RESP
            && TcpType(r + tail) == TCP_RESP && TcpFits(r + tail)
  {
    hide TcpPacket, ParamBytes, Put16, Put32, TcpHead, TcpType, Length, U16_SIZE, U32_SIZE;
    var body := Put16(false, code) + Put32(false, trans) + ParamBytes(ps);
    WholePacket(TCP_RESP, body, tail);
    TcpFields(TCP_RESP, body, tail);
  }

  lemma TcpReplyOf(code: nat, trans: nat, ps: seq<word>, session: nat)
    requires code < U16_SIZE && trans < U32_SIZE && |ps| <= 5
    ensures var r := TcpResponse(code, trans, ps);
            && |r| <= TCP_ROOM
            && TcpReply(Padded(r, TCP_ROOM), session) == Container(code, session, trans, FiveOf(ps), |ps|)
  {
    hide TcpPacket, ParamBytes, Put16, Put32, Get16, Get32, Length, FiveOf, ParamsFrom, Zeros, U16_SIZE, U32_SIZE, U32;
    var params := ParamBytes(ps);
    var front := Put16(false, code) + Put32(false, trans);
    var r := TcpResponse(code, trans, ps);
    var zeros := Zeros(TCP_ROOM - |r|);
    var full := r + zeros;
    TcpFields(TCP_RESP, front + params, zeros);
    ResponseFields(full, code, trans, params + zeros);
    Tiny32(|r|);
    Tiny32(|params|);
    ParamsPadded(full, 14, ps, |zeros|);
  }

  lemma ResponseFields(full: seq<byte>, code: nat, trans: nat, after: seq<byte>)
    requires code < U16_SIZE && trans < U32_SIZE && |full| >= 14
    requires full[8..] == Put16(false, code) + Put32(false, trans) + after
    ensures Get16(false, full, 8) == code && Get32(false, full, 10) == trans && full[14..] == after
  {
    hide Put16, Put32, Get16, Get32, U16_SIZE, U32_SIZE;
    assert full[8..10] == full[8..][..2];
    assert full[10..14] == full[8..][2..6];
    assert full[14..] == full[8..][6..];
    GetPut16(false, full, 8, code);
    GetPut32(false, full, 10, trans);
  }

  /**
   Packets that are not what is expected. Of a type that the reader does not know only the header is taken,
   and it is BADPARAM, at the start of the data phase, inside it and as a response. Packets that
   are read whole (2, 5, 7 and 9) and those of data (10 and 12) are DATA_EXPECTED where the data phase
   cannot take them, with the data that has come so far, and all but 7 RESP_EXPECTED as a response.
   */
  lemma TcpRefuses(kind: byte, body: seq<byte>, tail: seq<byte>, total: nat, got: seq<byte>, op: nat, session: nat)
    requires 12 <= |body| <= 256
    ensures var s := TcpPacket(kind, body) + tail;
            var rest := if kind in {2, 5, 7, 9} then tail
                        else if kind in {10, 12} then body[4..] + tail else body + tail;
            && (kind !in {2, 5, 7, 9, 10, 12} ==> TcpPhase(s) == Stop(0x02FC, rest, [])
                                                  && TcpPackets(s, total, got, false) == Stop(0x02FC, rest, got)
                                                  && TcpAnswer(s, op, session) == Answer(0x02FC, None, rest))
            && (kind in {2, 5, 7, 10, 12} ==> TcpPhase(s) == Stop(0x02FE, rest, []))
            && (kind in {2, 5, 7, 9} ==> TcpPackets(s, total, got, false) == Stop(0x02FE, rest, got))
            && (kind in {2, 5, 9, 10, 12} ==> var a := TcpAnswer(s, op, session);
                                              a.Answer? && a.rc == 0x02FD && a.rest == rest)
  {
    hide TcpPacket, Get16, Get32, TcpReply, Padded, U16_SIZE, U32_SIZE;
    var p := TcpPacket(kind, body);
    TcpFields(kind, body, tail);
    Tiny32(TCP_HEADER + |body|);
    Behind(p, tail);
    assert (body + tail)[4..] == body[4..] + tail;
    assert forall n :: 8 <= n <= |p + tail| ==> (p + tail)[n..] == (p + tail)[8..][n - 8..];
    FrontsAgree(p + tail);
  }

  lemma FrontsAgree(s: seq<byte>)
    ensures forall n :: 8 <= n <= |s| ==> TcpType(s[..n]) == TcpType(s)
  {
    forall n | 8 <= n <= |s|
      ensures TcpType(s[..n]) == TcpType(s)
    {
      FieldsOfFront(s, n);
    }
  }

  /** The usual response, byte by byte: it is taken as success whatever the operation was. */
  lemma TcpOkResponse(t0: byte, t1: byte, t2: byte, t3: byte, tail: seq<byte>, op: nat, session: nat)
    ensures var trans := t0 + 0x100 * t1 + 0x1_0000 * t2 + 0x100_0000 * t3;
            TcpAnswer([14, 0, 0, 0, 7, 0, 0, 0, 0x01, 0x20, t0, t1, t2, t3] + tail, op, session)
            == Answer(0x2001, Some(Container(0x2001, session, trans, [0, 0, 0, 0, 0], 0)), tail)
  {
    hide TcpPacket, TcpAnswer, Put16, Put32;
    var trans := t0 + 0x100 * t1 + 0x1_0000 * t2 + 0x100_0000 * t3;
    var s: seq<byte> := [14, 0, 0, 0, 7, 0, 0, 0, 0x01, 0x20, t0, t1, t2, t3];
    LittleHalf(0x01, 0x20);
    LittleBytes(t0, t1, t2, t3);
    assert ParamBytes([]) == [];
    TcpHeaderBytes(7, [0x01, 0x20, t0, t1, t2, t3]);
    assert Put16(false, 0x2001) + Put32(false, trans) + [] == [0x01, 0x20, t0, t1, t2, t3];
    assert s == TcpResponse(0x2001, trans, []);
    TcpAnswerOf(0x2001, trans, [], tail, op, session);
  }
}
