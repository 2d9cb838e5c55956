/** The USB transport functions of ptp.c. */
module PtpUsb {
  import opened Arithmetic
  import opened Buffers
  import opened Words
  import opened PtpPort
  import opened PtpWire
  import opened PtpBlocks

  const USB_PAYLOAD := BUFFER_SIZE - USB_HEADER

  /** The first container bytes decide how the rest of the header is read. */
  lemma UsbHeadParts(s: seq<byte>, b: seq<byte>)
    requires |s| >= USB_HEADER && |b| >= USB_HEADER && b[..USB_HEADER] == s[..USB_HEADER]
    ensures Length(b) == Length(s) && UsbType(b) == UsbType(s)
  {
    assert forall k :: 0 <= k < USB_HEADER ==> b[k] == b[..USB_HEADER][k] == s[k];
  }

  /** ptp_usb_read_control */
  method UsbReadControl(p: Port, dst: array<byte>) returns (rc: int)
    requires p.Valid() && UsbFits(p.Stream()) && dst.Length == BUFFER_SIZE && dst != p.data
    modifies p`pos, p`len, p`incoming, p`plan, p`asked, p.data, dst
    ensures p.Valid()
    ensures NoFail(old(p.plan)) ==> NoFail(p.plan)
    ensures rc == RC_OK || rc == ERROR_IO || rc == ERROR_BADPARAM
    ensures var h := UsbHead(old(p.Stream()));
            if rc == ERROR_IO then NoFail(old(p.plan)) ==> h.Starved?
            else h.Head? && Took(old(p.Stream()), |h.bytes|, p.Stream()) && (rc == RC_OK <==> h.known)
                 && |h.bytes| <= BUFFER_SIZE
                 && dst[..] == Splice(old(dst[..]), 0, h.bytes)
  {
    hide Splice, Took, EndOf, Get16, Get32, NoFail, Length, UsbType, U16_SIZE, U32_SIZE;
    ghost var was, all := dst[..], p.Stream();
    rc := p.ControlRead(USB_HEADER, dst, 0);
    if rc != RC_OK {
      return;
    }
    TakenFront(all, USB_HEADER, p.Stream());
    SplicedFront(was, all[..USB_HEADER]);
    UsbHeadParts(all, dst[..]);
    var length, kind := Length(dst[..]), UsbType(dst[..]);
    if kind == USB_RESPONSE {
      if length > USB_HEADER {
        rc := p.ControlReadOn(length - USB_HEADER, dst, USB_HEADER, was, all);
        if rc == RC_OK { TakenFront(all, length, p.Stream()); }
      }
    } else if kind == USB_DATA {
    } else {
      rc := ERROR_BADPARAM;
    }
  }

  /** A container that starts with the bytes read has their fields. */
  lemma ReadFields(was: seq<byte>, b: seq<byte>)
    requires USB_HEADER <= |b| <= |was|
    ensures var full := Splice(was, 0, b);
            Length(full) == Length(b) && UsbType(full) == UsbType(b) && UsbCode(full) == UsbCode(b)
              && full == b + was[|b|..]
  {
    SplicedFront(was, b);
    assert forall k :: 0 <= k < |b| ==> Splice(was, 0, b)[k] == b[k];
  }

  /** The block that a read of the data gets, and what is left to cut. */
  lemma BlockOf(all: seq<byte>, total: nat, done: nat, left: seq<byte>, block: nat, size: nat)
    requires Took(all, done, left) && done < total && block > 0 && size == Min(block, total - done) && size <= |left|
    ensures total <= |all| ==>
              Cut(all[..total][done..], block) == [left[..size]] + Cut(all[..total][done + size..], block)
  {
    if total <= |all| {
      var data := all[..total][done..];
      assert data[..size] == left[..size] && data[size..] == all[..total][done + size..];
      if |data| <= block {
        assert data[..size] == data && data[size..] == [];
        assert [data] + Cut([], block) == [data];
      }
    }
  }

  /** The blocks of the first total bytes, if there are as many. */
  ghost function BlocksOf(all: seq<byte>, total: nat, block: nat): seq<seq<byte>>
    requires block > 0
  {
    if total <= |all| then Cut(all[..total], block) else []
  }

  /** After done bytes, the blocks handed over and the cut of the remaining data make up the whole cut. */
  ghost predicate CutSoFar(all: seq<byte>, total: nat, block: nat, done: nat, added: seq<seq<byte>>)
    requires block > 0 && done <= total
  {
    total <= |all| ==> Cut(all[..total], block) == added + Cut(all[..total][done..], block)
  }

  lemma CutBegins(all: seq<byte>, total: nat, block: nat)
    requires block > 0
    ensures CutSoFar(all, total, block, 0, [])
  {
    if total <= |all| {
      assert all[..total][0..] == all[..total];
      assert [] + Cut(all[..total], block) == Cut(all[..total], block);
    }
  }

  lemma CutGoesOn(all: seq<byte>, total: nat, block: nat, done: nat, added: seq<seq<byte>>, left: seq<byte>, size: nat)
    requires block > 0 && done < total && size == Min(block, total - done) && size <= |left|
    requires CutSoFar(all, total, block, done, added) && Took(all, done, left)
    ensures CutSoFar(all, total, block, done + size, added + [left[..size]])
    ensures total <= |all| ==> added + [left[..size]] <= BlocksOf(all, total, block)
  {
    hide Cut;
    BlockOf(all, total, done, left, block, size);
    if total <= |all| {
      var b, more := [left[..size]], Cut(all[..total][done + size..], block);
      assert added + (b + more) == added + b + more;
    }
  }

  lemma BlockRead(all: seq<byte>, total: nat, block: nat, done: nat, added: seq<seq<byte>>, left: seq<byte>, size: nat,
                  now: seq<byte>, held: seq<byte>, buf: seq<byte>)
    requires block > 0 && done < total && size == Min(block, total - done) && Took(left, size, now) && |held| == block
    requires CutSoFar(all, total, block, done, added) && Took(all, done, left)
    requires size <= |left| && buf == Splice(held, 0, left[..size])
    ensures Took(all, done + size, now) && buf[..size] == left[..size]
    ensures CutSoFar(all, total, block, done + size, added + [left[..size]])
    ensures total <= |all| ==> added + [left[..size]] <= BlocksOf(all, total, block)
  {
    hide Cut, CutSoFar, BlocksOf;
    TookMore(all, done, left, size, now);
    SplicedFront(held, left[..size]);
    CutGoesOn(all, total, block, done, added, left, size);
  }

  lemma CutEnds(all: seq<byte>, total: nat, block: nat, added: seq<seq<byte>>)
    requires block > 0 && CutSoFar(all, total, block, total, added) && total <= |all|
    ensures added == BlocksOf(all, total, block)
  {
    assert all[..total][total..] == [];
  }

  /**
   The block loop of ptp_usb_getdata. The handler gets the data in the blocks of its cut; a handler
   that refuses a block gets no further ones.
   */
  method UsbReadBlocks(p: Port, total: nat, h: Handler, block: nat) returns (rc: int)
    requires p.Valid() && block > 0
    modifies p`pos, p`len, p`incoming, p`plan, p`asked, p.data, h
    ensures p.Valid()
    ensures NoFail(old(p.plan)) ==> NoFail(p.plan)
    ensures old(h.blocks) <= h.blocks
    ensures var all, from, to := old(p.Stream()), |old(h.blocks)|, |h.blocks|;
            if Agreed(h.verdict, from, to) then
              && (rc == RC_OK || rc == ERROR_IO)
              && (rc == RC_OK ==> Took(all, total, p.Stream()) && h.blocks[from..] == BlocksOf(all, total, block))
              && (NoFail(old(p.plan)) && rc == ERROR_IO ==> |all| <= total)
            else
              Refused(h.verdict, from, to) && rc == h.verdict(to - 1)
    ensures var all := old(p.Stream()); total <= |all| ==> h.blocks[|old(h.blocks)|..] <= BlocksOf(all, total, block)
  {
    hide Splice, Took, EndOf, NoFail, CutSoFar, BlocksOf, Agreed, Refused, AsksWhole, Cut, U16_SIZE, U32_SIZE;
    ghost var all, was, from := p.Stream(), h.blocks, |h.blocks|;
    ghost var added: seq<seq<byte>> := [];
    var buf := new byte[block];
    var toRead := total;
    rc := RC_OK;
    TookNone(all);
    CutBegins(all, total, block);
    NoVerdict(h.verdict, from);
    while toRead > 0
      invariant p.Valid() && 0 <= toRead <= total && rc == RC_OK
      invariant buf != p.data && buf.Length == block
      invariant NoFail(old(p.plan)) ==> NoFail(p.plan)
      invariant h.blocks == was + added && Agreed(h.verdict, from, |h.blocks|)
      invariant Took(all, total - toRead, p.Stream())
      invariant CutSoFar(all, total, block, total - toRead, added)
      invariant total <= |all| ==> added <= BlocksOf(all, total, block)
    {
      var size: nat := if toRead > block then block else toRead;
      ghost var done, left := total - toRead, p.Stream();
      ghost var held := buf[..];
      rc := p.UsbReadData(size, buf, 0);
      TookNone(left);
      if rc != RC_OK {
        TookMore(all, done, left, 0, left);
        assert h.blocks[from..] == added;
        return;
      }
      TookMore(all, done, left, size, p.Stream());
      BlockRead(all, total, block, done, added, left, size, p.Stream(), held, buf[..]);
      toRead := toRead - size;
      OneVerdictMore(h.verdict, from, |h.blocks|);
      rc := h.Take(size, buf);
      added := added + [left[..size]];
      assert h.blocks == was + added;
      if rc != RC_OK {
        break;
      }
    }
    assert h.blocks[from..] == added;
    if rc == RC_OK {
      TookMore(all, total, p.Stream(), 0, p.Stream());
      CutEnds(all, total, block, added);
    }
  }

  /** There is a byte behind the data, or no data at all. */
  predicate UsbAmple(phase: Phase) {
    phase.Stop? || (phase.Got? && phase.rest != [])
  }

  lemma UsbStarved(s: seq<byte>, code: nat)
    requires UsbHead(s).Starved?
    ensures UsbPhase(s, code) == Dry && UsbAnnounced(s, code) == None
  {
  }

  /** UsbPhase for a stream whose header has been read. */
  lemma UsbPhaseFrom(s: seq<byte>, code: nat, b: seq<byte>, rest: seq<byte>)
    requires UsbHead(s).Head? && UsbHead(s).bytes == b && rest == s[|b|..]
    ensures UsbPhase(s, code) ==
            if !UsbHead(s).known then Stop(ERROR_BADPARAM, rest, [])
            else if UsbType(b) != USB_DATA then Stop(ERROR_DATA_EXPECTED, rest, [])
            else if UsbCode(b) != code then Stop(UsbCode(b), rest, [])
            else if |rest| < U32(Length(b) - USB_HEADER) then Dry
            else Got(rest[..U32(Length(b) - USB_HEADER)], rest[U32(Length(b) - USB_HEADER)..])
  {
  }

  /** The size that a data container announces, if it is one of the operation. */
  function UsbAnnounced(s: seq<byte>, code: nat): Option<nat> {
    match UsbHead(s)
    case Starved => None
    case Head(b, known) =>
      if known && UsbType(b) == USB_DATA && UsbCode(b) == code then Some(U32(Length(b) - USB_HEADER)) else None
  }

  /** The container structure and a buffer of the caller can take what comes next. */
  predicate UsbSafe(s: seq<byte>, code: nat, room: Room) {
    UsbFits(s) && (room.Buffer? && UsbAnnounced(s, code).Some? ==> UsbAnnounced(s, code).value <= room.size)
  }

  lemma SafeAhead(s: seq<byte>, code: nat, room: Room)
    requires UsbSafe(s, code, room)
    ensures UsbFits(s)
    ensures UsbAnnounced(s, code).Some? && room.Buffer? ==> UsbAnnounced(s, code).value <= room.size
  {
    hide UsbAnnounced, UsbFits;
  }

  lemma AnnouncedFrom(s: seq<byte>, code: nat, b: seq<byte>)
    requires UsbHead(s).Head? && UsbHead(s).bytes == b
    ensures UsbAnnounced(s, code)
            == if UsbHead(s).known && UsbType(b) == USB_DATA && UsbCode(b) == code
               then Some(U32(Length(b) - USB_HEADER)) else None
  {
    hide UsbHead, UsbType, UsbCode, Length;
  }

  lemma SizeOfGot(s: seq<byte>, code: nat)
    requires UsbPhase(s, code).Got?
    ensures UsbAnnounced(s, code) == Some(|UsbPhase(s, code).payload|)
  {
    hide UsbHead, UsbType, UsbCode, Length;
  }

  /** The buffer branch of ptp_usb_getdata. */
  method UsbReadWhole(p: Port, total: nat, gd: GetData) returns (rc: int)
    requires p.Valid() && gd.retData != p.data && (gd.retData != null ==> total <= gd.retData.Length)
    modifies p`pos, p`len, p`incoming, p`plan, p`asked, p.data, gd`retData, gd.retData
    ensures p.Valid()
    ensures NoFail(old(p.plan)) ==> NoFail(p.plan)
    ensures gd.retData == old(gd.retData) || (old(gd.retData) == null && fresh(gd.retData))
    ensures rc == RC_OK || rc == ERROR_IO
    ensures rc == RC_OK ==> Took(old(p.Stream()), total, p.Stream())
                            && Returned(gd) == Some(Filled(old(Returned(gd)), old(p.Stream())[..total]))
    ensures NoFail(old(p.plan)) && rc == ERROR_IO ==> |old(p.Stream())| <= total
  {
    hide Splice, NoFail, Filled;
    ghost var all, before := p.Stream(), Returned(gd);
    if gd.retData == null {
      gd.retData := new byte[total];
    }
    var ret: array<byte> := gd.retData;
    ghost var held := ret[..];
    rc := p.UsbReadData(total, ret, 0);
    if rc == RC_OK {
      SplicedFront(held, all[..total]);
      ReadInto(before, held, all[..total], ret[..]);
    }
  }

  lemma ReadInto(before: Option<seq<byte>>, held: seq<byte>, data: seq<byte>, now: seq<byte>)
    requires if before.Some? then held == before.value else |held| == |data|
    requires |data| <= |held| == |now| && now == Splice(held, 0, data)
    ensures now == Filled(before, data)
  {
  }

  /** ptp_usb_getdata behind the header. */
  method UsbReadBody(p: Port, total: nat, gd: GetData, ghost phase: Phase) returns (rc: int)
    requires p.Valid() && gd.retData != p.data && (RoomOf(gd).Buffer? ==> total <= RoomOf(gd).size)
    requires phase == if |p.Stream()| < total then Dry else Got(p.Stream()[..total], p.Stream()[total..])
    modifies p`pos, p`len, p`incoming, p`plan, p`asked, p.data, gd`retData, gd.retData, gd.handler
    ensures p.Valid()
    ensures NoFail(old(p.plan)) ==> NoFail(p.plan)
    ensures gd.retData == old(gd.retData) || (old(gd.retData) == null && fresh(gd.retData))
    ensures gd.handler != null ==> old(gd.handler.blocks) <= gd.handler.blocks && Returned(gd) == old(Returned(gd))
    ensures var sure := NoFail(old(p.plan)) && UsbAmple(phase);
            if gd.handler == null then Buffered(phase, sure, rc, p.Stream(), old(Returned(gd)), Returned(gd))
            else Blocked(phase, sure, rc, p.Stream(), BlockSize(gd.blockSize),
                         gd.handler.verdict, |old(gd.handler.blocks)|, gd.handler.blocks[|old(gd.handler.blocks)|..])
  {
    hide NoFail, Cut, Filled;
    if gd.handler != null {
      rc := UsbReadBlocks(p, total, gd.handler, BlockSize(gd.blockSize));
    } else {
      rc := UsbReadWhole(p, total, gd);
    }
  }

  /** The header of ptp_usb_getdata: the size of the data, or a result without any. */
  method UsbNextHeader(p: Port, op: Container, ghost room: Room) returns (rc: int, data: Option<nat>)
    requires p.Valid() && UsbSafe(p.Stream(), op.code, room)
    modifies p`pos, p`len, p`incoming, p`plan, p`asked, p.data
    ensures p.Valid()
    ensures NoFail(old(p.plan)) ==> NoFail(p.plan)
    ensures var phase, rest := UsbPhase(old(p.Stream()), op.code), p.Stream();
            if data.Some? then
              && (room.Buffer? ==> data.value <= room.size)
              && phase == if |rest| < data.value then Dry else Got(rest[..data.value], rest[data.value..])
            else phase == Stop(rc, rest, []) || (rc == ERROR_IO && (NoFail(old(p.plan)) ==> phase.Dry?))
    ensures var announced := UsbAnnounced(old(p.Stream()), op.code);
            if data.Some? then data == announced
            else rc != ERROR_IO || NoFail(old(p.plan)) ==> announced == None
  {
    hide Splice, NoFail, Get16, Get32, UsbHead, UsbPhase, UsbType, UsbCode, Length, U32, U16_SIZE, U32_SIZE, UsbFits,
      UsbSafe, UsbAnnounced;
    ghost var all, head := p.Stream(), UsbHead(p.Stream());
    SafeAhead(all, op.code, room);
    var header := new byte[BUFFER_SIZE](_ => 0);
    ghost var zeros := header[..];
    data := None;
    rc := UsbReadControl(p, header);
    if head.Starved? {
      UsbStarved(all, op.code);
    } else {
      UsbPhaseFrom(all, op.code, head.bytes, all[|head.bytes|..]);
      AnnouncedFrom(all, op.code, head.bytes);
    }
    if rc != RC_OK {
      return;
    }
    ReadFields(zeros, head.bytes);
    if UsbType(header[..]) != USB_DATA {
      return ERROR_DATA_EXPECTED, None;
    }
    if UsbCode(header[..]) != op.code {
      return UsbCode(header[..]), None;
    }
    data := Some(U32(Length(header[..]) - USB_HEADER));
  }

  /** ptp_usb_getdata */
  method UsbGetData(p: Port, op: Container, gd: GetData) returns (rc: int)
    requires p.Valid() && gd.retData != p.data && UsbSafe(p.Stream(), op.code, RoomOf(gd))
    modifies p`pos, p`len, p`incoming, p`plan, p`asked, p.data, gd`retData, gd`totalSize, gd.retData, gd.handler
    ensures p.Valid()
    ensures NoFail(old(p.plan)) ==> NoFail(p.plan)
    ensures gd.retData == old(gd.retData) || (old(gd.retData) == null && fresh(gd.retData))
    ensures gd.handler != null ==> old(gd.handler.blocks) <= gd.handler.blocks && Returned(gd) == old(Returned(gd))
    ensures var phase := UsbPhase(old(p.Stream()), op.code);
            var sure := NoFail(old(p.plan)) && UsbAmple(phase);
            if gd.handler == null then Buffered(phase, sure, rc, p.Stream(), old(Returned(gd)), Returned(gd))
            else Blocked(phase, sure, rc, p.Stream(), BlockSize(gd.blockSize),
                         gd.handler.verdict, |old(gd.handler.blocks)|, gd.handler.blocks[|old(gd.handler.blocks)|..])
    ensures Told(UsbAnnounced(old(p.Stream()), op.code), NoFail(old(p.plan)), rc, old(gd.totalSize), gd.totalSize)
  {
    hide NoFail, UsbPhase, Cut, Buffered, Blocked, BlockSize, UsbSafe, UsbAnnounced;
    ghost var all, was, before := p.Stream(), p.plan, Returned(gd);
    ghost var phase, block := UsbPhase(all, op.code), BlockSize(gd.blockSize);
    ghost var from := if gd.handler == null then 0 else |gd.handler.blocks|;
    assert gd.handler != null ==> gd.handler.blocks[from..] == [];
    ghost var sure := NoFail(was) && UsbAmple(phase);
    ghost var verdict := if gd.handler == null then _ => RC_OK else gd.handler.verdict;
    var data;
    rc, data := UsbNextHeader(p, op, RoomOf(gd));
    if data.None? {
      StoppedEarly(phase, sure, rc, p.Stream(), before, before, block, verdict, from);
      return;
    }
    gd.totalSize := data.value;
    ghost var still := NoFail(p.plan) && UsbAmple(phase);
    rc := UsbReadBody(p, data.value, gd, phase);
    if gd.handler == null {
      LessSure(phase, sure, still, rc, p.Stream(), before, Returned(gd), block, verdict, from, []);
    } else {
      LessSure(phase, sure, still, rc, p.Stream(), before, before, block, verdict, from, gd.handler.blocks[from..]);
    }
  }

  /** UsbAnswer for a stream whose header has been read. */
  lemma UsbAnswerFrom(s: seq<byte>, code: nat, session: nat, b: seq<byte>, rest: seq<byte>)
    requires UsbFits(s) && UsbHead(s).Head? && UsbHead(s).bytes == b && rest == s[|b|..]
    ensures |b| <= BUFFER_SIZE
    ensures UsbAnswer(s, code, session) ==
            if !UsbHead(s).known then Answer(ERROR_BADPARAM, None, rest)
            else if UsbType(b) != USB_RESPONSE then Answer(ERROR_RESP_EXPECTED, None, rest)
            else if UsbCode(b) != code && UsbCode(b) != RC_OK then Answer(UsbCode(b), None, rest)
            else Answer(RC_OK, Some(UsbReply(Padded(b, BUFFER_SIZE), session)), rest)
  {
  }

  lemma UsbMissing(s: seq<byte>, code: nat, session: nat)
    requires UsbFits(s) && UsbHead(s).Starved?
    ensures UsbAnswer(s, code, session) == Missing
  {
  }

  /** ptp_usb_getresp. The container is replaced by the response, unless there is an error. */
  method UsbGetResp(p: Port, op: Container) returns (rc: int, reply: Container)
    requires p.Valid() && UsbFits(p.Stream())
    modifies p`pos, p`len, p`incoming, p`plan, p`asked, p.data
    ensures p.Valid()
    ensures NoFail(old(p.plan)) ==> NoFail(p.plan)
    ensures var a := UsbAnswer(old(p.Stream()), op.code, p.sessionId);
            Responded(a, NoFail(old(p.plan)), rc, p.Stream(), op, reply)
  {
    hide Splice, NoFail, Get16, Get32, UsbHead, UsbAnswer, UsbType, UsbCode, UsbReply, Length, U32, U16_SIZE, U32_SIZE;
    reply := op;
    ghost var all := p.Stream();
    ghost var head := UsbHead(all);
    var resp := new byte[BUFFER_SIZE](_ => 0);
    ghost var zeros := resp[..];
    rc := UsbReadControl(p, resp);
    if head.Starved? { UsbMissing(all, op.code, p.sessionId); }
    else { UsbAnswerFrom(all, op.code, p.sessionId, head.bytes, all[|head.bytes|..]); }
    if rc != RC_OK {
      return;
    }
    ReadFields(zeros, head.bytes);
    assert resp[..] == Padded(head.bytes, BUFFER_SIZE);
    if UsbType(resp[..]) != USB_RESPONSE {
      rc := ERROR_RESP_EXPECTED;
    } else if UsbCode(resp[..]) != op.code {
      rc := UsbCode(resp[..]);
    }
    if rc != RC_OK {
      return;
    }
    reply := UsbReply(resp[..], p.sessionId);
  }

  /** The request structure, cut off behind the meaningful parameters. */
  function UsbRequest(op: Container): seq<byte>
    requires Sane(op)
  {
    var length := USB_HEADER + 20 - 4 * (5 - op.nparam);
    (Put32(false, length) + Put16(false, USB_COMMAND) + Put16(false, op.code) + Put32(false, op.trans)
     + Put32(false, op.params[0]) + Put32(false, op.params[1]) + Put32(false, op.params[2])
     + Put32(false, op.params[3]) + Put32(false, op.params[4]))[..length]
  }

  /** A request is a command container that holds just the meaningful parameters. */
  lemma UsbRequestOf(op: Container)
    requires Sane(op)
    ensures UsbRequest(op) == UsbContainer(USB_COMMAND, op.code, op.trans, ParamBytes(op.params[..op.nparam]))
  {
    hide Put16, Put32, ParamBytes, U32;
    ParamsInRow(op.params);
    ParamsCut(op.params, op.nparam);
    Tiny32(USB_HEADER + 4 * op.nparam);
    var length := USB_HEADER + 20 - 4 * (5 - op.nparam);
    var front := Put32(false, length) + Put16(false, USB_COMMAND) + Put16(false, op.code) + Put32(false, op.trans);
    var params := ParamBytes(op.params);
    assert UsbRequest(op) == (front + params)[..length];
    assert (front + params)[..length] == front + params[..4 * op.nparam];
  }

  /** ptp_usb_sendreq */
  method UsbSendReq(p: Port, op: Container) returns (rc: int)
    requires Sane(op)
    modifies p`sent
    ensures rc == RC_OK && p.sent == old(p.sent) + [UsbRequest(op)]
  {
    rc := p.WriteFunc(UsbRequest(op));
  }

  /** The writes that a data phase to the device consists of. */
  function UsbWrites(op: Container, data: seq<byte>, maxPacket: nat): seq<seq<byte>>
    requires Sane(op) && maxPacket > 0
  {
    var first := UsbContainer(USB_DATA, op.code, op.trans, data)[..USB_HEADER + Min(|data|, USB_PAYLOAD)];
    [first] + (if |data| > USB_PAYLOAD then [data[USB_PAYLOAD..]] else [])
    + (if U32(USB_HEADER + |data|) % maxPacket == 0 then [[]] else [])
  }

  /** ptp_usb_senddata; the source masks with maxPacket - 1, which is a remainder if maxPacket is a power of two. */
  method UsbSendData(p: Port, op: Container, data: seq<byte>) returns (rc: int)
    requires Sane(op) && p.maxPacket > 0 && U32_SIZE % p.maxPacket == 0
    modifies p`sent
    ensures rc == RC_OK && p.sent == old(p.sent) + UsbWrites(op, data, p.maxPacket)
  {
    hide UsbContainer, U32;
    var size := if |data| < USB_PAYLOAD then |data| else USB_PAYLOAD;
    var first := UsbContainer(USB_DATA, op.code, op.trans, data)[..USB_HEADER + size];
    rc := p.WriteFunc(first);
    if rc != RC_OK {
      return ERROR_IO;
    }
    if |data| > USB_PAYLOAD {
      rc := p.WriteFunc(data[USB_PAYLOAD..]);
      if rc != RC_OK {
        return ERROR_IO;
      }
    }
    if U32(USB_HEADER + |data|) % p.maxPacket == 0 {
      var ignored := p.WriteFunc([]);
    }
  }

  /** The writes make up one data container. */
  lemma UsbWritesWhole(op: Container, data: seq<byte>, maxPacket: nat)
    requires Sane(op) && maxPacket > 0
    ensures Flatten(UsbWrites(op, data, maxPacket)) == UsbContainer(USB_DATA, op.code, op.trans, data)
  {
    hide Put16, Put32, U32, U16_SIZE;
    var whole := UsbContainer(USB_DATA, op.code, op.trans, data);
    var first := whole[..USB_HEADER + Min(|data|, USB_PAYLOAD)];
    var second := if |data| > USB_PAYLOAD then [data[USB_PAYLOAD..]] else [];
    var third: seq<seq<byte>> := if U32(USB_HEADER + |data|) % maxPacket == 0 then [[]] else [];
    assert UsbWrites(op, data, maxPacket) == [first] + second + third;
    FlattenSplit([first] + second, third);
    FlattenSplit([first], second);
    FlattenOne(first);
    FlattenOne([]);
    if |data| > USB_PAYLOAD {
      FlattenOne(data[USB_PAYLOAD..]);
      assert whole[BUFFER_SIZE..] == data[USB_PAYLOAD..];
    }
  }

  /** What ptp_usb_senddata writes is what ptp_usb_getdata reads back, whatever follows. */
  lemma UsbSendThenGet(op: Container, data: seq<byte>, maxPacket: nat, tail: seq<byte>)
    requires Sane(op) && maxPacket > 0 && USB_HEADER + |data| < U32_SIZE
    ensures UsbFits(Flatten(UsbWrites(op, data, maxPacket)) + tail)
    ensures UsbPhase(Flatten(UsbWrites(op, data, maxPacket)) + tail, op.code) == Got(data, tail)
  {
    UsbWritesWhole(op, data, maxPacket);
    UsbPhaseOf(op.code, op.trans, data, tail);
  }

  /** The packets on the wire: every write is cut up on its own, and an empty write is an empty packet. */
  function Packets(writes: seq<seq<byte>>, maxPacket: nat): seq<seq<byte>>
    requires maxPacket > 0
  {
    if writes == [] then []
    else (if writes[0] == [] then [[]] else Cut(writes[0], maxPacket)) + Packets(writes[1..], maxPacket)
  }

  lemma {:induction false} CutOfWhole(s: seq<byte>, m: nat)
    requires m > 0 && |s| % m == 0
    ensures AllFull(Cut(s, m), m)
  {
    if |s| > m {
      ModStep(|s|, m);
      CutOfWhole(s[m..], m);
    } else if s != [] && |s| < m {
      DivModIs(|s|, m, 0, |s|);
    }
  }

  lemma {:induction false} CutOfRest(s: seq<byte>, m: nat)
    requires m > 0 && |s| % m != 0
    ensures EndsShort(Cut(s, m), m) && Cut(s, m)[|Cut(s, m)| - 1] != []
  {
    if |s| > m {
      ModStep(|s|, m);
      CutOfRest(s[m..], m);
    }
  }

  /** Full packets and a shorter one at the end, as bulk transfers have to be. */
  predicate EndsShort(packets: seq<seq<byte>>, m: nat) {
    packets != [] && AllFull(packets[..|packets| - 1], m) && |packets[|packets| - 1]| < m
  }

  /** The device can tell where a transfer ends: packets on the wire are transfers in only one way. */
  lemma TransfersApart(a: seq<seq<byte>>, b: seq<seq<byte>>, afterA: seq<seq<byte>>, afterB: seq<seq<byte>>, m: nat)
    requires EndsShort(a, m) && EndsShort(b, m) && a + afterA == b + afterB
    ensures a == b && afterA == afterB
  {
    var wire := a + afterA;
    FullBefore(a, m);
    FullBefore(b, m);
    assert wire[|a| - 1] == a[|a| - 1] && wire[|b| - 1] == b[|b| - 1];
    assert |a| == |b|;
    assert a == wire[..|a|] && b == wire[..|b|] && afterA == wire[|a|..] && afterB == wire[|b|..];
  }

  lemma FullBefore(packets: seq<seq<byte>>, m: nat)
    requires EndsShort(packets, m)
    ensures forall k :: 0 <= k < |packets| - 1 ==> |packets[k]| == m
  {
    assert forall k :: 0 <= k < |packets| - 1 ==> packets[..|packets| - 1][k] == packets[k];
  }

  lemma FullThenShort(full: seq<seq<byte>>, short: seq<seq<byte>>, m: nat)
    requires AllFull(full, m) && EndsShort(short, m)
    ensures EndsShort(full + short, m) && (full + short)[|full + short| - 1] == short[|short| - 1]
  {
    var all, n := full + short, |full| + |short| - 1;
    forall k: int | 0 <= k < n
      ensures |all[k]| == m
    {
      if k >= |full| { assert all[k] == short[..|short| - 1][k - |full|]; }
    }
  }

  /** The last write of a transfer, as the size of what comes before it and the data leave it. */
  lemma LastWrite(w: seq<byte>, m: nat)
    requires m > 0 && w != []
    ensures var ps := Packets([w] + (if |w| % m == 0 then [[]] else []), m);
            EndsShort(ps, m) && (ps[|ps| - 1] == [] <==> |w| % m == 0)
  {
    if |w| % m == 0 {
      var empty: seq<seq<byte>> := [[]];
      var writes := [w] + empty;
      assert writes[1..] == empty && empty[1..] == [];
      assert Packets(empty, m) == empty;
      CutOfWhole(w, m);
      FullThenShort(Cut(w, m), [[]], m);
    } else {
      assert [w] + [] == [w] && Packets([w], m) == Cut(w, m) + Packets([], m) == Cut(w, m);
      CutOfRest(w, m);
    }
  }

  /** Packets of a transfer of n bytes: the last one is short, and empty exactly if n fills whole packets. */
  predicate EndsAs(packets: seq<seq<byte>>, m: nat, n: nat)
    requires m > 0
  {
    EndsShort(packets, m) && (packets[|packets| - 1] == [] <==> n % m == 0)
  }

  function EmptyIfWhole(n: nat, m: nat): seq<seq<byte>>
    requires m > 0
  {
    if n % m == 0 then [[]] else []
  }

  lemma SmallTransfer(first: seq<byte>, m: nat)
    requires m > 0 && first != []
    ensures EndsAs(Packets([first] + EmptyIfWhole(|first|, m), m), m, |first|)
  {
    LastWrite(first, m);
  }

  lemma LargeTransfer(first: seq<byte>, w: seq<byte>, m: nat)
    requires m > 0 && first != [] && |first| % m == 0 && w != []
    ensures EndsAs(Packets([first] + ([w] + EmptyIfWhole(|w|, m)), m), m, |first| + |w|)
  {
    hide Cut, EndsShort;
    var last := [w] + EmptyIfWhole(|w|, m);
    ModOfSum(|first|, |w|, m);
    LastWrite(w, m);
    CutOfWhole(first, m);
    PacketsFirst(first, last, m);
    FullThenShort(Cut(first, m), Packets(last, m), m);
  }

  lemma PacketsFirst(first: seq<byte>, rest: seq<seq<byte>>, m: nat)
    requires m > 0 && first != []
    ensures Packets([first] + rest, m) == Cut(first, m) + Packets(rest, m)
  {
    hide Cut;
    assert ([first] + rest)[1..] == rest;
  }

  /** The writes of a transfer: one write, or 512 bytes and the others, and an empty one after whole packets. */
  lemma WritesAre(op: Container, data: seq<byte>, m: nat)
    requires Sane(op) && m > 0 && BUFFER_SIZE % m == 0
    ensures var n := USB_HEADER + |data|;
            var first := UsbContainer(USB_DATA, op.code, op.trans, data)[..USB_HEADER + Min(|data|, USB_PAYLOAD)];
            UsbWrites(op, data, m)
            == [first] + ((if |data| > USB_PAYLOAD then [data[USB_PAYLOAD..]] else []) + EmptyIfWhole(n, m))
  {
    hide UsbContainer, U32, U16_SIZE;
    WrapKeepsRest(USB_HEADER + |data|, m);
  }

  /**
   A data phase to the device always ends in a packet shorter than the packet size of the endpoint,
   if that divides 512, and the packet is empty exactly if the container fills whole packets.
   */
  lemma UsbTransferEnds(op: Container, data: seq<byte>, m: nat)
    requires Sane(op) && m > 0 && BUFFER_SIZE % m == 0
    ensures var ps := Packets(UsbWrites(op, data, m), m);
            && EndsAs(ps, m, USB_HEADER + |data|) && Flatten(ps) == UsbContainer(USB_DATA, op.code, op.trans, data)
  {
    hide U16_SIZE, EndsAs, EmptyIfWhole, UsbContainer, UsbWrites, Packets;
    var first := UsbContainer(USB_DATA, op.code, op.trans, data)[..USB_HEADER + Min(|data|, USB_PAYLOAD)];
    WritesAre(op, data, m);
    if |data| <= USB_PAYLOAD {
      SmallTransfer(first, m);
      assert [] + EmptyIfWhole(|first|, m) == EmptyIfWhole(|first|, m);
    } else {
      var w := data[USB_PAYLOAD..];
      WholeBehind(|w|, m);
      LargeTransfer(first, w, m);
    }
    PacketsKeep(UsbWrites(op, data, m), m);
    UsbWritesWhole(op, data, m);
  }

  lemma WholeBehind(n: nat, m: nat)
    requires m > 0 && BUFFER_SIZE % m == 0
    ensures EmptyIfWhole(BUFFER_SIZE + n, m) == EmptyIfWhole(n, m)
  {
    ModOfSum(BUFFER_SIZE, n, m);
  }

  lemma WrapKeepsRest(n: nat, m: nat)
    requires m > 0 && BUFFER_SIZE % m == 0
    ensures U32(n) % m == n % m
  {
    var k := BUFFER_SIZE / m;
    assert BUFFER_SIZE == m * k;
    var c := n / U32_SIZE * 0x80_0000;
    assert n == U32(n) + 512 * c;
    assert 512 * c == m * (k * c);
    DivModIs(512 * c, m, k * c, 0);
    ModOfSum(512 * c, U32(n), m);
  }

  lemma {:induction false} PacketsKeep(writes: seq<seq<byte>>, m: nat)
    requires m > 0
    ensures Flatten(Packets(writes, m)) == Flatten(writes)
  {
    if writes != [] {
      PacketsKeep(writes[1..], m);
      FlattenSplit(if writes[0] == [] then [[]] else Cut(writes[0], m), Packets(writes[1..], m));
      FlattenCut(writes[0], m);
      FlattenOne([]);
    }
  }
}
