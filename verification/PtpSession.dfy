/**
 Transactions of ptp.c over either transport, and whole conversations: request, data and response
 phases as in section 9.3 of PIMA 15740:2000, and OpenSession as in its section 10.4.2.
 */
module PtpSession {
  import opened Arithmetic
  import opened Words
  import opened PtpPort
  import opened PtpWire
  import opened PtpBlocks
  import PtpUsb
  import PtpTcp

  datatype Link = Usb | Tcp

  const NO_DATA := 0
  const SEND_DATA := 1
  const GET_DATA := 2
  const OPEN_SESSION := 0x1002

  function PhaseOf(link: Link, s: seq<byte>, code: nat): Phase {
    if link.Usb? then UsbPhase(s, code) else TcpPhase(s)
  }

  function AnswerOf(link: Link, s: seq<byte>, code: nat, session: nat): Answer {
    if link.Usb? then UsbAnswer(s, code, session) else TcpAnswer(s, code, session)
  }

  /** The data phase that comes next fits the structures and the buffer that it is read into. */
  predicate PhaseSafe(link: Link, s: seq<byte>, code: nat, room: Room) {
    if link.Usb? then PtpUsb.UsbSafe(s, code, room) else PtpTcp.TcpSafe(s, room)
  }

  predicate AnswerSafe(link: Link, s: seq<byte>) {
    if link.Usb? then UsbFits(s) else TcpFits(s)
  }

  /** A transaction with or without a data phase to the host. */
  predicate Safe(link: Link, s: seq<byte>, code: nat, wants: bool, room: Room) {
    if wants then
      && PhaseSafe(link, s, code, room)
      && match PhaseOf(link, s, code)
         case Dry => true
         case Stop(rc, rest, _) => rc == RC_OK ==> AnswerSafe(link, rest)
         case Got(_, rest) => AnswerSafe(link, rest)
    else AnswerSafe(link, s)
  }

  /** What a transaction makes of the stream: nothing if it runs dry, else a result and the rest. */
  datatype Outcome = Lost | Outcome(rc: int, data: Option<seq<byte>>, reply: Container, rest: seq<byte>)

  function Closing(link: Link, s: seq<byte>, op: Container, data: Option<seq<byte>>, session: nat): Outcome {
    match AnswerOf(link, s, op.code, session)
    case Missing => Lost
    case Answer(rc, reply, rest) => Outcome(rc, data, if reply.Some? then reply.value else op, rest)
  }

  function Transaction(link: Link, s: seq<byte>, op: Container, wants: bool, session: nat): Outcome {
    if wants then
      match PhaseOf(link, s, op.code)
      case Dry => Lost
      case Stop(rc, rest, _) =>
        if rc != RC_OK then Outcome(rc, None, op, rest) else Closing(link, rest, op, None, session)
      case Got(data, rest) => Closing(link, rest, op, Some(data), session)
    else Closing(link, s, op, None, session)
  }

  function Request(link: Link, op: Container): seq<byte>
    requires Sane(op)
  {
    if link.Usb? then PtpUsb.UsbRequest(op) else PtpTcp.TcpRequest(op)
  }

  function Writes(link: Link, op: Container, data: seq<byte>, maxPacket: nat): seq<seq<byte>>
    requires Sane(op) && CanSend(link, data, maxPacket)
  {
    if link.Usb? then PtpUsb.UsbWrites(op, data, maxPacket) else PtpTcp.TcpWrites(op, data)
  }

  predicate CanSend(link: Link, data: seq<byte>, maxPacket: nat) {
    if link.Usb? then maxPacket > 0 && U32_SIZE % maxPacket == 0 else |data| < U32_SIZE
  }

  // The transport functions that a connection is set up with

  method SendReq(p: Port, link: Link, op: Container) returns (rc: int)
    requires Sane(op)
    modifies p`sent
    ensures rc == RC_OK && p.sent == old(p.sent) + [Request(link, op)]
  {
    if link.Usb? {
      rc := PtpUsb.UsbSendReq(p, op);
    } else {
      rc := PtpTcp.TcpSendReq(p, op);
    }
  }

  method SendData(p: Port, link: Link, op: Container, data: seq<byte>) returns (rc: int)
    requires Sane(op) && CanSend(link, data, p.maxPacket)
    modifies p`sent
    ensures rc == RC_OK && p.sent == old(p.sent) + Writes(link, op, data, p.maxPacket)
  {
    if link.Usb? {
      rc := PtpUsb.UsbSendData(p, op, data);
    } else {
      rc := PtpTcp.TcpSendData(p, op, data);
    }
  }

  function Announced(link: Link, s: seq<byte>, code: nat): Option<nat> {
    if link.Usb? then PtpUsb.UsbAnnounced(s, code) else PtpTcp.TcpAnnounced(s)
  }

  /** A data phase succeeds for sure if no read fails, the data is there, and on USB a byte behind it. */
  predicate Plentiful(link: Link, phase: Phase) {
    if link.Usb? then PtpUsb.UsbAmple(phase) else !phase.Dry?
  }

  method FetchData(p: Port, link: Link, op: Container, gd: GetData) returns (rc: int)
    requires p.Valid() && gd.retData != p.data && PhaseSafe(link, p.Stream(), op.code, RoomOf(gd))
    modifies p`pos, p`len, p`incoming, p`plan, p`asked, p.data, gd`retData, gd`totalSize, gd.retData, gd.handler
    ensures p.Valid()
    ensures NoFail(old(p.plan)) ==> NoFail(p.plan)
    ensures gd.retData == old(gd.retData) || (old(gd.retData) == null && fresh(gd.retData))
    ensures gd.handler != null ==> old(gd.handler.blocks) <= gd.handler.blocks && Returned(gd) == old(Returned(gd))
    ensures var phase := PhaseOf(link, old(p.Stream()), op.code);
            var sure := NoFail(old(p.plan)) && Plentiful(link, phase);
            if gd.handler == null then Buffered(phase, sure, rc, p.Stream(), old(Returned(gd)), Returned(gd))
            else Blocked(phase, sure, rc, p.Stream(), BlockSize(gd.blockSize),
                         gd.handler.verdict, |old(gd.handler.blocks)|, gd.handler.blocks[|old(gd.handler.blocks)|..])
    ensures Told(Announced(link, old(p.Stream()), op.code), NoFail(old(p.plan)), rc, old(gd.totalSize), gd.totalSize)
  {
    hide NoFail, UsbPhase, TcpPhase, PtpUsb.UsbSafe, PtpTcp.TcpSafe, Buffered, Blocked, BlockSize, Filled, Told,
      PtpUsb.UsbAnnounced, PtpTcp.TcpAnnounced;
    if link.Usb? {
      rc := PtpUsb.UsbGetData(p, op, gd);
    } else {
      rc := PtpTcp.TcpGetData(p, gd);
    }
  }

  method GetResp(p: Port, link: Link, op: Container) returns (rc: int, reply: Container)
    requires p.Valid() && AnswerSafe(link, p.Stream())
    modifies p`pos, p`len, p`incoming, p`plan, p`asked, p.data
    ensures p.Valid()
    ensures NoFail(old(p.plan)) ==> NoFail(p.plan)
    ensures var a := AnswerOf(link, old(p.Stream()), op.code, p.sessionId);
            Responded(a, NoFail(old(p.plan)), rc, p.Stream(), op, reply)
  {
    hide NoFail, UsbAnswer, TcpAnswer, UsbFits, TcpFits, Responded;
    if link.Usb? {
      rc, reply := PtpUsb.UsbGetResp(p, op);
    } else {
      rc, reply := PtpTcp.TcpGetResp(p, op);
    }
  }

  /** Only a failed read may keep a transaction from what the stream says. */
  ghost predicate Concluded(out: Outcome, sure: bool, rc: int, reply: Container, now: seq<byte>) {
    rc != ERROR_IO || (sure && out.Outcome?) ==> out.Outcome? && rc == out.rc && reply == out.reply && now == out.rest
  }

  /** The container with the IDs that a transaction gives it. */
  function Stamped(op: Container, trans: nat, session: nat): Container { op.(trans := trans, session := session) }

  /** An answer takes bytes. */
  lemma AnswerTakes(link: Link, s: seq<byte>, code: nat, session: nat)
    ensures s == [] ==> AnswerOf(link, s, code, session).Missing?
  {
  }

  /** Data that has come is returned, whatever the response is. */
  ghost predicate Delivered(out: Outcome, before: Option<seq<byte>>, ret: Option<seq<byte>>) {
    out.Outcome? && out.data.Some? ==> ret == Some(Filled(before, out.data.value))
  }

  ghost function Held(buf: array?<byte>): Option<seq<byte>>
    reads buf
  {
    if buf == null then None else Some(buf[..])
  }

  function RoomIn(buf: array?<byte>): Room { if buf == null then Fresh else Buffer(buf.Length) }

  /** What a data phase in either mode leaves to the response, apart from the data. */
  predicate Settled(phase: Phase, sure: bool, rc: int, now: seq<byte>) {
    rc != ERROR_IO || sure ==>
      match phase
      case Dry => false
      case Stop(code, rest, _) => rc == code && now == rest
      case Got(_, rest) => rc == RC_OK && now == rest
  }

  /** A data phase that may succeed for lack of failing reads does so if there is a response behind it. */
  lemma ReplyBehind(link: Link, s: seq<byte>, c: Container, session: nat)
    requires Transaction(link, s, c, true, session).Outcome?
    ensures Plentiful(link, PhaseOf(link, s, c.code))
  {
    hide PhaseOf, AnswerOf;
    AnswerTakes(link, [], c.code, session);
  }

  lemma EndsThere(link: Link, s: seq<byte>, c: Container, session: nat, sure: bool, rc: int, now: seq<byte>)
    requires Settled(PhaseOf(link, s, c.code), sure && Plentiful(link, PhaseOf(link, s, c.code)), rc, now)
             && rc != RC_OK
    ensures Concluded(Transaction(link, s, c, true, session), sure, rc, c, now)
    ensures var out := Transaction(link, s, c, true, session);
            (rc != ERROR_IO || sure) && out.Outcome? ==> out.data.None?
  {
    hide PhaseOf, AnswerOf, Plentiful;
    if Transaction(link, s, c, true, session).Outcome? { ReplyBehind(link, s, c, session); }
  }

  lemma GoesOn(link: Link, s: seq<byte>, c: Container, session: nat, sure: bool, mid: seq<byte>,
               more: bool, rc: int, reply: Container, now: seq<byte>)
    requires Settled(PhaseOf(link, s, c.code), sure && Plentiful(link, PhaseOf(link, s, c.code)), RC_OK, mid)
    requires Responded(AnswerOf(link, mid, c.code, session), more, rc, now, c, reply) && (sure ==> more)
    ensures Concluded(Transaction(link, s, c, true, session), sure, rc, reply, now)
  {
    hide PhaseOf, AnswerOf, Plentiful;
  }

  /** Data in the outcome is the data of the data phase. */
  lemma DataOfOutcome(link: Link, s: seq<byte>, c: Container, session: nat)
    ensures var out, phase := Transaction(link, s, c, true, session), PhaseOf(link, s, c.code);
            out.Outcome? && out.data.Some? ==> phase.Got? && phase.payload == out.data.value
  {
    hide PhaseOf, AnswerOf;
  }

  lemma BlockedSettles(phase: Phase, sure: bool, rc: int, now: seq<byte>, block: nat,
                       verdict: nat -> int, from: nat, added: seq<seq<byte>>)
    requires block > 0 && Blocked(phase, sure, rc, now, block, verdict, from, added)
    ensures Agreed(verdict, from, from + |added|) ==> Settled(phase, sure, rc, now)
    ensures !Agreed(verdict, from, from + |added|) ==> rc != RC_OK
  {
    hide Cut, Handed, Agreed;
  }

  lemma BufferedSettles(phase: Phase, sure: bool, rc: int, now: seq<byte>, before: Option<seq<byte>>,
                        ret: Option<seq<byte>>)
    requires Buffered(phase, sure, rc, now, before, ret)
    ensures Settled(phase, sure, rc, now)
    ensures phase.Got? && rc == RC_OK ==> ret == Some(Filled(before, phase.payload))
  {
    hide Filled;
  }

  /** What a transaction with a handler promises, which was given the blocks added after the first ones. */
  ghost predicate HandedOver(link: Link, s: seq<byte>, c: Container, session: nat, sure: bool, rc: int,
                             reply: Container, now: seq<byte>, block: nat, verdict: nat -> int, from: nat,
                             added: seq<seq<byte>>)
    requires block > 0
  {
    var out, phase, to := Transaction(link, s, c, true, session), PhaseOf(link, s, c.code), from + |added|;
    && (!phase.Dry? ==> added <= Cut(DataOf(phase), block))
    && if Agreed(verdict, from, to) then
         && Concluded(out, sure, rc, reply, now)
         && ((rc != ERROR_IO || sure) && out.Outcome? ==>
               if out.data.Some? then added == Cut(out.data.value, block)
               else phase.Stop? && Handed(phase.had, block, added))
       else
         Refused(verdict, from, to) && rc == verdict(to - 1)
  }

  /** Success means that the handler agreed to every block, and that it has been given all of the data. */
  lemma SuccessIsComplete(link: Link, s: seq<byte>, c: Container, session: nat, sure: bool, rc: int, reply: Container,
                          now: seq<byte>, block: nat, verdict: nat -> int, from: nat, added: seq<seq<byte>>)
    requires block > 0 && HandedOver(link, s, c, session, sure, rc, reply, now, block, verdict, from, added)
    requires rc == RC_OK
    ensures forall k :: from <= k < from + |added| ==> verdict(k) == RC_OK
    ensures var out := Transaction(link, s, c, true, session);
            out.Outcome? && out.data.Some? ==> Flatten(added) == out.data.value
  {
    hide Transaction, PhaseOf, Concluded, Cut, Handed;
    var out := Transaction(link, s, c, true, session);
    if out.Outcome? && out.data.Some? { FlattenCut(out.data.value, block); }
  }

  lemma HandlerEnds(link: Link, s: seq<byte>, c: Container, session: nat, sure: bool, rc: int, now: seq<byte>,
                    block: nat, verdict: nat -> int, from: nat, added: seq<seq<byte>>)
    requires block > 0 && rc != RC_OK
    requires var phase := PhaseOf(link, s, c.code);
             Blocked(phase, sure && Plentiful(link, phase), rc, now, block, verdict, from, added)
    ensures HandedOver(link, s, c, session, sure, rc, c, now, block, verdict, from, added)
  {
    hide PhaseOf, AnswerOf, Plentiful, Cut, Handed, Agreed, Refused, Transaction, Settled, Concluded;
    var phase := PhaseOf(link, s, c.code);
    var ample := sure && Plentiful(link, phase);
    BlockedSettles(phase, ample, rc, now, block, verdict, from, added);
    if Agreed(verdict, from, from + |added|) {
      EndsThere(link, s, c, session, sure, rc, now);
      if Transaction(link, s, c, true, session).Outcome? { ReplyBehind(link, s, c, session); }
    }
  }

  lemma HandlerGoesOn(link: Link, s: seq<byte>, c: Container, session: nat, sure: bool, mid: seq<byte>,
                      block: nat, verdict: nat -> int, from: nat, added: seq<seq<byte>>,
                      more: bool, rc: int, reply: Container, now: seq<byte>)
    requires block > 0 && (sure ==> more)
    requires var phase := PhaseOf(link, s, c.code);
             Blocked(phase, sure && Plentiful(link, phase), RC_OK, mid, block, verdict, from, added)
    requires Responded(AnswerOf(link, mid, c.code, session), more, rc, now, c, reply)
    ensures HandedOver(link, s, c, session, sure, rc, reply, now, block, verdict, from, added)
  {
    hide PhaseOf, AnswerOf, Plentiful, Cut, Handed, Agreed, Refused, Transaction, Settled, Concluded, Responded;
    var phase := PhaseOf(link, s, c.code);
    BlockedSettles(phase, sure && Plentiful(link, phase), RC_OK, mid, block, verdict, from, added);
    GoesOn(link, s, c, session, sure, mid, more, rc, reply, now);
    DataOfOutcome(link, s, c, session);
    StopsWithout(link, s, c, session);
  }

  lemma StopsWithout(link: Link, s: seq<byte>, c: Container, session: nat)
    ensures var out := Transaction(link, s, c, true, session);
            out.Outcome? && out.data.None? ==> PhaseOf(link, s, c.code).Stop?
  {
    hide PhaseOf, AnswerOf;
  }

  /** The data phase and the response, in either mode. */
  method ExchangeInto(p: Port, link: Link, c: Container, gd: GetData) returns (rc: int, reply: Container)
    requires p.Valid() && gd.retData != p.data && Safe(link, p.Stream(), c.code, true, RoomOf(gd))
    modifies p`pos, p`len, p`incoming, p`plan, p`asked, p.data, gd`retData, gd`totalSize, gd.retData, gd.handler
    ensures p.Valid()
    ensures NoFail(old(p.plan)) ==> NoFail(p.plan)
    ensures gd.retData == old(gd.retData) || (old(gd.retData) == null && fresh(gd.retData))
    ensures gd.handler != null ==> old(gd.handler.blocks) <= gd.handler.blocks && Returned(gd) == old(Returned(gd))
    ensures Told(Announced(link, old(p.Stream()), c.code), NoFail(old(p.plan)), rc, old(gd.totalSize), gd.totalSize)
    ensures var out := Transaction(link, old(p.Stream()), c, true, p.sessionId);
            gd.handler == null ==>
              && Concluded(out, NoFail(old(p.plan)), rc, reply, p.Stream())
              && (rc != ERROR_IO || NoFail(old(p.plan)) ==> Delivered(out, old(Returned(gd)), Returned(gd)))
    ensures gd.handler != null ==>
              HandedOver(link, old(p.Stream()), c, p.sessionId, NoFail(old(p.plan)), rc, reply, p.Stream(),
                         BlockSize(gd.blockSize), gd.handler.verdict, |old(gd.handler.blocks)|,
                         gd.handler.blocks[|old(gd.handler.blocks)|..])
  {
    hide NoFail, PhaseOf, AnswerOf, AnswerSafe, PhaseSafe, Filled, Handed, Buffered, Blocked, Responded, Settled,
      Concluded, HandedOver, Plentiful, Transaction, Announced, BlockSize, Safe, Cut;
    ghost var s, sure, before := p.Stream(), NoFail(p.plan), Returned(gd);
    ghost var phase := PhaseOf(link, s, c.code);
    ghost var from := if gd.handler == null then 0 else |gd.handler.blocks|;
    ghost var room := RoomOf(gd);
    SafeParts(link, s, c.code, room);
    reply := c;
    rc := FetchData(p, link, c, gd);
    ghost var mid, more := p.Stream(), NoFail(p.plan);
    if gd.handler == null {
      BufferedSettles(phase, sure && Plentiful(link, phase), rc, mid, before, Returned(gd));
    } else {
      BlockedSettles(phase, sure && Plentiful(link, phase), rc, mid, BlockSize(gd.blockSize), gd.handler.verdict, from,
                     gd.handler.blocks[from..]);
    }
    DataOfOutcome(link, s, c, p.sessionId);
    if rc != RC_OK {
      if gd.handler == null {
        EndsThere(link, s, c, p.sessionId, sure, rc, mid);
      } else {
        HandlerEnds(link, s, c, p.sessionId, sure, rc, mid, BlockSize(gd.blockSize), gd.handler.verdict, from,
                    gd.handler.blocks[from..]);
      }
      return;
    }
    SettledSafe(link, s, c.code, room, sure && Plentiful(link, phase), mid);
    rc, reply := GetResp(p, link, c);
    if gd.handler == null {
      GoesOn(link, s, c, p.sessionId, sure, mid, more, rc, reply, p.Stream());
    } else {
      HandlerGoesOn(link, s, c, p.sessionId, sure, mid, BlockSize(gd.blockSize), gd.handler.verdict, from,
                    gd.handler.blocks[from..], more, rc, reply, p.Stream());
    }
  }

  lemma SafeParts(link: Link, s: seq<byte>, code: nat, room: Room)
    requires Safe(link, s, code, true, room)
    ensures PhaseSafe(link, s, code, room)
  {
    hide PhaseSafe, PhaseOf, AnswerSafe;
  }

  lemma SettledSafe(link: Link, s: seq<byte>, code: nat, room: Room, sure: bool, mid: seq<byte>)
    requires Safe(link, s, code, true, room) && Settled(PhaseOf(link, s, code), sure, RC_OK, mid)
    ensures AnswerSafe(link, mid)
  {
    hide PhaseSafe, PhaseOf, AnswerSafe;
  }

  /** The data phase, if there is one to the host, and the response of a transaction without a handler. */
  method Exchange(p: Port, link: Link, c: Container, wants: bool, buf: array?<byte>)
    returns (rc: int, reply: Container, ret: array?<byte>)
    requires p.Valid() && buf != p.data
    requires Safe(link, p.Stream(), c.code, wants, RoomIn(buf))
    modifies p`pos, p`len, p`incoming, p`plan, p`asked, p.data, buf
    ensures p.Valid()
    ensures NoFail(old(p.plan)) ==> NoFail(p.plan)
    ensures ret == buf || (wants && buf == null && fresh(ret))
    ensures !wants ==> Held(buf) == old(Held(buf))
    ensures var out := Transaction(link, old(p.Stream()), c, wants, p.sessionId);
            && Concluded(out, NoFail(old(p.plan)), rc, reply, p.Stream())
            && (rc != ERROR_IO || NoFail(old(p.plan)) ==> Delivered(out, old(Held(buf)), Held(ret)))
  {
    hide NoFail, PhaseOf, AnswerOf, AnswerSafe, PhaseSafe, Filled, Announced, HandedOver, Told;
    ret, reply := buf, c;
    if wants {
      hide Transaction, Concluded, Delivered, Safe;
      var gd := new GetData(null, 0, buf);
      rc, reply := ExchangeInto(p, link, c, gd);
      ret := gd.retData;
    } else {
      rc, reply := GetResp(p, link, c);
    }
  }

  /**
   ptp_transaction. Whatever becomes of it, the request has been sent with the next transaction ID,
   and a flag other than the three leaves it at that. Received data goes into a buffer of the caller,
   or into one that is allocated if there is none.
   */
  method Transact(p: Port, link: Link, op: Container, flags: nat, data: seq<byte>, buf: array?<byte>)
    returns (rc: int, reply: Container, ret: array?<byte>)
    requires p.Valid() && p.transactionId < U32_SIZE && Sane(op) && buf != p.data
    requires flags % 0x100 == SEND_DATA ==> CanSend(link, data, p.maxPacket)
    requires flags % 0x100 <= GET_DATA ==>
               Safe(link, p.Stream(), op.code, flags % 0x100 == GET_DATA, RoomIn(buf))
    modifies p`pos, p`len, p`incoming, p`plan, p`asked, p`sent, p`transactionId, p.data, buf
    ensures p.Valid() && p.transactionId == U32(old(p.transactionId) + 1)
    ensures NoFail(old(p.plan)) ==> NoFail(p.plan)
    ensures ret == buf || (flags % 0x100 == 2 && buf == null && fresh(ret))
    ensures flags % 0x100 != 2 ==> Held(buf) == old(Held(buf))
    ensures var c := Stamped(op, old(p.transactionId), p.sessionId);
            && p.sent == old(p.sent) + [Request(link, c)]
                         + (if flags % 0x100 == 1 then Writes(link, c, data, p.maxPacket) else [])
            && if flags % 0x100 > 2 then rc == ERROR_BADPARAM && p.Stream() == old(p.Stream())
               else
                 var out := Transaction(link, old(p.Stream()), c, flags % 0x100 == 2, p.sessionId);
                 && Concluded(out, NoFail(old(p.plan)), rc, reply, p.Stream())
                 && (rc != ERROR_IO || NoFail(old(p.plan)) ==> Delivered(out, old(Held(buf)), Held(ret)))
  {
    hide NoFail, Transaction, Safe, Request, Writes, Concluded, U32, Delivered;
    ret := buf;
    var c := Stamped(op, p.transactionId, p.sessionId);
    reply := c;
    p.transactionId := U32(p.transactionId + 1);
    rc := SendReq(p, link, c);
    if rc != RC_OK {
      return;
    }
    if flags % 0x100 == SEND_DATA {
      rc := SendData(p, link, c, data);
      if rc != RC_OK {
        return;
      }
    } else if flags % 0x100 > GET_DATA {
      rc := ERROR_BADPARAM;
      return;
    }
    rc, reply, ret := Exchange(p, link, c, flags % 0x100 == GET_DATA, buf);
  }

  /** ptp_getdata_transaction: the data goes to a handler, or to a buffer if there is none. */
  method GetDataTransaction(p: Port, link: Link, op: Container, gd: GetData) returns (rc: int, reply: Container)
    requires p.Valid() && p.transactionId < U32_SIZE && Sane(op) && gd.retData != p.data
    requires Safe(link, p.Stream(), op.code, true, RoomOf(gd))
    modifies p`pos, p`len, p`incoming, p`plan, p`asked, p`sent, p`transactionId, p.data,
             gd`retData, gd`totalSize, gd.retData, gd.handler
    ensures p.Valid() && p.transactionId == U32(old(p.transactionId) + 1)
    ensures NoFail(old(p.plan)) ==> NoFail(p.plan)
    ensures gd.retData == old(gd.retData) || (old(gd.retData) == null && fresh(gd.retData))
    ensures gd.handler != null ==> old(gd.handler.blocks) <= gd.handler.blocks && Returned(gd) == old(Returned(gd))
    ensures p.sent == old(p.sent) + [Request(link, Stamped(op, old(p.transactionId), p.sessionId))]
    ensures Told(Announced(link, old(p.Stream()), op.code), NoFail(old(p.plan)), rc, old(gd.totalSize), gd.totalSize)
    ensures var c := Stamped(op, old(p.transactionId), p.sessionId);
            var out := Transaction(link, old(p.Stream()), c, true, p.sessionId);
            gd.handler == null ==>
              && Concluded(out, NoFail(old(p.plan)), rc, reply, p.Stream())
              && (rc != ERROR_IO || NoFail(old(p.plan)) ==> Delivered(out, old(Returned(gd)), Returned(gd)))
    ensures var c := Stamped(op, old(p.transactionId), p.sessionId);
            gd.handler != null ==>
              HandedOver(link, old(p.Stream()), c, p.sessionId, NoFail(old(p.plan)), rc, reply, p.Stream(),
                         BlockSize(gd.blockSize), gd.handler.verdict, |old(gd.handler.blocks)|,
                         gd.handler.blocks[|old(gd.handler.blocks)|..])
  {
    hide NoFail, Transaction, Safe, Request, Concluded, Delivered, HandedOver, Announced, Told, BlockSize, U32;
    var c := Stamped(op, p.transactionId, p.sessionId);
    reply := c;
    p.transactionId := U32(p.transactionId + 1);
    rc := SendReq(p, link, c);
    if rc != RC_OK {
      return;
    }
    rc, reply := ExchangeInto(p, link, c, gd);
  }

  function Opening(session: word): (c: Container)
    ensures Sane(c)
  {
    Container(OPEN_SESSION, 0, 0, [session, 0, 0, 0, 0], 1)
  }

  /** The request of OpenSession on the wire: transaction 0, and the session ID as its one parameter. */
  lemma OpenRequest(link: Link, session: word)
    ensures Request(link, Opening(session))
            == if link.Usb? then UsbContainer(USB_COMMAND, 0x1002, 0, Put32(false, session))
               else TcpPacket(TCP_REQ, Put32(false, 0) + Put16(false, 0x1002) + Put32(false, 0) + Put32(false, session))
  {
    hide UsbContainer, TcpPacket, Put16, Put32, PtpUsb.UsbRequest, PtpTcp.TcpRequest;
    var op := Opening(session);
    assert op.params[..op.nparam] == [session];
    OneParam(session);
    if link.Usb? { PtpUsb.UsbRequestOf(op); } else { PtpTcp.TcpRequestOf(op); }
  }

  /** The request for a session, byte by byte. */
  lemma OpenSessionBytes(b0: byte, b1: byte, b2: byte, b3: byte)
    ensures var op := Opening(b0 + 0x100 * b1 + 0x1_0000 * b2 + 0x100_0000 * b3);
            && Request(Usb, op) == [16, 0, 0, 0, 1, 0, 0x02, 0x10, 0, 0, 0, 0, b0, b1, b2, b3]
            && Request(Tcp, op) == [22, 0, 0, 0, 6, 0, 0, 0, 0, 0, 0, 0, 0x02, 0x10, 0, 0, 0, 0, b0, b1, b2, b3]
  {
    hide UsbContainer, TcpPacket, Put16, Put32, PtpUsb.UsbRequest, PtpTcp.TcpRequest;
    var session := b0 + 0x100 * b1 + 0x1_0000 * b2 + 0x100_0000 * b3;
    OpenRequest(Usb, session);
    OpenRequest(Tcp, session);
    LittleBytes(b0, b1, b2, b3);
    UsbHeaderBytes(USB_COMMAND, 0x02, 0x10, 0, 0, 0, 0, Put32(false, session));
    LittleHalf(0x02, 0x10);
    LittleBytes(0, 0, 0, 0);
    TcpHeaderBytes(TCP_REQ, Put32(false, 0) + Put16(false, 0x1002) + Put32(false, 0) + Put32(false, session));
  }

  lemma OneParam(w: word)
    ensures ParamBytes([w]) == Put32(false, w)
  {
    assert [w][..0] == [];
  }

  /** ptp_opensession: the request carries transaction ID 0, and the session ID is set even if it fails. */
  method OpenSession(p: Port, link: Link, session: word) returns (rc: int)
    requires p.Valid() && AnswerSafe(link, p.Stream())
    modifies p`pos, p`len, p`incoming, p`plan, p`asked, p`sent, p`transactionId, p`sessionId, p.data
    ensures p.Valid() && p.transactionId == 1 && p.sessionId == session
    ensures p.sent == old(p.sent)
                      + [if link.Usb? then UsbContainer(USB_COMMAND, 0x1002, 0, Put32(false, session))
                         else TcpPacket(TCP_REQ, Put32(false, 0) + Put16(false, 0x1002) + Put32(false, 0)
                                        + Put32(false, session))]
    ensures NoFail(old(p.plan)) ==> NoFail(p.plan)
    ensures var out := Transaction(link, old(p.Stream()), Opening(session), false, 0);
            rc != ERROR_IO || (NoFail(old(p.plan)) && out.Outcome?) ==>
              out.Outcome? && rc == out.rc && p.Stream() == out.rest
  {
    hide NoFail, Transaction, AnswerSafe, Request, Writes, UsbContainer, TcpPacket, Put16, Put32;
    OpenRequest(link, session);
    p.sessionId := 0;
    p.transactionId := 0;
    var op := Opening(session);
    var reply, ret;
    rc, reply, ret := Transact(p, link, op, NO_DATA, [], null);
    p.sessionId := session;
  }

  /** Counting modulo 2^32. */
  lemma OneMoreId(n: nat)
    ensures U32(U32(n) + 1) == U32(n + 1)
  {
    var q := n / U32_SIZE;
    assert n == U32_SIZE * q + n % U32_SIZE;
    if n % U32_SIZE + 1 == U32_SIZE {
      DivModIs(n + 1, U32_SIZE, q + 1, 0);
    } else {
      DivModIs(n + 1, U32_SIZE, q, n % U32_SIZE + 1);
    }
  }

  // Whole conversations

  /** A response as the responder makes it up. */
  datatype Reply = Reply(code: nat, trans: nat, params: seq<word>)

  /**
   Where a call wants its data: in memory that is allocated for it, in a buffer of the caller, or, with
   ptp_getdata_transaction, handed over in blocks to a handler with these verdicts.
   */
  datatype Dest = Memory | Into(buf: array<byte>) | Handled(block: nat, verdict: nat -> int)

  /** What the host asks for: an operation, flags, data to send, and where received data is to go. */
  datatype Call = Call(op: Container, flags: nat, out: seq<byte>, dest: Dest)

  predicate Sends(c: Call) { c.flags % 0x100 == SEND_DATA }

  predicate Wants(c: Call) { c.flags % 0x100 == GET_DATA }

  /** One transaction as both sides see it: the call, the responder's data phase, if any, and its response. */
  datatype Turn = Turn(call: Call, trans: nat, data: Option<Split>, resp: Reply)

  predicate SaneReply(r: Reply) {
    r.code < U16_SIZE && r.trans < U32_SIZE && |r.params| <= 5
  }

  /** A data phase that the transport can carry; on TCP no DATA packet comes after the announced size. */
  predicate Carries(link: Link, d: Split) {
    if link.Usb? then USB_HEADER + |Whole(d)| < U32_SIZE else Sized(d) && Needed(d.pieces, 0, |Whole(d)|)
  }

  predicate SaneTurn(link: Link, t: Turn) {
    && Sane(t.call.op) && t.call.flags % 0x100 <= GET_DATA && SaneReply(t.resp) && t.trans < U32_SIZE
    && (t.data.Some? ==> Wants(t.call) && Carries(link, t.data.value))
    && (t.call.dest.Handled? ==> Wants(t.call))
  }

  function DataBytes(link: Link, t: Turn): seq<byte>
    requires SaneTurn(link, t)
  {
    if t.data.None? then []
    else if link.Usb? then UsbContainer(USB_DATA, t.call.op.code, t.trans, Whole(t.data.value))
    else TcpStream(t.trans, t.data.value)
  }

  function ReplyBytes(link: Link, r: Reply): seq<byte>
    requires SaneReply(r)
  {
    if link.Usb? then UsbContainer(USB_RESPONSE, r.code, r.trans, ParamBytes(r.params))
    else TcpResponse(r.code, r.trans, r.params)
  }

  /** What the responder sends. */
  function Bytes(link: Link, t: Turn): seq<byte>
    requires SaneTurn(link, t)
  {
    DataBytes(link, t) + ReplyBytes(link, t.resp)
  }

  /** What the host is to make of it: a response in place of data is an error, and is taken off the stream. */
  function Expected(link: Link, t: Turn, session: nat, rest: seq<byte>): Outcome
    requires SaneTurn(link, t)
  {
    var filled := Container(t.resp.code, session, t.resp.trans, FiveOf(t.resp.params), |t.resp.params|);
    if Wants(t.call) && t.data.None? then Outcome(ERROR_DATA_EXPECTED, None, t.call.op, rest)
    else
      var data := if t.data.Some? then Some(Whole(t.data.value)) else None;
      var rc := if t.resp.code == t.call.op.code then RC_OK else t.resp.code;
      Outcome(rc, data, if rc == RC_OK || link.Tcp? then filled else t.call.op, rest)
  }

  /** A buffer of the caller is large enough for the data. */
  predicate Roomy(room: Room, t: Turn) {
    room.Buffer? && t.data.Some? ==> |Whole(t.data.value)| <= room.size
  }

  lemma ReplyAnswer(link: Link, r: Reply, tail: seq<byte>, op: Container, session: nat, room: Room)
    requires SaneReply(r) && Sane(op)
    ensures var s := ReplyBytes(link, r) + tail;
            && PhaseSafe(link, s, op.code, room) && AnswerSafe(link, s)
            && PhaseOf(link, s, op.code) == Stop(ERROR_DATA_EXPECTED, tail, [])
            && Closing(link, s, op, None, session)
               == Expected(link, Turn(Call(op, NO_DATA, [], Memory), 0, None, r), session, tail)
  {
    hide UsbPhase, TcpPhase, UsbAnswer, TcpAnswer, UsbContainer, TcpResponse, ParamBytes, UsbFits, TcpFits, TcpHead,
      TcpType, PtpTcp.TcpOrderly, FiveOf, PtpUsb.UsbSafe, U16_SIZE, U32_SIZE;
    if link.Usb? {
      UsbAnswerOf(r.code, r.trans, r.params, tail, op.code, session);
      UsbReplySafe(r, tail, op.code, room);
    } else {
      TcpAnswerOf(r.code, r.trans, r.params, tail, op.code, session);
      TcpResponseHead(r.code, r.trans, r.params, tail);
    }
  }

  lemma UsbReplySafe(r: Reply, tail: seq<byte>, code: nat, room: Room)
    requires SaneReply(r)
    ensures PtpUsb.UsbSafe(UsbContainer(USB_RESPONSE, r.code, r.trans, ParamBytes(r.params)) + tail, code, room)
  {
    hide UsbContainer, ParamBytes, UsbHead, UsbType, UsbFits, U16_SIZE, U32_SIZE;
    var s := UsbContainer(USB_RESPONSE, r.code, r.trans, ParamBytes(r.params)) + tail;
    UsbResponseHead(r.code, r.trans, r.params, tail);
    UsbFields(USB_RESPONSE, r.code, r.trans, ParamBytes(r.params), tail);
    UsbHeadFields(s);
  }

  lemma DataGot(link: Link, t: Turn, tail: seq<byte>, room: Room)
    requires SaneTurn(link, t) && t.data.Some? && Roomy(room, t)
    ensures PhaseSafe(link, DataBytes(link, t) + tail, t.call.op.code, room)
    ensures PhaseOf(link, DataBytes(link, t) + tail, t.call.op.code) == Got(Whole(t.data.value), tail)
  {
    hide UsbPhase, TcpPhase, UsbContainer, UsbFits, TcpFits, TcpPackets, PtpTcp.TcpOrderly, PtpTcp.TcpSafe, TcpStart,
      TcpPieces, TcpPiece, Flatten, Needed, U16_SIZE, PtpUsb.UsbAnnounced;
    var d := t.data.value;
    if link.Usb? {
      UsbPhaseOf(t.call.op.code, t.trans, Whole(d), tail);
      PtpUsb.SizeOfGot(DataBytes(link, t) + tail, t.call.op.code);
    } else {
      TcpPhaseOf(t.trans, d, tail);
      var total := |Whole(d)|;
      var rest := TcpPieces(t.trans, d.pieces) + TcpPiece(TCP_END, t.trans, d.last) + tail;
      assert TcpStream(t.trans, d) + tail == TcpStart(t.trans, total) + rest;
      PtpTcp.PacketsOrderly(t.trans, d.pieces, d.last, total, 0, tail, PtpTcp.CapOf(room, total));
      PtpTcp.StartSafe(t.trans, total, rest, room);
    }
  }

  /** The size that a caller is told is that of the data sent, unless a read has failed before it was known. */
  lemma SizeTold(link: Link, t: Turn, tail: seq<byte>, sure: bool, rc: int, before: nat, now: nat)
    requires SaneTurn(link, t) && t.data.Some?
    requires Told(Announced(link, DataBytes(link, t) + tail, t.call.op.code), sure, rc, before, now)
    ensures now == |Whole(t.data.value)| || (now == before && rc == ERROR_IO && !sure)
  {
    hide UsbContainer, TcpHead, TcpType, TcpTotal, TcpStart, TcpPieces, TcpPiece, Flatten, Needed, U16_SIZE,
      PtpUsb.UsbAnnounced, UsbPhase;
    var d := t.data.value;
    if link.Usb? {
      UsbPhaseOf(t.call.op.code, t.trans, Whole(d), tail);
      PtpUsb.SizeOfGot(DataBytes(link, t) + tail, t.call.op.code);
    } else {
      var rest := TcpPieces(t.trans, d.pieces) + TcpPiece(TCP_END, t.trans, d.last) + tail;
      assert TcpStream(t.trans, d) + tail == TcpStart(t.trans, |Whole(d)|) + rest;
      StartHead(t.trans, |Whole(d)|, rest);
    }
  }

  /** One transaction takes exactly what the responder sent for it, and may safely be carried out. */
  lemma OneTurn(link: Link, t: Turn, tail: seq<byte>, session: nat, room: Room)
    requires SaneTurn(link, t) && Roomy(room, t)
    ensures var s := Bytes(link, t) + tail;
            && Safe(link, s, t.call.op.code, Wants(t.call), room)
            && Transaction(link, s, t.call.op, Wants(t.call), session) == Expected(link, t, session, tail)
  {
    hide PhaseOf, AnswerOf, PhaseSafe, AnswerSafe, DataBytes, ReplyBytes, FiveOf;
    ReplyAnswer(link, t.resp, tail, t.call.op, session, room);
    if t.data.Some? {
      assert Bytes(link, t) + tail == DataBytes(link, t) + (ReplyBytes(link, t.resp) + tail);
      DataGot(link, t, ReplyBytes(link, t.resp) + tail, room);
    } else {
      assert Bytes(link, t) + tail == ReplyBytes(link, t.resp) + tail by { NoBytes(link, t); }
    }
  }

  /** The data that has been read when the data phase of a turn is over. */
  function TurnData(t: Turn): seq<byte> { if t.data.Some? then Whole(t.data.value) else [] }

  lemma TurnPhase(link: Link, t: Turn, tail: seq<byte>)
    requires SaneTurn(link, t)
    ensures var phase := PhaseOf(link, Bytes(link, t) + tail, t.call.op.code);
            !phase.Dry? && DataOf(phase) == TurnData(t)
  {
    hide PhaseOf, AnswerOf, PhaseSafe, AnswerSafe, DataBytes, ReplyBytes, FiveOf, Carries;
    if t.data.Some? {
      assert Bytes(link, t) + tail == DataBytes(link, t) + (ReplyBytes(link, t.resp) + tail);
      DataGot(link, t, ReplyBytes(link, t.resp) + tail, Fresh);
    } else {
      ReplyAnswer(link, t.resp, tail, t.call.op, 0, Fresh);
      assert Bytes(link, t) + tail == ReplyBytes(link, t.resp) + tail by { NoBytes(link, t); }
    }
  }

  lemma NoBytes(link: Link, t: Turn)
    requires SaneTurn(link, t) && t.data.None?
    ensures Bytes(link, t) == ReplyBytes(link, t.resp)
  {
    assert [] + ReplyBytes(link, t.resp) == ReplyBytes(link, t.resp);
  }

  function AllBytes(link: Link, ts: seq<Turn>): seq<byte>
    requires forall k :: 0 <= k < |ts| ==> SaneTurn(link, ts[k])
  {
    if ts == [] then [] else Bytes(link, ts[0]) + AllBytes(link, ts[1..])
  }

  lemma NextBytes(link: Link, ts: seq<Turn>, k: nat, tail: seq<byte>)
    requires k < |ts| && forall j :: 0 <= j < |ts| ==> SaneTurn(link, ts[j])
    ensures AllBytes(link, ts[k..]) + tail == Bytes(link, ts[k]) + (AllBytes(link, ts[k + 1..]) + tail)
  {
    hide Bytes;
    assert ts[k..][1..] == ts[k + 1..] && ts[k..][0] == ts[k];
  }

  /** A turn whose operation carries the IDs that the transaction gives it. */
  function StampedTurn(t: Turn, trans: nat, session: nat): Turn {
    t.(call := t.call.(op := Stamped(t.call.op, trans, session)))
  }

  lemma SameBytes(link: Link, t: Turn, trans: nat, session: nat)
    requires SaneTurn(link, t) && trans < U32_SIZE
    ensures SaneTurn(link, StampedTurn(t, trans, session))
            && Bytes(link, StampedTurn(t, trans, session)) == Bytes(link, t)
  {
    hide UsbContainer, TcpStream, ReplyBytes, Carries;
  }

  predicate CanCall(link: Link, c: Call, maxPacket: nat) {
    Sane(c.op) && (Sends(c) ==> CanSend(link, c.out, maxPacket))
  }

  function DestRoom(d: Dest): Room {
    match d
    case Memory => Fresh
    case Into(buf) => Buffer(buf.Length)
    case Handled(_, _) => Blocks
  }

  /** The destination can take the data of the turn: the buffer is large enough, the handler agrees to every block. */
  predicate Takes(t: Turn) {
    && Roomy(DestRoom(t.call.dest), t)
    && (t.call.dest.Handled? ==>
          Agreed(t.call.dest.verdict, 0, |Cut(TurnData(t), BlockSize(t.call.dest.block))|))
  }

  /** The writes of one call: the request, and the data if it sends any. */
  function Written(link: Link, c: Call, trans: nat, session: nat, maxPacket: nat): seq<seq<byte>>
    requires CanCall(link, c, maxPacket) && trans < U32_SIZE
  {
    var op := Stamped(c.op, trans, session);
    [Request(link, op)] + if Sends(c) then Writes(link, op, c.out, maxPacket) else []
  }

  /** The writes of the first n calls: the transaction IDs count up from 1 modulo 2^32. */
  function AllWritten(link: Link, calls: seq<Call>, session: nat, maxPacket: nat, n: nat): seq<seq<byte>>
    requires n <= |calls| && forall k :: 0 <= k < |calls| ==> CanCall(link, calls[k], maxPacket)
  {
    if n == 0 then []
    else AllWritten(link, calls, session, maxPacket, n - 1) + Written(link, calls[n - 1], U32(n), session, maxPacket)
  }

  /** What a transaction gave its caller: a buffer, or blocks to a handler. */
  datatype Result = Result(rc: int, reply: Container, data: Option<seq<byte>>, blocks: seq<seq<byte>>)

  /**
   The result is what the responder meant it to be. A buffer of the caller starts with the data, and a
   handler got exactly the blocks of its cut. Nothing is said of a new buffer if no data came.
   */
  predicate Meant(link: Link, t: Turn, trans: nat, session: nat, r: Result)
    requires SaneTurn(link, t) && trans < U32_SIZE
  {
    var out := Expected(link, StampedTurn(t, trans, session), session, []);
    && r.rc == out.rc && r.reply == out.reply
    && match t.call.dest
       case Memory => out.data.Some? || !Wants(t.call) ==> r.data == out.data
       case Into(_) => out.data.Some? ==> r.data.Some? && out.data.value <= r.data.value
       case Handled(block, _) => r.blocks == Cut(TurnData(t), BlockSize(block))
  }

  lemma OpeningTurn(link: Link, opening: Reply, rest: seq<byte>, session: word)
    requires SaneReply(opening)
    ensures var s := ReplyBytes(link, opening) + rest;
            && AnswerSafe(link, s)
            && var out := Transaction(link, s, Opening(session), false, 0);
               out.Outcome? && out.rest == rest
               && out.rc == if opening.code == OPEN_SESSION then RC_OK else opening.code
  {
    hide AnswerOf, PhaseSafe, AnswerSafe, ReplyBytes, FiveOf, PhaseOf;
    ReplyAnswer(link, opening, rest, Opening(session), 0, Fresh);
  }

  lemma ConverseStarts(link: Link, ts: seq<Turn>, calls: seq<Call>, session: nat, maxPacket: nat, was: seq<seq<byte>>)
    requires forall k :: 0 <= k < |ts| ==> SaneTurn(link, ts[k])
    requires forall k :: 0 <= k < |calls| ==> CanCall(link, calls[k], maxPacket)
    ensures ts[0..] == ts && U32(1) == 1
    ensures was == was + AllWritten(link, calls, session, maxPacket, 0)
  {
  }

  lemma NoMoreBytes(link: Link, ts: seq<Turn>, tail: seq<byte>)
    requires forall k :: 0 <= k < |ts| ==> SaneTurn(link, ts[k])
    ensures AllBytes(link, ts[|ts|..]) + tail == tail
  {
    assert [] + tail == tail;
  }

  lemma AllWrittenOn(link: Link, calls: seq<Call>, session: nat, maxPacket: nat, k: nat, was: seq<seq<byte>>)
    requires k < |calls| && forall j :: 0 <= j < |calls| ==> CanCall(link, calls[j], maxPacket)
    ensures was + AllWritten(link, calls, session, maxPacket, k)
            + Written(link, calls[k], U32(1 + k), session, maxPacket)
            == was + AllWritten(link, calls, session, maxPacket, k + 1)
  {
    hide Written, CanCall, U32;
  }

  /** A turn on the stream can be carried out. */
  lemma TurnSafe(link: Link, t: Turn, trans: nat, session: nat, rest: seq<byte>, maxPacket: nat)
    requires SaneTurn(link, t) && Takes(t) && trans < U32_SIZE && CanCall(link, t.call, maxPacket)
    ensures t.call.flags % 0x100 <= GET_DATA && Sane(t.call.op)
    ensures Sends(t.call) ==> CanSend(link, t.call.out, maxPacket)
    ensures Safe(link, Bytes(link, t) + rest, t.call.op.code, Wants(t.call), DestRoom(t.call.dest))
    ensures var st := StampedTurn(t, trans, session);
            SaneTurn(link, st)
            && Transaction(link, Bytes(link, t) + rest, st.call.op, Wants(t.call), session)
               == Expected(link, st, session, rest)
  {
    hide Bytes, Safe, Transaction, Expected, Carries, SaneReply, Cut;
    var st := StampedTurn(t, trans, session);
    SameBytes(link, t, trans, session);
    OneTurn(link, st, rest, session, DestRoom(t.call.dest));
  }

  /** A call into memory or a buffer has been carried out with the expected outcome. */
  lemma TurnMeant(link: Link, t: Turn, trans: nat, session: nat, rest: seq<byte>, r: Result, now: seq<byte>,
                  before: Option<seq<byte>>)
    requires SaneTurn(link, t) && trans < U32_SIZE && !t.call.dest.Handled?
    requires SaneTurn(link, StampedTurn(t, trans, session))
    requires var out := Expected(link, StampedTurn(t, trans, session), session, rest);
             Concluded(out, true, r.rc, r.reply, now) && Delivered(out, before, r.data)
    requires t.call.dest.Memory? ==> before == None && (!Wants(t.call) ==> r.data == None)
    ensures Meant(link, t, trans, session, r) && now == rest
  {
    hide FiveOf, Whole, Carries, SaneReply, Cut;
  }

  lemma HandlerAgrees(verdict: nat -> int, added: seq<seq<byte>>, whole: seq<seq<byte>>)
    requires added <= whole && Agreed(verdict, 0, |whole|)
    ensures Agreed(verdict, 0, |added|)
  {
  }

  /** The outcome of a turn has data if the turn has any. */
  lemma ExpectedData(link: Link, t: Turn, session: nat, rest: seq<byte>)
    requires SaneTurn(link, t)
    ensures var out := Expected(link, t, session, rest);
            out.Outcome? && out.rest == rest && out.data == if t.data.Some? then Some(TurnData(t)) else None
  {
    hide FiveOf, Whole, Carries, SaneReply;
  }

  lemma EmptyCut(block: nat, added: seq<seq<byte>>)
    requires block > 0 && Handed([], block, added)
    ensures added == Cut([], block)
  {
  }

  /** A call with a handler has been carried out with the expected outcome, and with all blocks of the data. */
  lemma BlocksMeant(link: Link, t: Turn, trans: nat, session: nat, rest: seq<byte>, r: Result, now: seq<byte>)
    requires SaneTurn(link, t) && trans < U32_SIZE && t.call.dest.Handled? && Takes(t)
    requires SaneTurn(link, StampedTurn(t, trans, session))
    requires var d, st := t.call.dest, StampedTurn(t, trans, session);
             && Transaction(link, Bytes(link, t) + rest, st.call.op, true, session) == Expected(link, st, session, rest)
             && HandedOver(link, Bytes(link, t) + rest, st.call.op, session, true, r.rc, r.reply, now,
                           BlockSize(d.block), d.verdict, 0, r.blocks)
    ensures Meant(link, t, trans, session, r) && now == rest
  {
    hide PhaseOf, Bytes, Transaction, Carries, SaneReply, Cut, BlockSize, Agreed, Refused, Handed, FiveOf, Whole,
      DataOf;
    var st := StampedTurn(t, trans, session);
    TurnPhase(link, t, rest);
    ExpectedData(link, st, session, rest);
    HandlerAgrees(t.call.dest.verdict, r.blocks, Cut(TurnData(t), BlockSize(t.call.dest.block)));
    if t.data.None? {
      StoppedData(PhaseOf(link, Bytes(link, t) + rest, t.call.op.code));
      EmptyCut(BlockSize(t.call.dest.block), r.blocks);
    }
  }

  lemma StoppedData(phase: Phase)
    ensures phase.Stop? ==> DataOf(phase) == phase.had
  {
  }

  /** One call of a conversation, by ptp_transaction. */
  method TakeTurnData(p: Port, link: Link, c: Call, ghost t: Turn, ghost rest: seq<byte>) returns (r: Result)
    requires p.Valid() && NoFail(p.plan) && p.transactionId < U32_SIZE && SaneTurn(link, t) && t.call == c && Takes(t)
    requires CanCall(link, c, p.maxPacket) && p.Stream() == Bytes(link, t) + rest
    requires !c.dest.Handled? && (c.dest.Into? ==> c.dest.buf != p.data)
    modifies p`pos, p`len, p`incoming, p`plan, p`asked, p`sent, p`transactionId, p.data, BufferOf(c)
    ensures p.Valid() && NoFail(p.plan) && p.Stream() == rest && p.transactionId == U32(old(p.transactionId) + 1)
    ensures Meant(link, t, old(p.transactionId), p.sessionId, r)
    ensures c.dest.Into? ==> r.data == Some(c.dest.buf[..])
    ensures p.sent == old(p.sent) + Written(link, c, old(p.transactionId), p.sessionId, p.maxPacket)
  {
    hide NoFail, Transaction, Expected, Safe, Request, Writes, Bytes, Meant, U32, SaneTurn, CanCall, CanSend,
      Delivered, Concluded, Takes;
    ghost var trans, session, sent := p.transactionId, p.sessionId, p.sent;
    TurnSafe(link, t, trans, session, rest, p.maxPacket);
    var buf: array?<byte> := if c.dest.Into? then c.dest.buf else null;
    ghost var before := Held(buf);
    var rc, reply, ret := Transact(p, link, c.op, c.flags, c.out, buf);
    r := Result(rc, reply, if ret == null then None else Some(ret[..]), []);
    TurnMeant(link, t, trans, session, rest, r, p.Stream(), before);
    WrittenIs(link, c, trans, session, p.maxPacket, sent);
  }

  /** One call of a conversation, by ptp_getdata_transaction with a handler. */
  method TakeTurnBlocks(p: Port, link: Link, c: Call, ghost t: Turn, ghost rest: seq<byte>) returns (r: Result)
    requires p.Valid() && NoFail(p.plan) && p.transactionId < U32_SIZE && SaneTurn(link, t) && t.call == c && Takes(t)
    requires CanCall(link, c, p.maxPacket) && p.Stream() == Bytes(link, t) + rest && c.dest.Handled?
    modifies p`pos, p`len, p`incoming, p`plan, p`asked, p`sent, p`transactionId, p.data
    ensures p.Valid() && NoFail(p.plan) && p.Stream() == rest && p.transactionId == U32(old(p.transactionId) + 1)
    ensures Meant(link, t, old(p.transactionId), p.sessionId, r)
    ensures p.sent == old(p.sent) + Written(link, c, old(p.transactionId), p.sessionId, p.maxPacket)
  {
    hide NoFail, Transaction, Expected, Safe, Request, Writes, Bytes, Meant, U32, CanCall, CanSend, Delivered,
      Concluded, Takes, HandedOver, BlockSize, Announced, Told;
    ghost var trans, session, sent := p.transactionId, p.sessionId, p.sent;
    TurnSafe(link, t, trans, session, rest, p.maxPacket);
    var h := new Handler(c.dest.verdict);
    var gd := new GetData(h, c.dest.block, null);
    var rc, reply := GetDataTransaction(p, link, c.op, gd);
    r := Result(rc, reply, None, h.blocks);
    assert h.blocks[0..] == h.blocks;
    BlocksMeant(link, t, trans, session, rest, r, p.Stream());
    WrittenIs(link, c, trans, session, p.maxPacket, sent);
  }

  /** One call of a conversation. */
  method TakeTurn(p: Port, link: Link, c: Call, ghost t: Turn, ghost rest: seq<byte>) returns (r: Result)
    requires p.Valid() && NoFail(p.plan) && p.transactionId < U32_SIZE && SaneTurn(link, t) && t.call == c && Takes(t)
    requires CanCall(link, c, p.maxPacket) && p.Stream() == Bytes(link, t) + rest
    requires c.dest.Into? ==> c.dest.buf != p.data
    modifies p`pos, p`len, p`incoming, p`plan, p`asked, p`sent, p`transactionId, p.data, BufferOf(c)
    ensures p.Valid() && NoFail(p.plan) && p.Stream() == rest && p.transactionId == U32(old(p.transactionId) + 1)
    ensures Meant(link, t, old(p.transactionId), p.sessionId, r)
    ensures c.dest.Into? ==> r.data == Some(c.dest.buf[..])
    ensures p.sent == old(p.sent) + Written(link, c, old(p.transactionId), p.sessionId, p.maxPacket)
  {
    hide NoFail, Bytes, Meant, U32, SaneTurn, CanCall, Takes, Written;
    if c.dest.Handled? {
      r := TakeTurnBlocks(p, link, c, t, rest);
    } else {
      r := TakeTurnData(p, link, c, t, rest);
    }
  }

  lemma WrittenIs(link: Link, c: Call, trans: nat, session: nat, maxPacket: nat, sent: seq<seq<byte>>)
    requires CanCall(link, c, maxPacket) && trans < U32_SIZE
    ensures var op := Stamped(c.op, trans, session);
            sent + [Request(link, op)] + (if Sends(c) then Writes(link, op, c.out, maxPacket) else [])
            == sent + Written(link, c, trans, session, maxPacket)
  {
    hide Request, Writes, CanSend;
  }

  /** The buffer that a call may write to, and those of several calls. */
  function BufferOf(c: Call): set<array<byte>> { if c.dest.Into? then {c.dest.buf} else {} }

  function Buffers(calls: seq<Call>): set<array<byte>> {
    set k | 0 <= k < |calls| && calls[k].dest.Into? :: calls[k].dest.buf
  }

  /** Call k is the last one before call n that writes to its buffer. */
  predicate LastInto(calls: seq<Call>, k: nat, n: nat)
    requires k < n <= |calls|
  {
    && calls[k].dest.Into?
    && forall j :: k < j < n && calls[j].dest.Into? ==> calls[j].dest.buf != calls[k].dest.buf
  }

  /** A buffer that has been written to has a last call that did it. */
  lemma {:induction false} LastIntoExists(calls: seq<Call>, k: nat, n: nat) returns (last: nat)
    requires k < n <= |calls| && calls[k].dest.Into?
    ensures k <= last < n && LastInto(calls, last, n) && calls[last].dest.buf == calls[k].dest.buf
    decreases n - k
  {
    last := k;
    if j :| k < j < n && calls[j].dest.Into? && calls[j].dest.buf == calls[k].dest.buf {
      last := LastIntoExists(calls, j, n);
    }
  }

  /** What the buffers hold. */
  ghost function Contents(calls: seq<Call>): map<array<byte>, seq<byte>>
    reads Buffers(calls)
  {
    map b | b in Buffers(calls) :: b[..]
  }

  /** With these contents, the buffers still hold what the last of the first n calls into them returned. */
  ghost predicate BuffersHold(calls: seq<Call>, results: seq<Result>, n: nat, held: map<array<byte>, seq<byte>>) {
    && |results| == n <= |calls|
    && forall j :: 0 <= j < n && LastInto(calls, j, n) ==>
         calls[j].dest.buf in held && results[j].data == Some(held[calls[j].dest.buf])
  }

  lemma NoneHeld(calls: seq<Call>, held: map<array<byte>, seq<byte>>)
    ensures BuffersHold(calls, [], 0, held)
  {
  }

  lemma LastBefore(calls: seq<Call>, j: nat, k: nat)
    requires j < k < |calls| && LastInto(calls, j, k + 1)
    ensures LastInto(calls, j, k) && calls[j].dest.buf !in BufferOf(calls[k])
  {
  }

  lemma HoldStill(calls: seq<Call>, results: seq<Result>, k: nat, r: Result,
                  was: map<array<byte>, seq<byte>>, now: map<array<byte>, seq<byte>>)
    requires k < |calls| && BuffersHold(calls, results, k, was)
    requires forall b :: b in was ==> b in now && (b !in BufferOf(calls[k]) ==> now[b] == was[b])
    requires calls[k].dest.Into? ==> calls[k].dest.buf in now && r.data == Some(now[calls[k].dest.buf])
    ensures BuffersHold(calls, results + [r], k + 1, now)
  {
    hide BufferOf;
    forall j | 0 <= j < k + 1 && LastInto(calls, j, k + 1)
      ensures calls[j].dest.buf in now && (results + [r])[j].data == Some(now[calls[j].dest.buf])
    {
      if j < k { LastBefore(calls, j, k); }
    }
  }

  lemma HoldAtLast(calls: seq<Call>, results: seq<Result>)
    requires BuffersHold(calls, results, |calls|, Contents(calls))
    ensures forall k :: 0 <= k < |calls| && LastInto(calls, k, |calls|) ==>
              results[k].data == Some(calls[k].dest.buf[..])
  {
  }

  lemma AmongBuffers(calls: seq<Call>, k: nat)
    requires k < |calls|
    ensures BufferOf(calls[k]) <= Buffers(calls)
    ensures calls[k].dest.Into? ==> calls[k].dest.buf in Buffers(calls)
  {
  }

  /** Call k of a conversation: it leaves the buffers of the other calls alone. */
  method TakeNext(p: Port, link: Link, calls: seq<Call>, k: nat, ghost results: seq<Result>, ghost t: Turn,
                  ghost rest: seq<byte>)
    returns (r: Result)
    requires p.Valid() && NoFail(p.plan) && p.transactionId < U32_SIZE && p.data !in Buffers(calls)
    requires k < |calls| && SaneTurn(link, t) && t.call == calls[k] && Takes(t)
    requires CanCall(link, calls[k], p.maxPacket) && p.Stream() == Bytes(link, t) + rest
    requires BuffersHold(calls, results, k, Contents(calls))
    modifies p`pos, p`len, p`incoming, p`plan, p`asked, p`sent, p`transactionId, p.data, Buffers(calls)
    ensures p.Valid() && NoFail(p.plan) && p.Stream() == rest && p.transactionId == U32(old(p.transactionId) + 1)
    ensures Meant(link, t, old(p.transactionId), p.sessionId, r)
    ensures BuffersHold(calls, results + [r], k + 1, Contents(calls))
    ensures p.sent == old(p.sent) + Written(link, calls[k], old(p.transactionId), p.sessionId, p.maxPacket)
  {
    hide NoFail, Bytes, Meant, U32, SaneTurn, CanCall, Takes, Written, BuffersHold;
    AmongBuffers(calls, k);
    ghost var held := Contents(calls);
    r := TakeTurn(p, link, calls[k], t, rest);
    HoldStill(calls, results, k, r, held, Contents(calls));
  }

  /**
   A whole conversation: OpenSession and then any mixture of transactions, with data sent, and with
   data received in new memory, in buffers of the caller and by handlers in blocks, against a responder
   that answers each of them, be it with an error, with a response instead of data, or with data in any
   split that Carries it. If no read fails, however reads spread over the stream, each call takes
   exactly the containers sent for it, the n-th call gets the n-th answer, what follows the last one is
   left on the stream, and the requests carry transaction IDs 0, 1, 2 and so on modulo 2^32.
   */
  method Converse(p: Port, link: Link, session: word, calls: seq<Call>,
                  ghost opening: Reply, ghost ts: seq<Turn>, ghost tail: seq<byte>)
    returns (first: int, results: seq<Result>)
    requires p.Valid() && NoFail(p.plan) && SaneReply(opening) && |ts| == |calls|
    requires forall k :: 0 <= k < |ts| ==> SaneTurn(link, ts[k]) && ts[k].call == calls[k] && Takes(ts[k])
    requires forall k :: 0 <= k < |calls| ==> CanCall(link, calls[k], p.maxPacket)
    requires p.data !in Buffers(calls)
    requires p.Stream() == ReplyBytes(link, opening) + (AllBytes(link, ts) + tail)
    modifies p`pos, p`len, p`incoming, p`plan, p`asked, p`sent, p`transactionId, p`sessionId, p.data, Buffers(calls)
    ensures p.Valid() && p.Stream() == tail
    ensures first == if opening.code == OPEN_SESSION then RC_OK else opening.code
    ensures |results| == |calls|
    ensures forall k :: 0 <= k < |calls| ==> Meant(link, ts[k], U32(1 + k), session, results[k])
    ensures forall k :: 0 <= k < |calls| && LastInto(calls, k, |calls|) ==>
              results[k].data == Some(calls[k].dest.buf[..])
    ensures p.sent == old(p.sent)
                      + [if link.Usb? then UsbContainer(USB_COMMAND, 0x1002, 0, Put32(false, session))
                         else TcpPacket(TCP_REQ, Put32(false, 0) + Put16(false, 0x1002) + Put32(false, 0)
                                        + Put32(false, session))]
                      + AllWritten(link, calls, session, p.maxPacket, |calls|)
    ensures p.transactionId == U32(1 + |calls|) && p.sessionId == session
  {
    hide NoFail, Transaction, Expected, Safe, AnswerSafe, Request, Writes, Bytes, AllBytes, ReplyBytes, SaneTurn,
      CanCall, Meant, AllWritten, Written, U32, U16_SIZE, U32_SIZE, Takes, BuffersHold,
      Contents, UsbContainer, TcpPacket, Put16, Put32;
    OpeningTurn(link, opening, AllBytes(link, ts) + tail, session);
    OpenRequest(link, session);
    first := OpenSession(p, link, session);
    results := [];
    ghost var was := old(p.sent) + [Request(link, Opening(session))];
    ConverseStarts(link, ts, calls, session, p.maxPacket, was);
    NoneHeld(calls, Contents(calls));
    var k := 0;
    while k < |calls|
      invariant 0 <= k <= |calls| == |ts| && p.Valid() && NoFail(p.plan)
      invariant p.sessionId == session && p.transactionId == U32(1 + k)
      invariant p.Stream() == AllBytes(link, ts[k..]) + tail
      invariant |results| == k && forall j :: 0 <= j < k ==> Meant(link, ts[j], U32(1 + j), session, results[j])
      invariant BuffersHold(calls, results, k, Contents(calls))
      invariant p.sent == was + AllWritten(link, calls, session, p.maxPacket, k)
    {
      NextBytes(link, ts, k, tail);
      var r := TakeNext(p, link, calls, k, results, ts[k], AllBytes(link, ts[k + 1..]) + tail);
      AllWrittenOn(link, calls, session, p.maxPacket, k, was);
      OneMoreId(1 + k);
      results := results + [r];
      k := k + 1;
    }
    NoMoreBytes(link, ts, tail);
    HoldAtLast(calls, results);
  }
}
