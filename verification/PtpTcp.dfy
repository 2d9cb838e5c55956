/** The PTP/IP transport functions of ptp.c. */
module PtpTcp {
  import opened Buffers
  import opened Words
  import opened PtpPort
  import opened PtpWire
  import opened PtpBlocks

  lemma TcpHeadParts(s: seq<byte>, b: seq<byte>)
    requires |s| >= TCP_HEADER && |b| >= TCP_HEADER && b[..TCP_HEADER] == s[..TCP_HEADER]
    ensures Length(b) == Length(s) && TcpType(b) == TcpType(s)
  {
    assert forall k :: 0 <= k < TCP_HEADER ==> b[k] == b[..TCP_HEADER][k] == s[k];
  }

  /** ptp_tcp_read_control */
  method TcpReadControl(p: Port, dst: array<byte>) returns (rc: int)
    requires p.Valid() && TcpFits(p.Stream()) && dst.Length == TCP_ROOM && dst != p.data
    modifies p`pos, p`len, p`incoming, p`plan, p`asked, p.data, dst
    ensures p.Valid()
    ensures NoFail(old(p.plan)) ==> NoFail(p.plan)
    ensures rc == RC_OK || rc == ERROR_IO || rc == ERROR_BADPARAM
    ensures var h := TcpHead(old(p.Stream()));
            if rc == ERROR_IO then NoFail(old(p.plan)) ==> h.Starved?
            else h.Head? && Took(old(p.Stream()), |h.bytes|, p.Stream()) && (rc == RC_OK <==> h.known)
                 && |h.bytes| <= TCP_ROOM
                 && dst[..] == Splice(old(dst[..]), 0, h.bytes)
  {
    hide Splice, Took, EndOf, Get16, Get32, NoFail, Length, TcpType, U16_SIZE, U32_SIZE;
    ghost var was, all := dst[..], p.Stream();
    rc := p.ControlRead(TCP_HEADER, dst, 0);
    if rc != RC_OK {
      return;
    }
    TakenFront(all, TCP_HEADER, p.Stream());
    SplicedFront(was, all[..TCP_HEADER]);
    TcpHeadParts(all, dst[..]);
    var length, kind := Length(dst[..]), TcpType(dst[..]);
    if kind == 2 || kind == 5 || kind == TCP_RESP || kind == TCP_START {
      if length > TCP_HEADER {
        rc := p.ControlReadOn(length - TCP_HEADER, dst, TCP_HEADER, was, all);
        if rc == RC_OK { TakenFront(all, length, p.Stream()); }
      }
    } else if kind == TCP_DATA || kind == TCP_END {
      rc := p.ControlReadOn(4, dst, TCP_HEADER, was, all);
      if rc == RC_OK { TakenFront(all, TCP_HEADER + 4, p.Stream()); }
    } else {
      rc := ERROR_BADPARAM;
    }
  }

  /** A structure that starts with the bytes read has their fields. */
  lemma ReadFields(was: seq<byte>, b: seq<byte>)
    requires TCP_HEADER <= |b| <= |was|
    ensures var full := Splice(was, 0, b);
            Length(full) == Length(b) && TcpType(full) == TcpType(b) && full == b + was[|b|..]
              && (|b| >= 20 ==> TcpTotal(full) == TcpTotal(b))
  {
    SplicedFront(was, b);
    assert forall k :: 0 <= k < |b| ==> Splice(was, 0, b)[k] == b[k];
  }

  lemma FlattenMore(blocks: seq<seq<byte>>, b: seq<byte>)
    ensures Flatten(blocks + [b]) == Flatten(blocks) + b
  {
    FlattenSplit(blocks, [b]);
    FlattenOne(b);
  }

  /** Some bytes of the stream behind those that were pending: full blocks, and what fills the next one so far. */
  ghost predicate Fed(pend: seq<byte>, all: seq<byte>, done: nat, added: seq<seq<byte>>, filled: seq<byte>,
                      block: nat) {
    done <= |all| && AllFull(added, block) && Flatten(added) + filled == pend + all[..done]
  }

  lemma NothingFed(pend: seq<byte>, all: seq<byte>, block: nat)
    ensures Fed(pend, all, 0, [], pend, block)
  {
  }

  /** A piece read behind what is pending in the block buffer. */
  lemma PieceFed(pend: seq<byte>, all: seq<byte>, done: nat, added: seq<seq<byte>>, held: seq<byte>, fill: nat,
                 left: seq<byte>, size: nat, block: nat)
    requires fill + size <= |held| && Took(all, done, left) && size <= |left|
    requires Fed(pend, all, done, added, held[..fill], block)
    ensures Fed(pend, all, done + size, added, Splice(held, fill, left[..size])[..fill + size], block)
  {
    hide Flatten, AllFull;
    assert Splice(held, fill, left[..size])[..fill + size] == held[..fill] + left[..size];
    assert all[..done] + left[..size] == all[..done + size];
    assert pend + (all[..done] + left[..size]) == pend + all[..done] + left[..size];
  }

  lemma BlockFed(pend: seq<byte>, all: seq<byte>, done: nat, added: seq<seq<byte>>, b: seq<byte>, block: nat)
    requires Fed(pend, all, done, added, b, block) && |b| == block
    ensures Fed(pend, all, done, added + [b], [], block)
  {
    hide Flatten;
    FlattenMore(added, b);
    assert Flatten(added + [b]) + [] == Flatten(added + [b]);
  }

  lemma FedFront(pend: seq<byte>, all: seq<byte>, done: nat, n: nat, added: seq<seq<byte>>, filled: seq<byte>,
                 block: nat)
    requires Fed(pend, all, done, added, filled, block) && done <= n
    ensures AllFull(added, block) && (n <= |all| ==> Flatten(added) <= pend + all[..n])
  {
    hide Flatten, AllFull;
    if n <= |all| {
      assert Flatten(added) + filled <= pend + all[..n];
    }
  }

  /**
   The loop of ptp_tcp_getdata over one packet: its n bytes are added to what is pending in the
   block buffer, and every time the buffer is full it goes to the handler.
   */
  method TcpFeedPacket(p: Port, h: Handler, buf: array<byte>, pending: nat, n: nat) returns (rc: int, fill: nat)
    requires p.Valid() && pending < buf.Length && buf != p.data
    modifies p`pos, p`len, p`incoming, p`plan, p`asked, p.data, buf, h
    ensures p.Valid()
    ensures NoFail(old(p.plan)) ==> NoFail(p.plan)
    ensures old(h.blocks) <= h.blocks && AllFull(h.blocks[|old(h.blocks)|..], buf.Length)
    ensures var all, pend := old(p.Stream()), old(buf[..pending]);
            var from, to := |old(h.blocks)|, |h.blocks|;
            if Agreed(h.verdict, from, to) then
              && (rc == RC_OK || rc == ERROR_IO)
              && (rc == RC_OK ==> Took(all, n, p.Stream()) && fill < buf.Length
                                  && Flatten(h.blocks[from..]) + buf[..fill] == pend + all[..n])
              && (NoFail(old(p.plan)) && rc == ERROR_IO ==> |all| < n)
            else
              Refused(h.verdict, from, to) && rc == h.verdict(to - 1)
    ensures var all, pend := old(p.Stream()), old(buf[..pending]);
            n <= |all| ==> Flatten(h.blocks[|old(h.blocks)|..]) <= pend + all[..n]
  {
    hide Splice, Took, EndOf, NoFail, Fed, Agreed, Refused, U16_SIZE, U32_SIZE;
    ghost var all, was, from, pend := p.Stream(), h.blocks, |h.blocks|, buf[..pending];
    ghost var added: seq<seq<byte>> := [];
    var done := 0;
    fill := pending;
    rc := RC_OK;
    TookNone(all);
    NothingFed(pend, all, buf.Length);
    NoVerdict(h.verdict, from);
    while done < n
      invariant p.Valid() && done <= n && fill < buf.Length && rc == RC_OK
      invariant NoFail(old(p.plan)) ==> NoFail(p.plan)
      invariant h.blocks == was + added && Agreed(h.verdict, from, |h.blocks|)
      invariant Took(all, done, p.Stream())
      invariant Fed(pend, all, done, added, buf[..fill], buf.Length)
    {
      var blockLeft, packetLeft := buf.Length - fill, n - done;
      var size: nat := if blockLeft < packetLeft then blockLeft else packetLeft;
      ghost var left, held := p.Stream(), buf[..];
      rc := p.TcpReadData(size, buf, fill);
      TookNone(left);
      if rc != RC_OK {
        TookMore(all, done, left, 0, left);
        assert h.blocks[from..] == added;
        FedFront(pend, all, done, n, added, held[..fill], buf.Length);
        return;
      }
      TookMore(all, done, left, size, p.Stream());
      PieceFed(pend, all, done, added, held, fill, left, size, buf.Length);
      done := done + size;
      fill := fill + size;
      if fill == buf.Length {
        ghost var b := buf[..fill];
        OneVerdictMore(h.verdict, from, |h.blocks|);
        rc := h.Take(buf.Length, buf);
        BlockFed(pend, all, done, added, b, buf.Length);
        added := added + [b];
        assert h.blocks == was + added && h.blocks[from..] == added;
        if rc != RC_OK {
          FedFront(pend, all, done, n, added, [], buf.Length);
          return;
        }
        fill := 0;
      }
    }
    assert h.blocks[from..] == added;
    FedFront(pend, all, n, n, added, buf[..fill], buf.Length);
    FedAll(pend, all, n, added, buf[..fill], buf.Length);
  }

  lemma FedAll(pend: seq<byte>, all: seq<byte>, n: nat, added: seq<seq<byte>>, filled: seq<byte>, block: nat)
    requires Fed(pend, all, n, added, filled, block)
    ensures n <= |all| && Flatten(added) + filled == pend + all[..n]
  {
  }

  /**
   What the container structure and the buffer for the data can take: no packet that is read whole is
   longer than the structure, and no more data comes than the buffer holds, if there is one.
   */
  predicate TcpOrderly(s: seq<byte>, total: nat, had: nat, ended: bool, cap: Option<nat>)
    decreases |s|
  {
    && TcpFits(s)
    && match TcpHead(s)
       case Starved => true
       case Head(b, known) =>
         var n, rest, last := TcpLoad(b), s[|b|..], ended || TcpType(b) == TCP_END;
         known && (TcpType(b) == TCP_DATA || TcpType(b) == TCP_END) ==>
           && (cap.Some? ==> had + n <= cap.value)
           && (n <= |rest| ==> if had + n < total then TcpOrderly(rest[n..], total, had + n, last, cap)
                               else last || TcpFits(rest[n..]))
  }

  /** What remains to be read after a packet. */
  function TcpAfter(s: seq<byte>, total: nat, got: seq<byte>, ended: bool): Phase {
    if |got| < total then TcpPackets(s, total, got, ended) else if ended then Got(got, s) else TcpEnd(s, got)
  }

  predicate OrderlyAfter(s: seq<byte>, total: nat, had: nat, ended: bool, cap: Option<nat>) {
    if had < total then TcpOrderly(s, total, had, ended, cap) else ended || TcpFits(s)
  }

  lemma PacketsFrom(s: seq<byte>, total: nat, got: seq<byte>, ended: bool, cap: Option<nat>, b: seq<byte>,
                    rest: seq<byte>)
    requires TcpHead(s).Head? && TcpHead(s).bytes == b && rest == s[|b|..] && TcpOrderly(s, total, |got|, ended, cap)
    ensures var phase, last := TcpPackets(s, total, got, ended), ended || TcpType(b) == TCP_END;
            if !TcpHead(s).known then phase == Stop(ERROR_BADPARAM, rest, got)
            else if TcpType(b) != TCP_DATA && TcpType(b) != TCP_END then phase == Stop(ERROR_DATA_EXPECTED, rest, got)
            else
              && (cap.Some? ==> |got| + TcpLoad(b) <= cap.value)
              && if |rest| < TcpLoad(b) then phase == Dry
                 else phase == TcpAfter(rest[TcpLoad(b)..], total, got + rest[..TcpLoad(b)], last)
                      && OrderlyAfter(rest[TcpLoad(b)..], total, |got| + TcpLoad(b), last, cap)
  {
    hide TcpHead, TcpType, TcpLoad, TcpFits;
  }

  /** The data of a phase begins with what has been read so far, and all of it is at least what was announced. */
  lemma {:induction false} DataBegins(s: seq<byte>, total: nat, got: seq<byte>, ended: bool)
    ensures var phase := TcpPackets(s, total, got, ended);
            (!phase.Dry? ==> got <= DataOf(phase)) && (phase.Got? ==> |phase.payload| >= total)
    decreases |s|
  {
    hide TcpType, TcpLoad;
    if TcpHead(s).Head? {
      var b := TcpHead(s).bytes;
      var rest, n := s[|b|..], TcpLoad(b);
      if n <= |rest| && |got| + n < total {
        DataBegins(rest[n..], total, got + rest[..n], ended || TcpType(b) == TCP_END);
      }
    }
  }

  lemma DataGoesOn(s: seq<byte>, total: nat, got: seq<byte>, ended: bool)
    ensures var phase := TcpAfter(s, total, got, ended); !phase.Dry? ==> got <= DataOf(phase)
  {
    hide TcpPackets, TcpHead;
    if |got| < total { DataBegins(s, total, got, ended); } else { EndKeeps(s, got); }
  }

  lemma EndKeeps(s: seq<byte>, got: seq<byte>)
    ensures !TcpEnd(s, got).Dry? ==> DataOf(TcpEnd(s, got)) == got
  {
    hide TcpHead, TcpType;
  }

  /** The size of the buffer for the data, if there is one. */
  function Cap(h: Handler?, size: nat): Option<nat> { if h == null then Some(size) else None }

  /**
   The data read so far: blocks handed over and the pending one, or the front of the buffer, which
   still holds what it held before behind it.
   */
  ghost predicate Held(h: Handler?, from: nat, before: seq<byte>, buf: seq<byte>, fill: nat, got: seq<byte>)
    reads h
  {
    if h != null then
      && from <= |h.blocks| && Agreed(h.verdict, from, |h.blocks|) && AllFull(h.blocks[from..], |buf|)
      && fill < |buf| && Flatten(h.blocks[from..]) + buf[..fill] == got
    else fill == |got| <= |buf| == |before| && buf == got + before[fill..]
  }

  /** A handler that has just refused a block. */
  ghost predicate Balked(h: Handler?, from: nat, rc: int)
    reads h
  {
    h != null && from <= |h.blocks| && Refused(h.verdict, from, |h.blocks|) && rc == h.verdict(|h.blocks| - 1)
  }

  /** Whatever becomes of a data phase, a handler has been given front blocks of its data. */
  ghost predicate InFront(h: Handler?, from: nat, block: nat, phase: Phase)
    reads h
  {
    h != null && !phase.Dry? ==> block > 0 && from <= |h.blocks| && h.blocks[from..] <= Cut(DataOf(phase), block)
  }

  lemma FullFront(added: seq<seq<byte>>, block: nat, payload: seq<byte>)
    requires block > 0 && AllFull(added, block) && Flatten(added) <= payload
    ensures added <= Cut(payload, block)
  {
    var more := payload[|Flatten(added)|..];
    assert payload == Flatten(added) + more;
    CutFront(added, more, block);
  }

  /** No verdict since the first block of this phase was unfavourable. */
  ghost predicate Content(h: Handler?, from: nat)
    reads h
  {
    h != null ==> from <= |h.blocks| && Agreed(h.verdict, from, |h.blocks|)
  }

  lemma FlattenOn(a: seq<seq<byte>>, b: seq<seq<byte>>, tail: seq<byte>)
    ensures Flatten(a + b) + tail == Flatten(a) + (Flatten(b) + tail)
  {
    FlattenSplit(a, b);
  }

  /** The data of one packet, in either mode. */
  method TcpReadPayload(p: Port, h: Handler?, ghost from: nat, ghost before: seq<byte>, buf: array<byte>, filled: nat,
                        n: nat, ghost got: seq<byte>)
    returns (rc: int, fill: nat)
    requires p.Valid() && buf != p.data && Held(h, from, before, buf[..], filled, got)
    requires h == null ==> filled + n <= buf.Length
    modifies p`pos, p`len, p`incoming, p`plan, p`asked, p.data, buf, h
    ensures p.Valid()
    ensures NoFail(old(p.plan)) ==> NoFail(p.plan)
    ensures h != null ==> old(h.blocks) <= h.blocks
    ensures rc == RC_OK ==> Took(old(p.Stream()), n, p.Stream())
                            && Held(h, from, before, buf[..], fill, got + old(p.Stream())[..n])
    ensures rc != RC_OK && Content(h, from) ==> rc == ERROR_IO && (NoFail(old(p.plan)) ==> |old(p.Stream())| < n)
    ensures !Content(h, from) ==> Balked(h, from, rc)
    ensures h != null ==> from <= |h.blocks| && AllFull(h.blocks[from..], buf.Length)
                          && (n <= |old(p.Stream())| ==> Flatten(h.blocks[from..]) <= got + old(p.Stream())[..n])
  {
    hide Splice, EndOf, NoFail, Flatten;
    ghost var all := p.Stream();
    if h != null {
      ghost var given, mid, pend := h.blocks[from..], |h.blocks|, buf[..filled];
      rc, fill := TcpFeedPacket(p, h, buf, filled, n);
      ghost var added := h.blocks[mid..];
      assert h.blocks[from..] == given + added;
      if n <= |all| { LongerPrefix(given, added, pend, got, all[..n]); }
      if rc == RC_OK {
        FlattenOn(given, added, buf[..fill]);
        assert Flatten(given) + (pend + all[..n]) == Flatten(given) + pend + all[..n];
      }
    } else {
      ghost var held := buf[..];
      rc := p.TcpReadData(n, buf, filled);
      fill := filled + n;
      if rc == RC_OK {
        SplicedOn(before, got, held, all[..n]);
      }
    }
  }

  lemma LongerPrefix(before: seq<seq<byte>>, added: seq<seq<byte>>, pend: seq<byte>, got: seq<byte>, piece: seq<byte>)
    requires Flatten(before) + pend == got && Flatten(added) <= pend + piece
    ensures Flatten(before + added) <= got + piece
  {
    FlattenSplit(before, added);
    hide Flatten;
    assert Flatten(before) + (pend + piece) == got + piece;
  }

  lemma SplicedOn(before: seq<byte>, got: seq<byte>, held: seq<byte>, piece: seq<byte>)
    requires |got| + |piece| <= |held| == |before| && held == got + before[|got|..]
    ensures Splice(held, |got|, piece) == (got + piece) + before[|got| + |piece|..]
  {
  }

  /** Wherever a packet is left, the handler has front blocks of whatever the phase yields. */
  lemma FrontInside(rest: seq<byte>, n: nat, total: nat, got: seq<byte>, last: bool, phase: Phase,
                    added: seq<seq<byte>>, block: nat)
    requires block > 0 && AllFull(added, block)
    requires if |rest| < n then phase == Dry else phase == TcpAfter(rest[n..], total, got + rest[..n], last)
    requires n <= |rest| ==> Flatten(added) <= got + rest[..n]
    ensures !phase.Dry? ==> added <= Cut(DataOf(phase), block)
  {
    hide TcpAfter;
    if !phase.Dry? {
      DataGoesOn(rest[n..], total, got + rest[..n], last);
      assert Flatten(added) <= DataOf(phase);
      FullFront(added, block, DataOf(phase));
    }
  }

  /** At the end of a packet the full blocks of the data so far have been handed over. */
  lemma HeldHanded(h: Handler?, from: nat, before: seq<byte>, buf: seq<byte>, fill: nat, got: seq<byte>)
    requires h != null && Held(h, from, before, buf, fill, got)
    ensures Handed(got, |buf|, h.blocks[from..])
  {
    hide Cut;
    CutUnique(got, |buf|, h.blocks[from..], buf[..fill]);
  }

  lemma HeldFacts(h: Handler?, from: nat, before: seq<byte>, buf: seq<byte>, fill: nat, got: seq<byte>)
    requires Held(h, from, before, buf, fill, got)
    ensures Content(h, from) && (h == null ==> fill == |got|) && (h != null ==> |buf| > 0)
  {
  }

  /** How far a data phase has come: it is what is still to be done with the rest of the stream. */
  ghost predicate Underway(phase: Phase, now: seq<byte>, total: nat, got: seq<byte>, ended: bool, cap: Option<nat>) {
    phase == TcpAfter(now, total, got, ended) && OrderlyAfter(now, total, |got|, ended, cap)
  }

  /** A data phase that has been given up: the stream says so, or a read failed, or the handler refused. */
  ghost predicate GivenUp(phase: Phase, rc: int, now: seq<byte>, sure: bool, h: Handler?, from: nat, block: nat)
    reads h
  {
    && InFront(h, from, block, phase)
    && if !Content(h, from) then Balked(h, from, rc)
       else if rc == ERROR_IO then sure ==> phase == Dry
       else phase.Stop? && phase.rc == rc && phase.rest == now
            && (h != null ==> block > 0 && Handed(phase.had, block, h.blocks[from..]))
  }

  lemma FailedBetween(phase: Phase, rc: int, now: seq<byte>, sure: bool, h: Handler?, from: nat,
                      before: seq<byte>, buf: seq<byte>, fill: nat, got: seq<byte>)
    requires Held(h, from, before, buf, fill, got) && (!phase.Dry? ==> got <= DataOf(phase))
    requires if rc == ERROR_IO then sure ==> phase.Dry? else phase == Stop(rc, now, got)
    ensures GivenUp(phase, rc, now, sure, h, from, |buf|)
  {
    hide Cut, Flatten, AllFull, Handed;
    if h != null {
      HeldHanded(h, from, before, buf, fill, got);
      if !phase.Dry? { FullFront(h.blocks[from..], |buf|, DataOf(phase)); }
    }
  }

  lemma FailedInside(phase: Phase, rc: int, now: seq<byte>, sure: bool, h: Handler?, from: nat, rest: seq<byte>, n: nat,
                     total: nat, got: seq<byte>, last: bool, cap: Option<nat>, block: nat)
    requires if |rest| < n then phase == Dry else Underway(phase, rest[n..], total, got + rest[..n], last, cap)
    requires if Content(h, from) then rc == ERROR_IO && (sure ==> |rest| < n) else Balked(h, from, rc)
    requires h != null ==> block > 0 && from <= |h.blocks| && AllFull(h.blocks[from..], block)
                           && (n <= |rest| ==> Flatten(h.blocks[from..]) <= got + rest[..n])
    ensures GivenUp(phase, rc, now, sure, h, from, block)
  {
    hide Cut, Flatten, AllFull, TcpAfter, OrderlyAfter, Handed, Agreed, Refused;
    if h != null { FrontInside(rest, n, total, got, last, phase, h.blocks[from..], block); }
  }

  /** The header of a DATA or END_DATA packet, and the size of its data. */
  method TcpNextHeader(p: Port, pkt: array<byte>, hadEnd: bool, ghost total: nat, ghost got: seq<byte>,
                       ghost cap: Option<nat>)
    returns (rc: int, ended: bool, n: nat)
    requires p.Valid() && pkt != p.data && pkt.Length == TCP_ROOM && TcpOrderly(p.Stream(), total, |got|, hadEnd, cap)
    modifies p`pos, p`len, p`incoming, p`plan, p`asked, p.data, pkt
    ensures p.Valid()
    ensures NoFail(old(p.plan)) ==> NoFail(p.plan)
    ensures var s, rest := old(p.Stream()), p.Stream();
            var phase := TcpPackets(s, total, got, hadEnd);
            if rc == RC_OK then
              && |s| >= TCP_HEADER + 4 && rest == s[TCP_HEADER + 4..] && (cap.Some? ==> |got| + n <= cap.value)
              && if |rest| < n then phase == Dry else Underway(phase, rest[n..], total, got + rest[..n], ended, cap)
            else if rc == ERROR_IO then NoFail(old(p.plan)) ==> phase.Dry?
            else phase == Stop(rc, rest, got)
  {
    hide Splice, NoFail, Get16, Get32, TcpHead, TcpType, TcpLoad, Length, TcpPackets, TcpOrderly, U16_SIZE, U32_SIZE,
      TcpAfter, OrderlyAfter;
    ghost var s, head, held := p.Stream(), TcpHead(p.Stream()), pkt[..];
    OrderlyFits(s, total, |got|, hadEnd, cap);
    ended, n := hadEnd, 0;
    rc := TcpReadControl(p, pkt);
    if head.Starved? {
      DryPackets(s, total, got, hadEnd);
    } else {
      PacketsFrom(s, total, got, hadEnd, cap, head.bytes, s[|head.bytes|..]);
    }
    if rc != RC_OK {
      return;
    }
    ReadFields(held, head.bytes);
    if TcpType(pkt[..]) == TCP_END {
      ended := true;
    } else if TcpType(pkt[..]) != TCP_DATA {
      rc := ERROR_DATA_EXPECTED;
      return;
    }
    n := TcpLoad(pkt[..]);
    SameLoad(pkt[..], head.bytes);
    HeadOfPiece(s);
  }

  /** One round of the loop of ptp_tcp_getdata: a DATA or END_DATA packet, in either mode. */
  method TcpNextPacket(p: Port, h: Handler?, ghost from: nat, ghost before: seq<byte>, buf: array<byte>,
                       pkt: array<byte>, filled: nat, ghost total: nat, ghost got: seq<byte>, hadEnd: bool)
    returns (rc: int, ended: bool, fill: nat, n: nat)
    requires p.Valid() && buf != p.data && pkt != p.data && pkt != buf && pkt.Length == TCP_ROOM
    requires Held(h, from, before, buf[..], filled, got)
    requires TcpOrderly(p.Stream(), total, |got|, hadEnd, Cap(h, buf.Length))
    modifies p`pos, p`len, p`incoming, p`plan, p`asked, p.data, buf, pkt, h
    ensures p.Valid()
    ensures NoFail(old(p.plan)) ==> NoFail(p.plan)
    ensures h != null ==> old(h.blocks) <= h.blocks
    ensures var phase := TcpPackets(old(p.Stream()), total, got, hadEnd);
            && (rc == RC_OK ==> TCP_HEADER + 4 + n <= |old(p.Stream())| && |p.Stream()| < |old(p.Stream())|
                                && var more := old(p.Stream())[TCP_HEADER + 4..][..n];
                                   && Held(h, from, before, buf[..], fill, got + more)
                                   && Underway(phase, p.Stream(), total, got + more, ended, Cap(h, buf.Length)))
            && (rc != RC_OK ==> GivenUp(phase, rc, p.Stream(), NoFail(old(p.plan)), h, from, buf.Length))
  {
    hide NoFail, Flatten, TcpPackets, TcpOrderly, Held, AllFull, U16_SIZE, U32_SIZE, Underway, GivenUp, Agreed, Refused,
      Cut, DataOf, Content, Balked, InFront, Handed;
    HeldFacts(h, from, before, buf[..], filled, got);
    ghost var sure, cap := NoFail(p.plan), Cap(h, buf.Length);
    ghost var phase := TcpPackets(p.Stream(), total, got, hadEnd);
    DataBegins(p.Stream(), total, got, hadEnd);
    fill := filled;
    rc, ended, n := TcpNextHeader(p, pkt, hadEnd, total, got, cap);
    ghost var rest := p.Stream();
    if rc != RC_OK {
      FailedBetween(phase, rc, rest, sure, h, from, before, buf[..], filled, got);
      return;
    }
    rc, fill := TcpReadPayload(p, h, from, before, buf, filled, n, got);
    if rc != RC_OK {
      FailedInside(phase, rc, p.Stream(), sure, h, from, rest, n, total, got, ended, cap, buf.Length);
    }
  }

  lemma HeadOfPiece(s: seq<byte>)
    requires TcpHead(s).Head? && (TcpType(TcpHead(s).bytes) == TCP_DATA || TcpType(TcpHead(s).bytes) == TCP_END)
    ensures |TcpHead(s).bytes| == TCP_HEADER + 4
  {
    hide Get16, Get32;
    TcpHeadParts(s, TcpHead(s).bytes);
  }

  /** The loop of ptp_tcp_getdata over the packets, in either mode; it makes at least one round. */
  method TcpReadPackets(p: Port, h: Handler?, ghost from: nat, buf: array<byte>, total: nat)
    returns (rc: int, ended: bool, fill: nat, ghost got: seq<byte>)
    requires p.Valid() && buf != p.data && Held(h, from, buf[..], buf[..], 0, [])
    requires TcpOrderly(p.Stream(), total, 0, false, Cap(h, buf.Length))
    modifies p`pos, p`len, p`incoming, p`plan, p`asked, p.data, buf, h
    ensures p.Valid()
    ensures NoFail(old(p.plan)) ==> NoFail(p.plan)
    ensures h != null ==> old(h.blocks) <= h.blocks
    ensures var phase := TcpPackets(old(p.Stream()), total, [], false);
            if rc == RC_OK then
              && Held(h, from, old(buf[..]), buf[..], fill, got) && |got| >= total
              && Underway(phase, p.Stream(), total, got, ended, Cap(h, buf.Length))
            else GivenUp(phase, rc, p.Stream(), NoFail(old(p.plan)), h, from, buf.Length)
  {
    hide NoFail, Flatten, TcpPackets, TcpOrderly, Held, Balked, TcpHead, TcpType, U16_SIZE, U32_SIZE, TcpFits, AllFull,
      Agreed, GivenUp, Cap;
    ghost var phase, before := TcpPackets(p.Stream(), total, [], false), buf[..];
    var pkt := new byte[TCP_ROOM];
    var totalRead := 0;
    ended, fill, got := false, 0, [];
    while true
      invariant p.Valid() && Held(h, from, before, buf[..], fill, got) && totalRead == |got| && pkt != p.data
                && pkt != buf
      invariant h != null ==> old(h.blocks) <= h.blocks
      invariant NoFail(old(p.plan)) ==> NoFail(p.plan)
      invariant phase == TcpPackets(p.Stream(), total, got, ended)
      invariant TcpOrderly(p.Stream(), total, |got|, ended, Cap(h, buf.Length))
      decreases |p.Stream()|
    {
      ghost var s, sure := p.Stream(), NoFail(p.plan);
      var n;
      rc, ended, fill, n := TcpNextPacket(p, h, from, before, buf, pkt, fill, total, got, ended);
      if rc != RC_OK {
        StillGivenUp(phase, rc, p.Stream(), sure, NoFail(old(p.plan)), h, from, buf.Length);
        return;
      }
      got := got + s[TCP_HEADER + 4..][..n];
      totalRead := totalRead + n;
      if totalRead >= total { break; }
    }
  }

  lemma StillGivenUp(phase: Phase, rc: int, now: seq<byte>, sure: bool, less: bool, h: Handler?, from: nat, block: nat)
    requires GivenUp(phase, rc, now, sure, h, from, block) && (less ==> sure)
    ensures GivenUp(phase, rc, now, less, h, from, block)
  {
    hide InFront, Handed, Balked, Content;
  }

  lemma SameLoad(a: seq<byte>, b: seq<byte>)
    requires |a| >= 4 && |b| >= 4 && Length(a) == Length(b)
    ensures TcpLoad(a) == TcpLoad(b)
  {
  }

  lemma OrderlyFits(s: seq<byte>, total: nat, had: nat, ended: bool, cap: Option<nat>)
    requires TcpOrderly(s, total, had, ended, cap)
    ensures TcpFits(s)
  {
  }

  lemma DryPackets(s: seq<byte>, total: nat, got: seq<byte>, ended: bool)
    requires TcpHead(s).Starved?
    ensures TcpPackets(s, total, got, ended) == Dry
  {
  }

  /** The size of the buffer for data of which so much is announced. */
  function CapOf(room: Room, total: nat): Option<nat> {
    match room
    case Blocks => None
    case Fresh => Some(total)
    case Buffer(size) => Some(size)
  }

  /** A data phase that the container structure and the buffer can take. */
  predicate TcpSafe(s: seq<byte>, room: Room) {
    && TcpStarts(s)
    && (TcpHead(s).Head? && TcpHead(s).known && TcpType(TcpHead(s).bytes) == TCP_START ==>
          var b := TcpHead(s).bytes;
          |b| >= 20 && TcpOrderly(s[|b|..], TcpTotal(b), 0, false, CapOf(room, TcpTotal(b))))
  }

  /** The size that a START_DATA packet announces. */
  function TcpAnnounced(s: seq<byte>): Option<nat> {
    match TcpHead(s)
    case Starved => None
    case Head(b, known) => if known && TcpType(b) == TCP_START && |b| >= 20 then Some(TcpTotal(b)) else None
  }

  lemma AnnouncedFrom(s: seq<byte>)
    ensures TcpHead(s).Starved? ==> TcpAnnounced(s) == None
    ensures TcpHead(s).Head? ==>
              var b := TcpHead(s).bytes;
              TcpAnnounced(s)
              == if TcpHead(s).known && TcpType(b) == TCP_START && |b| >= 20 then Some(TcpTotal(b)) else None
  {
    hide TcpHead, TcpType, TcpTotal;
  }

  /** Data that comes is at least what was announced, and all of it if there is room for no more. */
  lemma AnnouncedOfGot(s: seq<byte>, room: Room)
    requires TcpSafe(s, room) && TcpPhase(s).Got?
    ensures TcpAnnounced(s).Some? && TcpAnnounced(s).value <= |TcpPhase(s).payload|
  {
    hide TcpHead, TcpType, TcpTotal, TcpPackets, TcpSafe, TcpPhase, TcpAnnounced, TcpOrderly;
    TcpPhaseFrom(s, room);
    AnnouncedFrom(s);
    var b := TcpHead(s).bytes;
    DataBegins(s[|b|..], TcpTotal(b), [], false);
  }

  lemma TcpPhaseFrom(s: seq<byte>, room: Room)
    requires TcpSafe(s, room)
    ensures TcpStarts(s) && TcpFits(s)
    ensures TcpHead(s).Starved? ==> TcpPhase(s) == Dry
    ensures TcpHead(s).Head? ==>
              var b := TcpHead(s).bytes;
              var rest := s[|b|..];
              if !TcpHead(s).known then TcpPhase(s) == Stop(ERROR_BADPARAM, rest, [])
              else if TcpType(b) != TCP_START then TcpPhase(s) == Stop(ERROR_DATA_EXPECTED, rest, [])
              else |b| >= 20 && TcpPhase(s) == TcpPackets(rest, TcpTotal(b), [], false)
                   && TcpOrderly(rest, TcpTotal(b), 0, false, CapOf(room, TcpTotal(b)))
  {
    hide TcpPackets, TcpOrderly, TcpTotal, CapOf;
  }

  /** The END_DATA packet, if it has not come with the last data. */
  method TcpReadEnd(p: Port, pkt: array<byte>, ended: bool, ghost phase: Phase, ghost total: nat, ghost got: seq<byte>,
                    ghost cap: Option<nat>)
    returns (rc: int)
    requires p.Valid() && pkt != p.data && pkt.Length == TCP_ROOM
    requires Underway(phase, p.Stream(), total, got, ended, cap) && |got| >= total
    modifies p`pos, p`len, p`incoming, p`plan, p`asked, p.data, pkt
    ensures p.Valid()
    ensures NoFail(old(p.plan)) ==> NoFail(p.plan)
    ensures Buffered(phase, NoFail(old(p.plan)) && !phase.Dry?, rc, p.Stream(), None, Some(got))
  {
    hide Splice, NoFail, Get16, Get32, TcpHead, TcpType, TcpPackets, TcpOrderly, Length, TcpLoad, TcpTotal;
    rc := RC_OK;
    if !ended {
      ghost var s, head, held := p.Stream(), TcpHead(p.Stream()), pkt[..];
      rc := TcpReadControl(p, pkt);
      if rc != RC_OK {
        return;
      }
      ReadFields(held, head.bytes);
      if TcpType(pkt[..]) != TCP_END {
        return ERROR_DATA_EXPECTED;
      }
    }
  }

  /** Once enough has been read, that is the data. */
  lemma EnoughRead(phase: Phase, now: seq<byte>, total: nat, got: seq<byte>, ended: bool, cap: Option<nat>)
    requires Underway(phase, now, total, got, ended, cap) && |got| >= total
    ensures !phase.Dry? ==> DataOf(phase) == got
  {
    hide TcpHead, TcpPackets, TcpOrderly;
    EndKeeps(now, got);
  }

  /** After the last, shorter block the handler has been given the cut of the data. */
  lemma Flushed(full: seq<seq<byte>>, last: seq<byte>, got: seq<byte>, block: nat)
    requires AllFull(full, block) && |last| < block && Flatten(full) + last == got
    ensures (if last == [] then full else full + [last]) == Cut(got, block)
  {
    CutUnique(got, block, full, last);
    assert full + [] == full;
  }

  /** The final partial block goes to the handler. */
  method TcpFlush(h: Handler, ghost from: nat, ghost before: seq<byte>, buf: array<byte>, fill: nat,
                  ghost got: seq<byte>)
    returns (rc: int)
    requires Held(h, from, before, buf[..], fill, got)
    modifies h
    ensures old(h.blocks) <= h.blocks && h.blocks[from..] == Cut(got, buf.Length)
    ensures if rc == RC_OK then Content(h, from)
            else Refused(h.verdict, from, |h.blocks|) && rc == h.verdict(|h.blocks| - 1)
  {
    hide Flatten, AllFull, Cut;
    ghost var full := h.blocks[from..];
    Flushed(full, buf[..fill], got, buf.Length);
    rc := RC_OK;
    if fill > 0 {
      rc := h.Take(fill, buf);
      assert h.blocks[from..] == full + [buf[..fill]];
    }
  }

  /** ptp_tcp_getdata behind the START_DATA packet. */
  method TcpReadBody(p: Port, h: Handler?, ghost from: nat, buf: array<byte>, pkt: array<byte>, total: nat)
    returns (rc: int)
    requires p.Valid() && buf != p.data && pkt != p.data && pkt != buf && pkt.Length == TCP_ROOM
    requires Held(h, from, buf[..], buf[..], 0, [])
    requires TcpOrderly(p.Stream(), total, 0, false, Cap(h, buf.Length))
    modifies p`pos, p`len, p`incoming, p`plan, p`asked, p.data, buf, pkt, h
    ensures p.Valid()
    ensures NoFail(old(p.plan)) ==> NoFail(p.plan)
    ensures h != null ==> old(h.blocks) <= h.blocks && buf.Length > 0 && from <= |h.blocks|
    ensures var phase := TcpPackets(old(p.Stream()), total, [], false);
            var sure := NoFail(old(p.plan)) && !phase.Dry?;
            if h == null then Buffered(phase, sure, rc, p.Stream(), Some(old(buf[..])), Some(buf[..]))
            else Blocked(phase, sure, rc, p.Stream(), buf.Length, h.verdict, from, h.blocks[from..])
  {
    hide NoFail, Flatten, Cut, TcpPackets, TcpOrderly, AllFull, Underway, TcpHead, TcpFits, U16_SIZE, U32_SIZE, Handed,
      Agreed, Refused, Filled, Held, Buffered, Blocked, GivenUp, Content, Cap;
    ghost var phase, before := TcpPackets(p.Stream(), total, [], false), buf[..];
    ghost var sure := NoFail(p.plan) && !phase.Dry?;
    var ended, fill;
    ghost var got;
    HeldFacts(h, from, before, buf[..], 0, []);
    rc, ended, fill, got := TcpReadPackets(p, h, from, buf, total);
    if rc != RC_OK {
      EndGivenUp(phase, rc, p.Stream(), NoFail(old(p.plan)), h, from, before, buf[..]);
      return;
    }
    HeldFacts(h, from, before, buf[..], fill, got);
    EnoughRead(phase, p.Stream(), total, got, ended, Cap(h, buf.Length));
    ghost var mid := p.Stream();
    if h != null {
      rc := TcpFlush(h, from, before, buf, fill, got);
      if rc != RC_OK {
        EndRefused(phase, sure, rc, mid, h, from, buf.Length, got);
        return;
      }
    }
    ghost var still := NoFail(p.plan) && !phase.Dry?;
    rc := TcpReadEnd(p, pkt, ended, phase, total, got, Cap(h, buf.Length));
    if h != null {
      EndBlocked(phase, sure, still, rc, p.Stream(), h, from, buf.Length, got);
    } else {
      EndBuffered(phase, sure, still, rc, p.Stream(), h, from, before, buf[..], fill, got);
    }
  }

  lemma EndGivenUp(phase: Phase, rc: int, now: seq<byte>, sure: bool, h: Handler?, from: nat, before: seq<byte>,
                   buf: seq<byte>)
    requires GivenUp(phase, rc, now, sure, h, from, |buf|) && rc != RC_OK
             && (h != null ==> |buf| > 0 && from <= |h.blocks|)
    ensures if h == null then Buffered(phase, sure && !phase.Dry?, rc, now, Some(before), Some(buf))
            else Blocked(phase, sure && !phase.Dry?, rc, now, |buf|, h.verdict, from, h.blocks[from..])
  {
    hide Cut, Handed, Filled, Agreed, DataOf;
  }

  lemma EndRefused(phase: Phase, sure: bool, rc: int, now: seq<byte>, h: Handler, from: nat, block: nat, got: seq<byte>)
    requires block > 0 && from <= |h.blocks| && Refused(h.verdict, from, |h.blocks|) && rc == h.verdict(|h.blocks| - 1)
    requires h.blocks[from..] == Cut(got, block) && (!phase.Dry? ==> DataOf(phase) == got)
    ensures Blocked(phase, sure, rc, now, block, h.verdict, from, h.blocks[from..])
  {
    hide Cut, Handed;
  }

  lemma EndBlocked(phase: Phase, sure: bool, more: bool, rc: int, now: seq<byte>, h: Handler, from: nat, block: nat,
                   got: seq<byte>)
    requires block > 0 && Content(h, from) && h.blocks[from..] == Cut(got, block)
             && (!phase.Dry? ==> DataOf(phase) == got)
    requires Buffered(phase, more, rc, now, None, Some(got)) && (sure ==> more)
    ensures Blocked(phase, sure, rc, now, block, h.verdict, from, h.blocks[from..])
  {
    hide Cut, Agreed;
  }

  lemma EndBuffered(phase: Phase, sure: bool, more: bool, rc: int, now: seq<byte>, h: Handler?, from: nat,
                    before: seq<byte>, buf: seq<byte>, fill: nat, got: seq<byte>)
    requires h == null && Held(h, from, before, buf, fill, got) && Buffered(phase, more, rc, now, None, Some(got))
             && (sure ==> more)
    ensures Buffered(phase, sure, rc, now, Some(before), Some(buf))
  {
  }

  /** A buffer allocated for the announced data is filled by it. */
  lemma IntoBuffer(phase: Phase, sure: bool, rc: int, now: seq<byte>, before: Option<seq<byte>>, held: seq<byte>,
                   buf: seq<byte>)
    requires Buffered(phase, sure, rc, now, Some(held), Some(buf)) && |buf| == |held|
    requires if before.Some? then held == before.value else phase.Got? ==> |phase.payload| >= |held|
    ensures Buffered(phase, sure, rc, now, before, Some(buf))
  {
    if phase.Got? && before.None? { FilledWhole(held, phase.payload); }
  }

  lemma NothingHeld(h: Handler?, from: nat, buf: seq<byte>)
    requires h != null ==> from == |h.blocks| && |buf| > 0
    ensures Held(h, from, buf, buf, 0, [])
  {
  }

  /** ptp_tcp_getdata behind the START_DATA packet, with the buffer still to be chosen. */
  method TcpReadRest(p: Port, gd: GetData, pkt: array<byte>, total: nat) returns (rc: int)
    requires p.Valid() && gd.retData != p.data && pkt != p.data && pkt != gd.retData && pkt.Length == TCP_ROOM
    requires TcpOrderly(p.Stream(), total, 0, false, CapOf(RoomOf(gd), total))
    modifies p`pos, p`len, p`incoming, p`plan, p`asked, p.data, pkt, gd`retData, gd.retData, gd.handler
    ensures p.Valid()
    ensures NoFail(old(p.plan)) ==> NoFail(p.plan)
    ensures gd.retData == old(gd.retData) || (old(gd.retData) == null && fresh(gd.retData))
    ensures gd.handler != null ==> old(gd.handler.blocks) <= gd.handler.blocks && Returned(gd) == old(Returned(gd))
    ensures var phase := TcpPackets(old(p.Stream()), total, [], false);
            var sure := NoFail(old(p.plan)) && !phase.Dry?;
            if gd.handler == null then Buffered(phase, sure, rc, p.Stream(), old(Returned(gd)), Returned(gd))
            else Blocked(phase, sure, rc, p.Stream(), BlockSize(gd.blockSize),
                         gd.handler.verdict, |old(gd.handler.blocks)|, gd.handler.blocks[|old(gd.handler.blocks)|..])
  {
    hide NoFail, TcpPackets, TcpOrderly, Cut, AllFull, Flatten, BlockSize, Filled, Handed, Buffered, Blocked, Held,
      DataOf;
    ghost var phase, before := TcpPackets(p.Stream(), total, [], false), Returned(gd);
    ghost var from := if gd.handler == null then 0 else |gd.handler.blocks|;
    ghost var sure := NoFail(p.plan) && !phase.Dry?;
    var buf: array<byte>;
    if gd.handler != null {
      buf := new byte[BlockSize(gd.blockSize)];
    } else {
      if gd.retData == null {
        gd.retData := new byte[total];
      }
      buf := gd.retData;
    }
    NothingHeld(gd.handler, from, buf[..]);
    ghost var empty := buf[..];
    DataBegins(p.Stream(), total, [], false);
    rc := TcpReadBody(p, gd.handler, from, buf, pkt, total);
    if gd.handler == null {
      IntoBuffer(phase, sure, rc, p.Stream(), before, empty, buf[..]);
    }
  }

  /** ptp_tcp_getdata */
  method TcpGetData(p: Port, gd: GetData) returns (rc: int)
    requires p.Valid() && gd.retData != p.data && TcpSafe(p.Stream(), RoomOf(gd))
    modifies p`pos, p`len, p`incoming, p`plan, p`asked, p.data, gd`retData, gd`totalSize, gd.retData, gd.handler
    ensures p.Valid()
    ensures NoFail(old(p.plan)) ==> NoFail(p.plan)
    ensures gd.retData == old(gd.retData) || (old(gd.retData) == null && fresh(gd.retData))
    ensures gd.handler != null ==> old(gd.handler.blocks) <= gd.handler.blocks && Returned(gd) == old(Returned(gd))
    ensures var phase := TcpPhase(old(p.Stream()));
            var sure := NoFail(old(p.plan)) && !phase.Dry?;
            if gd.handler == null then Buffered(phase, sure, rc, p.Stream(), old(Returned(gd)), Returned(gd))
            else Blocked(phase, sure, rc, p.Stream(), BlockSize(gd.blockSize),
                         gd.handler.verdict, |old(gd.handler.blocks)|, gd.handler.blocks[|old(gd.handler.blocks)|..])
    ensures Told(TcpAnnounced(old(p.Stream())), NoFail(old(p.plan)), rc, old(gd.totalSize), gd.totalSize)
  {
    hide Splice, NoFail, TcpHead, TcpType, TcpPackets, TcpOrderly, Length, TcpTotal, TcpPhase, TcpSafe, TcpFits,
      BlockSize, U16_SIZE, U32_SIZE, Buffered, Blocked, Cut, TcpAnnounced;
    ghost var s, room, before, was := p.Stream(), RoomOf(gd), Returned(gd), p.plan;
    ghost var phase, head := TcpPhase(s), TcpHead(s);
    TcpPhaseFrom(s, room);
    AnnouncedFrom(s);
    ghost var from := if gd.handler == null then 0 else |gd.handler.blocks|;
    ghost var verdict := if gd.handler == null then _ => RC_OK else gd.handler.verdict;
    ghost var sure := NoFail(was) && !phase.Dry?;
    assert gd.handler != null ==> gd.handler.blocks[from..] == [];
    var pkt := new byte[TCP_ROOM];
    ghost var held := pkt[..];
    rc := TcpReadControl(p, pkt);
    if rc != RC_OK {
      StoppedEarly(phase, sure, rc, p.Stream(), before, before, BlockSize(gd.blockSize), verdict, from);
      return;
    }
    ReadFields(held, head.bytes);
    if TcpType(pkt[..]) != TCP_START {
      rc := ERROR_DATA_EXPECTED;
      StoppedEarly(phase, sure, rc, p.Stream(), before, before, BlockSize(gd.blockSize), verdict, from);
      return;
    }
    var total := TcpTotal(pkt[..]);
    gd.totalSize := total;
    ghost var still := NoFail(p.plan) && !phase.Dry?;
    rc := TcpReadRest(p, gd, pkt, total);
    if gd.handler == null {
      LessSure(phase, sure, still, rc, p.Stream(), before, Returned(gd), BlockSize(gd.blockSize), verdict, from, []);
    } else {
      LessSure(phase, sure, still, rc, p.Stream(), before, before, BlockSize(gd.blockSize), verdict, from,
               gd.handler.blocks[from..]);
    }
  }

  lemma TcpAnswerFrom(s: seq<byte>, code: nat, session: nat, b: seq<byte>, rest: seq<byte>)
    requires TcpFits(s) && TcpHead(s).Head? && TcpHead(s).bytes == b && rest == s[|b|..]
    ensures |b| <= TCP_ROOM
    ensures TcpAnswer(s, code, session) ==
            if !TcpHead(s).known then Answer(ERROR_BADPARAM, None, rest)
            else
              var reply := TcpReply(Padded(b, TCP_ROOM), session);
              var rc := if TcpType(b) != TCP_RESP then ERROR_RESP_EXPECTED
                        else if reply.code != code then reply.code else RC_OK;
              Answer(rc, Some(reply), rest)
  {
  }

  lemma TcpMissing(s: seq<byte>, code: nat, session: nat)
    requires TcpFits(s) && TcpHead(s).Starved?
    ensures TcpAnswer(s, code, session) == Missing
  {
  }

  /** ptp_tcp_getresp */
  method TcpGetResp(p: Port, op: Container) returns (rc: int, reply: Container)
    requires p.Valid() && TcpFits(p.Stream())
    modifies p`pos, p`len, p`incoming, p`plan, p`asked, p.data
    ensures p.Valid()
    ensures NoFail(old(p.plan)) ==> NoFail(p.plan)
    ensures Responded(TcpAnswer(old(p.Stream()), op.code, p.sessionId), NoFail(old(p.plan)), rc, p.Stream(), op, reply)
  {
    hide Splice, NoFail, Get16, Get32, TcpHead, TcpAnswer, TcpType, TcpReply, Length, U32, U16_SIZE, U32_SIZE;
    reply := op;
    ghost var all, head := p.Stream(), TcpHead(p.Stream());
    var pkt := new byte[TCP_ROOM](_ => 0);
    ghost var zeros := pkt[..];
    rc := TcpReadControl(p, pkt);
    if head.Starved? { TcpMissing(all, op.code, p.sessionId); }
    else { TcpAnswerFrom(all, op.code, p.sessionId, head.bytes, all[|head.bytes|..]); }
    if rc != RC_OK {
      return;
    }
    ReadFields(zeros, head.bytes);
    assert pkt[..] == Padded(head.bytes, TCP_ROOM);
    reply := TcpReply(pkt[..], p.sessionId);
    if TcpType(pkt[..]) != TCP_RESP {
      rc := ERROR_RESP_EXPECTED;
    } else if reply.code != op.code {
      rc := reply.code;
    }
  }

  /** The request structure, cut off behind the meaningful parameters. */
  function TcpRequest(op: Container): seq<byte>
    requires Sane(op)
  {
    var length := 38 - 4 * (5 - op.nparam);
    (Put32(false, length) + Put32(false, TCP_REQ) + Put32(false, 0) + Put16(false, op.code) + Put32(false, op.trans)
     + Put32(false, op.params[0]) + Put32(false, op.params[1]) + Put32(false, op.params[2])
     + Put32(false, op.params[3]) + Put32(false, op.params[4]))[..length]
  }

  /** A request is a packet that holds just the meaningful parameters. */
  lemma TcpRequestOf(op: Container)
    requires Sane(op)
    ensures TcpRequest(op) == TcpPacket(TCP_REQ, Put32(false, 0) + Put16(false, op.code) + Put32(false, op.trans)
                                                 + ParamBytes(op.params[..op.nparam]))
  {
    hide Put16, Put32, ParamBytes, U32;
    ParamsInRow(op.params);
    ParamsCut(op.params, op.nparam);
    var length := 38 - 4 * (5 - op.nparam);
    Tiny32(length);
    var front := Put32(false, length) + Put32(false, TCP_REQ) + Put32(false, 0) + Put16(false, op.code)
      + Put32(false, op.trans);
    var params := ParamBytes(op.params);
    assert TcpRequest(op) == (front + params)[..length];
    assert (front + params)[..length] == front + params[..4 * op.nparam];
  }

  /** ptp_tcp_sendreq */
  method TcpSendReq(p: Port, op: Container) returns (rc: int)
    requires Sane(op)
    modifies p`sent
    ensures rc == RC_OK && p.sent == old(p.sent) + [TcpRequest(op)]
  {
    rc := p.WriteFunc(TcpRequest(op));
  }

  /** The writes of a data phase; the DATA packet carries no transaction ID. */
  function TcpWrites(op: Container, data: seq<byte>): seq<seq<byte>>
    requires Sane(op) && |data| < U32_SIZE
  {
    [TcpStart(op.trans, |data|), Put32(false, U32(12 + |data|)) + Put32(false, TCP_DATA) + Put32(false, 0), data,
     TcpPiece(TCP_END, op.trans, [])]
  }

  /** ptp_tcp_senddata */
  method TcpSendData(p: Port, op: Container, data: seq<byte>) returns (rc: int)
    requires Sane(op) && |data| < U32_SIZE
    modifies p`sent
    ensures rc == RC_OK && p.sent == old(p.sent) + TcpWrites(op, data)
  {
    hide TcpStart, TcpPiece, Put32;
    rc := p.WriteFunc(TcpStart(op.trans, |data|));
    rc := p.WriteFunc(Put32(false, U32(12 + |data|)) + Put32(false, TCP_DATA) + Put32(false, 0));
    rc := p.WriteFunc(data);
    rc := p.WriteFunc(TcpPiece(TCP_END, op.trans, []));
  }

  lemma TcpWritesWhole(op: Container, data: seq<byte>)
    requires Sane(op) && 12 + |data| < U32_SIZE
    ensures Flatten(TcpWrites(op, data))
            == TcpStart(op.trans, |data|) + (TcpPiece(TCP_DATA, 0, data) + TcpPiece(TCP_END, op.trans, []))
  {
    hide TcpStart, Put32, U16_SIZE;
    var head := Put32(false, U32(12 + |data|)) + Put32(false, TCP_DATA) + Put32(false, 0);
    assert TcpPiece(TCP_DATA, 0, data) == head + data;
    FlattenFour(TcpStart(op.trans, |data|), head, data, TcpPiece(TCP_END, op.trans, []));
  }

  lemma FlattenFour(a: seq<byte>, b: seq<byte>, c: seq<byte>, d: seq<byte>)
    ensures Flatten([a, b, c, d]) == a + (b + c + d)
  {
    assert [a, b, c, d] == [a] + [b] + [c] + [d];
    FlattenMore([a] + [b] + [c], d);
    FlattenMore([a] + [b], c);
    FlattenMore([a], b);
    FlattenOne(a);
    hide Flatten;
  }

  /** One orderly packet in front of a stream. */
  lemma OrderlyStep(kind: nat, trans: nat, piece: seq<byte>, after: seq<byte>, total: nat, had: nat, cap: Option<nat>)
    requires (kind == TCP_DATA || kind == TCP_END) && trans < U32_SIZE && 12 + |piece| < U32_SIZE
    requires cap.Some? ==> had + |piece| <= cap.value
    requires OrderlyAfter(after, total, had + |piece|, kind == TCP_END, cap)
    ensures TcpOrderly(TcpPiece(kind, trans, piece) + after, total, had, false, cap)
  {
    hide TcpPiece, TcpHead, TcpType, TcpLoad, TcpFits, U16_SIZE, U32_SIZE;
    PieceHead(kind, trans, piece, after);
    Behind(piece, after);
  }

  /** A split of the announced data is orderly, whatever follows. */
  lemma {:induction false} PacketsOrderly(trans: nat, pieces: seq<seq<byte>>, last: seq<byte>, total: nat, had: nat,
                                          tail: seq<byte>, cap: Option<nat>)
    requires trans < U32_SIZE && 12 + |last| < U32_SIZE && forall k :: 0 <= k < |pieces| ==> 12 + |pieces[k]| < U32_SIZE
    requires had + |Flatten(pieces)| + |last| == total && (cap.Some? ==> total <= cap.value)
    ensures TcpOrderly(TcpPieces(trans, pieces) + TcpPiece(TCP_END, trans, last) + tail, total, had, false, cap)
    decreases |pieces|
  {
    hide TcpPiece, TcpOrderly, TcpFits;
    var end := TcpPiece(TCP_END, trans, last);
    if pieces == [] {
      assert TcpPieces(trans, pieces) + end + tail == end + tail;
      OrderlyStep(TCP_END, trans, last, tail, total, had, cap);
    } else {
      var p, more := pieces[0], pieces[1..];
      var after := TcpPieces(trans, more) + end + tail;
      assert TcpPieces(trans, pieces) + end + tail == TcpPiece(TCP_DATA, trans, p) + after;
      if had + |p| < total {
        PacketsOrderly(trans, more, last, total, had + |p|, tail, cap);
      } else {
        PiecesFit(trans, more, last, tail);
      }
      OrderlyStep(TCP_DATA, trans, p, after, total, had, cap);
    }
  }

  lemma PiecesFit(trans: nat, pieces: seq<seq<byte>>, last: seq<byte>, tail: seq<byte>)
    requires trans < U32_SIZE && 12 + |last| < U32_SIZE && forall k :: 0 <= k < |pieces| ==> 12 + |pieces[k]| < U32_SIZE
    ensures TcpFits(TcpPieces(trans, pieces) + TcpPiece(TCP_END, trans, last) + tail)
  {
    hide TcpPiece;
    var end := TcpPiece(TCP_END, trans, last);
    if pieces == [] {
      assert TcpPieces(trans, pieces) + end + tail == end + tail;
      PieceHead(TCP_END, trans, last, tail);
    } else {
      var after := TcpPieces(trans, pieces[1..]) + end + tail;
      assert TcpPieces(trans, pieces) + end + tail == TcpPiece(TCP_DATA, trans, pieces[0]) + after;
      PieceHead(TCP_DATA, trans, pieces[0], after);
    }
  }

  lemma StartSafe(trans: nat, total: nat, rest: seq<byte>, room: Room)
    requires trans < U32_SIZE && total < U32_SIZE * U32_SIZE && TcpOrderly(rest, total, 0, false, CapOf(room, total))
    ensures TcpSafe(TcpStart(trans, total) + rest, room)
    ensures TcpPhase(TcpStart(trans, total) + rest) == TcpPackets(rest, total, [], false)
  {
    hide TcpStart, TcpHead, TcpType, TcpTotal, TcpOrderly, TcpPackets, TcpStarts, U16_SIZE;
    StartHead(trans, total, rest);
    Behind(TcpStart(trans, total), rest);
  }

  /** What ptp_tcp_senddata writes is what ptp_tcp_getdata reads back, in either mode and whatever follows. */
  lemma TcpSendThenGet(op: Container, data: seq<byte>, tail: seq<byte>, room: Room)
    requires Sane(op) && 12 + |data| < U32_SIZE && (room.Buffer? ==> |data| <= room.size)
    ensures var s := Flatten(TcpWrites(op, data)) + tail; TcpSafe(s, room) && TcpPhase(s) == Got(data, tail)
  {
    hide TcpStart, TcpPiece, TcpPackets, TcpOrderly, TcpPhase, TcpSafe, TcpEnd, TcpFits, TcpWrites;
    var end := TcpPiece(TCP_END, op.trans, []) + tail;
    var rest := TcpPiece(TCP_DATA, 0, data) + end;
    TcpWritesWhole(op, data);
    assert Flatten(TcpWrites(op, data)) + tail == TcpStart(op.trans, |data|) + rest;
    PieceStep(TCP_DATA, 0, data, end, |data|, []);
    PieceStep(TCP_END, op.trans, [], tail, |data|, data);
    assert [] + data == data && [] + tail == tail;
    PieceHead(TCP_END, op.trans, [], tail);
    EndFits(op.trans, tail);
    OrderlyStep(TCP_DATA, 0, data, end, |data|, 0, CapOf(room, |data|));
    StartSafe(op.trans, |data|, rest, room);
  }

  lemma EndFits(trans: nat, tail: seq<byte>)
    requires trans < U32_SIZE
    ensures TcpFits(TcpPiece(TCP_END, trans, []) + tail)
  {
    hide TcpPiece;
    PieceHead(TCP_END, trans, [], tail);
  }
}
