/**
 The packet buffer of ptp.c and the readers above it. Reads from the device may return fewer bytes
 than asked for, none at all, or more than the caller needs right now; the surplus waits in a
 512-byte buffer. The device is stood for by the bytes it is going to send and by a schedule that
 says how many of them each read hands over and which reads fail.
 */
module PtpPort {
  import opened Arithmetic
  import opened Words
  import opened Buffers

  const RC_OK := 0x2001
  const ERROR_IO := 0x02FF
  const ERROR_DATA_EXPECTED := 0x02FE
  const ERROR_RESP_EXPECTED := 0x02FD
  const ERROR_BADPARAM := 0x02FC

  const BUFFER_SIZE := 512

  /** What one call of read_func does: hand over up to so many bytes, or fail. */
  datatype Delivery = Deliver(size: nat) | Fail

  predicate NoFail(plan: seq<Delivery>) {
    forall d :: d in plan ==> d.Deliver?
  }

  /** Exactly the first n bytes of a stream have been taken from it. */
  predicate Took(was: seq<byte>, n: nat, now: seq<byte>) {
    n <= |was| && now == was[n..]
  }

  /** The stream behind bytes that are taken from the buffer. */
  lemma HeldRest(data: seq<byte>, pos: nat, len: nat, n: nat, incoming: seq<byte>)
    requires n <= len && pos + len <= |data|
    ensures var all := data[pos..pos + len] + incoming;
            && data[pos + n..pos + len] + incoming == all[n..] && data[pos..pos + n] == all[..n]
            && (n == len ==> data[0..0] + incoming == all[n..])
  {
  }

  /** Bytes may have been taken from the front of the stream; none was added, changed or repeated. */
  predicate EndOf(now: seq<byte>, was: seq<byte>) {
    |now| <= |was| && now == was[|was| - |now|..]
  }

  /** If anything was read, the first read asked for whole packets. */
  predicate AsksWhole(was: seq<nat>, now: seq<nat>) {
    was <= now && (|now| > |was| ==> now[|was|] > 0 && now[|was|] % BUFFER_SIZE == 0)
  }

  /** However much is wanted, it asks for 512 bytes at least, and so for all of the device's next packet. */
  lemma AsksForPacket(was: seq<nat>, now: seq<nat>)
    requires AsksWhole(was, now)
    ensures now == was || (was < now && now[|was|] >= 512 && now[|was|] % 512 == 0)
  {
  }

  lemma FirstAsk(was: seq<nat>, mid: seq<nat>, now: seq<nat>, size: int)
    requires size % BUFFER_SIZE == 0
    requires was <= mid && (|mid| > |was| ==> mid[|was|] == size > 0)
    requires mid == now || mid + [BUFFER_SIZE] <= now
    ensures AsksWhole(was, now)
  {
  }

  lemma TookNone(all: seq<byte>)
    ensures Took(all, 0, all)
  {
  }

  lemma TookMore(a: seq<byte>, m: nat, b: seq<byte>, n: nat, c: seq<byte>)
    requires Took(a, m, b) && Took(b, n, c)
    ensures Took(a, m + n, c) && m + n <= |a| && |b| == |a| - m
  {
  }

  lemma TakenFront(was: seq<byte>, n: nat, now: seq<byte>)
    requires Took(was, n, now)
    ensures |was| == n + |now|
  {
  }

  lemma FellShort(was: seq<byte>, m: nat, left: seq<byte>, now: seq<byte>)
    requires Took(was, m, left) && EndOf(now, left)
    ensures EndOf(now, was) && |was| == m + |left|
  {
  }

  /** A second piece read behind the first one is the continuation of the stream. */
  lemma ReadOn(was: seq<byte>, off: nat, all: seq<byte>, m: nat, now: seq<byte>, n: nat)
    requires Took(all, m, now) && n <= |now| && off + m + n <= |was|
    ensures Splice(Splice(was, off, all[..m]), off + m, now[..n]) == Splice(was, off, all[..m + n])
    ensures Took(all, m + n, now[n..])
  {
    SpliceTwice(was, off, all[..m], now[..n]);
    assert all[..m] + now[..n] == all[..m + n];
  }

  lemma ReadOnTo(was: seq<byte>, off: nat, all: seq<byte>, m: nat, left: seq<byte>, n: nat, now: seq<byte>)
    requires Took(all, m, left) && Took(left, n, now) && off + m + n <= |was|
    ensures Splice(Splice(was, off, all[..m]), off + m, left[..n]) == Splice(was, off, all[..m + n])
    ensures Took(all, m + n, now)
  {
    ReadOn(was, off, all, m, left, n);
  }

  lemma LastOf(a: seq<byte>, b: seq<byte>, all: seq<byte>)
    requires a + b == all
    ensures EndOf(b, all)
  {
  }

  /** Bytes read behind the first ones of the buffer. */
  lemma ReadBehind(before: seq<byte>, total: nat, left: seq<byte>, n: nat, now: seq<byte>)
    requires n <= |left| && total + n <= |before| && now == Splice(before, total, left[..n])
    ensures now[..total + n] + left[n..] == before[..total] + left
  {
    assert now[..total + n] == before[..total] + left[..n];
  }

  /** Reads have been made since, the first of them for a whole buffer. */
  predicate AskedFull(was: seq<nat>, now: seq<nat>) {
    |now| > |was| && was + [BUFFER_SIZE] <= now
  }

  lemma AskedOn(was: seq<nat>, mid: seq<nat>, size: nat)
    requires (mid == was && size == BUFFER_SIZE) || AskedFull(was, mid)
    ensures AskedFull(was, mid + [size])
  {
  }

  /** The parts of PTPParams that the transport uses. */
  class Port {
    const data: array<byte>
    var pos: nat
    var len: nat

    /** Bytes that the device sends and that have not been read yet. */
    var incoming: seq<byte>
    /** What the next reads do; once it is used up, reads hand over all they can. */
    var plan: seq<Delivery>
    /** Sizes asked for so far. */
    ghost var asked: seq<nat>
    /** One element for each call of write_func. */
    var sent: seq<seq<byte>>

    var transactionId: nat
    var sessionId: nat
    const maxPacket: nat

    constructor (incoming: seq<byte>, plan: seq<Delivery>, maxPacket: nat)
      ensures Valid() && fresh(data) && Stream() == incoming && this.plan == plan && sent == []
      ensures this.maxPacket == maxPacket && transactionId == 0 && sessionId == 0
    {
      data := new byte[BUFFER_SIZE];
      pos, len := 0, 0;
      this.incoming, this.plan, this.maxPacket := incoming, plan, maxPacket;
      asked, sent := [], [];
      transactionId, sessionId := 0, 0;
    }

    ghost predicate Valid()
      reads this
    {
      data.Length == BUFFER_SIZE && pos + len <= BUFFER_SIZE && (len == 0 ==> pos == 0)
    }

    /** All bytes not delivered yet: the buffered ones, then the unread ones. */
    ghost function Stream(): seq<byte>
      requires Valid()
      reads this, data
    {
      data[pos..pos + len] + incoming
    }

    /** read_func: some of the next bytes, never more than asked for; negative if the read fails. */
    method ReadFunc(dst: array<byte>, off: nat, max: nat) returns (n: int)
      requires off + max <= dst.Length
      modifies `incoming, `plan, `asked, dst
      ensures asked == old(asked) + [max]
      ensures NoFail(old(plan)) ==> NoFail(plan) && (old(incoming) != [] ==> n >= 0)
      ensures n < 0 ==> incoming == old(incoming) && dst[..] == old(dst[..])
      ensures n >= 0 ==> n <= max && Took(old(incoming), n, incoming)
                         && dst[..] == Splice(old(dst[..]), off, old(incoming)[..n])
      ensures n >= 0 && max > 0 ==> |incoming| + |plan| < old(|incoming| + |plan|)
    {
      asked := asked + [max];
      if plan == [] {
        if incoming == [] { return -1; }
        n := Min(max, |incoming|);
      } else {
        var step := plan[0];
        assert step in plan;
        plan := plan[1..];
        if step.Fail? { return -1; }
        n := Min(step.size, Min(max, |incoming|));
      }
      forall k | 0 <= k < n {
        dst[off + k] := incoming[k];
      }
      incoming := incoming[n..];
    }

    /** write_func; writes are taken to succeed. */
    method WriteFunc(bytes: seq<byte>) returns (rc: int)
      modifies `sent
      ensures rc == RC_OK && sent == old(sent) + [bytes]
    {
      sent := sent + [bytes];
      rc := RC_OK;
    }

    /** Its memcpy. */
    method CopyHeld(n: nat, dst: array<byte>, off: nat)
      requires Valid() && n <= len && off + n <= dst.Length && dst != data
      modifies dst
      ensures dst[..] == Splice(old(dst[..]), off, Stream()[..n])
    {
      hide Splice;
      ghost var was := dst[..];
      forall k | 0 <= k < n {
        dst[off + k] := data[pos + k];
      }
      SpliceIs(was, off, Stream()[..n], dst[..]);
    }

    /** ptp_transport_read_from_buffer */
    method ReadFromBuffer(max: nat, dst: array<byte>, off: nat) returns (n: nat)
      requires Valid() && off + max <= dst.Length && dst != data
      modifies `pos, `len, dst
      ensures Valid() && n == Min(max, old(len)) && len == old(len) - n
      ensures Took(old(Stream()), n, Stream())
      ensures dst[..] == Splice(old(dst[..]), off, old(Stream())[..n])
    {
      hide Splice;
      if len == 0 {
        SpliceIs(dst[..], off, Stream()[..0], dst[..]);
        return 0;
      }
      if len > max {
        n := max;
      } else {
        n := len;
      }
      CopyHeld(n, dst, off);
      HeldRest(data[..], pos, len, n, incoming);
      len := len - n;
      pos := pos + n;
      if len == 0 {
        pos := 0;
      }
    }

    /** The loop of ptp_transport_read_to_buffer. */
    method FillBuffer(min: nat) returns (rc: int, total: nat)
      requires Valid() && len == 0 && min <= BUFFER_SIZE
      modifies `incoming, `plan, `asked, data
      ensures total <= BUFFER_SIZE && (rc == RC_OK || rc == ERROR_IO)
      ensures data[..total] + incoming == old(incoming)
      ensures rc == RC_OK ==> total >= min
      ensures rc == ERROR_IO ==> total == 0 || total < min
      ensures AskedFull(old(asked), asked)
      ensures NoFail(old(plan)) ==> NoFail(plan) && (rc == ERROR_IO ==> incoming == [])
    {
      hide NoFail, Splice, AskedFull;
      total := 0;
      var avail := BUFFER_SIZE;
      assert data[..total] + incoming == incoming;
      while true
        invariant 0 <= total && avail == BUFFER_SIZE - total > 0
        invariant total == 0 || total < min
        invariant data[..total] + incoming == old(incoming)
        invariant NoFail(old(plan)) ==> NoFail(plan)
        invariant (asked == old(asked) && total == 0) || AskedFull(old(asked), asked)
        decreases |incoming| + |plan|
      {
        ghost var before, left := data[..], incoming;
        AskedOn(old(asked), asked, avail);
        var n := ReadFunc(data, total, avail);
        if n < 0 {
          return ERROR_IO, total;
        }
        ReadBehind(before, total, left, n, data[..]);
        total := total + n;
        avail := avail - n;
        if total >= min { break; }
      }
      rc := RC_OK;
    }

    /** ptp_transport_read_to_buffer: one read is made even if min is 0. */
    method ReadToBuffer(min: nat) returns (rc: int)
      requires Valid()
      modifies `len, `incoming, `plan, `asked, data
      ensures Valid()
      ensures rc == ERROR_BADPARAM <==> old(len) != 0 || min > BUFFER_SIZE
      ensures rc == ERROR_BADPARAM ==>
              len == old(len) && Stream() == old(Stream()) && plan == old(plan) && asked == old(asked)
      ensures rc == RC_OK || rc == ERROR_IO || rc == ERROR_BADPARAM
      ensures rc == RC_OK ==> len >= min && Stream() == old(Stream())
      ensures rc == ERROR_IO ==> len == 0 && EndOf(Stream(), old(Stream()))
      ensures rc != ERROR_BADPARAM ==> AskedFull(old(asked), asked)
      ensures NoFail(old(plan)) ==> NoFail(plan)
      ensures NoFail(old(plan)) && rc == ERROR_IO ==> |old(incoming)| < min || old(incoming) == []
    {
      hide NoFail, AskedFull, EndOf;
      if len != 0 || pos != 0 || min > BUFFER_SIZE {
        return ERROR_BADPARAM;
      }
      ghost var all := Stream();
      assert all == incoming;
      var total;
      rc, total := FillBuffer(min);
      if rc != RC_OK {
        assert Stream() == incoming;
        LastOf(data[..total], incoming, all);
        return;
      }
      len := total;
      assert data[pos..pos + len] == data[..total];
    }

    /**
     ptp_control_read_buffered. The "bad length" exit of the source is never taken: BADPARAM means
     that more than the buffer holds was asked for.
     */
    method ControlRead(size: nat, dst: array<byte>, off: nat) returns (rc: int)
      requires Valid() && off + size <= dst.Length && dst != data
      modifies `pos, `len, `incoming, `plan, `asked, data, dst
      ensures Valid()
      ensures rc == RC_OK || rc == ERROR_IO || rc == ERROR_BADPARAM
      ensures rc == ERROR_BADPARAM <==> size - old(len) > BUFFER_SIZE
      ensures rc == RC_OK ==> Took(old(Stream()), size, Stream())
                              && dst[..] == Splice(old(dst[..]), off, old(Stream())[..size])
      ensures rc == ERROR_IO ==> EndOf(Stream(), old(Stream()))
      ensures NoFail(old(plan)) ==> NoFail(plan)
      ensures NoFail(old(plan)) && rc == ERROR_IO ==> |old(Stream())| < size
    {
      hide Splice, Took, EndOf, NoFail;
      ghost var was, all := dst[..], Stream();
      var count := ReadFromBuffer(size, dst, off);
      if count < size {
        ghost var left := Stream();
        assert left == incoming;
        rc := ReadToBuffer(size - count);
        if rc != RC_OK {
          if rc == ERROR_IO { FellShort(all, count, left, Stream()); }
          return;
        }
        assert Stream() == left;
        var more := ReadFromBuffer(size - count, dst, off + count);
        ReadOnTo(was, off, all, count, left, more, Stream());
        if more != size - count {
          assert false;
          return ERROR_BADPARAM;
        }
      }
      return RC_OK;
    }

    /** A second control read, of what comes behind the first bytes of a structure. */
    method ControlReadOn(size: nat, dst: array<byte>, at: nat, ghost was: seq<byte>, ghost all: seq<byte>)
      returns (rc: int)
      requires Valid() && at + size <= dst.Length == |was| && dst != data && size <= BUFFER_SIZE
      requires Took(all, at, Stream()) && dst[..] == Splice(was, 0, all[..at])
      modifies `pos, `len, `incoming, `plan, `asked, data, dst
      ensures Valid()
      ensures rc == RC_OK || rc == ERROR_IO
      ensures rc == RC_OK ==> Took(all, at + size, Stream()) && dst[..] == Splice(was, 0, all[..at + size])
      ensures NoFail(old(plan)) ==> NoFail(plan)
      ensures NoFail(old(plan)) && rc == ERROR_IO ==> |all| < at + size
    {
      hide Splice, NoFail, Took, EndOf;
      ghost var left := Stream();
      TakenFront(all, at, left);
      rc := ControlRead(size, dst, at);
      if rc == RC_OK {
        ReadOnTo(was, 0, all, at, left, size, Stream());
      }
    }

    /**
     The loop that reads straight into dst, from byte done up to byte upTo of what is wanted, as
     ptp_tcp_read_data and ptp_usb_read_data both have it.
     */
    method ReadDirect(done: nat, upTo: nat, dst: array<byte>, off: nat) returns (rc: int)
      requires Valid() && len == 0 && done <= upTo && off + upTo <= dst.Length && dst != data
      modifies `incoming, `plan, `asked, dst
      ensures rc == RC_OK || rc == ERROR_IO
      ensures rc == RC_OK ==> Took(old(incoming), upTo - done, incoming)
                              && dst[..] == Splice(old(dst[..]), off + done, old(incoming)[..upTo - done])
      ensures rc == ERROR_IO ==> EndOf(incoming, old(incoming))
      ensures old(asked) <= asked && (asked == old(asked) ==> done == upTo)
      ensures |asked| > |old(asked)| ==> asked[|old(asked)|] == upTo - done > 0
      ensures NoFail(old(plan)) ==> NoFail(plan)
      ensures NoFail(old(plan)) && rc == ERROR_IO ==> |old(incoming)| < upTo - done
    {
      hide Splice, NoFail;
      ghost var was, all := dst[..], incoming;
      var total: nat := done;
      SpliceIs(was, off + done, all[..0], was);
      while total < upTo
        invariant done <= total <= upTo && Took(all, total - done, incoming)
        invariant dst[..] == Splice(was, off + done, all[..total - done])
        invariant old(asked) <= asked && (asked == old(asked) ==> total == done)
        invariant |asked| > |old(asked)| ==> asked[|old(asked)|] == upTo - done > 0
        invariant NoFail(old(plan)) ==> NoFail(plan)
        decreases |incoming| + |plan|
      {
        ghost var left := incoming;
        var n := ReadFunc(dst, off + total, upTo - total);
        if n < 0 {
          return ERROR_IO;
        }
        ReadOn(was, off + done, all, total - done, left, n);
        total := total + n;
      }
      return RC_OK;
    }

    /** ptp_tcp_read_data; size fits a C int. */
    method TcpReadData(size: nat, dst: array<byte>, off: nat) returns (rc: int)
      requires Valid() && off + size <= dst.Length && dst != data
      modifies `pos, `len, `incoming, `plan, `asked, data, dst
      ensures Valid()
      ensures rc == 0x2001 || rc == 0x02FF
      ensures rc == RC_OK ==> Took(old(Stream()), size, Stream())
                              && dst[..] == Splice(old(dst[..]), off, old(Stream())[..size])
      ensures rc == ERROR_IO ==> EndOf(Stream(), old(Stream()))
      ensures NoFail(old(plan)) ==> NoFail(plan)
      ensures NoFail(old(plan)) && rc == ERROR_IO ==> |old(Stream())| < size
    {
      hide Splice, Took, EndOf, NoFail;
      ghost var was, all := dst[..], Stream();
      var total := ReadFromBuffer(size, dst, off);
      if total < size {
        ghost var left := Stream();
        assert left == incoming;
        rc := ReadDirect(total, size, dst, off);
        assert Stream() == incoming;
        if rc != RC_OK {
          FellShort(all, total, left, Stream());
          return;
        }
        ReadOnTo(was, off, all, total, left, size - total, Stream());
      }
      return RC_OK;
    }

    /** The end of ptp_usb_read_data: the last partial packet goes through the buffer. */
    method ReadTail(rest: nat, dst: array<byte>, off: nat) returns (rc: int, n: nat)
      requires Valid() && len == 0 && rest < BUFFER_SIZE && off + rest <= dst.Length && dst != data
      modifies `pos, `len, `incoming, `plan, `asked, data, dst
      ensures Valid()
      ensures rc == RC_OK || rc == ERROR_IO
      ensures rc == RC_OK ==> n == rest && Took(old(Stream()), rest, Stream())
                              && dst[..] == Splice(old(dst[..]), off, old(Stream())[..rest])
      ensures rc == ERROR_IO ==> EndOf(Stream(), old(Stream()))
      ensures old(asked) + [BUFFER_SIZE] <= asked
      ensures NoFail(old(plan)) ==> NoFail(plan)
      ensures NoFail(old(plan)) && rc == ERROR_IO ==> |old(Stream())| <= rest
    {
      hide Splice, Took, EndOf, NoFail;
      n := 0;
      assert Stream() == incoming;
      rc := ReadToBuffer(rest);
      if rc != RC_OK {
        return;
      }
      n := ReadFromBuffer(rest, dst, off);
    }

    /** ptp_usb_read_data behind the buffered bytes: whole packets into dst, and the rest through the buffer. */
    method UsbReadOn(total: nat, size: nat, dst: array<byte>, off: nat, ghost was: seq<byte>, ghost all: seq<byte>)
      returns (rc: int)
      requires Valid() && len == 0 && total < size && off + size <= dst.Length == |was| && dst != data
      requires Took(all, total, Stream()) && dst[..] == Splice(was, off, all[..total])
      modifies `pos, `len, `incoming, `plan, `asked, data, dst
      ensures Valid()
      ensures rc == RC_OK || rc == ERROR_IO
      ensures rc == RC_OK ==> Took(all, size, Stream()) && dst[..] == Splice(was, off, all[..size])
      ensures rc == ERROR_IO ==> EndOf(Stream(), all)
      ensures AsksWhole(old(asked), asked)
      ensures NoFail(old(plan)) ==> NoFail(plan)
      ensures NoFail(old(plan)) && rc == ERROR_IO ==> |all| <= size
    {
      hide Splice, Took, EndOf, NoFail, AsksWhole;
      var toRead: nat := size - total;
      var rest: nat := toRead % BUFFER_SIZE;
      var bulkTotal: nat := size - rest;
      ghost var before, left := asked, Stream();
      assert left == incoming;
      TakenFront(all, total, left);
      rc := ReadDirect(total, bulkTotal, dst, off);
      assert Stream() == incoming;
      if rc != RC_OK {
        FellShort(all, total, left, Stream());
        FirstAsk(before, asked, asked, bulkTotal - total);
        return;
      }
      ReadOnTo(was, off, all, total, left, bulkTotal - total, Stream());
      ghost var direct, behind := asked, Stream();
      TakenFront(all, bulkTotal, behind);
      var n;
      rc, n := ReadTail(rest, dst, off + bulkTotal);
      FirstAsk(before, direct, asked, toRead - rest);
      if rc != RC_OK {
        FellShort(all, bulkTotal, behind, Stream());
        return;
      }
      ReadOnTo(was, off, all, bulkTotal, behind, n, Stream());
      if bulkTotal + n != size {
        assert false;
        return ERROR_IO;
      }
    }

    /**
     ptp_usb_read_data; size fits a C int. Whole packets are read straight into dst and the rest goes
     through the buffer. The "size mismatch" exit is never taken, and the first read asks for whole
     packets whatever was buffered. A further byte has to follow, or a read that returns nothing,
     because the buffer is read into even when the rest is empty.
     */
    method UsbReadData(size: nat, dst: array<byte>, off: nat) returns (rc: int)
      requires Valid() && off + size <= dst.Length && dst != data
      modifies `pos, `len, `incoming, `plan, `asked, data, dst
      ensures Valid()
      ensures rc == 0x2001 || rc == 0x02FF
      ensures rc == RC_OK ==> Took(old(Stream()), size, Stream())
                              && dst[..] == Splice(old(dst[..]), off, old(Stream())[..size])
      ensures rc == ERROR_IO ==> EndOf(Stream(), old(Stream()))
      ensures AsksWhole(old(asked), asked)
      ensures NoFail(old(plan)) ==> NoFail(plan)
      ensures NoFail(old(plan)) && rc == ERROR_IO ==> |old(Stream())| <= size
    {
      hide Splice, Took, EndOf, NoFail, AsksWhole;
      ghost var was, all := dst[..], Stream();
      var total := ReadFromBuffer(size, dst, off);
      FirstAsk(asked, asked, asked, 0);
      if total < size {
        rc := UsbReadOn(total, size, dst, off, was, all);
        return;
      }
      return RC_OK;
    }
  }
}
