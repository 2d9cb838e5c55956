/** How received data is handed to a caller in blocks, and what a data phase may leave behind. */
module PtpBlocks {
  import opened Arithmetic
  import opened Words
  import opened PtpPort
  import opened PtpWire

  /** Data cut into blocks of one size, with at most one shorter block at the end. */
  function Cut(data: seq<byte>, block: nat): seq<seq<byte>>
    requires block > 0
  {
    if data == [] then [] else if |data| <= block then [data] else [data[..block]] + Cut(data[block..], block)
  }

  predicate AllFull(blocks: seq<seq<byte>>, block: nat) {
    forall k :: 0 <= k < |blocks| ==> |blocks[k]| == block
  }

  /** Full blocks at the front of the data are the first blocks of its cut. */
  lemma {:induction false} CutFront(blocks: seq<seq<byte>>, more: seq<byte>, block: nat)
    requires block > 0 && AllFull(blocks, block)
    ensures Cut(Flatten(blocks) + more, block) == blocks + Cut(more, block)
  {
    hide Cut;
    if blocks == [] {
      assert Flatten(blocks) + more == more;
    } else {
      var b, behind := blocks[0], Flatten(blocks[1..]) + more;
      CutFront(blocks[1..], more, block);
      assert Flatten(blocks) + more == b + behind;
      CutOne(b, behind, block);
      assert [b] + (blocks[1..] + Cut(more, block)) == blocks + Cut(more, block);
    }
  }

  lemma CutOne(b: seq<byte>, behind: seq<byte>, block: nat)
    requires block > 0 && |b| == block
    ensures Cut(b + behind, block) == [b] + Cut(behind, block)
  {
    var data := b + behind;
    assert data[..block] == b && data[block..] == behind;
    if behind == [] {
      assert data == b;
    }
  }

  /**
   The cut is the only way to spread data over full blocks and one shorter block. It depends on the
   bytes alone, not on the pieces in which they arrived.
   */
  lemma CutUnique(data: seq<byte>, block: nat, blocks: seq<seq<byte>>, last: seq<byte>)
    requires AllFull(blocks, block) && |last| < block && Flatten(blocks) + last == data
    ensures Cut(data, block) == blocks + (if last == [] then [] else [last])
  {
    CutFront(blocks, last, block);
  }

  lemma {:induction false} FlattenCut(data: seq<byte>, block: nat)
    requires block > 0
    ensures Flatten(Cut(data, block)) == data
    ensures forall k :: 0 <= k < |Cut(data, block)| ==> 0 < |Cut(data, block)[k]| <= block
    ensures forall k :: 0 <= k < |Cut(data, block)| - 1 ==> |Cut(data, block)[k]| == block
  {
    if data == [] {
    } else if |data| <= block {
      FlattenOne(data);
    } else {
      FlattenCut(data[block..], block);
      assert data == data[..block] + data[block..];
    }
  }

  /** The block size that the getdata functions use for the size asked for. */
  function BlockSize(asked: nat): (n: nat)
    ensures n > 0
  {
    if asked == 0 then 1024 * 1024 * 2 else if asked < 1024 then 1024 else asked
  }

  /** There are as many blocks as the data takes. */
  lemma {:induction false} CutCount(data: seq<byte>, block: nat)
    requires block > 0
    ensures |data| <= |Cut(data, block)| * block && (data != [] ==> (|Cut(data, block)| - 1) * block < |data|)
    decreases |data|
  {
    if |data| > block {
      CutCount(data[block..], block);
      TimesStep(|Cut(data, block)|, block);
      TimesStep(|Cut(data, block)| - 1, block);
    }
  }

  /** Blocks of one size and a last one that is not longer, in the order of the data and as many as it takes. */
  predicate CutInto(cut: seq<seq<byte>>, data: seq<byte>, size: nat) {
    && Flatten(cut) == data
    && (forall k :: 0 <= k < |cut| - 1 ==> |cut[k]| == size)
    && (cut != [] ==> 0 < |cut[|cut| - 1]| <= size)
    && |data| <= |cut| * size && (data != [] ==> (|cut| - 1) * size < |data|)
  }

  /**
   The blocks for the size that a caller asks for: that size from 1024 on, 1024 below, and two
   megabytes if it asks for none.
   */
  lemma BlocksGiven(data: seq<byte>, asked: nat)
    ensures var cut := Cut(data, BlockSize(asked));
            && (asked >= 1024 ==> CutInto(cut, data, asked))
            && (0 < asked < 1024 ==> CutInto(cut, data, 1024))
            && (asked == 0 ==> CutInto(cut, data, 0x20_0000))
  {
    hide Cut;
    FlattenCut(data, BlockSize(asked));
    CutCount(data, BlockSize(asked));
  }

  /** Data no longer than the block size comes in one block, and longer data begins with a block of that size. */
  lemma FirstBlock(data: seq<byte>, asked: nat)
    requires asked >= 1024 || asked == 0
    ensures var size, cut := if asked == 0 then 0x20_0000 else asked, Cut(data, BlockSize(asked));
            && (0 < |data| <= size ==> cut == [data])
            && (|data| > size ==> |cut| > 1 && cut[0] == data[..size])
  {
    var size := BlockSize(asked);
    if |data| > size { assert data[size..] != []; }
  }

  /** A getdata handler: it keeps what it is given, and its verdict on the k-th block is verdict(k). */
  class Handler {
    var blocks: seq<seq<byte>>
    const verdict: nat -> int

    constructor (verdict: nat -> int)
      ensures blocks == [] && this.verdict == verdict
    {
      this.verdict := verdict;
      blocks := [];
    }

    method Take(size: nat, buf: array<byte>) returns (rc: int)
      requires size <= buf.Length
      modifies this
      ensures blocks == old(blocks) + [buf[..size]] && rc == verdict(|old(blocks)|)
    {
      rc := verdict(|blocks|);
      blocks := blocks + [buf[..size]];
    }
  }

  /** All verdicts from one block up to another are favourable. */
  predicate Agreed(verdict: nat -> int, from: nat, to: nat) {
    forall k: nat :: from <= k < to ==> verdict(k) == RC_OK
  }

  /** The n-th verdict is the first unfavourable one. */
  predicate Refused(verdict: nat -> int, from: nat, to: nat) {
    from < to && Agreed(verdict, from, to - 1) && verdict(to - 1) != RC_OK
  }

  /** A handler refuses at one point at most. */
  lemma RefusedOnce(verdict: nat -> int, from: nat, a: nat, b: nat)
    requires Refused(verdict, from, a) && Refused(verdict, from, b)
    ensures a == b
  {
  }

  lemma NoVerdict(verdict: nat -> int, from: nat)
    ensures Agreed(verdict, from, from)
  {
  }

  lemma OneVerdictMore(verdict: nat -> int, from: nat, to: nat)
    requires from <= to && Agreed(verdict, from, to)
    ensures Agreed(verdict, from, to + 1) <==> verdict(to) == RC_OK
    ensures verdict(to) != RC_OK ==> Refused(verdict, from, to + 1)
  {
  }

  /**
   PTPGetdataParams: without a handler the data is returned in retData, in a buffer that the function
   allocates if the caller supplies none.
   */
  class GetData {
    const handler: Handler?
    const blockSize: nat
    var retData: array?<byte>
    var totalSize: nat

    constructor (handler: Handler?, blockSize: nat, retData: array?<byte>)
      ensures this.handler == handler && this.blockSize == blockSize && this.retData == retData
    {
      this.handler, this.blockSize, this.retData, totalSize := handler, blockSize, retData, 0;
    }
  }

  /** Where data goes: to a handler, to a buffer allocated for it, or to a buffer of the caller. */
  datatype Room = Blocks | Fresh | Buffer(size: nat)

  ghost function RoomOf(gd: GetData): Room
    reads gd
  {
    if gd.handler != null then Blocks else if gd.retData == null then Fresh else Buffer(gd.retData.Length)
  }

  ghost function Returned(gd: GetData): Option<seq<byte>>
    reads gd, gd.retData
  {
    if gd.retData == null then None else Some(gd.retData[..])
  }

  /** What a buffer holds that data has been read into: a buffer of the caller keeps what lies behind the data. */
  function Filled(before: Option<seq<byte>>, data: seq<byte>): seq<byte> {
    if before.Some? && |data| <= |before.value| then data + before.value[|data|..] else data
  }

  lemma FilledWhole(before: seq<byte>, data: seq<byte>)
    requires |before| <= |data|
    ensures Filled(Some(before), data) == data
  {
  }

  /** The data that a phase has read when it is over. */
  function DataOf(phase: Phase): seq<byte> {
    match phase
    case Dry => []
    case Stop(_, _, had) => had
    case Got(payload, _) => payload
  }

  /** A data phase into a buffer. Only a failed read may keep it from doing what the stream says. */
  ghost predicate Buffered(phase: Phase, sure: bool, rc: int, now: seq<byte>, before: Option<seq<byte>>,
                           ret: Option<seq<byte>>) {
    rc != ERROR_IO || sure ==>
      match phase
      case Dry => false
      case Stop(code, rest, _) => rc == code && now == rest
      case Got(data, rest) => rc == RC_OK && now == rest && ret == Some(Filled(before, data))
  }

  /** Blocks of the cut of the data have been handed over, among them all full ones. */
  predicate Handed(data: seq<byte>, block: nat, added: seq<seq<byte>>)
    requires block > 0
  {
    added <= Cut(data, block) && forall k :: |added| <= k < |Cut(data, block)| ==> |Cut(data, block)[k]| < block
  }

  /**
   A data phase through a handler, which has been given the blocks added after the first ones.
   Whatever happens, they are front blocks of the cut of the data. If the handler agreed to all of
   them, they are the whole cut, or at least its full blocks if an error cuts the data short; if not,
   the last of them is the one it refused.
   */
  ghost predicate Blocked(phase: Phase, sure: bool, rc: int, now: seq<byte>, block: nat,
                          verdict: nat -> int, from: nat, added: seq<seq<byte>>)
    requires block > 0
  {
    var to := from + |added|;
    && (!phase.Dry? ==> added <= Cut(DataOf(phase), block))
    && if Agreed(verdict, from, to) then
         rc != ERROR_IO || sure ==>
           match phase
           case Dry => false
           case Stop(code, rest, had) => rc == code && now == rest && Handed(had, block, added)
           case Got(data, rest) => rc == RC_OK && now == rest && added == Cut(data, block)
       else
         Refused(verdict, from, to) && rc == verdict(to - 1)
  }

  lemma LessSure(phase: Phase, sure: bool, more: bool, rc: int, now: seq<byte>, before: Option<seq<byte>>,
                 ret: Option<seq<byte>>, block: nat, verdict: nat -> int, from: nat, added: seq<seq<byte>>)
    requires block > 0 && (sure ==> more)
    ensures Buffered(phase, more, rc, now, before, ret) ==> Buffered(phase, sure, rc, now, before, ret)
    ensures Blocked(phase, more, rc, now, block, verdict, from, added) ==>
            Blocked(phase, sure, rc, now, block, verdict, from, added)
  {
    hide Cut, Filled, Handed;
  }

  /** A data phase that ends before any data. */
  lemma StoppedEarly(phase: Phase, sure: bool, rc: int, now: seq<byte>, before: Option<seq<byte>>,
                     ret: Option<seq<byte>>, block: nat, verdict: nat -> int, from: nat)
    requires block > 0 && (phase == Stop(rc, now, []) || (rc == ERROR_IO && !sure))
    ensures Buffered(phase, sure, rc, now, before, ret) && Blocked(phase, sure, rc, now, block, verdict, from, [])
  {
    hide Filled;
  }

  /** The size field of the parameters takes over an announced size, once the header has been read. */
  predicate Told(announced: Option<nat>, sure: bool, rc: int, before: nat, now: nat) {
    && (now == before || announced == Some(now))
    && (rc != ERROR_IO || sure ==> now == if announced.Some? then announced.value else before)
  }

  /** A response phase; again only a failed read may keep it from doing what the stream says. */
  ghost predicate Responded(a: Answer, sure: bool, rc: int, now: seq<byte>, op: Container, reply: Container) {
    rc != ERROR_IO || (sure && a.Answer?) ==>
      a.Answer? && rc == a.rc && now == a.rest && reply == if a.reply.Some? then a.reply.value else op
  }
}
