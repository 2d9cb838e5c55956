/**
 con:exec with wait set: the loop that collects the messages of a script until it has ended. The
 code up to the start of the script is not part of the model.
 */
module ChdkExec {
  import opened Arithmetic
  import opened Words
  import opened ChdkCamera
  import opened ChdkWait

  /** Where user messages or return messages go: a table or callback of the caller, or none is given. */
  datatype Sink = NoSink | Sink(got: seq<Message>)

  datatype ExecOptions = ExecOptions(serialized: bool, unserialize: Lua -> Lua, poll: nat,
                                     pollstart: Option<nat>, initwait: Option<nat>)

  datatype Ending = Finished(results: seq<Lua>) | RuntimeError(msg: Message) | WrongMessage(msg: Message)

  /** The timeout that wait_status uses if none is given: a day. */
  const DAY := 86_400_000

  /** The value that a return message stands for. */
  function Decoded(o: ExecOptions, m: Message): Lua {
    if m.isTable && o.serialized then o.unserialize(m.value) else m.value
  }

  /** table.maxn: the number of the last value that is not nil. */
  function MaxN(values: seq<Lua>): (n: nat)
    ensures n <= |values|
  {
    if values == [] then 0 else if values[|values| - 1] != Nil then |values| else MaxN(values[..|values| - 1])
  }

  /** The messages of a script of one kind, in order. */
  function Mine(all: seq<Message>, id: nat, kind: Kind): seq<Message> {
    if all == [] then []
    else (if all[0].script == id && all[0].kind == kind then [all[0]] else []) + Mine(all[1..], id, kind)
  }

  function Values(o: ExecOptions, ms: seq<Message>): (vs: seq<Lua>)
    ensures |vs| == |ms|
  {
    seq(|ms|, i requires 0 <= i < |ms| => Decoded(o, ms[i]))
  }

  /**
   The messages in which a script returned its values: a table as a string made by the camera's serializer,
   which the host's unserialize inverts, or as it is if the host has not asked for that; all else as it is.
   */
  predicate Sent(o: ExecOptions, ms: seq<Message>, vs: seq<Lua>) {
    |ms| == |vs| && forall k :: 0 <= k < |ms| ==> Carries(o, ms[k], vs[k])
  }

  predicate Carries(o: ExecOptions, m: Message, v: Lua) {
    && (m.isTable && o.serialized ==> o.unserialize(m.value) == v)
    && (!m.isTable || !o.serialized ==> m.value == v)
  }

  /** The host gets the values that were sent, and no others fit the messages. */
  lemma ValuesBack(o: ExecOptions, ms: seq<Message>, vs: seq<Lua>)
    ensures Sent(o, ms, vs) <==> vs == Values(o, ms)
  {
    if Sent(o, ms, vs) {
      forall k | 0 <= k < |ms|
        ensures Values(o, ms)[k] == vs[k]
      {
        assert Carries(o, ms[k], vs[k]);
      }
    } else if vs == Values(o, ms) {
      forall k | 0 <= k < |ms|
        ensures Carries(o, ms[k], vs[k])
      {
      }
    }
  }

  /**
   With a serializer that unserialize inverts, whatever the script returned is got back if the host
   asked for it. If it did not, the host gets the strings in place of the tables.
   */
  lemma TablesBack(o: ExecOptions, serialize: Lua -> Lua, ms: seq<Message>, vs: seq<Lua>)
    requires |ms| == |vs|
    requires forall k :: 0 <= k < |ms| ==> ms[k].value == if ms[k].isTable then serialize(vs[k]) else vs[k]
    ensures o.serialized && (forall v :: o.unserialize(serialize(v)) == v) ==> Values(o, ms) == vs
    ensures !o.serialized ==> forall k :: 0 <= k < |ms| ==> Values(o, ms)[k] == ms[k].value
  {
    if o.serialized && forall v :: o.unserialize(serialize(v)) == v {
      forall k | 0 <= k < |ms|
        ensures Values(o, ms)[k] == vs[k]
      {
        assert o.unserialize(serialize(vs[k])) == vs[k];
      }
    }
  }

  /** The messages before the script's first error message, or all if there is none. */
  function BeforeError(all: seq<Message>, id: nat): seq<Message> {
    if all == [] || (all[0].script == id && all[0].kind.Error?) then [] else [all[0]] + BeforeError(all[1..], id)
  }

  predicate Fails(all: seq<Message>, id: nat) {
    exists m :: m in all && m.script == id && m.kind.Error?
  }

  /** What the caller has been given after some messages. */
  predicate Collected(o: ExecOptions, id: nat, seen: seq<Message>, msgs0: Sink, rets0: Sink, msgs: Sink, rets: Sink,
                      results: seq<Lua>) {
    && (msgs0.NoSink? <==> msgs.NoSink?) && (rets0.NoSink? <==> rets.NoSink?)
    && (msgs.Sink? ==> msgs.got == msgs0.got + Mine(seen, id, User))
    && (rets.Sink? ==> rets.got == rets0.got + Mine(seen, id, Return) && results == [])
    && (rets.NoSink? ==> results == Values(o, Mine(seen, id, Return)))
  }

  lemma {:induction false} MineOn(all: seq<Message>, m: Message, id: nat, kind: Kind)
    ensures Mine(all + [m], id, kind) == Mine(all, id, kind) + if m.script == id && m.kind == kind then [m] else []
  {
    if all == [] {
      assert all + [m] == [m];
    } else {
      MineOn(all[1..], m, id, kind);
      assert (all + [m])[1..] == all[1..] + [m];
    }
  }

  /** The loop of exec takes in one message. */
  lemma CollectedOn(o: ExecOptions, id: nat, seen: seq<Message>, m: Message, msgs0: Sink, rets0: Sink,
                    msgs: Sink, rets: Sink, results: seq<Lua>)
    requires Collected(o, id, seen, msgs0, rets0, msgs, rets, results)
    ensures m.script != id ==> Collected(o, id, seen + [m], msgs0, rets0, msgs, rets, results)
    ensures m.script == id && m.kind.User? ==>
            var msgs1 := if msgs.Sink? then Sink(msgs.got + [m]) else msgs;
            Collected(o, id, seen + [m], msgs0, rets0, msgs1, rets, results)
    ensures m.script == id && m.kind.Return? && rets.Sink? ==>
            Collected(o, id, seen + [m], msgs0, rets0, msgs, Sink(rets.got + [m]), results)
    ensures m.script == id && m.kind.Return? && rets.NoSink? ==>
            Collected(o, id, seen + [m], msgs0, rets0, msgs, rets, results + [Decoded(o, m)])
  {
    MineOn(seen, m, id, User);
    MineOn(seen, m, id, Return);
  }

  /** While no error message of the script has been read, the messages read are the front of those before it. */
  lemma {:induction false} NoErrorYet(seen: seq<Message>, left: seq<Message>, id: nat)
    requires forall m :: m in seen ==> !(m.script == id && m.kind.Error?)
    ensures BeforeError(seen + left, id) == seen + BeforeError(left, id)
    ensures Fails(seen + left, id) <==> Fails(left, id)
  {
    if seen == [] {
      assert seen + left == left;
    } else {
      assert (seen + left)[1..] == seen[1..] + left;
      NoErrorYet(seen[1..], left, id);
    }
  }

  /** One message goes where it belongs, or ends exec with an error. */
  method TakeMessage(id: nat, o: ExecOptions, m: Message, msgs0: Sink, rets0: Sink, results0: seq<Lua>)
    returns (failed: Option<Ending>, msgs: Sink, rets: Sink, results: seq<Lua>)
    ensures failed == (if m.script != id || m.kind.User? || m.kind.Return? then None
                       else if m.kind.Error? then Some(RuntimeError(m)) else Some(WrongMessage(m)))
    ensures msgs == if m.script == id && m.kind.User? && msgs0.Sink? then Sink(msgs0.got + [m]) else msgs0
    ensures rets == if m.script == id && m.kind.Return? && rets0.Sink? then Sink(rets0.got + [m]) else rets0
    ensures results
            == if m.script == id && m.kind.Return? && rets0.NoSink?
               then results0 + [if m.isTable && o.serialized then o.unserialize(m.value) else m.value] else results0
  {
    failed, msgs, rets, results := None, msgs0, rets0, results0;
    if m.script != id {
      // a warning, and the message is dropped
    } else if m.kind.User? {
      if msgs.Sink? {
        msgs := Sink(msgs.got + [m]);
      }
    } else if m.kind.Return? {
      if rets.Sink? {
        rets := Sink(rets.got + [m]);
      } else {
        results := results + [Decoded(o, m)];
      }
    } else if m.kind.Error? {
      failed := Some(RuntimeError(m));
    } else {
      failed := Some(WrongMessage(m));
    }
  }

  /** The state of the loop: what has been read is collected and holds no error of the script, and the rest is left. */
  predicate Looping(o: ExecOptions, id: nat, all: seq<Message>, seen: seq<Message>, left: seq<Message>,
                    msgs0: Sink, rets0: Sink, msgs: Sink, rets: Sink, results: seq<Lua>) {
    && all == seen + left && Collected(o, id, seen, msgs0, rets0, msgs, rets, results)
    && forall m :: m in seen ==> !(m.script == id && m.kind.Error?)
  }

  lemma LoopStarts(o: ExecOptions, id: nat, all: seq<Message>, msgs: Sink, rets: Sink)
    ensures Looping(o, id, all, [], all, msgs, rets, msgs, rets, [])
  {
    assert [] + all == all;
  }

  /** What exec promises when it ends with an error message of the script. */
  predicate FailedAt(id: nat, all: seq<Message>, left: seq<Message>, m: Message, msgs0: Sink, rets0: Sink, msgs: Sink,
                     rets: Sink) {
    && Fails(all, id) && BeforeError(all, id) + [m] + left == all
    && Given(id, BeforeError(all, id), msgs0, msgs, User) && Given(id, BeforeError(all, id), rets0, rets, Return)
  }

  /** What it promises when the script has ended. */
  predicate EndedWith(o: ExecOptions, id: nat, all: seq<Message>, msgs0: Sink, rets0: Sink, msgs: Sink, rets: Sink,
                      results: seq<Lua>) {
    && !Fails(all, id) && Given(id, all, msgs0, msgs, User) && Given(id, all, rets0, rets, Return)
    && (rets0.NoSink? ==> results == Values(o, Mine(all, id, Return)))
  }

  /** One round of the loop with a message that is taken. */
  lemma LoopGoesOn(o: ExecOptions, id: nat, all: seq<Message>, seen: seq<Message>, m: Message, left: seq<Message>,
                   msgs0: Sink, rets0: Sink, msgs: Sink, rets: Sink, results: seq<Lua>,
                   msgs1: Sink, rets1: Sink, results1: seq<Lua>)
    requires Looping(o, id, all, seen, [m] + left, msgs0, rets0, msgs, rets, results)
    requires m.script != id || m.kind.User? || m.kind.Return?
    requires msgs1 == if m.script == id && m.kind.User? && msgs.Sink? then Sink(msgs.got + [m]) else msgs
    requires rets1 == if m.script == id && m.kind.Return? && rets.Sink? then Sink(rets.got + [m]) else rets
    requires results1
             == if m.script == id && m.kind.Return? && rets.NoSink?
                then results + [if m.isTable && o.serialized then o.unserialize(m.value) else m.value] else results
    ensures Looping(o, id, all, seen + [m], left, msgs0, rets0, msgs1, rets1, results1)
  {
    hide Collected;
    CollectedOn(o, id, seen, m, msgs0, rets0, msgs, rets, results);
    assert seen + ([m] + left) == seen + [m] + left;
  }

  lemma LoopFails(o: ExecOptions, id: nat, all: seq<Message>, seen: seq<Message>, m: Message, left: seq<Message>,
                  msgs0: Sink, rets0: Sink, msgs: Sink, rets: Sink, results: seq<Lua>)
    requires Looping(o, id, all, seen, [m] + left, msgs0, rets0, msgs, rets, results)
    requires m.script == id && m.kind.Error?
    ensures FailedAt(id, all, left, m, msgs0, rets0, msgs, rets)
  {
    hide Collected, Given, Fails, BeforeError;
    NoErrorYet(seen, [m] + left, id);
    FirstError([m] + left, id);
    assert seen + [] == seen;
    assert seen + ([m] + left) == seen + [m] + left;
    CollectedGiven(o, id, seen, msgs0, rets0, msgs, rets, results);
  }

  lemma LoopEnds(o: ExecOptions, id: nat, all: seq<Message>, seen: seq<Message>, msgs0: Sink, rets0: Sink, msgs: Sink,
                 rets: Sink, results: seq<Lua>)
    requires Looping(o, id, all, seen, [], msgs0, rets0, msgs, rets, results)
    ensures EndedWith(o, id, all, msgs0, rets0, msgs, rets, results)
  {
    hide Collected, Given, Fails, BeforeError, Values;
    assert seen + [] == seen;
    NoErrorYet(seen, [], id);
    FirstError([], id);
    CollectedGiven(o, id, seen, msgs0, rets0, msgs, rets, results);
  }

  /** The options of the wait: for the end of the script or a message. */
  function Waiting(o: ExecOptions): WaitOptions {
    WaitOptions(Some(false), Some(true), false, DAY, false, o.poll, o.pollstart, o.initwait)
  }

  /**
   Between messages exec waits until there is one or the script has ended, and for nothing else, at the
   intervals asked for. If neither happens it sleeps for a day, and then goes on.
   */
  lemma ExecWaits(o: ExecOptions, x: Scene, n: nat)
    ensures var c := AfterPolls(Waiting(o), x, n + 1).camera;
            AwaitedAt(Waiting(o), x, n) <==> c.queue != [] || !c.running
    ensures TimeRunsOut(Waiting(o)) ==>
              InitWait(Waiting(o)) + Sum(FullSchedule(Waiting(o))) == Max(24 * 60 * 60 * 1000, InitWait(Waiting(o)))
    ensures FirstInterval(Waiting(o)) == match o.pollstart case Some(start) => start case None => Max(o.poll, 50)
    ensures InitWait(Waiting(o)) == if o.initwait.Some? then o.initwait.value else 0
    ensures Interval(Waiting(o)) == Max(o.poll, 50)
    ensures Returned(Waiting(o), Look(Waiting(o), AfterPolls(Waiting(o), x, n))).Some?
  {
    hide Look, Advanced, FullSchedule, AfterPolls;
    AwaitedSees(Waiting(o), x, n);
    if TimeRunsOut(Waiting(o)) {
      WaitBudget(Waiting(o));
    }
  }

  /** The flags that wait_status returns are those of the camera as it then is; no message is lost meanwhile. */
  lemma ScriptSeen(w: WaitOptions, x: Scene, n: nat, s: Option<Status>)
    requires Sound(x.camera) && !w.timeoutError && s == Returned(w, Look(w, AfterPolls(w, x, n)))
    ensures var y := AfterPolls(w, x, n + 1);
            s.Some? && s.value.run == y.camera.running && s.value.msg == (y.camera.queue != [])
            && Sound(y.camera) && All(y.camera) == All(x.camera)
            && (|y.turns| < |x.turns| || (y.turns == [] == x.turns && !s.value.run))
  {
    hide Sound, All, Advanced, Awaited;
    PollsKeep(w, x, n + 1);
  }

  lemma NothingLeft(c: Camera)
    requires Sound(c) && c.queue == [] && !c.running
    ensures All(c) == [] && c == Camera([], [], false)
  {
  }

  /** A sink has been given the messages of one kind. */
  predicate Given(id: nat, seen: seq<Message>, before: Sink, after: Sink, kind: Kind) {
    after == if before.NoSink? then NoSink else Sink(before.got + Mine(seen, id, kind))
  }

  lemma CollectedGiven(o: ExecOptions, id: nat, seen: seq<Message>, msgs0: Sink, rets0: Sink, msgs: Sink, rets: Sink,
                       results: seq<Lua>)
    requires Collected(o, id, seen, msgs0, rets0, msgs, rets, results)
    ensures Given(id, seen, msgs0, msgs, User) && Given(id, seen, rets0, rets, Return)
    ensures rets0.NoSink? ==> results == Values(o, Mine(seen, id, Return))
  {
  }

  lemma FirstError(left: seq<Message>, id: nat)
    ensures left != [] && left[0].script == id && left[0].kind.Error? ==> Fails(left, id) && BeforeError(left, id) == []
    ensures left == [] ==> !Fails(left, id)
  {
  }

  /**
   The waiting part of con:exec, for every interleaving of the camera's steps and the host's calls.
   If the script writes no error message, exec ends when the script has ended and no message is
   left. The caller then has its user messages and its return values or messages in the order in
   which they were written, and nothing of other scripts. Otherwise exec ends with the first error
   message. A message of unexpected type never turns up.
   */
  method Exec(con: Con, id: nat, o: ExecOptions, msgs0: Sink, rets0: Sink)
    returns (end: Ending, msgs: Sink, rets: Sink)
    requires Sound(con.camera)
    modifies con`camera, con`turns, con`reports, con`log
    ensures Sound(con.camera) && !end.WrongMessage?
    ensures var all := All(old(con.camera));
            match end
            case Finished(results) =>
              !Fails(all, id) && con.camera == Camera([], [], false)
              && Given(id, all, msgs0, msgs, User) && Given(id, all, rets0, rets, Return)
              && (rets0.Sink? ==> results == [])
              && (rets0.NoSink? ==> exists vs :: Sent(o, Mine(all, id, Return), vs) && results == vs[..MaxN(vs)])
            case RuntimeError(m) =>
              var seen := BeforeError(all, id);
              Fails(all, id) && seen + [m] + All(con.camera) == all
              && Given(id, seen, msgs0, msgs, User) && Given(id, seen, rets0, rets, Return)
            case WrongMessage(_) => false
  {
    hide Fails, Mine, BeforeError, Values, MaxN, Given, Looping, Logged, Schedule, Shows, AwaitedAt, TimeRunsOut,
      FullSchedule, AfterPolls, Look, Returned, Sound, Sent, All, Advanced;
    msgs, rets := msgs0, rets0;
    var results := [];
    ghost var all, seen: seq<Message> := All(con.camera), [];
    LoopStarts(o, id, all, msgs0, rets0);
    while true
      invariant Sound(con.camera) && Looping(o, id, all, seen, All(con.camera), msgs0, rets0, msgs, rets, results)
      decreases |con.turns| + |All(con.camera)|
    {
      var status;
      ghost var sleeps;
      ghost var x, w := con.Now(), Waiting(o);
      EndShows(w, x);
      status, sleeps := WaitStatus(con, Waiting(o));
      ScriptSeen(w, x, |sleeps|, status);
      if status.value.msg {
        SoundHead(con.camera);
        var m := con.ReadMsg();
        ghost var msgs1, rets1, results1 := msgs, rets, results;
        var failed;
        failed, msgs, rets, results := TakeMessage(id, o, m, msgs, rets, results);
        if failed.Some? {
          LoopFails(o, id, all, seen, m, All(con.camera), msgs0, rets0, msgs, rets, results);
          return failed.value, msgs, rets;
        }
        LoopGoesOn(o, id, all, seen, m, All(con.camera), msgs0, rets0, msgs1, rets1, results1, msgs, rets, results);
        seen := seen + [m];
      } else if !status.value.run {
        EndedIsComplete(con.camera);
        NothingLeft(con.camera);
        LoopEnds(o, id, all, seen, msgs0, rets0, msgs, rets, results);
        if rets0.Sink? {
          return Finished([]), msgs, rets;
        }
        ValuesBack(o, Mine(all, id, Return), results);
        return Finished(results[..MaxN(results)]), msgs, rets;
      }
    }
  }

  /**
   exec returns exactly the script's values if and only if there are none or the last one is not
   nil. What it leaves out are the nils at the end, and only those.
   */
  lemma {:induction false} TrailingNilsAreLost(values: seq<Lua>)
    ensures values[..MaxN(values)] == values <==> values == [] || values[|values| - 1] != Nil
    ensures MaxN(values) != 0 ==> values[MaxN(values) - 1] != Nil
    ensures forall k :: MaxN(values) <= k < |values| ==> values[k] == Nil
  {
    if values != [] && values[|values| - 1] == Nil {
      var front := values[..|values| - 1];
      TrailingNilsAreLost(front);
      assert MaxN(values) <= |front|;
      forall k | MaxN(values) <= k < |values|
        ensures values[k] == Nil
      {
        if k < |front| { assert values[k] == front[k]; }
      }
    } else {
      assert values[..|values|] == values;
    }
  }
}
