/**
 The camera as the script functions of chdku.lua see it: a queue of script messages, a running
 flag, and a script that appends messages and then stops. The camera takes any number of steps
 before each call of the host, as a schedule says, so that every interleaving is covered.
 */
module ChdkCamera {
  import opened Words

  /** A Lua value that a message carries, or nil. */
  datatype Lua = Nil | Value(text: string)

  datatype Kind = User | Return | Error | NoMessage

  datatype Message = Message(script: nat, kind: Kind, isTable: bool, value: Lua)

  /** Camera state: messages not read yet, messages that are still going to be written, and the running flag. */
  datatype Camera = Camera(queue: seq<Message>, todo: seq<Message>, running: bool)

  /** Messages are written while a script runs, and each of them has a type. */
  predicate Sound(c: Camera) {
    (c.todo != [] ==> c.running) && forall m :: m in All(c) ==> !m.kind.NoMessage?
  }

  /** Every message that the host has still to read, in the order it will see them. */
  function All(c: Camera): seq<Message> { c.queue + c.todo }

  /** What the camera does in n steps: it writes that many messages, and the step after the last ends the script. */
  lemma {:induction false} StepsWrite(c: Camera, n: nat)
    ensures n <= |c.todo| ==> Steps(c, n) == Camera(c.queue + c.todo[..n], c.todo[n..], c.running)
    ensures n > |c.todo| ==> Steps(c, n) == Camera(c.queue + c.todo, [], false)
    decreases n
  {
    if n > 0 {
      StepsWrite(Step(c), n - 1);
    }
  }

  /** One step of the camera: the next message is written, or the script ends. */
  function Step(c: Camera): Camera {
    if c.todo != [] then Camera(c.queue + [c.todo[0]], c.todo[1..], c.running) else c.(running := false)
  }

  function Steps(c: Camera, n: nat): Camera
    decreases n
  {
    if n == 0 then c else Steps(Step(c), n - 1)
  }

  /** Steps neither lose nor reorder messages. */
  lemma {:induction false} StepsKeep(c: Camera, n: nat)
    ensures All(Steps(c, n)) == All(c) && c.queue <= Steps(c, n).queue
    ensures Sound(c) ==> Sound(Steps(c, n))
    ensures n > |c.todo| ==> Steps(c, n).todo == [] && !Steps(c, n).running
    decreases n
  {
    if n > 0 {
      assert All(Step(c)) == All(c);
      StepsKeep(Step(c), n - 1);
    }
  }

  /** Steps add up, and a script that has ended does not run again. */
  lemma {:induction false} StepsAdd(c: Camera, m: nat, n: nat)
    ensures Steps(Steps(c, m), n) == Steps(c, m + n)
    ensures Steps(c, m).running ==> c.running
    decreases m
  {
    if m > 0 {
      StepsAdd(Step(c), m - 1, n);
    }
  }

  /** A script that has ended has written all it was going to write. */
  lemma EndedIsComplete(c: Camera)
    requires Sound(c) && !c.running
    ensures All(c) == c.queue
  {
  }

  /** The camera after its turn before a call of the host: what the schedule says, or everything it has left. */
  function Advanced(c: Camera, turns: seq<nat>): Camera {
    Steps(c, if turns == [] then |c.todo| + 1 else turns[0])
  }

  function Tail<T>(s: seq<T>): seq<T> { if s == [] then [] else s[1..] }

  lemma AdvanceKeeps(c: Camera, turns: seq<nat>)
    requires Sound(c)
    ensures var d := Advanced(c, turns);
            Sound(d) && All(d) == All(c) && c.queue <= d.queue && (turns == [] ==> d.todo == [] && !d.running)
  {
    StepsKeep(c, if turns == [] then |c.todo| + 1 else turns[0]);
  }

  /** The first message of the queue is the first of all that are to be read. */
  lemma SoundHead(c: Camera)
    requires Sound(c) && c.queue != []
    ensures var d := c.(queue := c.queue[1..]); Sound(d) && All(c) == [c.queue[0]] + All(d)
    ensures !c.queue[0].kind.NoMessage?
  {
    var d := c.(queue := c.queue[1..]);
    assert [c.queue[0]] + All(d) == [c.queue[0]] + c.queue[1..] + c.todo;
    assert c.queue[0] in All(c);
    forall m | m in All(d)
      ensures !m.kind.NoMessage?
    {
      assert m in All(c);
    }
  }

  /** What con:wait_status returns. */
  datatype Status = Status(run: bool, msg: bool, rsdata: nat, rsimgnum: nat, timeout: bool)

  /** All that the calls of the host depend on: see the fields of Con. */
  datatype Scene = Scene(camera: Camera, turns: seq<nat>, reports: seq<(nat, nat)>)

  /** What the host does besides reading messages. */
  datatype Action = Slept(ms: nat) | Polled

  /** A connection. */
  class Con {
    var camera: Camera
    /** How many steps the camera takes before each of the next calls; afterwards it takes all it has left. */
    var turns: seq<nat>
    /** What the next calls of capture_ready report: data types and image number. Afterwards nothing is ready. */
    var reports: seq<(nat, nat)>
    var log: seq<Action>

    constructor (camera: Camera, turns: seq<nat>, reports: seq<(nat, nat)>)
      requires Sound(camera)
      ensures this.camera == camera && this.turns == turns && this.reports == reports && log == []
    {
      this.camera, this.turns, this.reports, log := camera, turns, reports, [];
    }

    function Now(): Scene
      reads `camera, `turns, `reports
    {
      Scene(camera, turns, reports)
    }

    /** The camera takes its turn. */
    method Advance()
      modifies `camera, `turns
      ensures camera == Advanced(old(camera), old(turns)) && turns == Tail(old(turns))
    {
      camera := Steps(camera, if turns == [] then |camera.todo| + 1 else turns[0]);
      turns := if turns == [] then [] else turns[1..];
    }

    /** script_status: both flags are read at one time. */
    method ScriptStatus() returns (run: bool, msg: bool)
      modifies `camera, `turns, `log
      ensures camera == Advanced(old(camera), old(turns)) && turns == Tail(old(turns))
      ensures log == old(log) + [Polled] && run == camera.running && msg == (camera.queue != [])
    {
      Advance();
      log := log + [Polled];
      run, msg := camera.running, camera.queue != [];
    }

    /**
     read_msg: the oldest message that the camera has written by then, or one of type none exactly if
     there is none. Whichever it is, the other messages are left as they are.
     */
    method ReadMsg() returns (m: Message)
      requires Sound(camera)
      modifies `camera, `turns
      ensures var c := Advanced(old(camera), old(turns));
              if c.queue == [] then m.kind.NoMessage? && camera == c
              else !m.kind.NoMessage? && m == c.queue[0] && camera == c.(queue := c.queue[1..])
      ensures Sound(camera) && turns == Tail(old(turns))
      ensures All(old(camera)) == if m.kind.NoMessage? then All(camera) else [m] + All(camera)
      ensures old(camera.queue) != [] ==> m == old(camera.queue)[0]
    {
      AdvanceKeeps(camera, turns);
      Advance();
      if camera.queue == [] {
        m := Message(0, NoMessage, false, Nil);
      } else {
        m := camera.queue[0];
        SoundHead(camera);
        camera := camera.(queue := camera.queue[1..]);
      }
    }

    /** capture_ready */
    method CaptureReady() returns (types: nat, image: nat)
      modifies `reports
      ensures reports == Tail(old(reports)) && (types, image) == if old(reports) == [] then (0, 0) else old(reports)[0]
    {
      if reports == [] { return 0, 0; }
      types, image := reports[0].0, reports[0].1;
      reports := reports[1..];
    }

    method Sleep(ms: nat)
      modifies `log
      ensures log == old(log) + [Slept(ms)]
    {
      log := log + [Slept(ms)];
    }
  }
}
