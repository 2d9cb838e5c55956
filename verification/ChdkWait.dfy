/** Polling with a growing interval: wait_status of chdku.lua. Times are whole milliseconds. */
module ChdkWait {
  import opened Arithmetic
  import opened Words
  import opened ChdkCamera

  /** The options after defaults; pollstart is None for false. */
  datatype WaitOptions = WaitOptions(run: Option<bool>, msg: Option<bool>, rsdata: bool, timeout: nat,
                                     timeoutError: bool, poll: nat, pollstart: Option<nat>, initwait: Option<nat>)

  function Interval(o: WaitOptions): nat { if o.poll < 50 then 50 else o.poll }

  function FirstInterval(o: WaitOptions): nat { if o.pollstart.Some? then o.pollstart.value else Interval(o) }

  function InitWait(o: WaitOptions): nat { if o.initwait.Some? then o.initwait.value else 0 }

  /** The status is one that the caller waits for. */
  predicate Awaited(o: WaitOptions, s: Status) {
    (o.rsdata && s.rsdata != 0) || o.run == Some(s.run) || o.msg == Some(s.msg)
  }

  /** What a poll sees. */
  function Look(o: WaitOptions, x: Scene): Status {
    var c := Advanced(x.camera, x.turns);
    var types := if o.rsdata && x.reports != [] then x.reports[0].0 else 0;
    Status(c.running, c.queue != [], types, if types != 0 then x.reports[0].1 else 0, false)
  }

  /** What a poll leaves behind. */
  function AfterPoll(o: WaitOptions, x: Scene): Scene {
    Scene(Advanced(x.camera, x.turns), Tail(x.turns), if o.rsdata then Tail(x.reports) else x.reports)
  }

  function AfterPolls(o: WaitOptions, x: Scene, n: nat): Scene {
    if n == 0 then x else AfterPoll(o, AfterPolls(o, x, n - 1))
  }

  /** Poll number n, counted from 0, sees what is awaited. */
  predicate AwaitedAt(o: WaitOptions, x: Scene, n: nat) {
    Awaited(o, Look(o, AfterPolls(o, x, n)))
  }

  /** Some poll sees what is awaited. */
  ghost predicate Shows(o: WaitOptions, x: Scene) {
    exists n: nat :: AwaitedAt(o, x, n)
  }

  /** Polls lose no message, and each of them uses up one turn of the schedule, if there is one. */
  lemma {:induction false} PollsKeep(o: WaitOptions, x: Scene, n: nat)
    requires Sound(x.camera)
    ensures var y := AfterPolls(o, x, n);
            Sound(y.camera) && All(y.camera) == All(x.camera) && |y.turns| == Max(|x.turns| - n, 0)
            && (n > |x.turns| ==> y.camera.todo == [] && !y.camera.running) && (!o.rsdata ==> y.reports == x.reports)
  {
    if n > 0 {
      PollsKeep(o, x, n - 1);
      var y := AfterPolls(o, x, n - 1);
      AdvanceKeeps(y.camera, y.turns);
    }
  }

  /** A wait for the end of a script shows, at the latest when the schedule is used up. */
  lemma EndShows(o: WaitOptions, x: Scene)
    requires Sound(x.camera) && o.run == Some(false)
    ensures Shows(o, x)
  {
    PollsKeep(o, x, |x.turns| + 1);
    assert AwaitedAt(o, x, |x.turns|);
  }

  /** Each poll uses up a turn of the schedule, and a report if reports are read. */
  lemma {:induction false} PollsTaken(o: WaitOptions, x: Scene, n: nat)
    ensures AfterPolls(o, x, n).turns == x.turns[Min(n, |x.turns|)..]
    ensures AfterPolls(o, x, n).reports == if o.rsdata then x.reports[Min(n, |x.reports|)..] else x.reports
  {
    hide Advanced;
    if n > 0 {
      PollsTaken(o, x, n - 1);
    }
  }

  /** The camera has then taken as many steps as those turns say. */
  lemma {:induction false} StepsTaken(o: WaitOptions, x: Scene, n: nat)
    requires n <= |x.turns|
    ensures AfterPolls(o, x, n).camera == Steps(x.camera, Sum(x.turns[..n]))
  {
    hide Steps, Sum;
    if n > 0 {
      StepsTaken(o, x, n - 1);
      PollsTaken(o, x, n - 1);
      assert x.turns[..n] == x.turns[..n - 1] + [x.turns[n - 1]];
      SumOn(x.turns[..n - 1], x.turns[n - 1]);
      StepsAdd(x.camera, Sum(x.turns[..n - 1]), x.turns[n - 1]);
    } else {
      NoSteps(x.camera);
    }
  }

  lemma NoSteps(c: Camera)
    ensures Steps(c, 0) == c && Sum([]) == 0
  {
  }

  lemma {:induction false} SumOn(s: seq<nat>, t: nat)
    ensures Sum(s + [t]) == Sum(s) + t
  {
    if s == [] {
      assert [t][1..] == [];
    } else {
      assert (s + [t])[1..] == s[1..] + [t];
      SumOn(s[1..], t);
    }
  }

  /**
   What a poll waits for: a report of data, if reports are read, the running flag as asked for, or
   the presence of a message as asked for. Nothing else ends a wait.
   */
  lemma AwaitedSees(o: WaitOptions, x: Scene, n: nat)
    ensures var c := AfterPolls(o, x, n + 1).camera;
            AwaitedAt(o, x, n)
            <==> || (o.rsdata && n < |x.reports| && x.reports[n].0 != 0)
                 || (match o.run case None => false case Some(run) => c.running <==> run)
                 || (match o.msg case None => false case Some(msg) => c.queue != [] <==> msg)
  {
    hide Advanced;
    PollsTaken(o, x, n);
  }

  /**
   When a wait for one flag shows. One for a message shows if and only if there is still one to be
   read, one for no message only if the first poll finds none, one for a running script only if it
   runs at the first poll, and one for the end of the script always.
   */
  lemma FlagShows(o: WaitOptions, x: Scene)
    requires Sound(x.camera) && !o.rsdata
    ensures o.run.None? && o.msg == Some(true) ==> (Shows(o, x) <==> All(x.camera) != [])
    ensures o.run.None? && o.msg == Some(false) ==> (Shows(o, x) <==> AfterPolls(o, x, 1).camera.queue == [])
    ensures o.run == Some(true) && o.msg.None? ==> (Shows(o, x) <==> AfterPolls(o, x, 1).camera.running)
    ensures o.run == Some(false) ==> Shows(o, x)
  {
    hide All, Sound, Awaited, Look;
    AwaitedSees(o, x, 0);
    if o.run == Some(false) {
      EndShows(o, x);
    }
    if o.run.None? && o.msg == Some(true) && All(x.camera) != [] {
      AllWritten(o, x);
      AwaitedSees(o, x, |x.turns|);
      assert AwaitedAt(o, x, |x.turns|);
    }
    if Shows(o, x) {
      var n: nat :| AwaitedAt(o, x, n);
      AwaitedSees(o, x, n);
      PollsGrow(o, x, 1, n + 1);
      MessageComes(o, x, n + 1);
    } else {
      assert !AwaitedAt(o, x, 0);
    }
  }

  lemma AllWritten(o: WaitOptions, x: Scene)
    requires Sound(x.camera)
    ensures AfterPolls(o, x, |x.turns| + 1).camera.queue == All(x.camera)
  {
    PollsKeep(o, x, |x.turns| + 1);
  }

  lemma MessageComes(o: WaitOptions, x: Scene, n: nat)
    requires Sound(x.camera)
    ensures AfterPolls(o, x, n).camera.queue != [] ==> All(x.camera) != []
  {
    PollsKeep(o, x, n);
  }

  /** While only polls go on, messages are added and the script may end; nothing is taken back. */
  lemma {:induction false} PollsGrow(o: WaitOptions, x: Scene, m: nat, n: nat)
    requires Sound(x.camera) && m <= n
    ensures AfterPolls(o, x, m).camera.queue <= AfterPolls(o, x, n).camera.queue
    ensures AfterPolls(o, x, n).camera.running ==> AfterPolls(o, x, m).camera.running
    decreases n
  {
    hide Sound, Steps;
    if m < n {
      PollsGrow(o, x, m, n - 1);
      PollsKeep(o, x, n - 1);
      var y := AfterPolls(o, x, n - 1);
      AdvanceKeeps(y.camera, y.turns);
      StepsAdd(y.camera, if y.turns == [] then |y.camera.todo| + 1 else y.turns[0], 0);
    }
  }

  /** How long to sleep next, after a sleep of the given length. */
  function NextSleep(last: nat, poll: nat, ramp: bool, left: nat): nat {
    var s := if ramp && last < poll then (if 2 * last > poll then poll else 2 * last) else last;
    if left < s then left else s
  }

  /** What a round of the loop that does not return changes: the time left and the last sleep. */
  datatype Clock = Clock(left: int, last: nat)

  function Round(c: Clock, poll: nat, ramp: bool): Clock {
    if c.left <= 0 then c else var s := NextSleep(c.last, poll, ramp, c.left); Clock(c.left - s, s)
  }

  function Rounds(c: Clock, poll: nat, ramp: bool, n: nat): Clock
    decreases n
  {
    if n == 0 then c else Rounds(Round(c, poll, ramp), poll, ramp, n - 1)
  }

  function Start(o: WaitOptions): Clock { Clock(o.timeout - InitWait(o), FirstInterval(o)) }

  /** The guard that decides whether the timeout is ever reached. */
  predicate TimeRunsOut(o: WaitOptions) {
    o.pollstart != Some(0) || o.timeout <= InitWait(o)
  }

  /** All sleeps until the time is used up. */
  function Schedule(left: int, last: nat, poll: nat, ramp: bool): seq<nat>
    requires poll > 0 && (last > 0 || left <= 0)
    decreases left
  {
    if left <= 0 then []
    else
      var s := NextSleep(last, poll, ramp, left);
      [s] + Schedule(left - s, s, poll, ramp)
  }

  /** The sleeps after the first wait, if nothing that is waited for ever happens. */
  function FullSchedule(o: WaitOptions): seq<nat>
    requires TimeRunsOut(o)
  {
    Schedule(o.timeout - InitWait(o), FirstInterval(o), Interval(o), o.pollstart.Some?)
  }

  function Sum(s: seq<nat>): nat {
    if s == [] then 0 else s[0] + Sum(s[1..])
  }

  /** A poll before every sleep and one after the last. */
  function PollsAround(sleeps: seq<nat>): seq<Action> {
    if sleeps == [] then [Polled] else [Polled, Slept(sleeps[0])] + PollsAround(sleeps[1..])
  }

  /** An interval that starts at zero never grows, and while time is left no number of rounds uses up any of it. */
  lemma {:induction false} ZeroIntervalIsStuck(left: int, poll: nat, n: nat)
    requires left > 0
    ensures Rounds(Clock(left, 0), poll, true, n) == Clock(left, 0)
    decreases n
  {
    if n > 0 {
      ZeroIntervalIsStuck(left, poll, n - 1);
    }
  }

  lemma {:induction false} ScheduleEnds(left: int, last: nat, poll: nat, ramp: bool)
    requires poll > 0 && (last > 0 || left <= 0)
    ensures Rounds(Clock(left, last), poll, ramp, |Schedule(left, last, poll, ramp)|).left <= 0
    decreases left
  {
    if left > 0 {
      var s := NextSleep(last, poll, ramp, left);
      ScheduleEnds(left - s, s, poll, ramp);
    }
  }

  /**
   Without an awaited status the loop uses up its time if and only if pollstart is not 0 or no time is
   left at the start.
   */
  lemma TimeIsUsedUp(o: WaitOptions)
    ensures (exists n: nat :: Rounds(Start(o), Interval(o), o.pollstart.Some?, n).left <= 0) <==> TimeRunsOut(o)
  {
    if TimeRunsOut(o) {
      ScheduleEnds(o.timeout - InitWait(o), FirstInterval(o), Interval(o), o.pollstart.Some?);
      assert Rounds(Start(o), Interval(o), o.pollstart.Some?, |FullSchedule(o)|).left <= 0;
    } else {
      forall n: nat
        ensures Rounds(Start(o), Interval(o), o.pollstart.Some?, n).left > 0
      {
        ZeroIntervalIsStuck(o.timeout - InitWait(o), Interval(o), n);
      }
    }
  }

  /** Sleep number k, counted from 0: doubled k + 1 times from the first interval up to poll. */
  lemma {:induction false} ScheduleAt(left: int, last: nat, poll: nat, ramp: bool, k: nat)
    requires poll > 0 && last > 0 && k < |Schedule(left, last, poll, ramp)|
    ensures var s := Schedule(left, last, poll, ramp);
            var full := if ramp && last < poll then Min(last * Pow2(k + 1), poll) else last;
            if k < |s| - 1 then s[k] == full else 0 < s[k] <= full
    decreases k
  {
    hide Pow2;
    var s := NextSleep(last, poll, ramp, left);
    var more := Schedule(left - s, s, poll, ramp);
    assert more != [] ==> left - s > 0;
    PowerStep(last, k);
    if k > 0 {
      assert Schedule(left, last, poll, ramp)[k] == more[k - 1];
      ScheduleAt(left - s, s, poll, ramp, k - 1);
    }
  }

  lemma Regroup(a: nat, b: nat)
    ensures a * (2 * b) == 2 * a * b
  {
  }

  lemma PowerStep(last: nat, k: nat)
    ensures k == 0 ==> last * Pow2(k + 1) == 2 * last
    ensures k > 0 ==> last * Pow2(k + 1) == 2 * last * Pow2(k) && last * Pow2(k + 1) >= 2 * last
  {
    if k > 0 {
      Regroup(last, Pow2(k));
      Multiple(2 * last, Pow2(k));
    }
  }

  /**
   The sleeps of a wait that times out. Without pollstart, each is as long as poll, but at least
   50 ms. With pollstart, they grow from twice that to poll by doubling, or stay at pollstart if that
   is no less than poll. Only the last one may be shorter.
   */
  lemma SleepsAre(o: WaitOptions, k: nat)
    requires o.pollstart != Some(0) && k < |FullSchedule(o)|
    ensures var s, poll := FullSchedule(o), Max(o.poll, 50);
            var full := match o.pollstart
                        case None => poll
                        case Some(start) => if start < poll then Min(start * Pow2(k + 1), poll) else start;
            if k < |s| - 1 then s[k] == full else 0 < s[k] <= full
  {
    ScheduleAt(o.timeout - InitWait(o), FirstInterval(o), Interval(o), o.pollstart.Some?, k);
  }

  /** The sleeps take exactly the time that is left. */
  lemma {:induction false} ScheduleUsesAll(left: int, last: nat, poll: nat, ramp: bool)
    requires poll > 0 && (last > 0 || left <= 0)
    ensures Sum(Schedule(left, last, poll, ramp)) == Max(left, 0)
    decreases left
  {
    if left > 0 {
      var s := NextSleep(last, poll, ramp, left);
      ScheduleUsesAll(left - s, s, poll, ramp);
      assert Schedule(left, last, poll, ramp)[1..] == Schedule(left - s, s, poll, ramp);
    }
  }

  /** How often an interval is doubled before it reaches poll: the logarithm of poll / from to base 2, rounded up. */
  function Doublings(from: nat, poll: nat): nat
    requires from > 0
    decreases poll - from
  {
    if from >= poll then 0 else 1 + Doublings(2 * from, poll)
  }

  lemma {:induction false} DoublingsIsLog(from: nat, poll: nat)
    requires from > 0
    ensures from * Pow2(Doublings(from, poll)) >= poll
    ensures Doublings(from, poll) > 0 ==> from * Pow2(Doublings(from, poll) - 1) < poll
    decreases poll - from
  {
    if from < poll {
      DoublingsIsLog(2 * from, poll);
      var k := Doublings(2 * from, poll);
      Regroup(from, Pow2(k));
      if k > 0 {
        Regroup(from, Pow2(k - 1));
      }
    }
  }

  /** n / d rounded up. */
  function CeilDiv(n: nat, d: nat): nat
    requires d > 0
  {
    (n + d - 1) / d
  }

  lemma CeilStep(n: nat, d: nat)
    requires 0 < d <= n
    ensures CeilDiv(n, d) == CeilDiv(n - d, d) + 1
  {
    assert n + d - 1 == (n - d + d - 1) + d;
    DivStep(n - 1, d);
  }

  lemma CeilOne(n: nat, d: nat)
    requires 0 < n <= d
    ensures CeilDiv(n, d) == 1
  {
    DivModIs(n + d - 1, d, 1, n - 1);
  }

  /** With the full interval reached, every sleep but the last takes the whole interval. */
  lemma {:induction false} SteadySleeps(left: int, last: nat, poll: nat, ramp: bool)
    requires 0 < poll <= last
    ensures |Schedule(left, last, poll, ramp)| == CeilDiv(Max(left, 0), last)
    decreases left
  {
    if left <= 0 {
      DivModIs(last - 1, last, 0, last - 1);
    } else if left <= last {
      CeilOne(left, last);
      assert Schedule(left - left, left, poll, ramp) == [];
    } else {
      SteadySleeps(left - last, last, poll, ramp);
      CeilStep(left, last);
    }
  }

  /** CeilDiv never falls when the time grows. */
  lemma CeilGrows(a: nat, b: nat, d: nat)
    requires a <= b && d > 0
    ensures CeilDiv(a, d) <= CeilDiv(b, d)
  {
    var x, y := a + d - 1, b + d - 1;
    assert x == d * (x / d) + x % d && y == d * (y / d) + y % d;
    Multiple(d, x / d - y / d);
    assert d * (x / d - y / d) == d * (x / d) - d * (y / d);
  }

  /**
   The number of sleeps: one for each doubling but the last, and then one for each full interval
   that fits into the time, rounded up.
   */
  lemma {:induction false} ScheduleBound(left: int, last: nat, poll: nat)
    requires 0 < last <= poll
    ensures |Schedule(left, last, poll, true)| <= Max(Doublings(last, poll) - 1, 0) + CeilDiv(Max(left, 0), poll)
    decreases left
  {
    if last == poll {
      SteadySleeps(left, last, poll, true);
    } else if left > 0 {
      var s := NextSleep(last, poll, true, left);
      var more := Schedule(left - s, s, poll, true);
      if left - s <= 0 {
        assert more == [];
        CeilGrows(1, left, poll);
        CeilOne(1, poll);
      } else {
        assert s == if 2 * last > poll then poll else 2 * last;
        ScheduleBound(left - s, s, poll);
        if s == poll {
          CeilStep(left, poll);
        } else {
          CeilGrows(left - s, left, poll);
        }
      }
    }
  }

  /** What one call adds to the log. */
  function Logged(o: WaitOptions, sleeps: seq<nat>): seq<Action> {
    (if o.initwait.Some? then [Slept(o.initwait.value)] else []) + PollsAround(sleeps)
  }

  lemma {:induction false} OneMoreSleep(log: seq<Action>, sleeps: seq<nat>, s: nat)
    ensures log + PollsAround(sleeps) + [Slept(s)] + [Polled] == log + PollsAround(sleeps + [s])
    decreases |sleeps|
  {
    if sleeps != [] {
      var head := [Polled, Slept(sleeps[0])];
      OneMoreSleep(log + head, sleeps[1..], s);
      assert (sleeps + [s])[1..] == sleeps[1..] + [s];
      assert log + head + PollsAround(sleeps[1..] + [s]) == log + (head + PollsAround(sleeps[1..] + [s]));
      assert log + head + PollsAround(sleeps[1..]) == log + (head + PollsAround(sleeps[1..]));
    } else {
      assert [s][1..] == [];
    }
  }

  lemma Regrouped(a: seq<nat>, s: nat, b: seq<nat>)
    ensures a + ([s] + b) == a + [s] + b && a <= a + ([s] + b)
  {
  }

  lemma FirstPoll(log: seq<Action>)
    ensures log + [Polled] == log + PollsAround([])
  {
  }

  lemma ScheduleStep(left: int, last: nat, poll: nat, ramp: bool)
    requires poll > 0 && (last > 0 || left <= 0)
    ensures if left <= 0 then Schedule(left, last, poll, ramp) == []
            else var s := NextSleep(last, poll, ramp, left);
                 s > 0 && Schedule(left, last, poll, ramp) == [s] + Schedule(left - s, s, poll, ramp)
  {
  }

  lemma LoggedAs(o: WaitOptions, was: seq<Action>, begun: seq<Action>, sleeps: seq<nat>)
    requires begun == if o.initwait.Some? then was + [Slept(o.initwait.value)] else was
    ensures begun + PollsAround(sleeps) == was + Logged(o, sleeps)
  {
    hide PollsAround;
    if o.initwait.Some? {
      assert was + ([Slept(o.initwait.value)] + PollsAround(sleeps)) == begun + PollsAround(sleeps);
    } else {
      assert [] + PollsAround(sleeps) == PollsAround(sleeps);
    }
  }

  /** One look at the camera, as wait_status takes it before every sleep and after the last. */
  method Poll(con: Con, o: WaitOptions) returns (s: Status)
    modifies con`camera, con`turns, con`reports, con`log
    ensures s == Look(o, old(con.Now())) && con.Now() == AfterPoll(o, old(con.Now()))
    ensures con.log == old(con.log) + [Polled]
  {
    var run, msg := con.ScriptStatus();
    s := Status(run, msg, 0, 0, false);
    if o.rsdata {
      var types, image := con.CaptureReady();
      s := Status(run, msg, types, if types != 0 then image else 0, false);
    }
  }

  /** The sleep between two polls: the interval is doubled up to poll, and cut to the time left. */
  method SleepOn(con: Con, last: nat, poll: nat, ramp: bool, left: nat) returns (sleeptime: nat)
    modifies con`log
    ensures sleeptime == NextSleep(last, poll, ramp, left) && con.log == old(con.log) + [Slept(sleeptime)]
  {
    sleeptime := last;
    if ramp && sleeptime < poll {
      sleeptime := sleeptime * 2;
      if sleeptime > poll {
        sleeptime := poll;
      }
    }
    if left < sleeptime {
      sleeptime := left;
    }
    con.Sleep(sleeptime);
  }

  /** How far a wait has got: the sleeps so far are the front of the schedule, or all zero if it is stuck. */
  predicate Underway(o: WaitOptions, sleeps: seq<nat>, timeleft: int, sleeptime: nat) {
    if TimeRunsOut(o) then
      (sleeptime > 0 || timeleft <= 0)
      && FullSchedule(o) == sleeps + Schedule(timeleft, sleeptime, Interval(o), o.pollstart.Some?)
    else
      sleeptime == 0 && timeleft > 0 && o.pollstart.Some? && forall k :: 0 <= k < |sleeps| ==> sleeps[k] == 0
  }

  lemma SleptMore(o: WaitOptions, sleeps: seq<nat>, timeleft: int, sleeptime: nat)
    requires Underway(o, sleeps, timeleft, sleeptime)
    ensures timeleft <= 0 ==> TimeRunsOut(o) && sleeps == FullSchedule(o)
    ensures timeleft > 0 ==> var s := NextSleep(sleeptime, Interval(o), o.pollstart.Some?, timeleft);
              Underway(o, sleeps + [s], timeleft - s, s) && (TimeRunsOut(o) ==> s > 0)
  {
    if TimeRunsOut(o) {
      ScheduleStep(timeleft, sleeptime, Interval(o), o.pollstart.Some?);
      if timeleft > 0 {
        var s := NextSleep(sleeptime, Interval(o), o.pollstart.Some?, timeleft);
        Regrouped(sleeps, s, Schedule(timeleft - s, s, Interval(o), o.pollstart.Some?));
      }
    }
  }

  /** What wait_status returns after a last poll. */
  function Returned(o: WaitOptions, last: Status): Option<Status> {
    if Awaited(o, last) then Some(last) else if o.timeoutError then None else Some(last.(timeout := true))
  }

  /**
   What the status says: both flags as the camera then has them, the report that this poll has read
   if it says that something is ready and zeros otherwise, and whether the wait has timed out.
   */
  lemma StatusIs(o: WaitOptions, x: Scene, n: nat)
    ensures var c := AfterPolls(o, x, n + 1).camera;
            var r := if o.rsdata && n < |x.reports| && x.reports[n].0 != 0 then x.reports[n] else (0, 0);
            Returned(o, Look(o, AfterPolls(o, x, n)))
            == if AwaitedAt(o, x, n) then Some(Status(c.running, c.queue != [], r.0, r.1, false))
               else if o.timeoutError then None
               else Some(Status(c.running, c.queue != [], r.0, r.1, true))
  {
    hide Advanced;
    PollsTaken(o, x, n);
  }

  /**
   con:wait_status. It returns at the first poll that finds what is waited for. If none does, it has
   slept through the whole schedule and polled once more; then it throws (None) or says so in the
   status. If the time never runs out, see TimeIsUsedUp, it polls without sleeping until the awaited
   status shows, and would not return without one.
   */
  method WaitStatus(con: Con, o: WaitOptions) returns (s: Option<Status>, ghost sleeps: seq<nat>)
    requires TimeRunsOut(o) || Shows(o, con.Now())
    modifies con`camera, con`turns, con`reports, con`log
    ensures con.Now() == AfterPolls(o, old(con.Now()), |sleeps| + 1)
    ensures con.log == old(con.log) + Logged(o, sleeps)
    ensures forall k :: 0 <= k < |sleeps| ==> !AwaitedAt(o, old(con.Now()), k)
    ensures s == Returned(o, Look(o, AfterPolls(o, old(con.Now()), |sleeps|)))
    ensures TimeRunsOut(o) ==>
              sleeps <= FullSchedule(o) && (!AwaitedAt(o, old(con.Now()), |sleeps|) ==> sleeps == FullSchedule(o))
    ensures !TimeRunsOut(o) ==>
              AwaitedAt(o, old(con.Now()), |sleeps|) && forall k :: 0 <= k < |sleeps| ==> sleeps[k] == 0
  {
    hide PollsAround, Logged, NextSleep, Awaited, Look, AfterPoll, FullSchedule, Schedule;
    var poll := Interval(o);
    var sleeptime: nat := if o.pollstart.Some? then o.pollstart.value else poll;
    var timeleft: int := o.timeout;
    ghost var was, x := con.log, con.Now();
    ghost var end: nat := if TimeRunsOut(o) then 0 else var n: nat :| AwaitedAt(o, x, n); n;
    if o.initwait.Some? {
      con.Sleep(o.initwait.value);
      timeleft := timeleft - o.initwait.value;
    }
    ghost var begun := con.log;
    sleeps := [];
    FirstPoll(begun);
    SleptFirst(o);
    while true
      invariant con.Now() == AfterPolls(o, x, |sleeps|)
      invariant forall k :: 0 <= k < |sleeps| ==> !AwaitedAt(o, x, k)
      invariant Underway(o, sleeps, timeleft, sleeptime)
      invariant con.log + [Polled] == begun + PollsAround(sleeps)
      invariant !TimeRunsOut(o) ==> |sleeps| <= end
      decreases if TimeRunsOut(o) then timeleft else end - |sleeps|
    {
      var status := Poll(con, o);
      LoggedAs(o, was, begun, sleeps);
      SleptSoFar(o, sleeps, timeleft, sleeptime);
      if Awaited(o, status) {
        return Some(status), sleeps;
      }
      assert !AwaitedAt(o, x, |sleeps|);
      SleptMore(o, sleeps, timeleft, sleeptime);
      if timeleft > 0 {
        sleeptime := SleepOn(con, sleeptime, poll, o.pollstart.Some?, timeleft);
        timeleft := timeleft - sleeptime;
        OneMoreSleep(begun, sleeps, sleeptime);
        sleeps := sleeps + [sleeptime];
      } else {
        if o.timeoutError {
          return None, sleeps;
        }
        return Some(status.(timeout := true)), sleeps;
      }
    }
  }

  lemma SleptFirst(o: WaitOptions)
    ensures Underway(o, [], o.timeout - InitWait(o), FirstInterval(o))
  {
  }

  lemma SleptSoFar(o: WaitOptions, sleeps: seq<nat>, timeleft: int, sleeptime: nat)
    requires Underway(o, sleeps, timeleft, sleeptime)
    ensures if TimeRunsOut(o) then sleeps <= FullSchedule(o) else forall k :: 0 <= k < |sleeps| ==> sleeps[k] == 0
  {
  }

  function WaitsFirst(o: WaitOptions): nat { if o.initwait.Some? then 1 else 0 }

  /** The intervals of length d that fit into the time after the first wait, rounded up. */
  function Intervals(o: WaitOptions, d: nat): nat
    requires d > 0
  {
    CeilDiv(Max(o.timeout - InitWait(o), 0), d)
  }

  /**
   A wait that times out has slept exactly for the timeout, unless the first wait alone is longer.
   It has slept at most once for each doubling but the last and once for each interval that fits.
   */
  lemma WaitBudget(o: WaitOptions)
    requires TimeRunsOut(o)
    ensures InitWait(o) + Sum(FullSchedule(o)) == Max(o.timeout, InitWait(o))
    ensures var poll := Max(o.poll, 50);
            var first := match o.pollstart case Some(start) => start case None => poll;
            && (0 < first <= poll ==>
                  |FullSchedule(o)| <= Max(Doublings(first, poll) - 1, 0) + Intervals(o, poll))
            && (first >= poll > 0 ==> |FullSchedule(o)| == Intervals(o, first))
  {
    var left, first := o.timeout - InitWait(o), FirstInterval(o);
    ScheduleUsesAll(left, first, Interval(o), o.pollstart.Some?);
    if first >= Interval(o) {
      SteadySleeps(left, first, Interval(o), o.pollstart.Some?);
    } else if first > 0 {
      ScheduleBound(left, first, Interval(o));
    }
  }

  /** Counting the first wait too, the bound is one sleep for each doubling and one for each interval. */
  lemma WaitCount(o: WaitOptions)
    requires o.pollstart.Some? && 0 < o.pollstart.value < Max(o.poll, 50)
    ensures WaitsFirst(o) + |FullSchedule(o)|
            <= Doublings(o.pollstart.value, Max(o.poll, 50)) + CeilDiv(o.timeout, Max(o.poll, 50))
  {
    WaitBudget(o);
    CeilGrows(Max(o.timeout - InitWait(o), 0), o.timeout, Interval(o));
  }

  /** Without any doubling that bound holds if and only if there is no first wait or it saves a whole interval. */
  lemma CountWithoutDoubling(o: WaitOptions)
    requires FirstInterval(o) >= Interval(o)
    ensures WaitsFirst(o) + |FullSchedule(o)| <= CeilDiv(o.timeout, FirstInterval(o))
            <==> o.initwait.None? || Intervals(o, FirstInterval(o)) < CeilDiv(o.timeout, FirstInterval(o))
  {
    WaitBudget(o);
  }
}
