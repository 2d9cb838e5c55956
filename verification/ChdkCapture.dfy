/** Fetching remote capture data: capture_get_data of chdku.lua. Handlers are taken not to throw. */
module ChdkCapture {
  import opened Arithmetic
  import opened Words
  import opened ChdkCamera
  import opened ChdkWait

  const TYPES := 4
  const NOT_SET := 0x1000_0000

  /** A call of the handler for one data type, with the image number it is given. */
  datatype Call = Call(kind: nat, image: nat)

  datatype Fetch = Done | TimedOut | ShootError | Unexpected(kind: nat)

  /** Bit i of a report. */
  predicate Has(types: nat, i: nat)
    requires i < TYPES
  {
    match i
    case 0 => types % 2 == 1
    case 1 => types / 2 % 2 == 1
    case 2 => types / 4 % 2 == 1
    case _ => types / 8 % 2 == 1
  }

  predicate HasAny(types: nat) {
    Has(types, 0) || Has(types, 1) || Has(types, 2) || Has(types, 3)
  }

  function Number(b: bool): nat { if b then 1 else 0 }

  lemma Halved(n: nat)
    ensures n == 2 * (n / 2) + n % 2
  {
  }

  lemma Quartered(n: nat)
    ensures n / 4 == n / 2 / 2 && n / 8 == n / 2 / 2 / 2
  {
    DivModIs(n, 4, n / 2 / 2, n - 4 * (n / 2 / 2));
    DivModIs(n, 8, n / 2 / 2 / 2, n - 8 * (n / 2 / 2 / 2));
  }

  lemma BitsAre(types: nat)
    ensures Number(Has(types, 0)) == types % 2 && Number(Has(types, 1)) == types / 2 % 2
    ensures Number(Has(types, 2)) == types / 2 / 2 % 2 && Number(Has(types, 3)) == types / 2 / 2 / 2 % 2
  {
    Quartered(types);
  }

  /** The types of a report are its lowest four bits: they add up to its value, jpg counting 1 and craw 8. */
  lemma ReportBits(types: nat)
    ensures types % 16
            == Number(Has(types, 0)) + 2 * Number(Has(types, 1)) + 4 * Number(Has(types, 2)) + 8 * Number(Has(types, 3))
    ensures HasAny(types) <==> types % 16 != 0
  {
    hide Has;
    BitsAre(types);
    var q := types / 2 / 2 / 2 / 2;
    Halved(types);
    Halved(types / 2);
    Halved(types / 2 / 2);
    Halved(types / 2 / 2 / 2);
    DivModIs(types, 16, q, types - 16 * q);
  }

  /** A report that something is ready names at least one of the four types. */
  predicate Naming(reports: seq<(nat, nat)>) {
    forall r :: r in reports ==> r.0 == 0 || r.0 == NOT_SET || HasAny(r.0)
  }

  /** The reports from the first one on that says that something is ready. */
  function FromReady(reports: seq<(nat, nat)>): (r: seq<(nat, nat)>)
    ensures |r| <= |reports| && (r != [] ==> r[0].0 != 0)
  {
    if reports == [] || reports[0].0 != 0 then reports else FromReady(reports[1..])
  }

  /** How many types are still to be fetched. */
  function Wanted(toget: seq<bool>): nat
    requires |toget| == TYPES
  {
    Number(toget[0]) + Number(toget[1]) + Number(toget[2]) + Number(toget[3])
  }

  /** What is still to be fetched after a report. */
  function ToGetAfter(toget: seq<bool>, types: nat): (left: seq<bool>)
    requires |toget| == TYPES
    ensures |left| == TYPES
  {
    seq(TYPES, i requires 0 <= i < TYPES => toget[i] && !Has(types, i))
  }

  predicate Surprising(toget: seq<bool>, types: nat, i: nat)
    requires |toget| == TYPES
  {
    i < TYPES && Has(types, i) && !toget[i]
  }

  /** The first type that is ready and not to be fetched, or None. */
  function Surprise(toget: seq<bool>, types: nat): Option<nat>
    requires |toget| == TYPES
  {
    if Surprising(toget, types, 0) then Some(0) else if Surprising(toget, types, 1) then Some(1)
    else if Surprising(toget, types, 2) then Some(2) else if Surprising(toget, types, 3) then Some(3) else None
  }

  /** How a fetch that does not run out of time ends: TimedOut says that the reports do not end it. */
  function Ending(reports: seq<(nat, nat)>, toget: seq<bool>): Fetch
    requires |toget| == TYPES
    decreases |reports|
  {
    var r := FromReady(reports);
    if r == [] then TimedOut
    else if r[0].0 == NOT_SET then ShootError
    else if Surprise(toget, r[0].0).Some? then Unexpected(Surprise(toget, r[0].0).value)
    else if Wanted(ToGetAfter(toget, r[0].0)) == 0 then Done
    else Ending(r[1..], ToGetAfter(toget, r[0].0))
  }

  /** The reports that say that something is ready. */
  function Ready(reports: seq<(nat, nat)>): seq<(nat, nat)> {
    if reports == [] then [] else (if reports[0].0 != 0 then [reports[0]] else []) + Ready(reports[1..])
  }

  /** How many of some reports name type i. */
  function Times(reports: seq<(nat, nat)>, i: nat): nat
    requires i < TYPES
  {
    if reports == [] then 0 else Number(Has(reports[0].0, i)) + Times(reports[1..], i)
  }

  /** No type is named more often than it was asked for, that is once or not at all. */
  predicate Within(reports: seq<(nat, nat)>, requested: seq<bool>)
    requires |requested| == TYPES
  {
    forall i :: 0 <= i < TYPES ==> Times(reports, i) <= Number(requested[i])
  }

  /** Every type asked for is named once, and no other is. */
  predicate Complete(reports: seq<(nat, nat)>, requested: seq<bool>)
    requires |requested| == TYPES
  {
    forall i :: 0 <= i < TYPES ==> Times(reports, i) == Number(requested[i])
  }

  lemma {:induction false} ReadyFrom(reports: seq<(nat, nat)>)
    ensures var r := FromReady(reports); Ready(reports) == if r == [] then [] else [r[0]] + Ready(r[1..])
  {
    if reports != [] && reports[0].0 == 0 {
      ReadyFrom(reports[1..]);
    }
  }

  lemma NamedOnce(r: (nat, nat), more: seq<(nat, nat)>, i: nat)
    requires i < TYPES
    ensures Times([r] + more, i) == Number(Has(r.0, i)) + Times(more, i)
  {
    hide Has;
    assert ([r] + more)[1..] == more;
  }

  /** One report that surprises nobody takes its types off those that are wanted. */
  lemma ReportTaken(r: (nat, nat), more: seq<(nat, nat)>, toget: seq<bool>)
    requires |toget| == TYPES && Surprise(toget, r.0).None?
    ensures var left := ToGetAfter(toget, r.0);
            && (Within([r] + more, toget) <==> Within(more, left))
            && (Complete([r] + more, toget) <==> Complete(more, left))
            && forall i :: 0 <= i < TYPES ==>
                 (Times([r] + more, i) <= Number(toget[i]) <==> Times(more, i) <= Number(left[i]))
  {
    hide Has, Times;
    forall i | 0 <= i < TYPES
      ensures Times([r] + more, i) + Number(ToGetAfter(toget, r.0)[i]) == Times(more, i) + Number(toget[i])
    {
      assert !Surprising(toget, r.0, i);
      NamedOnce(r, more, i);
    }
  }

  /** Type kind is the first that some reports name too often. */
  predicate FirstTooMany(reports: seq<(nat, nat)>, requested: seq<bool>, kind: nat)
    requires |requested| == TYPES
  {
    && kind < TYPES && Times(reports, kind) > Number(requested[kind])
    && forall j :: 0 <= j < kind ==> Times(reports, j) <= Number(requested[j])
  }

  /** What ending a fetch after n reports that are ready means. */
  ghost predicate EndsAt(ready: seq<(nat, nat)>, requested: seq<bool>, e: Fetch, n: nat)
    requires |requested| == TYPES
  {
    && n <= |ready| && (forall k :: 0 <= k < n ==> ready[k].0 != 0x1000_0000) && Within(ready[..n], requested)
    && (forall m :: 0 < m < n ==> !Complete(ready[..m], requested))
    && (e.Done? <==> n > 0 && Complete(ready[..n], requested))
    && (e.TimedOut? ==> n == |ready|)
    && (e.ShootError? ==> n < |ready| && ready[n].0 == 0x1000_0000)
    && (e.Unexpected? ==> n < |ready| && ready[n].0 != 0x1000_0000 && FirstTooMany(ready[..n + 1], requested, e.kind))
  }

  lemma FirstReport(r: (nat, nat), more: seq<(nat, nat)>, requested: seq<bool>)
    requires |requested| == TYPES
    ensures r.0 == NOT_SET ==> EndsAt([r] + more, requested, ShootError, 0)
    ensures var s := Surprise(requested, r.0);
            r.0 != NOT_SET && s.Some? ==> EndsAt([r] + more, requested, Unexpected(s.value), 0)
  {
    hide Has, Times;
    var ready := [r] + more;
    assert ready[..0] == [] && ready[..0 + 1] == [r] + [];
    forall i | 0 <= i < TYPES
      ensures Times([], i) == 0 && Times([r] + [], i) == Number(Has(r.0, i))
    {
      NoneNamed(i);
      NamedOnce(r, [], i);
    }
  }

  lemma NoneNamed(i: nat)
    requires i < TYPES
    ensures Times([], i) == 0
  {
  }

  /** A report that surprises nobody only puts the end off. */
  lemma LaterReport(r: (nat, nat), more: seq<(nat, nat)>, requested: seq<bool>, e: Fetch, n: nat)
    requires |requested| == TYPES && r.0 != NOT_SET && Surprise(requested, r.0).None?
    requires var left := ToGetAfter(requested, r.0);
             if Wanted(left) == 0 then e == Done && n == 0 else EndsAt(more, left, e, n)
    ensures EndsAt([r] + more, requested, e, n + 1)
  {
    hide Has, Times, Surprise, ToGetAfter, Within, Complete;
    var ready, left := [r] + more, ToGetAfter(requested, r.0);
    NothingNamed(left);
    forall m | 0 < m <= |ready|
      ensures ready[..m] == [r] + more[..m - 1]
      ensures Complete(ready[..m], requested) <==> Complete(more[..m - 1], left)
      ensures Within(ready[..m], requested) <==> Within(more[..m - 1], left)
    {
      assert ready[..m] == [r] + more[..m - 1];
      ReportTaken(r, more[..m - 1], requested);
    }
    if Wanted(left) == 0 {
      assert more[..0] == [];
    } else {
      assert more[..0] == [];
      if e.Unexpected? {
        ReportTaken(r, more[..n + 1], requested);
        assert ready[..n + 2] == [r] + more[..n + 1];
      }
    }
  }

  lemma NothingNamed(left: seq<bool>)
    requires |left| == TYPES
    ensures Within([], left) && (Complete([], left) <==> Wanted(left) == 0)
  {
  }

  /**
   How a fetch ends, told from the reports that say that something is ready: it is done at the first
   report by which every type asked for has been named once and no other. A type that is named too
   often, or without having been asked for, ends it before that, and so does a report of an error.
   */
  lemma {:induction false} EndsWhen(reports: seq<(nat, nat)>, requested: seq<bool>) returns (n: nat)
    requires |requested| == TYPES
    ensures EndsAt(Ready(reports), requested, Ending(reports, requested), n)
    decreases |reports|
  {
    hide Has, Times, Surprise, ToGetAfter, EndsAt, Wanted, Ready, FromReady;
    ReadyFrom(reports);
    var r := FromReady(reports);
    n := 0;
    if r == [] {
      NothingReported(requested);
    } else {
      FirstReport(r[0], Ready(r[1..]), requested);
      if r[0].0 != NOT_SET && Surprise(requested, r[0].0).None? {
        var left := ToGetAfter(requested, r[0].0);
        if Wanted(left) != 0 {
          n := EndsWhen(r[1..], left);
        }
        LaterReport(r[0], Ready(r[1..]), requested, if Wanted(left) == 0 then Done else Ending(r[1..], left), n);
        n := n + 1;
      }
    }
  }

  lemma NothingReported(requested: seq<bool>)
    requires |requested| == TYPES
    ensures EndsAt([], requested, TimedOut, 0)
  {
  }

  predicate Called(calls: seq<Call>, i: nat) {
    exists k :: 0 <= k < |calls| && calls[k].kind == i
  }

  /** Calls so far: each type at most once, only types that were asked for, and what is left is the rest. */
  predicate InOrder(requested: seq<bool>, toget: seq<bool>, calls: seq<Call>)
    requires |requested| == |toget| == TYPES
  {
    && (forall j, k :: 0 <= j < k < |calls| ==> calls[j].kind != calls[k].kind)
    && (forall k :: 0 <= k < |calls| ==> calls[k].kind < TYPES)
    && (forall i :: 0 <= i < TYPES ==> (Called(calls, i) <==> requested[i] && !toget[i]) && (toget[i] ==> requested[i]))
  }

  /** Every call answers a report of its type, and is given the image number of that report. */
  predicate Reported(reports: seq<(nat, nat)>, calls: seq<Call>) {
    forall k :: 0 <= k < |calls| ==>
      calls[k].kind < TYPES && exists r :: r in reports && Has(r.0, calls[k].kind) && r.1 == calls[k].image
  }

  lemma OneMoreCall(requested: seq<bool>, toget: seq<bool>, calls: seq<Call>, c: Call)
    requires |requested| == |toget| == TYPES && InOrder(requested, toget, calls) && c.kind < TYPES && toget[c.kind]
    ensures InOrder(requested, toget[c.kind := false], calls + [c])
  {
    var more := calls + [c];
    forall i | 0 <= i < TYPES
      ensures Called(more, i) <==> (Called(calls, i) || i == c.kind)
    {
      if Called(calls, i) {
        var k :| 0 <= k < |calls| && calls[k].kind == i;
        assert more[k].kind == i;
      }
      assert more[|calls|] == c;
    }
    forall k | 0 <= k < |calls|
      ensures calls[k].kind != c.kind
    {
      assert !Called(calls, c.kind);
    }
  }

  /** The calls that a report adds: they are for types that it names, lowest first, and have its image number. */
  predicate OneByOne(before: seq<Call>, after: seq<Call>, types: nat, image: nat) {
    && before <= after
    && (forall j, k :: |before| <= j < k < |after| ==> after[j].kind < after[k].kind)
    && (forall k :: |before| <= k < |after| ==>
          after[k].kind < TYPES && Has(types, after[k].kind) && after[k].image == image)
  }

  /** All calls added so far are for types below i. */
  predicate CalledBelow(before: seq<Call>, after: seq<Call>, i: nat) {
    |before| <= |after| && forall k :: |before| <= k < |after| ==> after[k].kind < i
  }

  lemma NextCall(before: seq<Call>, after: seq<Call>, types: nat, image: nat, i: nat)
    requires OneByOne(before, after, types, image) && CalledBelow(before, after, i) && i < TYPES
    ensures CalledBelow(before, after, i + 1)
    ensures Has(types, i) ==>
              var more := after + [Call(i, image)];
              OneByOne(before, more, types, image) && CalledBelow(before, more, i + 1)
  {
    hide Has;
  }

  lemma FirstSurprise(toget: seq<bool>, types: nat, i: nat)
    requires |toget| == TYPES && i < TYPES && Has(types, i) && !toget[i]
    requires forall j :: 0 <= j < i ==> (Has(types, j) ==> toget[j])
    ensures Surprise(toget, types) == Some(i)
  {
    hide Has;
  }

  lemma NoSurprise(toget: seq<bool>, left: seq<bool>, types: nat)
    requires |toget| == |left| == TYPES
    requires forall j :: 0 <= j < TYPES ==> left[j] == (toget[j] && !Has(types, j)) && (Has(types, j) ==> toget[j])
    ensures Surprise(toget, types).None? && left == ToGetAfter(toget, types)
    ensures HasAny(types) ==> Wanted(left) < Wanted(toget)
  {
    hide Has;
  }

  lemma NoCallYet(calls: seq<Call>, types: nat, image: nat)
    ensures OneByOne(calls, calls, types, image) && CalledBelow(calls, calls, 0)
  {
  }

  /** The loop over the four types, for one report. */
  method TakeReport(types: nat, image: nat, requested: seq<bool>, toget0: seq<bool>, ghost reports: seq<(nat, nat)>,
                    calls0: seq<Call>)
    returns (bad: Option<nat>, toget: seq<bool>, calls: seq<Call>, left: nat)
    requires |requested| == |toget0| == TYPES && InOrder(requested, toget0, calls0)
    requires Reported(reports, calls0) && (types, image) in reports
    ensures |toget| == TYPES && InOrder(requested, toget, calls) && Reported(reports, calls) && calls0 <= calls
    ensures bad == Surprise(toget0, types)
    ensures bad.None? ==> toget == ToGetAfter(toget0, types) && left == Wanted(toget)
    ensures bad.None? && HasAny(types) ==> Wanted(toget) < Wanted(toget0)
    ensures OneByOne(calls0, calls, types, image)
  {
    hide InOrder, Reported, OneByOne, CalledBelow, Has, HasAny, Surprise, ToGetAfter;
    bad, toget, calls, left := None, toget0, calls0, 0;
    NoCallYet(calls0, types, image);
    var i := 0;
    while i < TYPES
      invariant 0 <= i <= TYPES && |toget| == TYPES && InOrder(requested, toget, calls) && Reported(reports, calls)
                && calls0 <= calls && OneByOne(calls0, calls, types, image) && CalledBelow(calls0, calls, i)
      invariant forall j :: 0 <= j < i ==> toget[j] == (toget0[j] && !Has(types, j)) && (Has(types, j) ==> toget0[j])
      invariant forall j :: i <= j < TYPES ==> toget[j] == toget0[j]
      invariant left == (if i > 0 then Number(toget[0]) else 0) + (if i > 1 then Number(toget[1]) else 0)
                        + (if i > 2 then Number(toget[2]) else 0) + (if i > 3 then Number(toget[3]) else 0)
    {
      NextCall(calls0, calls, types, image, i);
      if Has(types, i) {
        if !toget[i] {
          FirstSurprise(toget0, types, i);
          bad := Some(i);
          return;
        }
        OneMoreCall(requested, toget, calls, Call(i, image));
        ReportedOn(reports, calls, i, types, image);
        calls := calls + [Call(i, image)];
        toget := toget[i := false];
      }
      if toget[i] {
        left := left + 1;
      }
      i := i + 1;
    }
    NoSurprise(toget0, toget, types);
  }

  lemma ReportedOn(reports: seq<(nat, nat)>, calls: seq<Call>, i: nat, types: nat, image: nat)
    requires Reported(reports, calls) && i < TYPES && (types, image) in reports && Has(types, i)
    ensures Reported(reports, calls + [Call(i, image)])
  {
    var more := calls + [Call(i, image)];
    forall k | 0 <= k < |more|
      ensures more[k].kind < TYPES && exists r :: r in reports && Has(r.0, more[k].kind) && r.1 == more[k].image
    {
      if k < |calls| {
        assert more[k] == calls[k];
      } else {
        var r := (types, image);
        assert r in reports && Has(r.0, more[k].kind) && r.1 == more[k].image;
      }
    }
  }

  lemma {:induction false} ReadyIsReport(reports: seq<(nat, nat)>)
    ensures forall r :: r in FromReady(reports) ==> r in reports
  {
    if reports != [] && reports[0].0 == 0 {
      ReadyIsReport(reports[1..]);
    }
  }

  /** An error comes from a report. */
  lemma {:induction false} EndingReported(reports: seq<(nat, nat)>, toget: seq<bool>)
    requires |toget| == TYPES
    ensures var e := Ending(reports, toget);
            && (e.Unexpected? ==> e.kind < TYPES && exists r :: r in reports && Has(r.0, e.kind))
            && (e.ShootError? ==> exists r :: r in reports && r.0 == NOT_SET)
    decreases |reports|
  {
    hide Has, ToGetAfter, Wanted, FromReady;
    ReadyIsReport(reports);
    var r := FromReady(reports);
    if r != [] && Surprise(toget, r[0].0).None? {
      EndingReported(r[1..], ToGetAfter(toget, r[0].0));
    }
  }

  /** Polls that find nothing ready leave the first report that says so. */
  lemma {:induction false} NothingReady(o: WaitOptions, x: Scene, n: nat)
    requires o.rsdata && forall k :: 0 <= k < n ==> !AwaitedAt(o, x, k)
    ensures FromReady(AfterPolls(o, x, n).reports) == FromReady(x.reports)
    decreases n
  {
    hide Advanced;
    if n > 0 {
      assert !AwaitedAt(o, x, n - 1);
      NothingReady(o, x, n - 1);
    }
  }

  /** A ready report is seen by some poll. */
  lemma {:induction false} ReadyShows(o: WaitOptions, x: Scene, n: nat)
    requires o.rsdata && FromReady(AfterPolls(o, x, n).reports) != []
    ensures Shows(o, x)
    decreases |AfterPolls(o, x, n).reports|
  {
    hide Advanced;
    var y := AfterPolls(o, x, n);
    if y.reports[0].0 != 0 {
      assert AwaitedAt(o, x, n);
    } else {
      assert AfterPolls(o, x, n + 1).reports == y.reports[1..];
      ReadyShows(o, x, n + 1);
    }
  }

  /** What a wait for reports returns: the first report that says that something is ready, or an error. */
  lemma ReadySeen(o: WaitOptions, x: Scene, n: nat, s: Option<Status>)
    requires o.rsdata && o.timeoutError && o.run.None? && o.msg.None?
    requires forall k :: 0 <= k < n ==> !AwaitedAt(o, x, k)
    requires s == Returned(o, Look(o, AfterPolls(o, x, n)))
    ensures s.Some? == AwaitedAt(o, x, n)
    ensures s.Some? ==> var r := FromReady(x.reports);
              r != [] && r[0] == (s.value.rsdata, s.value.rsimgnum) && AfterPolls(o, x, n + 1).reports == r[1..]
  {
    hide Advanced;
    NothingReady(o, x, n);
  }

  /** The options of the wait between reports. */
  function ReadyOptions(timeout: nat, poll: nat, pollstart: Option<nat>, initwait: Option<nat>): WaitOptions {
    WaitOptions(None, None, true, timeout, true, poll, pollstart, initwait)
  }

  /** Between reports the fetch waits for the next one and nothing else, as long as the caller says, and then throws. */
  lemma FetchWaits(timeout: nat, poll: nat, pollstart: Option<nat>, initwait: Option<nat>, x: Scene, n: nat)
    ensures var o := ReadyOptions(timeout, poll, pollstart, initwait);
            && (AwaitedAt(o, x, n) <==> n < |x.reports| && x.reports[n].0 != 0)
            && (Returned(o, Look(o, AfterPolls(o, x, n))).None? <==> !AwaitedAt(o, x, n))
            && (TimeRunsOut(o) <==> pollstart != Some(0) || timeout <= if initwait.Some? then initwait.value else 0)
            && (TimeRunsOut(o) ==>
                  Sum(FullSchedule(o)) == Max(timeout - if initwait.Some? then initwait.value else 0, 0))
            && (pollstart == None ==>
                  forall k :: 0 <= k < |FullSchedule(o)| - 1 ==> FullSchedule(o)[k] == Max(poll, 50))
  {
    hide Advanced, FullSchedule, AfterPolls;
    var o := ReadyOptions(timeout, poll, pollstart, initwait);
    AwaitedSees(o, x, n);
    if TimeRunsOut(o) {
      WaitBudget(o);
    }
    if pollstart == None {
      forall k | 0 <= k < |FullSchedule(o)| - 1
        ensures FullSchedule(o)[k] == Max(poll, 50)
      {
        SleepsAre(o, k);
      }
    }
  }

  lemma NotWanted(requested: seq<bool>, toget: seq<bool>, types: nat, made: seq<Call>, calls: seq<Call>)
    requires |requested| == |toget| == TYPES && InOrder(requested, toget, made) && made <= calls
    requires Surprise(toget, types).Some?
    ensures var i := Surprise(toget, types).value; i < TYPES && (!requested[i] || Called(calls, i))
  {
    var i := Surprise(toget, types).value;
    if requested[i] {
      var k :| 0 <= k < |made| && made[k].kind == i;
      assert calls[k].kind == i;
    }
  }

  lemma NoCalls(requested: seq<bool>, reports: seq<(nat, nat)>)
    requires |requested| == TYPES
    ensures InOrder(requested, requested, []) && Reported(reports, [])
  {
  }

  /** Nothing left to fetch: the calls are those of the types asked for, one each. */
  lemma DoneMeansAll(requested: seq<bool>, toget: seq<bool>, calls: seq<Call>)
    requires |requested| == |toget| == TYPES && InOrder(requested, toget, calls) && Wanted(toget) == 0
    ensures forall i :: 0 <= i < TYPES ==> (Called(calls, i) <==> requested[i])
    ensures |calls| == Wanted(requested)
  {
    hide Called;
    assert !toget[0] && !toget[1] && !toget[2] && !toget[3];
    CallsCounted(requested, toget, calls);
  }

  lemma OneCallLess(requested: seq<bool>, toget: seq<bool>, calls: seq<Call>)
    requires |requested| == |toget| == TYPES && InOrder(requested, toget, calls) && calls != []
    ensures var c := calls[|calls| - 1].kind;
            c < TYPES && !toget[c] && InOrder(requested, toget[c := true], calls[..|calls| - 1])
  {
    var n := |calls| - 1;
    var c, front := calls[n], calls[..n];
    assert Called(calls, c.kind);
    forall i | 0 <= i < TYPES
      ensures Called(front, i) <==> Called(calls, i) && i != c.kind
    {
      if Called(calls, i) && i != c.kind {
        var k :| 0 <= k < |calls| && calls[k].kind == i;
        assert front[k].kind == i;
      }
      if Called(front, i) {
        var k :| 0 <= k < |front| && front[k].kind == i;
        assert calls[k].kind == i;
      }
    }
  }

  /** Taking the last call back, the number of calls is the number of types that are no longer wanted. */
  lemma {:induction false} CallsCounted(requested: seq<bool>, toget: seq<bool>, calls: seq<Call>)
    requires |requested| == |toget| == TYPES && InOrder(requested, toget, calls)
    ensures |calls| + Wanted(toget) == Wanted(requested)
    decreases |calls|
  {
    if calls == [] {
      forall i | 0 <= i < TYPES
        ensures toget[i] == requested[i]
      {
        assert !Called(calls, i);
      }
    } else {
      var c, front := calls[|calls| - 1], calls[..|calls| - 1];
      OneCallLess(requested, toget, calls);
      CallsCounted(requested, toget[c.kind := true], front);
    }
  }

  lemma FirstScene(o: WaitOptions, x: Scene)
    ensures AfterPolls(o, x, 0) == x
  {
  }

  /**
   con:capture_get_data. Unless the time runs out, it ends as the reports say. When it is done, the
   handler of each type that was asked for has been called exactly once and no other. If every report
   names a type, it looks at no more reports than types were asked for, or at one if none was.
   */
  method CaptureGetData(con: Con, requested: seq<bool>, timeout: nat, poll: nat, pollstart: Option<nat>,
                        initwait: Option<nat>)
    returns (end: Fetch, calls: seq<Call>, ghost rounds: nat)
    requires |requested| == TYPES
    requires TimeRunsOut(ReadyOptions(timeout, poll, pollstart, initwait))
             || !Ending(con.reports, requested).TimedOut?
    modifies con`camera, con`turns, con`reports, con`log
    ensures end.TimedOut? || end == Ending(old(con.reports), requested)
    ensures end.TimedOut? ==> TimeRunsOut(ReadyOptions(timeout, poll, pollstart, initwait))
    ensures end.Done? ==> |calls| == Wanted(requested)
                          && forall i :: 0 <= i < TYPES ==> (Called(calls, i) <==> requested[i])
    ensures Reported(old(con.reports), calls) && exists toget :: |toget| == TYPES && InOrder(requested, toget, calls)
    ensures end.Unexpected? ==> end.kind < TYPES && (!requested[end.kind] || Called(calls, end.kind))
                                && exists r :: r in old(con.reports) && Has(r.0, end.kind)
    ensures end.ShootError? ==> exists r :: r in old(con.reports) && r.0 == 0x1000_0000
    ensures Naming(old(con.reports)) ==>
            rounds <= Max(1, Wanted(requested)) && (end.Done? ==> rounds <= Wanted(requested))
  {
    hide InOrder, Reported, OneByOne, Called, Has, HasAny, Wanted, FromReady, Surprise, ToGetAfter, AfterPolls, Look,
      Returned,
      AwaitedAt, Shows, TimeRunsOut, Logged, FullSchedule;
    var toget := requested;
    calls, rounds := [], 0;
    ghost var reports := con.reports;
    var o := ReadyOptions(timeout, poll, pollstart, initwait);
    NoCalls(requested, reports);
    EndingReported(reports, requested);
    while true
      invariant |toget| == TYPES && InOrder(requested, toget, calls) && Reported(reports, calls)
      invariant forall r :: r in con.reports ==> r in reports
      invariant Ending(con.reports, toget) == Ending(reports, requested)
      invariant Naming(reports) ==> rounds + Wanted(toget) <= Wanted(requested) && (rounds > 0 ==> Wanted(toget) > 0)
      decreases |con.reports|
    {
      ReadyIsReport(con.reports);
      var status;
      ghost var sleeps;
      ghost var x := con.Now();
      if !TimeRunsOut(o) {
        FirstScene(o, x);
        ReadyShows(o, x, 0);
      }
      status, sleeps := WaitStatus(con, o);
      ReadySeen(o, x, |sleeps|, status);
      rounds := rounds + 1;
      if status == None {
        return TimedOut, calls, rounds;
      }
      var s := status.value;
      if s.rsdata == NOT_SET {
        return ShootError, calls, rounds;
      }
      ghost var before, made := toget, calls;
      var bad, left;
      bad, toget, calls, left := TakeReport(s.rsdata, s.rsimgnum, requested, toget, reports, calls);
      if bad.Some? {
        NotWanted(requested, before, s.rsdata, made, calls);
        return Unexpected(bad.value), calls, rounds;
      }
      if left == 0 {
        DoneMeansAll(requested, toget, calls);
        return Done, calls, rounds;
      }
    }
  }
}
