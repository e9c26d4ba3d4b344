/** The launch protocol of `supervise` and the two lanes `run` builds for it (scripts/run_go_shard.py). The world is an
    arbitrary fate for every process, an arbitrary live failure and an arbitrary deadline; the clock moves at every
    poll. */
module Launch {
  import opened Order

  /** What a process will do `delay` instants after it is started. */
  datatype Fate = Hangs | Exits(delay: nat, status: int)

  /** One entry of the `after` dict: `index` waits for `previous`. */
  datatype Dependency = Dependency(index: nat, previous: nat)

  datatype Outcome = Returned | ChildFailed | LiveFailure | DeadlineExceeded | InvalidDependency

  predicate Exited(f: Fate, start: Option<nat>, now: nat) {
    start.Some? && f.Exits? && start.value + f.delay <= now
  }

  /** Popen.poll */
  function Poll(f: Fate, start: Option<nat>, now: nat): Option<int> {
    if Exited(f, start, now) then Some(f.status) else None
  }

  ghost predicate Running(f: Fate, start: Option<nat>, now: nat) {
    start.Some? && start.value <= now && !Exited(f, start, now)
  }

  /** Every dependency names an earlier command, and each command waits for at most one. */
  predicate ValidDependencies(after: seq<Dependency>, count: nat) {
    && (forall k :: 0 <= k < |after| ==> after[k].previous < after[k].index < count)
    && (forall j, k :: 0 <= j < k < |after| ==> after[j].index != after[k].index)
  }

  /** Safety: a dependent was started only after its predecessor had exited with status zero. */
  ghost predicate StartedInOrder(after: seq<Dependency>, fates: seq<Fate>, starts: seq<Option<nat>>) {
    && |starts| == |fates| && ValidDependencies(after, |fates|)
    && forall k :: 0 <= k < |after| && starts[after[k].index].Some? ==>
         && Exited(fates[after[k].previous], starts[after[k].previous], starts[after[k].index].value)
         && fates[after[k].previous].status == 0
  }

  predicate Waits(after: seq<Dependency>, i: nat) {
    exists k :: 0 <= k < |after| && after[k].index == i
  }

  ghost predicate RootsStarted(after: seq<Dependency>, starts: seq<Option<nat>>) {
    forall i :: 0 <= i < |starts| && !Waits(after, i) ==> starts[i] == Some(0)
  }

  /** New starts are later than `now` and no later than `later`; earlier ones stand. */
  ghost predicate Extends(starts: seq<Option<nat>>, starts': seq<Option<nat>>, now: nat, later: nat) {
    && |starts| == |starts'| && now <= later
    && forall i :: 0 <= i < |starts| ==>
         if starts[i].Some? then starts'[i] == starts[i] else starts'[i].Some? ==> now < starts'[i].value <= later
  }

  /** One pass over the dependencies: whoever's predecessor is seen to have exited zero is launched. */
  method LaunchReady(after: seq<Dependency>, fates: seq<Fate>, starts0: seq<Option<nat>>, now0: nat)
    returns (starts: seq<Option<nat>>, now: nat)
    requires StartedInOrder(after, fates, starts0)
    ensures StartedInOrder(after, fates, starts) && Extends(starts0, starts, now0, now) && now <= now0 + |after|
    ensures CaughtUp(after, fates, starts0, starts, now0)
  {
    starts, now := starts0, now0;
    for k := 0 to |after|
      invariant StartedInOrder(after, fates, starts) && Extends(starts0, starts, now0, now) && now <= now0 + k
      invariant forall j ::
                0 <= j < k && Poll(fates[after[j].previous], starts0[after[j].previous], now0) == Some(0) ==>
                  starts[after[j].index].Some?
    {
      var index, previous := after[k].index, after[k].previous;
      if starts[index].None? && starts[previous].Some? {
        now := now + 1;
        if Poll(fates[previous], starts[previous], now) == Some(0) {
          ghost var before := starts;
          starts := starts[index := Some(now)];
          LaunchKeepsOrder(after, fates, before, k, now);
        }
      }
    }
  }

  lemma LaunchKeepsOrder(after: seq<Dependency>, fates: seq<Fate>, starts: seq<Option<nat>>, k: nat, now: nat)
    requires StartedInOrder(after, fates, starts) && k < |after| && starts[after[k].index].None?
    requires Poll(fates[after[k].previous], starts[after[k].previous], now) == Some(0)
    ensures StartedInOrder(after, fates, starts[after[k].index := Some(now)])
  {
    var next := starts[after[k].index := Some(now)];
    forall j | 0 <= j < |after| && next[after[j].index].Some?
      ensures Exited(fates[after[j].previous], next[after[j].previous], next[after[j].index].value)
      ensures fates[after[j].previous].status == 0
    {
      if j != k {
        assert after[j].index != after[k].index;
        assert starts[after[j].previous].Some?;
      }
    }
  }

  /** Polls every started process, each at its own instant. */
  method PollAll(fates: seq<Fate>, starts: seq<Option<nat>>, now0: nat) returns (statuses: seq<Option<int>>, now: nat)
    requires |fates| == |starts|
    ensures |statuses| == |fates| && now == now0 + |fates|
    ensures Polled(fates, starts, now0, statuses)
  {
    statuses, now := [], now0;
    for i := 0 to |fates|
      invariant |statuses| == i && now == now0 + i
      invariant forall j :: 0 <= j < i ==> statuses[j] == Poll(fates[j], starts[j], now0 + j + 1)
    {
      now := now + 1;
      statuses := statuses + [Poll(fates[i], starts[i], now)];
    }
  }

  // ---- Progress --------------------------------------------------------------------

  /** The tick by which command `i` has exited, when every process exits zero. */
  ghost function DoneBy(after: seq<Dependency>, fates: seq<Fate>, i: nat): nat
    requires ValidDependencies(after, |fates|) && i < |fates|
    requires forall j :: 0 <= j < |fates| ==> fates[j].Exits?
    decreases i, 1
  {
    LaunchedBy(after, fates, i) + fates[i].delay
  }

  /** A root is launched at once, a dependent in the tick after its predecessor has exited. */
  ghost function LaunchedBy(after: seq<Dependency>, fates: seq<Fate>, i: nat): nat
    requires ValidDependencies(after, |fates|) && i < |fates|
    requires forall j :: 0 <= j < |fates| ==> fates[j].Exits?
    decreases i, 0
  {
    if Waits(after, i) then
      var k :| 0 <= k < |after| && after[k].index == i;
      DoneBy(after, fates, after[k].previous) + 1
    else 0
  }

  ghost predicate Calm(fates: seq<Fate>, live: Option<nat>) {
    live.None? && forall i :: 0 <= i < |fates| ==> fates[i].Exits? && fates[i].status == 0
  }

  /** At the top of tick `tick`: whoever should be launched by then is, and has been running for as long as that. */
  ghost predicate OnTime(after: seq<Dependency>, fates: seq<Fate>, starts: seq<Option<nat>>, tick: nat, now: nat)
    requires |fates| == |starts| && ValidDependencies(after, |fates|)
    requires forall j :: 0 <= j < |fates| ==> fates[j].Exits?
  {
    && Past(starts, now)
    && forall i :: 0 <= i < |fates| && LaunchedBy(after, fates, i) < tick ==>
         starts[i].Some? && starts[i].value + (tick - LaunchedBy(after, fates, i)) <= now
  }

  ghost predicate Past(starts: seq<Option<nat>>, now: nat) {
    forall i :: 0 <= i < |starts| && starts[i].Some? ==> starts[i].value <= now
  }

  lemma StillPast(starts: seq<Option<nat>>, starts': seq<Option<nat>>, now: nat, later: nat)
    requires Extends(starts, starts', now, later) && Past(starts, now)
    ensures Past(starts', later)
  {}

  /** One tick later everyone is still on time. */
  lemma TickOnTime(after: seq<Dependency>, fates: seq<Fate>, starts: seq<Option<nat>>, starts': seq<Option<nat>>,
                   tick: nat, now: nat, later: nat, end: nat)
    requires StartedInOrder(after, fates, starts) && RootsStarted(after, starts)
    requires Calm(fates, None) && OnTime(after, fates, starts, tick, now) && Extends(starts, starts', now, later)
    requires later < end
    requires CaughtUp(after, fates, starts, starts', now)
    ensures OnTime(after, fates, starts', tick + 1, end)
  {
    hide LaunchedBy, CaughtUp, StartedInOrder, Extends, RootsStarted, Waits;
    SameCount(after, fates, starts, starts', now, later);
    StillPast(starts, starts', now, later);
    forall i | 0 <= i < |fates| && LaunchedBy(after, fates, i) < tick + 1
      ensures starts'[i].Some? && starts'[i].value + (tick + 1 - LaunchedBy(after, fates, i)) <= end
    {
      ProcessOnTime(after, fates, starts, starts', tick, now, later, i);
    }
  }

  lemma SameCount(after: seq<Dependency>, fates: seq<Fate>, starts: seq<Option<nat>>, starts': seq<Option<nat>>,
                  now: nat, later: nat)
    requires StartedInOrder(after, fates, starts) && Extends(starts, starts', now, later)
    ensures |starts'| == |starts| == |fates| && ValidDependencies(after, |fates|)
  {}

  /** Whoever's predecessor had exited zero by `now` has been launched. */
  ghost predicate CaughtUp(after: seq<Dependency>, fates: seq<Fate>, starts: seq<Option<nat>>,
                           starts': seq<Option<nat>>, now: nat)
    requires |fates| == |starts| == |starts'| && ValidDependencies(after, |fates|)
  {
    forall k :: 0 <= k < |after| && Poll(fates[after[k].previous], starts[after[k].previous], now) == Some(0) ==>
      starts'[after[k].index].Some?
  }

  lemma {:induction false} ProcessOnTime(after: seq<Dependency>, fates: seq<Fate>, starts: seq<Option<nat>>,
                                         starts': seq<Option<nat>>, tick: nat, now: nat, later: nat, i: nat)
    requires StartedInOrder(after, fates, starts) && RootsStarted(after, starts)
    requires Calm(fates, None) && OnTime(after, fates, starts, tick, now) && Extends(starts, starts', now, later)
    requires CaughtUp(after, fates, starts, starts', now)
    requires i < |fates| && LaunchedBy(after, fates, i) <= tick
    ensures starts'[i].Some? && starts'[i].value + (tick - LaunchedBy(after, fates, i)) <= later
  {
    hide LaunchedBy, DoneBy, StartedInOrder, CaughtUp;
    SameCount(after, fates, starts, starts', now, later);
    if LaunchedBy(after, fates, i) == tick && Waits(after, i) {
      var k :| 0 <= k < |after| && after[k].index == i;
      PreviousDone(after, fates, starts, tick, now, k);
      Launched(after, fates, starts, starts', now, k);
    }
  }

  lemma PreviousDone(after: seq<Dependency>, fates: seq<Fate>, starts: seq<Option<nat>>, tick: nat, now: nat, k: nat)
    requires |starts| == |fates| && ValidDependencies(after, |fates|) && k < |after|
    requires Calm(fates, None) && OnTime(after, fates, starts, tick, now)
    requires LaunchedBy(after, fates, after[k].index) == tick
    ensures Poll(fates[after[k].previous], starts[after[k].previous], now) == Some(0)
  {
    assert forall j :: 0 <= j < |after| && after[j].index == after[k].index ==> j == k;
    var p := after[k].previous;
    assert DoneBy(after, fates, p) + 1 == tick;
    assert starts[p].Some? && starts[p].value + (tick - LaunchedBy(after, fates, p)) <= now;
  }

  lemma Launched(after: seq<Dependency>, fates: seq<Fate>, starts: seq<Option<nat>>, starts': seq<Option<nat>>,
                 now: nat, k: nat)
    requires |starts| == |starts'| == |fates| && ValidDependencies(after, |fates|) && k < |after|
    requires CaughtUp(after, fates, starts, starts', now)
    requires Poll(fates[after[k].previous], starts[after[k].previous], now) == Some(0)
    ensures starts'[after[k].index].Some?
  {
    hide Poll;
  }

  lemma AtStart(after: seq<Dependency>, fates: seq<Fate>, starts: seq<Option<nat>>)
    requires |fates| == |starts| && ValidDependencies(after, |fates|) && Calm(fates, None)
    requires forall i :: 0 <= i < |starts| && starts[i].Some? ==> starts[i].value == 0
    ensures OnTime(after, fates, starts, 0, 0)
  {}

  lemma ExtendsKeeps(after: seq<Dependency>, starts: seq<Option<nat>>, starts': seq<Option<nat>>, now: nat, later: nat)
    requires Extends(starts, starts', now, later) && RootsStarted(after, starts)
    ensures RootsStarted(after, starts') && now <= later && |starts'| == |starts|
  {}

  lemma LaterOnTime(after: seq<Dependency>, fates: seq<Fate>, starts: seq<Option<nat>>, tick: nat, now: nat, later: nat)
    requires |fates| == |starts| && ValidDependencies(after, |fates|) && Calm(fates, None)
    requires OnTime(after, fates, starts, tick, now) && now <= later
    ensures OnTime(after, fates, starts, tick, later)
  {
    hide LaunchedBy;
  }

  /** Every process, however the lanes overlap, has exited by the end of the tick. */
  ghost predicate DoneInTime(after: seq<Dependency>, fates: seq<Fate>, tick: nat)
    requires ValidDependencies(after, |fates|) && forall j :: 0 <= j < |fates| ==> fates[j].Exits?
  {
    forall i :: 0 <= i < |fates| ==> DoneBy(after, fates, i) <= tick
  }

  lemma AllDone(after: seq<Dependency>, fates: seq<Fate>, starts: seq<Option<nat>>, tick: nat, now: nat)
    requires |fates| == |starts| && ValidDependencies(after, |fates|) && Calm(fates, None)
    requires OnTime(after, fates, starts, tick + 1, now) && DoneInTime(after, fates, tick)
    ensures forall i :: 0 <= i < |fates| ==> Exited(fates[i], starts[i], now)
  {
    forall i | 0 <= i < |fates|
      ensures Exited(fates[i], starts[i], now)
    {
      assert LaunchedBy(after, fates, i) + fates[i].delay == DoneBy(after, fates, i) <= tick;
    }
  }

  /** What one tick means for processes that all exit zero: everyone is still on time, and once all are done in time the
      polls see it. */
  lemma CalmTick(after: seq<Dependency>, fates: seq<Fate>, starts: seq<Option<nat>>, starts': seq<Option<nat>>,
                 tick: nat, top: nat, later: nat, statuses: seq<Option<int>>)
    requires StartedInOrder(after, fates, starts) && RootsStarted(after, starts)
    requires Calm(fates, None) && OnTime(after, fates, starts, tick, top) && Extends(starts, starts', top, later)
    requires CaughtUp(after, fates, starts, starts', top) && Polled(fates, starts', later + 1, statuses)
    ensures OnTime(after, fates, starts', tick + 1, later + 1 + |fates|)
    ensures DoneInTime(after, fates, tick) ==> AllZero(statuses)
  {
    hide StartedInOrder, RootsStarted, OnTime, Extends, LaunchedBy, DoneBy, CaughtUp, ValidDependencies, DoneInTime;
    SameCount(after, fates, starts, starts', top, later);
    TickOnTime(after, fates, starts, starts', tick, top, later, later + 1);
    if DoneInTime(after, fates, tick) {
      AllDone(after, fates, starts', tick, later + 1);
    }
    LaterOnTime(after, fates, starts', tick + 1, later + 1, later + 1 + |fates|);
  }

  // ---- Everyone is started ----------------------------------------------------------

  /** Every process started so far had exited by `top`. */
  ghost predicate AllExited(fates: seq<Fate>, starts: seq<Option<nat>>, top: nat)
    requires |fates| == |starts|
  {
    forall i :: 0 <= i < |fates| && starts[i].Some? ==> Exited(fates[i], starts[i], top)
  }

  /** If everything started had exited zero by the top of a tick, its launch pass has left nobody waiting. */
  lemma {:induction false} EveryoneStarted(after: seq<Dependency>, fates: seq<Fate>, starts: seq<Option<nat>>,
                                           starts': seq<Option<nat>>, top: nat, later: nat, i: nat)
    requires |starts| == |starts'| == |fates| && ValidDependencies(after, |fates|) && i < |fates|
    requires RootsStarted(after, starts') && Extends(starts, starts', top, later)
    requires CaughtUp(after, fates, starts, starts', top) && AllExited(fates, starts', top)
    requires forall j :: 0 <= j < |fates| && starts'[j].Some? ==> fates[j].status == 0
    ensures starts'[i].Some?
    decreases i
  {
    hide RootsStarted, CaughtUp, ValidDependencies;
    if Waits(after, i) {
      var k :| 0 <= k < |after| && after[k].index == i;
      Earlier(after, |fates|, k);
      var p := after[k].previous;
      EveryoneStarted(after, fates, starts, starts', top, later, p);
      assert Poll(fates[p], starts[p], top) == Some(0);
      Launched(after, fates, starts, starts', top, k);
    } else {
      RootStarted(after, starts', i);
    }
  }

  lemma Earlier(after: seq<Dependency>, count: nat, k: nat)
    requires ValidDependencies(after, count) && k < |after|
    ensures after[k].previous < after[k].index < count
  {}

  lemma RootStarted(after: seq<Dependency>, starts: seq<Option<nat>>, i: nat)
    requires RootsStarted(after, starts) && i < |starts| && !Waits(after, i)
    ensures starts[i] == Some(0)
  {}

  /** A tick that sees no bad status, and at whose top everything it knows as started had exited, sees all done. */
  lemma AllSeenDone(after: seq<Dependency>, fates: seq<Fate>, starts: seq<Option<nat>>, starts': seq<Option<nat>>,
                    top: nat, later: nat, polled: nat, statuses: seq<Option<int>>)
    requires |starts| == |starts'| == |fates| == |statuses| && ValidDependencies(after, |fates|) && top <= polled
    requires RootsStarted(after, starts') && Extends(starts, starts', top, later)
    requires CaughtUp(after, fates, starts, starts', top) && AllExited(fates, starts', top)
    requires Polled(fates, starts', polled, statuses) && !AnyBad(statuses)
    ensures AllZero(statuses)
  {
    hide RootsStarted, CaughtUp, ValidDependencies, Extends;
    forall i | 0 <= i < |fates| && starts'[i].Some?
      ensures fates[i].status == 0
    {
      assert statuses[i] == Some(fates[i].status);
    }
    forall i | 0 <= i < |fates|
      ensures statuses[i] == Some(0)
    {
      EveryoneStarted(after, fates, starts, starts', top, later, i);
      assert statuses[i] == Some(fates[i].status);
    }
  }

  // ---- supervise ---------------------------------------------------------------------

  /** The instant at which the pass that ended at `now` polled process `i`. */
  function PolledAt(now: nat, count: nat, i: nat): nat
    requires i < count <= now
  {
    now - count + i + 1
  }

  predicate AnyBad(statuses: seq<Option<int>>) {
    exists i :: 0 <= i < |statuses| && statuses[i].Some? && statuses[i] != Some(0)
  }

  predicate AllZero(statuses: seq<Option<int>>) {
    forall i :: 0 <= i < |statuses| ==> statuses[i] == Some(0)
  }

  /** Some process that was started has exited with another status. */
  ghost predicate SomeFailed(fates: seq<Fate>, starts: seq<Option<nat>>, now: nat)
    requires |fates| == |starts|
  {
    exists i :: 0 <= i < |fates| && Exited(fates[i], starts[i], now) && fates[i].status != 0
  }

  /** The pass that ended at `now` saw some process exited with another status than zero. */
  ghost predicate FailurePolled(fates: seq<Fate>, starts: seq<Option<nat>>, now: nat)
    requires |fates| == |starts| && |fates| <= now
  {
    exists i :: 0 <= i < |fates| && Exited(fates[i], starts[i], PolledAt(now, |fates|, i)) && fates[i].status != 0
  }

  lemma NoneFails(fates: seq<Fate>, starts: seq<Option<nat>>, now: nat)
    requires |fates| == |starts| && Calm(fates, None)
    ensures !SomeFailed(fates, starts, now)
  {}

  /** The statuses were polled one instant after the other. */
  ghost predicate Polled(fates: seq<Fate>, starts: seq<Option<nat>>, began: nat, statuses: seq<Option<int>>) {
    && |statuses| == |fates| == |starts|
    && forall i :: 0 <= i < |fates| ==> statuses[i] == Poll(fates[i], starts[i], began + i + 1)
  }

  /** What the statuses of one pass say of the instants it polled at, and of its end. */
  lemma Verdict(fates: seq<Fate>, starts: seq<Option<nat>>, began: nat, statuses: seq<Option<int>>, now: nat)
    requires Polled(fates, starts, began, statuses) && now == began + |fates|
    ensures AllZero(statuses) <==> AllPolledZero(fates, starts, now)
    ensures AllZero(statuses) ==> forall i :: 0 <= i < |fates| ==> Poll(fates[i], starts[i], now) == Some(0)
    ensures AnyBad(statuses) ==> SomeFailed(fates, starts, now)
    ensures AnyBad(statuses) ==> !AllZero(statuses)
    ensures AnyBad(statuses) <==> FailurePolled(fates, starts, now)
  {
    assert forall i :: 0 <= i < |fates| ==> PolledAt(now, |fates|, i) == began + i + 1;
    if i :| 0 <= i < |fates| && Exited(fates[i], starts[i], PolledAt(now, |fates|, i)) && fates[i].status != 0 {
      assert statuses[i] == Some(fates[i].status);
    }
  }

  /** What is launched later was not there to be polled. */
  lemma PassStands(fates: seq<Fate>, starts: seq<Option<nat>>, starts': seq<Option<nat>>, top: nat, later: nat)
    requires |fates| == |starts| && Extends(starts, starts', top, later) && |fates| <= top
    ensures FailurePolled(fates, starts', top) ==> FailurePolled(fates, starts, top)
    ensures AllPolledZero(fates, starts', top) ==> AllPolledZero(fates, starts, top)
  {
    if FailurePolled(fates, starts', top) {
      var i :| 0 <= i < |fates| && Exited(fates[i], starts'[i], PolledAt(top, |fates|, i)) && fates[i].status != 0;
      assert Exited(fates[i], starts[i], PolledAt(top, |fates|, i));
    }
    if AllPolledZero(fates, starts', top) {
      forall i | 0 <= i < |fates|
        ensures Poll(fates[i], starts[i], PolledAt(top, |fates|, i)) == Some(0)
      {
        assert Poll(fates[i], starts'[i], PolledAt(top, |fates|, i)) == Some(0);
      }
    }
  }

  /** The pass that ended at `now` saw every process exited with status zero. */
  ghost predicate AllPolledZero(fates: seq<Fate>, starts: seq<Option<nat>>, now: nat)
    requires |fates| == |starts| && |fates| <= now
  {
    forall i :: 0 <= i < |fates| ==> Poll(fates[i], starts[i], PolledAt(now, |fates|, i)) == Some(0)
  }

  /** Roots at once, dependents as they become ready, until every process has exited zero; the first live failure, bad
      status or missed deadline ends it. `expired` says the deadline had passed on entry, `live` is the tick at which a
      failure record can be read, `ticks` the first tick that finds the deadline passed; `last` is the last tick reached
      and `top` the instant at which it began. */
  method Supervise(after: seq<Dependency>, fates: seq<Fate>, expired: bool, live: Option<nat>, ticks: nat)
    returns (outcome: Outcome, starts: seq<Option<nat>>, now: nat, last: nat, ghost top: nat)
    ensures |starts| == |fates|
    ensures expired ==> outcome == DeadlineExceeded
    ensures !expired ==> (outcome == InvalidDependency <==> !ValidDependencies(after, |fates|))
    ensures expired || outcome == InvalidDependency ==> forall i :: 0 <= i < |starts| ==> starts[i].None?
    ensures !expired && outcome != InvalidDependency ==>
              StartedInOrder(after, fates, starts) && RootsStarted(after, starts)
    ensures outcome == Returned ==> forall i :: 0 <= i < |fates| ==> Poll(fates[i], starts[i], now) == Some(0)
    ensures outcome == ChildFailed ==> SomeFailed(fates, starts, now)
    ensures last <= ticks
    ensures outcome == LiveFailure ==> live == Some(last)
    ensures outcome == Returned || outcome == ChildFailed || (outcome == DeadlineExceeded && !expired) ==>
              live.None? || last < live.value
    ensures outcome == DeadlineExceeded && !expired ==> last == ticks
    // The last tick: it begins at `top`, launches, and then polls everyone.
    ensures last <= top && (last == 0 ==> top == 0)
    ensures forall i :: 0 <= i < |starts| && starts[i].Some? ==> starts[i].value <= top + |after|
    ensures outcome == Returned || outcome == ChildFailed || (outcome == DeadlineExceeded && !expired) ==>
              && top + |fates| < now <= top + |after| + |fates| + 1
              && (outcome == Returned <==> AllPolledZero(fates, starts, now))
    // A pass that sees a bad status, or everyone done, is the last.
    ensures outcome == Returned || outcome == ChildFailed || (outcome == DeadlineExceeded && !expired) ==>
              (outcome == ChildFailed <==> FailurePolled(fates, starts, now))
    ensures last > 0 ==>
              |fates| <= top && !FailurePolled(fates, starts, top) && !AllPolledZero(fates, starts, top)
    // Progress: only a started process that is still running at the top of the last tick can meet the deadline, so if
    // everything started has exited zero by then, and nothing fails live, everything was started and it returns.
    ensures outcome == DeadlineExceeded && !expired ==> !AllExited(fates, starts, top)
    ensures !expired && live.None? && ValidDependencies(after, |fates|) && AllExited(fates, starts, top)
            && !SomeFailed(fates, starts, now) ==>
              outcome == Returned
    ensures !expired && Calm(fates, live) && ValidDependencies(after, |fates|) && DoneInTime(after, fates, ticks) ==>
              outcome == Returned
  {
    hide StartedInOrder, RootsStarted, OnTime, Extends, LaunchedBy, DoneBy, CaughtUp, ValidDependencies, AllExited,
         DoneInTime, AllPolledZero, PolledAt, Poll, Exited, Polled, AnyBad, AllZero, SomeFailed,
         FailurePolled;
    starts, now, last, top := seq(|fates|, _ => None), 0, 0, 0;
    if expired {
      return DeadlineExceeded, starts, now, last, top;
    }
    if !ValidDependencies(after, |fates|) {
      return InvalidDependency, starts, now, last, top;
    }
    starts := Roots(after, fates);
    if Calm(fates, live) {
      AtStart(after, fates, starts);
    }
    var tick := 0;
    while tick <= ticks
      invariant |starts| == |fates| && StartedInOrder(after, fates, starts) && RootsStarted(after, starts)
      invariant tick <= ticks + 1 && last == (if tick == 0 then 0 else tick - 1) && (live.None? || tick <= live.value)
      invariant Calm(fates, live) ==>
                  OnTime(after, fates, starts, tick, now) && (tick > 0 ==> !DoneInTime(after, fates, tick - 1))
      invariant tick <= now && last <= top && (tick <= 1 ==> top == 0) && (tick == 0 ==> now == 0)
      invariant Past(starts, now) && Past(starts, top + |after|)
      invariant tick > 0 ==>
                  && top + |fates| < now <= top + |after| + |fates| + 1
                  && !AllExited(fates, starts, top)
                  && !AllPolledZero(fates, starts, now) && !FailurePolled(fates, starts, now)
      invariant tick > 1 ==>
                  |fates| <= top && !FailurePolled(fates, starts, top) && !AllPolledZero(fates, starts, top)
      decreases ticks + 1 - tick
    {
      last, top := tick, now;
      ghost var before := starts;
      starts, now := LaunchReady(after, fates, starts, now);
      ExtendsKeeps(after, before, starts, top, now);
      if tick > 0 {
        PassStands(fates, before, starts, top, now);
      }
      StillPast(before, starts, top, now);
      if live == Some(tick) {
        return LiveFailure, starts, now, last, top;
      }
      ghost var launched := now;
      var statuses: seq<Option<int>>;
      statuses, now := PollAll(fates, starts, now + 1);
      Verdict(fates, starts, launched + 1, statuses, now);
      if Calm(fates, live) {
        CalmTick(after, fates, before, starts, tick, top, launched, statuses);
        NoneFails(fates, starts, now);
      }
      if AnyBad(statuses) {
        return ChildFailed, starts, now, last, top;
      }
      if AllZero(statuses) {
        return Returned, starts, now, last, top;
      }
      if AllExited(fates, starts, top) {
        AllSeenDone(after, fates, before, starts, top, launched, launched + 1, statuses);
        assert false;
      }
      tick := tick + 1;
    }
    return DeadlineExceeded, starts, now, last, top;
  }

  /** By the top of the last tick, and no later: here command 0 exits between the last launch pass and its poll. All
      that was started has exited zero before the deadline is met, and command 1 was never started. */
  method ExitAfterLastPass() returns (outcome: Outcome, starts: seq<Option<nat>>, now: nat)
    ensures |starts| == 2 && starts[0] == Some(0) && Poll(Exits(2, 0), starts[0], now) == Some(0)
    ensures outcome == DeadlineExceeded && starts[1].None?
  {
    var after, fates := [Dependency(1, 0)], [Exits(2, 0), Exits(0, 0)];
    var last: nat;
    ghost var top;
    outcome, starts, now, last, top := Supervise(after, fates, false, None, 0);
    assert ValidDependencies(after, 2) && !Waits(after, 0);
    assert after[0] == Dependency(1, 0) && fates[0] == Exits(2, 0);
  }

  method Roots(after: seq<Dependency>, fates: seq<Fate>) returns (starts: seq<Option<nat>>)
    requires ValidDependencies(after, |fates|)
    ensures StartedInOrder(after, fates, starts) && RootsStarted(after, starts)
    ensures |starts| == |fates|
    ensures forall i :: 0 <= i < |starts| ==> starts[i] == if Waits(after, i) then None else Some(0)
  {
    starts := [];
    for i := 0 to |fates|
      invariant |starts| == i && forall j :: 0 <= j < i ==> starts[j] == if Waits(after, j) then None else Some(0)
    {
      starts := starts + [if Waits(after, i) then None else Some(0)];
    }
    assert forall k :: 0 <= k < |after| ==> Waits(after, after[k].index);
  }

  // ---- The two lanes of `run` ----------------------------------------------------------

  /** The commands that are not the CLI's, in order. */
  function OrdinaryIndices(cli: seq<bool>): (r: seq<nat>)
    ensures forall k :: 0 <= k < |r| ==> r[k] < |cli| && !cli[r[k]]
    ensures forall j, k :: 0 <= j < k < |r| ==> r[j] < r[k]
  {
    if cli == [] then []
    else
      var n := |cli| - 1;
      if cli[n] then OrdinaryIndices(cli[..n]) else OrdinaryIndices(cli[..n]) + [n]
  }

  lemma {:induction false} OrdinaryListed(cli: seq<bool>, i: nat) returns (k: nat)
    requires i < |cli| && !cli[i]
    ensures k < |OrdinaryIndices(cli)| && OrdinaryIndices(cli)[k] == i
  {
    var n := |cli| - 1;
    if i < n {
      k := OrdinaryListed(cli[..n], i);
    } else {
      k := |OrdinaryIndices(cli[..n])|;
    }
  }

  /** Each waits for the one before it. */
  function Chain(indices: seq<nat>): (r: seq<Dependency>)
    ensures |r| == if indices == [] then 0 else |indices| - 1
    ensures forall k :: 0 <= k < |r| ==> r[k] == Dependency(indices[k + 1], indices[k])
  {
    seq(if indices == [] then 0 else |indices| - 1,
        k requires 0 <= k < |indices| - 1 => Dependency(indices[k + 1], indices[k]))
  }

  lemma {:induction false} ChainExits(indices: seq<nat>, fates: seq<Fate>, starts: seq<Option<nat>>, a: nat, b: nat)
    requires StartedInOrder(Chain(indices), fates, starts) && a < b < |indices|
    requires forall k :: 0 <= k < |indices| ==> indices[k] < |fates|
    requires starts[indices[b]].Some?
    ensures Exited(fates[indices[a]], starts[indices[a]], starts[indices[b]].value)
  {
    assert Chain(indices)[b - 1] == Dependency(indices[b], indices[b - 1]);
    if a < b - 1 {
      ChainExits(indices, fates, starts, a, b - 1);
    }
  }

  lemma ChainValid(cli: seq<bool>)
    ensures ValidDependencies(Chain(OrdinaryIndices(cli)), |cli|)
  {
    hide OrdinaryIndices, Chain;
    var indices := OrdinaryIndices(cli);
    var after := Chain(indices);
    forall k | 0 <= k < |after|
      ensures after[k].previous < after[k].index < |cli|
      ensures forall j :: 0 <= j < k ==> after[j].index != after[k].index
    {
      assert after[k] == Dependency(indices[k + 1], indices[k]);
      forall j | 0 <= j < k
        ensures after[j].index != after[k].index
      {
        assert after[j] == Dependency(indices[j + 1], indices[j]);
      }
    }
  }

  /** However the processes behave, under the chain `run` builds two commands running at the same instant are never
      both ordinary: with one CLI command, at most two processes run. */
  lemma TwoLanes(cli: seq<bool>, fates: seq<Fate>, starts: seq<Option<nat>>, now: nat, i: nat, j: nat)
    requires |fates| == |cli| && i < j < |cli| && StartedInOrder(Chain(OrdinaryIndices(cli)), fates, starts)
    requires Running(fates[i], starts[i], now) && Running(fates[j], starts[j], now)
    ensures cli[i] || cli[j]
  {
    var indices := OrdinaryIndices(cli);
    if !cli[i] && !cli[j] {
      var a := OrdinaryListed(cli, i);
      var b := OrdinaryListed(cli, j);
      ChainExits(indices, fates, starts, a, b);
    }
  }
}
