/** `parent_tree_timings` (scripts/report_ci_timing.py): wall time of top-level test lifecycles in a mixed event
    stream. */
module ParentTimings {
  import opened Order

  datatype Action = Start | Run | Pause | Cont | Pass | Fail | Skip | Other

  /** `time` is the parsed stamp in nanoseconds, if it is one. */
  datatype Event = Event(package: string, name: string, action: Action, time: Option<int>)

  type Key = (string, string)

  datatype Phase = Ran | Paused | Continued | MissingRun
  datatype Issue = NoRun | NoTerminal | NoCont | RunAgain | BadPause | BadCont | BadTime | Backwards
  datatype State = State(phase: Phase, start: Option<int>, last: Option<int>, issues: seq<Issue>)
  datatype Row = Row(key: Key, seconds: Option<int>, status: Option<Action>, issues: seq<Issue>)

  predicate Terminal(a: Action) {
    a == Pass || a == Fail || a == Skip
  }

  predicate Relevant(e: Event, key: Key) {
    e.name != "" && '/' !in e.name && (e.package, e.name) == key && e.action != Start && e.action != Other
  }

  predicate Restarts(e: Event, package: string) {
    e.name == "" && e.action == Start && e.package == package
  }

  // ---- One lifecycle ----------------------------------------------------------------------

  function Initial(e: Event): State {
    if e.action == Run then State(Ran, e.time, None, []) else State(MissingRun, None, None, [NoRun])
  }

  function CheckTime(s: State, e: Event): State {
    if e.time.None? then s.(issues := s.issues + [BadTime])
    else if s.last.Some? && e.time.value < s.last.value then s.(last := e.time, issues := s.issues + [Backwards])
    else s.(last := e.time)
  }

  function Observe(s0: State, e: Event): State {
    var s := CheckTime(s0, e);
    if e.action == Pause then s.(phase := Paused, issues := if s.phase == Ran then s.issues else s.issues + [BadPause])
    else if e.action == Cont then
      s.(phase := Continued, start := e.time, issues := if s.phase == Paused then s.issues else s.issues + [BadCont])
    else s
  }

  function StateOf(events: seq<Event>): State
    requires events != []
  {
    var n := |events| - 1;
    Observe(if n == 0 then Initial(events[0]) else StateOf(events[..n]), events[n])
  }

  /** finish: closing a lifecycle, with its terminal event if it has one. */
  function Finish(key: Key, s: State, terminal: Option<Event>): Row {
    var issues := if terminal.None? then s.issues + [NoTerminal]
                  else if s.phase == Paused then s.issues + [NoCont] else s.issues;
    if terminal.None? || issues != [] then
      Row(key, None, if terminal.None? then None else Some(terminal.value.action), issues)
    else if terminal.value.time.None? || s.start.None? || terminal.value.time.value < s.start.value then
      Row(key, None, Some(terminal.value.action), issues + [BadTime])
    else Row(key, Some(terminal.value.time.value - s.start.value), Some(terminal.value.action), issues)
  }

  /** The events of one row; `again` when a second run cut it short. */
  datatype Segment = Segment(events: seq<Event>, again: bool)

  function RowOf(key: Key, g: Segment): Row
    requires g.events != []
  {
    var s := StateOf(g.events);
    var last := g.events[|g.events| - 1];
    if Terminal(last.action) then Finish(key, s, Some(last))
    else Finish(key, if g.again then s.(issues := s.issues + [RunAgain]) else s, None)
  }

  // ---- Which rows are clean -----------------------------------------------------------------

  /** A run can only come first and a terminal only last. */
  ghost predicate Shaped(events: seq<Event>) {
    && events != []
    && (forall i :: 0 <= i < |events| ==> events[i].action in {Run, Pause, Cont, Pass, Fail, Skip})
    && (forall i :: 0 < i < |events| ==> events[i].action != Run)
    && (forall i :: 0 <= i < |events| - 1 ==> !Terminal(events[i].action))
  }

  ghost predicate Timed(events: seq<Event>) {
    && (forall i :: 0 <= i < |events| ==> events[i].time.Some?)
    && forall i, j :: 0 <= i < j < |events| && events[i].time.Some? && events[j].time.Some? ==>
         events[i].time.value <= events[j].time.value
  }

  /** run, terminal - or run, pause, cont, terminal. */
  ghost predicate WholeLifecycle(events: seq<Event>) {
    || (|events| == 2 && events[0].action == Run && Terminal(events[1].action))
    || (&& |events| == 4 && events[0].action == Run && events[1].action == Pause
        && events[2].action == Cont && Terminal(events[3].action))
  }

  /** How far into a lifecycle a flawless start of one is. */
  ghost predicate Flawless(events: seq<Event>, s: State)
    requires events != []
  {
    && Timed(events) && s.last == events[|events| - 1].time && events[0].action == Run
    && match |events|
       case 1 => s.phase == Ran && s.start == events[0].time
       case 2 =>
         if events[1].action == Pause then s.phase == Paused
         else Terminal(events[1].action) && s.phase == Ran && s.start == events[0].time
       case 3 =>
         events[1].action == Pause && if events[2].action == Cont then s.phase == Continued && s.start == events[2].time
                                             else Terminal(events[2].action) && s.phase == Paused
       case 4 =>
         && events[1].action == Pause && events[2].action == Cont && Terminal(events[3].action)
         && s.phase == Continued && s.start == events[2].time
       case _ => false
  }

  lemma TimedPrefix(events: seq<Event>)
    requires |events| > 1
    ensures Timed(events) <==>
            var n := |events| - 1;
            && Timed(events[..n]) && events[n].time.Some?
            && (events[n - 1].time.Some? ==> events[n - 1].time.value <= events[n].time.value)
  {
    var n := |events| - 1;
    var before := events[..n];
    assert forall i :: 0 <= i < n ==> before[i] == events[i];
    if Timed(before) && events[n].time.Some?
       && (events[n - 1].time.Some? ==> events[n - 1].time.value <= events[n].time.value) {
      forall i, j | 0 <= i < j < |events|
        ensures events[i].time.Some? && events[j].time.Some? && events[i].time.value <= events[j].time.value
      {
        assert before[i] == events[i] && before[n - 1] == events[n - 1];
      }
    }
  }

  lemma {:induction false} CleanSoFar(events: seq<Event>)
    requires Shaped(events)
    ensures StateOf(events).issues == [] ==> Flawless(events, StateOf(events))
    ensures events[0].action == Run && Timed(events) && (WholeLifecycle(events) || Unfinished(events)) ==>
              StateOf(events).issues == []
  {
    var n := |events| - 1;
    if n > 0 {
      var before := events[..n];
      TimedPrefix(events);
      CleanSoFar(before);
      var s := StateOf(before);
      assert StateOf(events) == Observe(s, events[n]);
      assert Observe(s, events[n]).issues == [] ==> s.issues == [];
    }
  }

  ghost predicate Unfinished(events: seq<Event>) {
    || |events| == 1
    || (|events| == 2 && events[1].action == Pause)
    || (|events| == 3 && events[1].action == Pause && events[2].action == Cont)
  }

  /** A row is free of issues exactly for a whole lifecycle with valid, nondecreasing times, and then (only) it reports
      the nonnegative time from its cont - or, never paused, its run - to its terminal. */
  lemma CleanIffWhole(key: Key, g: Segment)
    requires Shaped(g.events)
    ensures RowOf(key, g).issues == [] <==> RowOf(key, g).seconds.Some?
    ensures RowOf(key, g).issues == [] <==> WholeLifecycle(g.events) && Timed(g.events)
    ensures RowOf(key, g).seconds.Some? ==>
              var n := |g.events| - 1;
              && g.events[n].time.Some? && g.events[if n == 3 then 2 else 0].time.Some?
              && RowOf(key, g).seconds.value == g.events[n].time.value - g.events[if n == 3 then 2 else 0].time.value
              && 0 <= RowOf(key, g).seconds.value
  {
    hide StateOf, Shaped;
    CleanSoFar(g.events);
    if WholeLifecycle(g.events) && Timed(g.events) {
      WholeStart(g.events);
    }
  }

  /** What a lifecycle's issues say, but for its end. */
  ghost predicate Observed(events: seq<Event>, s: State)
    requires events != []
  {
    && s.phase == PhaseAfter(events) && s.last == LastTime(events)
    && (NoRun in s.issues <==> events[0].action != Run)
    && (BadPause in s.issues <==> Misplaced(events, Pause, Run))
    && (BadCont in s.issues <==> Misplaced(events, Cont, Pause))
    && (BadTime in s.issues <==> Untimed(events))
    && (Backwards in s.issues <==> RunsBackwards(events))
    && NoTerminal !in s.issues && RunAgain !in s.issues && NoCont !in s.issues
  }

  /** Some event of one kind does not directly follow one of another. */
  ghost predicate Misplaced(events: seq<Event>, action: Action, before: Action) {
    exists i :: 0 <= i < |events| && MisplacedAt(events, i, action, before)
  }

  ghost predicate MisplacedAt(events: seq<Event>, i: nat, action: Action, before: Action)
    requires i < |events|
  {
    events[i].action == action && (i == 0 || events[i - 1].action != before)
  }

  ghost predicate Untimed(events: seq<Event>) {
    exists i :: 0 <= i < |events| && events[i].time.None?
  }

  /** Some event is earlier than the last valid time before it. */
  ghost predicate RunsBackwards(events: seq<Event>) {
    exists i :: 0 <= i < |events| && BackwardsAt(events, i)
  }

  ghost predicate BackwardsAt(events: seq<Event>, i: nat)
    requires i < |events|
  {
    EarlierThan(events[i], LastTime(events[..i]))
  }

  ghost predicate EarlierThan(e: Event, time: Option<int>) {
    e.time.Some? && time.Some? && e.time.value < time.value
  }

  /** The last valid time. */
  ghost function LastTime(events: seq<Event>): Option<int> {
    if events == [] then None
    else if events[|events| - 1].time.Some? then events[|events| - 1].time
    else LastTime(events[..|events| - 1])
  }

  ghost function PhaseAfter(events: seq<Event>): Phase
    requires events != []
  {
    var n := |events| - 1;
    if events[n].action == Pause then Paused
    else if events[n].action == Cont then Continued
    else if n == 0 then (if events[0].action == Run then Ran else MissingRun)
    else PhaseAfter(events[..n])
  }

  lemma MisplacedNext(events: seq<Event>, action: Action, before: Action)
    requires events != []
    ensures var n := |events| - 1;
            Misplaced(events, action, before) <==>
            || Misplaced(events[..n], action, before)
            || (events[n].action == action && (n == 0 || events[n - 1].action != before))
  {
    hide MisplacedAt;
    var n := |events| - 1;
    var front := events[..n];
    forall i | 0 <= i < n
      ensures MisplacedAt(front, i, action, before) <==> MisplacedAt(events, i, action, before)
    {
      MisplacedSame(events, n, i, action, before);
    }
    MisplacedLast(events, action, before);
  }

  lemma MisplacedSame(events: seq<Event>, n: nat, i: nat, action: Action, before: Action)
    requires i < n <= |events|
    ensures MisplacedAt(events[..n], i, action, before) <==> MisplacedAt(events, i, action, before)
  {}

  lemma MisplacedLast(events: seq<Event>, action: Action, before: Action)
    requires events != []
    ensures var n := |events| - 1;
            MisplacedAt(events, n, action, before) <==>
            events[n].action == action && (n == 0 || events[n - 1].action != before)
  {}

  lemma UntimedNext(events: seq<Event>)
    requires events != []
    ensures Untimed(events) <==> Untimed(events[..|events| - 1]) || events[|events| - 1].time.None?
  {
    var n := |events| - 1;
    assert forall i :: 0 <= i < n ==> events[..n][i] == events[i];
  }

  lemma BackwardsNext(events: seq<Event>)
    requires events != []
    ensures var n := |events| - 1;
            RunsBackwards(events) <==> RunsBackwards(events[..n]) || EarlierThan(events[n], LastTime(events[..n]))
  {
    hide EarlierThan, LastTime, BackwardsAt;
    var n := |events| - 1;
    var front := events[..n];
    forall i | 0 <= i < n
      ensures BackwardsAt(front, i) <==> BackwardsAt(events, i)
    {
      BackwardsSame(events, n, i);
    }
    BackwardsLast(events);
  }

  lemma BackwardsSame(events: seq<Event>, n: nat, i: nat)
    requires i < n <= |events|
    ensures BackwardsAt(events[..n], i) <==> BackwardsAt(events, i)
  {
    hide EarlierThan, LastTime;
    assert events[..n][..i] == events[..i];
  }

  lemma BackwardsLast(events: seq<Event>)
    requires events != []
    ensures var n := |events| - 1; BackwardsAt(events, n) <==> EarlierThan(events[n], LastTime(events[..n]))
  {
    hide EarlierThan, LastTime;
  }

  lemma TimesNext(events: seq<Event>)
    requires events != []
    ensures var n := |events| - 1;
            && (Untimed(events) <==> Untimed(events[..n]) || events[n].time.None?)
            && (RunsBackwards(events) <==> RunsBackwards(events[..n]) || EarlierThan(events[n], LastTime(events[..n])))
            && LastTime(events) == if events[n].time.Some? then events[n].time else LastTime(events[..n])
  {
    hide EarlierThan, Untimed, RunsBackwards;
    UntimedNext(events);
    BackwardsNext(events);
  }

  lemma TimeChecked(s: State, e: Event)
    ensures var t := CheckTime(s, e);
            && t.phase == s.phase && t.start == s.start && t.last == (if e.time.Some? then e.time else s.last)
            && forall x :: x in t.issues <==>
                 || x in s.issues
                 || (x == BadTime && e.time.None?)
                 || (x == Backwards && e.time.Some? && s.last.Some? && e.time.value < s.last.value)
  {}

  lemma ObservedNext(events: seq<Event>, s: State)
    requires |events| > 1 && Shaped(events) && Observed(events[..|events| - 1], s)
    ensures Observed(events, Observe(s, events[|events| - 1]))
  {
    hide LastTime, Misplaced, Untimed, RunsBackwards, CheckTime;
    var n := |events| - 1;
    TimeChecked(s, events[n]);
    MisplacedNext(events, Pause, Run);
    MisplacedNext(events, Cont, Pause);
    TimesNext(events);
    PhaseOf(events[..n]);
  }

  /** Before the end, the event before is what the phase says. */
  lemma PhaseOf(events: seq<Event>)
    requires events != [] && events[|events| - 1].action in {Run, Pause, Cont}
    requires events[|events| - 1].action == Run ==> |events| == 1
    ensures PhaseAfter(events) == Ran <==> events[|events| - 1].action == Run
    ensures PhaseAfter(events) == Paused <==> events[|events| - 1].action == Pause
  {}

  lemma {:induction false} LifecycleObserved(events: seq<Event>)
    requires Shaped(events)
    ensures Observed(events, StateOf(events))
  {
    hide Observed;
    var n := |events| - 1;
    if n == 0 {
      FirstObserved(events);
    } else {
      LifecycleObserved(events[..n]);
      ObservedNext(events, StateOf(events[..n]));
    }
  }

  lemma FirstObserved(events: seq<Event>)
    requires |events| == 1 && Shaped(events)
    ensures Observed(events, Observe(Initial(events[0]), events[0]))
  {
    hide Misplaced, Untimed, RunsBackwards;
    MisplacedNext(events, Pause, Run);
    MisplacedNext(events, Cont, Pause);
    TimesNext(events);
    assert events[..0] == [];
    NoEvents();
  }

  lemma NoEvents()
    ensures !Misplaced([], Pause, Run) && !Misplaced([], Cont, Pause) && !Untimed([]) && !RunsBackwards([])
  {}

  /** What a row reports of its lifecycle: its key, its terminal's action if it has one, and each issue exactly when the
      events show it. */
  lemma RowReports(key: Key, g: Segment)
    requires Shaped(g.events)
    ensures var r, events, n := RowOf(key, g), g.events, |g.events| - 1;
            && r.key == key
            && r.status == (if Terminal(events[n].action) then Some(events[n].action) else None)
            && (NoTerminal in r.issues <==> !Terminal(events[n].action))
            && (NoCont in r.issues <==> Terminal(events[n].action) && n > 0 && events[n - 1].action == Pause)
            && (RunAgain in r.issues <==> g.again && !Terminal(events[n].action))
            && (NoRun in r.issues <==> events[0].action != Run)
            && (BadPause in r.issues <==> Misplaced(events, Pause, Run))
            && (BadCont in r.issues <==> Misplaced(events, Cont, Pause))
            && (BadTime in r.issues <==> Untimed(events))
            && (Backwards in r.issues <==> RunsBackwards(events))
  {
    hide StateOf, Misplaced, Untimed, RunsBackwards, LastTime;
    var events, n := g.events, |g.events| - 1;
    LifecycleObserved(events);
    if Terminal(events[n].action) {
      TerminalPhase(events);
      CleanSoFar(events);
      if events[n].time.None? {
        TimesNext(events);
      }
    }
  }

  lemma TerminalPhase(events: seq<Event>)
    requires Shaped(events) && Terminal(events[|events| - 1].action)
    ensures PhaseAfter(events) == Paused <==> |events| > 1 && events[|events| - 2].action == Pause
  {
    var n := |events| - 1;
    if n > 0 {
      PhaseOf(events[..n]);
    }
  }

  lemma WholeStart(events: seq<Event>)
    requires WholeLifecycle(events) && Timed(events)
    ensures events[0].time.value <= events[1].time.value
    ensures |events| == 4 ==> events[1].time.value <= events[2].time.value <= events[3].time.value
  {}

  // ---- Following one key through a mixed stream -----------------------------------------------

  datatype Follower = Follower(closed: seq<Segment>, open: seq<Event>)

  function Interrupt(f: Follower, again: bool): Follower {
    if f.open == [] then f else Follower(f.closed + [Segment(f.open, again)], [])
  }

  /** One event, as the lifecycles of `key` see it. */
  function FollowEvent(f: Follower, e: Event, key: Key): Follower {
    if Restarts(e, key.0) then Interrupt(f, false)
    else if !Relevant(e, key) then f
    else
      var g := if e.action == Run then Interrupt(f, true) else f;
      if Terminal(e.action) then Follower(g.closed + [Segment(g.open + [e], false)], [])
      else Follower(g.closed, g.open + [e])
  }

  function Follow(events: seq<Event>, key: Key): Follower {
    if events == [] then Follower([], [])
    else FollowEvent(Follow(events[..|events| - 1], key), events[|events| - 1], key)
  }

  function Segments(events: seq<Event>, key: Key): seq<Segment> {
    Interrupt(Follow(events, key), false).closed
  }

  function Joined(segments: seq<Segment>): seq<Event> {
    if segments == [] then [] else Joined(segments[..|segments| - 1]) + segments[|segments| - 1].events
  }

  function RelevantEvents(events: seq<Event>, key: Key): seq<Event> {
    if events == [] then []
    else
      var before := RelevantEvents(events[..|events| - 1], key);
      if Relevant(events[|events| - 1], key) then before + [events[|events| - 1]] else before
  }

  lemma JoinedSnoc(segments: seq<Segment>, g: Segment)
    ensures Joined(segments + [g]) == Joined(segments) + g.events
  {
    assert (segments + [g])[..|segments|] == segments;
  }

  ghost predicate Follows(f: Follower) {
    && (forall k :: 0 <= k < |f.closed| ==> Shaped(f.closed[k].events))
    && (f.open != [] ==> Shaped(f.open) && !Terminal(f.open[|f.open| - 1].action))
  }

  lemma InterruptKeeps(f: Follower, again: bool)
    requires Follows(f)
    ensures Follows(Interrupt(f, again)) && Interrupt(f, again).open == []
    ensures Joined(Interrupt(f, again).closed) == Joined(f.closed) + f.open
  {
    hide Shaped, Joined;
    if f.open != [] {
      JoinedSnoc(f.closed, Segment(f.open, again));
    }
  }

  lemma ShapedSnoc(open: seq<Event>, e: Event)
    requires open != [] ==> Shaped(open) && !Terminal(open[|open| - 1].action)
    requires e.action in {Run, Pause, Cont, Pass, Fail, Skip} && (e.action == Run ==> open == [])
    ensures Shaped(open + [e])
  {}

  lemma FollowEventKeeps(f: Follower, e: Event, key: Key)
    requires Follows(f)
    ensures Follows(FollowEvent(f, e, key))
    ensures var g := FollowEvent(f, e, key);
            Joined(g.closed) + g.open == Joined(f.closed) + f.open + if Relevant(e, key) then [e] else []
  {
    hide Shaped, Joined;
    InterruptKeeps(f, false);
    InterruptKeeps(f, true);
    if !Restarts(e, key.0) && Relevant(e, key) {
      var g := if e.action == Run then Interrupt(f, true) else f;
      ShapedSnoc(g.open, e);
      JoinedSnoc(g.closed, Segment(g.open + [e], false));
    }
  }

  lemma {:induction false} FollowKeeps(events: seq<Event>, key: Key)
    ensures Follows(Follow(events, key))
    ensures Joined(Follow(events, key).closed) + Follow(events, key).open == RelevantEvents(events, key)
  {
    hide Follows, FollowEvent;
    if events == [] {
      NothingFollowed();
    } else {
      var n := |events| - 1;
      FollowKeeps(events[..n], key);
      FollowEventKeeps(Follow(events[..n], key), events[n], key);
    }
  }

  lemma NothingFollowed()
    ensures Follows(Follower([], []))
  {}

  /** The rows of a key cut its relevant events, in order, into consecutive shaped lifecycles: each event in one row. */
  lemma SegmentsCutEvents(events: seq<Event>, key: Key)
    ensures Joined(Segments(events, key)) == RelevantEvents(events, key)
    ensures forall k :: 0 <= k < |Segments(events, key)| ==> Shaped(Segments(events, key)[k].events)
  {
    FollowKeeps(events, key);
    InterruptKeeps(Follow(events, key), false);
  }

  // ---- Where lifecycles are cut ----------------------------------------------------------------

  /** Once a lifecycle has begun in the stretch, its package does not start again in it. */
  ghost predicate OneInvocation(events: seq<Event>, key: Key, from: nat, to: nat)
    requires to <= |events|
  {
    forall i, j :: from <= i < j < to && Relevant(events[i], key) ==> !Restarts(events[j], key.0)
  }

  predicate EndsItself(g: Segment) {
    g.events != [] && Terminal(g.events[|g.events| - 1].action)
  }

  /** The lifecycle is the parent's part of the stretch, within one invocation of its package; it ends by its terminal,
      or because the parent runs again, or its package starts again, just after the stretch. */
  ghost predicate CutAt(events: seq<Event>, key: Key, g: Segment, from: nat, to: nat) {
    && from <= to <= |events| && OneInvocation(events, key, from, to)
    && g.events == RelevantEvents(events[from..to], key) && g.events != []
    && (EndsItself(g) ==> !g.again)
    && (!EndsItself(g) && to < |events| ==>
          if g.again then Relevant(events[to], key) && events[to].action == Run else Restarts(events[to], key.0))
    && (to == |events| ==> !g.again)
  }

  ghost predicate Cuts(events: seq<Event>, key: Key, segments: seq<Segment>, cuts: seq<nat>) {
    && |cuts| == |segments| + 1 && cuts[0] == 0 && cuts[|segments|] <= |events|
    && forall k :: 0 <= k < |segments| ==> CutAt(events, key, segments[k], cuts[k], cuts[k + 1])
  }

  /** What is still open after `events`, in the stretch from the last cut. */
  ghost predicate OpenFrom(events: seq<Event>, key: Key, open: seq<Event>, from: nat) {
    from <= |events| && open == RelevantEvents(events[from..], key) && OneInvocation(events, key, from, |events|)
  }

  /** Every lifecycle closed so far ended for a reason seen by now. */
  ghost predicate Settled(events: seq<Event>, key: Key, segments: seq<Segment>, cuts: seq<nat>) {
    && Cuts(events, key, segments, cuts)
    && forall k :: 0 <= k < |segments| ==>
         cuts[k + 1] < |events| || EndsItself(segments[k])
  }

  lemma RelevantSnoc(events: seq<Event>, e: Event, key: Key)
    ensures RelevantEvents(events + [e], key) == RelevantEvents(events, key) + if Relevant(e, key) then [e] else []
  {
    assert (events + [e])[..|events|] == events;
  }

  lemma CutStays(events: seq<Event>, e: Event, key: Key, g: Segment, from: nat, to: nat)
    requires CutAt(events, key, g, from, to)
    requires to < |events| || EndsItself(g)
    ensures CutAt(events + [e], key, g, from, to)
  {
    assert (events + [e])[from..to] == events[from..to];
    assert forall i :: 0 <= i < |events| ==> (events + [e])[i] == events[i];
  }

  lemma CutsStay(events: seq<Event>, e: Event, key: Key, segments: seq<Segment>, cuts: seq<nat>)
    requires Settled(events, key, segments, cuts)
    ensures Settled(events + [e], key, segments, cuts)
  {
    hide CutAt;
    forall k | 0 <= k < |segments|
      ensures CutAt(events + [e], key, segments[k], cuts[k], cuts[k + 1])
      ensures cuts[k + 1] < |events| + 1 || EndsItself(segments[k])
    {
      assert CutAt(events, key, segments[k], cuts[k], cuts[k + 1]);
      CutStays(events, e, key, segments[k], cuts[k], cuts[k + 1]);
    }
  }

  lemma OpenNext(events: seq<Event>, e: Event, key: Key, open: seq<Event>, from: nat)
    requires OpenFrom(events, key, open, from) && (open == [] || !Restarts(e, key.0))
    ensures OpenFrom(events + [e], key, open + if Relevant(e, key) then [e] else [], from)
  {
    var all := events + [e];
    assert all[from..] == events[from..] + [e];
    RelevantSnoc(events[from..], e, key);
    forall i, j | from <= i < j < |all| && Relevant(all[i], key)
      ensures !Restarts(all[j], key.0)
    {
      if j == |events| {
        RelevantFound(events[from..], key, i - from);
      }
    }
  }

  lemma {:induction false} RelevantFound(events: seq<Event>, key: Key, i: nat)
    requires i < |events| && Relevant(events[i], key)
    ensures RelevantEvents(events, key) != [] && events[i] in RelevantEvents(events, key)
  {
    var n := |events| - 1;
    if i < n {
      RelevantFound(events[..n], key, i);
    }
  }

  /** Interrupting cuts just before the event that interrupts. */
  lemma InterruptCuts(events: seq<Event>, e: Event, key: Key, f: Follower, cuts: seq<nat>, again: bool)
    returns (next: seq<nat>)
    requires Settled(events, key, f.closed, cuts) && OpenFrom(events, key, f.open, cuts[|f.closed|])
    requires f.open != [] ==> !Terminal(f.open[|f.open| - 1].action)
    requires if again then Relevant(e, key) && e.action == Run else Restarts(e, key.0)
    ensures Settled(events + [e], key, Interrupt(f, again).closed, next)
    ensures OpenFrom(events, key, [], next[|Interrupt(f, again).closed|])
  {
    CutsStay(events, e, key, f.closed, cuts);
    next := cuts;
    if f.open != [] {
      var all, from := events + [e], cuts[|f.closed|];
      next := cuts + [|events|];
      assert all[from..|events|] == events[from..];
      assert CutAt(all, key, Segment(f.open, again), from, |events|);
      assert events[|events|..] == [];
      var segments := f.closed + [Segment(f.open, again)];
      forall k | 0 <= k < |segments|
        ensures CutAt(all, key, segments[k], next[k], next[k + 1])
      {
        if k < |f.closed| {
          assert CutAt(all, key, f.closed[k], cuts[k], cuts[k + 1]);
        }
      }
    }
  }

  lemma FollowEventCuts(events: seq<Event>, e: Event, key: Key, f: Follower, cuts: seq<nat>) returns (next: seq<nat>)
    requires Settled(events, key, f.closed, cuts) && OpenFrom(events, key, f.open, cuts[|f.closed|])
    requires f.open != [] ==> !Terminal(f.open[|f.open| - 1].action)
    ensures var g := FollowEvent(f, e, key);
            && Settled(events + [e], key, g.closed, next) && OpenFrom(events + [e], key, g.open, next[|g.closed|])
            && (g.open != [] ==> !Terminal(g.open[|g.open| - 1].action))
  {
    hide CutAt, Settled, OpenFrom, Relevant;
    SettledShape(events, key, f.closed, cuts);
    if Restarts(e, key.0) {
      RestartIrrelevant(e, key);
      next := InterruptCuts(events, e, key, f, cuts, false);
      SettledShape(events + [e], key, Interrupt(f, false).closed, next);
      OpenNext(events, e, key, [], next[|Interrupt(f, false).closed|]);
      assert Interrupt(f, false).open == [] && [] + [] == Interrupt(f, false).open;
    } else if !Relevant(e, key) {
      CutsStay(events, e, key, f.closed, cuts);
      OpenNext(events, e, key, f.open, cuts[|f.closed|]);
      assert f.open + [] == f.open;
      next := cuts;
    } else {
      var g := f;
      if e.action == Run {
        g := Interrupt(f, true);
        next := InterruptCuts(events, e, key, f, cuts, true);
        SettledShape(events + [e], key, g.closed, next);
      } else {
        CutsStay(events, e, key, f.closed, cuts);
        next := cuts;
      }
      OpenNext(events, e, key, g.open, next[|g.closed|]);
      if Terminal(e.action) {
        next := TerminalCuts(events, e, key, g, next);
      }
    }
  }

  lemma RestartIrrelevant(e: Event, key: Key)
    requires Restarts(e, key.0)
    ensures !Relevant(e, key)
  {}

  lemma SettledShape(events: seq<Event>, key: Key, segments: seq<Segment>, cuts: seq<nat>)
    requires Settled(events, key, segments, cuts)
    ensures |cuts| == |segments| + 1
  {}

  /** A terminal cuts just after itself. */
  lemma TerminalCuts(events: seq<Event>, e: Event, key: Key, g: Follower, cuts: seq<nat>) returns (next: seq<nat>)
    requires Settled(events + [e], key, g.closed, cuts) && OpenFrom(events + [e], key, g.open + [e], cuts[|g.closed|])
    requires Terminal(e.action)
    ensures Settled(events + [e], key, g.closed + [Segment(g.open + [e], false)], next)
    ensures OpenFrom(events + [e], key, [], next[|g.closed| + 1])
  {
    var all, from := events + [e], cuts[|g.closed|];
    next := cuts + [|all|];
    assert all[from..|all|] == all[from..];
    assert all[|all|..] == [];
    assert CutAt(all, key, Segment(g.open + [e], false), from, |all|);
    var segments := g.closed + [Segment(g.open + [e], false)];
    forall k | 0 <= k < |segments|
      ensures CutAt(all, key, segments[k], next[k], next[k + 1])
    {
      if k < |g.closed| {
        assert CutAt(all, key, g.closed[k], cuts[k], cuts[k + 1]);
      }
    }
  }

  lemma NothingCut(key: Key)
    ensures Settled([], key, [], [0]) && OpenFrom([], key, [], 0)
  {}

  lemma {:induction false} FollowCuts(events: seq<Event>, key: Key) returns (cuts: seq<nat>)
    ensures var f := Follow(events, key);
            && Settled(events, key, f.closed, cuts) && OpenFrom(events, key, f.open, cuts[|f.closed|])
            && (f.open != [] ==> !Terminal(f.open[|f.open| - 1].action))
  {
    hide CutAt, Settled, OpenFrom, FollowEvent;
    if events == [] {
      NothingCut(key);
      return [0];
    }
    var n := |events| - 1;
    var before := FollowCuts(events[..n], key);
    cuts := FollowEventCuts(events[..n], events[n], key, Follow(events[..n], key), before);
    assert events == events[..n] + [events[n]];
  }

  /** The lifecycles of a parent are cut at its terminals, where it runs again, where its package starts again and at
      the end, and nowhere else. */
  lemma SegmentsAreCut(events: seq<Event>, key: Key)
    ensures exists cuts :: Cuts(events, key, Segments(events, key), cuts)
  {
    var cuts := FollowCuts(events, key);
    var f := Follow(events, key);
    if f.open == [] {
      assert Cuts(events, key, Segments(events, key), cuts);
    } else {
      var from, next := cuts[|f.closed|], cuts + [|events|];
      assert events[from..|events|] == events[from..];
      assert CutAt(events, key, Segment(f.open, false), from, |events|);
      var segments := f.closed + [Segment(f.open, false)];
      forall k | 0 <= k < |segments|
        ensures CutAt(events, key, segments[k], next[k], next[k + 1])
      {
        if k < |f.closed| {
          assert CutAt(events, key, f.closed[k], cuts[k], cuts[k + 1]);
        }
      }
      assert Segments(events, key) == segments;
      assert Cuts(events, key, segments, next);
    }
  }

  /** Every lifecycle event of a top-level test is in one of its lifecycles, and nothing else has any. */
  lemma TopLevelReported(events: seq<Event>, key: Key, i: nat)
    ensures key.1 == "" || '/' in key.1 ==> Segments(events, key) == []
    ensures i < |events| && key.1 != "" && '/' !in key.1 && events[i].package == key.0 && events[i].name == key.1
            && events[i].action in {Run, Pause, Cont, Pass, Fail, Skip} ==>
              exists k :: 0 <= k < |Segments(events, key)| && events[i] in Segments(events, key)[k].events
  {
    SegmentsCutEvents(events, key);
    if key.1 == "" || '/' in key.1 {
      NothingRelevant(events, key);
      if Segments(events, key) != [] {
        JoinedNonempty(Segments(events, key));
      }
    } else if i < |events| && Relevant(events[i], key) {
      RelevantFound(events, key, i);
      JoinedMember(Segments(events, key), events[i]);
    }
  }

  lemma {:induction false} NothingRelevant(events: seq<Event>, key: Key)
    requires key.1 == "" || '/' in key.1
    ensures RelevantEvents(events, key) == []
  {
    if events != [] {
      NothingRelevant(events[..|events| - 1], key);
    }
  }

  lemma JoinedNonempty(segments: seq<Segment>)
    requires segments != [] && forall k :: 0 <= k < |segments| ==> Shaped(segments[k].events)
    ensures Joined(segments) != []
  {}

  lemma {:induction false} JoinedMember(segments: seq<Segment>, e: Event)
    requires e in Joined(segments)
    ensures exists k :: 0 <= k < |segments| && e in segments[k].events
  {
    var n := |segments| - 1;
    if e in Joined(segments[..n]) {
      JoinedMember(segments[..n], e);
      var k :| 0 <= k < n && e in segments[..n][k].events;
      assert e in segments[k].events;
    } else {
      assert e in segments[n].events;
    }
  }

  // ---- The loop over the whole stream ----------------------------------------------------------

  function RowsFor(rows: seq<Row>, key: Key): seq<Row> {
    if rows == [] then []
    else
      var before := RowsFor(rows[..|rows| - 1], key);
      if rows[|rows| - 1].key == key then before + [rows[|rows| - 1]] else before
  }

  function RowsOf(key: Key, segments: seq<Segment>): seq<Row>
    requires forall k :: 0 <= k < |segments| ==> segments[k].events != []
  {
    seq(|segments|, k requires 0 <= k < |segments| => RowOf(key, segments[k]))
  }

  /** The rows of a key are those of the given lifecycles, in order. */
  ghost predicate Reported(rows: seq<Row>, segments: seq<Segment>, key: Key) {
    && (forall k :: 0 <= k < |segments| ==> segments[k].events != [])
    && RowsFor(rows, key) == RowsOf(key, segments)
  }

  /** The rows and the open lifecycle of one key are what following that key alone gives. */
  ghost predicate Tracks(rows: seq<Row>, active: map<Key, State>, f: Follower, key: Key) {
    && Reported(rows, f.closed, key)
    && (key in active <==> f.open != [])
    && (f.open != [] ==> active[key] == StateOf(f.open) && !Terminal(f.open[|f.open| - 1].action))
  }

  lemma RowsForSnoc(rows: seq<Row>, r: Row, key: Key)
    ensures RowsFor(rows + [r], key) == RowsFor(rows, key) + if r.key == key then [r] else []
  {
    assert (rows + [r])[..|rows|] == rows;
  }

  /** Popping an open lifecycle into a row closes it for its own key and touches no other. */
  lemma PopTracks(rows: seq<Row>, active: map<Key, State>, f: Follower, key: Key, popped: Key, again: bool)
    requires Tracks(rows, active, f, key) && popped in active
    ensures var s := active[popped];
            var r := Finish(popped, if again then s.(issues := s.issues + [RunAgain]) else s, None);
            Tracks(rows + [r], active - {popped}, if key == popped then Interrupt(f, again) else f, key)
  {
    hide StateOf, Finish;
    var s := active[popped];
    var r := Finish(popped, if again then s.(issues := s.issues + [RunAgain]) else s, None);
    assert r.key == popped by {
      FinishKey(popped, if again then s.(issues := s.issues + [RunAgain]) else s);
    }
    RowsForSnoc(rows, r, key);
    if key == popped {
      var g := Segment(f.open, again);
      assert RowsOf(key, f.closed + [g]) == RowsOf(key, f.closed) + [RowOf(key, g)];
    }
  }

  lemma FinishKey(key: Key, s: State)
    ensures Finish(key, s, None).key == key
  {}

  /** Closes the open lifecycles of a package, or of every package. */
  method Flush(rows0: seq<Row>, active0: map<Key, State>, package: Option<string>, ghost events: seq<Event>)
    returns (rows: seq<Row>, active: map<Key, State>)
    requires forall key: Key :: Tracks(rows0, active0, Follow(events, key), key)
    ensures forall key: Key ::
              Tracks(rows, active,
                     if package.None? || key.0 == package.value then Interrupt(Follow(events, key), false)
                     else Follow(events, key), key)
  {
    hide Tracks, Follow, Interrupt;
    rows, active := rows0, active0;
    var todo := set key: Key | key in active && (package.None? || key.0 == package.value);
    ghost var done: set<Key> := {};
    while todo != {}
      invariant todo <= active.Keys && todo !! done
      invariant forall key: Key :: key in active && (package.None? || key.0 == package.value) ==> key in todo
      invariant forall key: Key :: key in done || key in todo ==> package.None? || key.0 == package.value
      invariant forall key: Key ::
                  Tracks(rows, active,
                         if key in done then Interrupt(Follow(events, key), false) else Follow(events, key), key)
      decreases |todo|
    {
      var popped :| popped in todo;
      forall key: Key
        ensures Tracks(rows + [Finish(popped, active[popped], None)], active - {popped},
                  if key in done + {popped} then Interrupt(Follow(events, key), false) else Follow(events, key), key)
      {
        PopTracks(rows, active, if key in done then Interrupt(Follow(events, key), false) else Follow(events, key), key,
                  popped, false);
      }
      rows := rows + [Finish(popped, active[popped], None)];
      active := active - {popped};
      todo := todo - {popped};
      done := done + {popped};
    }
    forall key: Key | (package.None? || key.0 == package.value) && key !in done
      ensures Tracks(rows, active, Interrupt(Follow(events, key), false), key)
    {
      NothingOpen(rows, active, Follow(events, key), key);
    }
  }

  lemma NothingOpen(rows: seq<Row>, active: map<Key, State>, f: Follower, key: Key)
    requires Tracks(rows, active, f, key) && key !in active
    ensures Tracks(rows, active, Interrupt(f, false), key)
  {}

  /** One relevant event of `key`. */
  method Step(rows0: seq<Row>, active0: map<Key, State>, e: Event, ghost events: seq<Event>)
    returns (rows: seq<Row>, active: map<Key, State>)
    requires forall k :: Tracks(rows0, active0, Follow(events, k), k)
    requires Relevant(e, (e.package, e.name))
    ensures forall k :: Tracks(rows, active, FollowEvent(Follow(events, k), e, k), k)
  {
    hide Tracks, Follow, Finish, Observe;
    rows, active := rows0, active0;
    var key := (e.package, e.name);
    if e.action == Run && key in active {
      var s := active[key];
      forall k
        ensures Tracks(rows + [Finish(key, s.(issues := s.issues + [RunAgain]), None)], active - {key},
                  if k == key then Interrupt(Follow(events, k), true) else Follow(events, k), k)
      {
        PopTracks(rows, active, Follow(events, k), k, key, true);
      }
      rows := rows + [Finish(key, s.(issues := s.issues + [RunAgain]), None)];
      active := active - {key};
    } else if e.action == Run {
      NotOpen(rows, active, Follow(events, key), key);
    }
    ghost var f := if e.action == Run then Interrupt(Follow(events, key), true) else Follow(events, key);
    var state := Observe(if key in active then active[key] else Initial(e), e);
    forall k
      ensures Tracks(if Terminal(e.action) then rows + [Finish(key, state, Some(e))] else rows,
                     if Terminal(e.action) then active - {key} else active[key := state],
                     FollowEvent(Follow(events, k), e, k), k)
    {
      if k == key {
        OwnEvent(rows, active, f, e, key);
      } else {
        OtherEvent(rows, active, Follow(events, k), e, key, k, state);
      }
    }
    if Terminal(e.action) {
      rows := rows + [Finish(key, state, Some(e))];
      active := active - {key};
    } else {
      active := active[key := state];
    }
  }

  lemma NotOpen(rows: seq<Row>, active: map<Key, State>, f: Follower, key: Key)
    requires Tracks(rows, active, f, key) && key !in active
    ensures Interrupt(f, true) == f
  {}

  lemma OwnEvent(rows: seq<Row>, active: map<Key, State>, f: Follower, e: Event, key: Key)
    requires Tracks(rows, active, f, key) && Relevant(e, key) && (e.action == Run ==> key !in active)
    ensures var state := Observe(if key in active then active[key] else Initial(e), e);
            if Terminal(e.action) then
              Tracks(rows + [Finish(key, state, Some(e))], active - {key},
                     Follower(f.closed + [Segment(f.open + [e], false)], []), key)
            else Tracks(rows, active[key := state], Follower(f.closed, f.open + [e]), key)
  {
    hide Finish, Observe, RowsFor;
    var state := Observe(if key in active then active[key] else Initial(e), e);
    assert (f.open + [e])[..|f.open|] == f.open;
    assert StateOf(f.open + [e]) == state;
    if Terminal(e.action) {
      var g := Segment(f.open + [e], false);
      TerminalKey(key, state, e);
      RowsForSnoc(rows, Finish(key, state, Some(e)), key);
      assert RowsOf(key, f.closed + [g]) == RowsOf(key, f.closed) + [RowOf(key, g)];
    }
  }

  lemma TerminalKey(key: Key, s: State, e: Event)
    ensures Finish(key, s, Some(e)).key == key
  {}

  lemma OtherEvent(rows: seq<Row>, active: map<Key, State>, f: Follower, e: Event, key: Key, k: Key, state: State)
    requires Tracks(rows, active, f, k) && k != key == (e.package, e.name) && Relevant(e, key)
    ensures FollowEvent(f, e, k) == f
    ensures Tracks(rows + [Finish(key, state, Some(e))], active - {key}, f, k)
    ensures Tracks(rows, active[key := state], f, k)
  {
    hide Finish, RowsFor, StateOf;
    TerminalKey(key, state, e);
    RowsForSnoc(rows, Finish(key, state, Some(e)), k);
  }

  /** In one pass over a stream that mixes any number of parents, the rows of each parent are, in order, those of its
      own lifecycles. */
  method ParentTreeTimings(events: seq<Event>) returns (rows: seq<Row>)
    ensures forall key: Key :: Reported(rows, Segments(events, key), key)
  {
    hide Tracks, FollowEvent;
    rows := [];
    var active: map<Key, State> := map[];
    forall key: Key
      ensures Tracks(rows, active, Follow([], key), key)
    {
      NothingTracked(key);
    }
    for k := 0 to |events|
      invariant forall key: Key :: Tracks(rows, active, Follow(events[..k], key), key)
    {
      var e := events[k];
      assert events[..k + 1][..k] == events[..k];
      assert forall key: Key :: Follow(events[..k + 1], key) == FollowEvent(Follow(events[..k], key), e, key);
      forall key: Key
        ensures e.name == "" && e.action == Start ==>
                  FollowEvent(Follow(events[..k], key), e, key) ==
                  (if key.0 == e.package then Interrupt(Follow(events[..k], key), false) else Follow(events[..k], key))
        ensures !(e.name == "" && e.action == Start) && !Relevant(e, (e.package, e.name)) ==>
                  FollowEvent(Follow(events[..k], key), e, key) == Follow(events[..k], key)
      {
        Elsewhere(Follow(events[..k], key), e, key);
      }
      if e.name == "" && e.action == Start {
        rows, active := Flush(rows, active, Some(e.package), events[..k]);
      } else if Relevant(e, (e.package, e.name)) {
        rows, active := Step(rows, active, e, events[..k]);
      }
    }
    assert events[..|events|] == events;
    rows, active := Flush(rows, active, None, events);
    forall key: Key
      ensures Reported(rows, Segments(events, key), key)
    {
      TracksRows(rows, active, Interrupt(Follow(events, key), false), key);
    }
  }

  lemma NothingTracked(key: Key)
    ensures Tracks([], map[], Follow([], key), key)
  {}

  lemma TracksRows(rows: seq<Row>, active: map<Key, State>, f: Follower, key: Key)
    requires Tracks(rows, active, f, key)
    ensures Reported(rows, f.closed, key)
  {}

  lemma Elsewhere(f: Follower, e: Event, key: Key)
    ensures e.name == "" && e.action == Start ==>
              FollowEvent(f, e, key) == if key.0 == e.package then Interrupt(f, false) else f
    ensures !(e.name == "" && e.action == Start) && !Relevant(e, (e.package, e.name)) ==> FollowEvent(f, e, key) == f
  {}
}
