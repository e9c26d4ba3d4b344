/** Lifecycle evidence: containment, and selected-package logs (scripts/go_parent_shards.py). */
module Lifecycles {
  import opened Order
  import opened Units
  import opened Logs

  type Body = (string, string)

  lemma TopPrefix(parent: string, name: string)
    requires '/' !in parent
    ensures parent + "/" <= name <==> '/' in name && Top(name) == parent
  {
    TopSlash(name);
    if parent + "/" <= name {
      TopOf(parent, name[|parent| + 1..]);
      assert name == parent + "/" + name[|parent| + 1..];
    }
  }

  lemma {:induction false} TopOf(parent: string, rest: string)
    requires '/' !in parent
    ensures Top(parent + "/" + rest) == parent
  {
    var name := parent + "/" + rest;
    if parent != "" {
      assert name[1..] == parent[1..] + "/" + rest;
      assert parent[0] in parent;
      TopOf(parent[1..], rest);
    }
  }

  // ---- verify_lifecycle_containment ---------------------------------------

  predicate HasDescendant(active: set<Body>, package: string, parent: string) {
    exists b :: b in active && b.0 == package && parent + "/" <= b.1
  }

  /** One event against the bodies active so far; `None` is the raised Failure. */
  function Advance(active: set<Body>, e: Event): Option<set<Body>> {
    var key := (e.package, e.test);
    if e.test == "" || e.action == Output then Some(active)
    else if '/' in e.test && (e.package, Top(e.test)) !in active then None
    else if e.action == Run then Some(active + {key})
    else if Terminal(e.action) then
      if key !in active || ('/' !in e.test && HasDescendant(active, e.package, e.test)) then None
      else Some(active - {key})
    else Some(active)
  }

  /** The bodies active after a whole stream, unless some event is rejected. */
  function Active(es: seq<Event>): Option<set<Body>> {
    if es == [] then Some({})
    else
      var before := Active(es[..|es| - 1]);
      if before.None? then None else Advance(before.value, es[|es| - 1])
  }

  method VerifyContainment(events: seq<Event>) returns (ok: bool)
    ensures ok <==> Active(events).Some?
  {
    var active: set<Body> := {};
    for k := 0 to |events|
      invariant Active(events[..k]) == Some(active)
    {
      assert events[..k + 1][..k] == events[..k];
      var next := Advance(active, events[k]);
      if next.None? {
        ActivePrefix(events, k + 1);
        return false;
      }
      active := next.value;
    }
    assert events[..|events|] == events;
    return true;
  }

  lemma {:induction false} ActivePrefix(events: seq<Event>, k: nat)
    requires k <= |events|
    ensures Active(events).Some? ==> Active(events[..k]).Some?
    decreases |events| - k
  {
    if k == |events| {
      assert events[..k] == events;
    } else {
      ActivePrefix(events, k + 1);
      assert events[..k + 1][..k] == events[..k];
    }
  }

  ghost predicate Enclosed(active: set<Body>) {
    forall b :: b in active && '/' in b.1 ==> (b.0, Top(b.1)) in active
  }

  lemma AdvanceEnclosed(active: set<Body>, e: Event)
    requires Enclosed(active) && Advance(active, e).Some?
    ensures Enclosed(Advance(active, e).value)
  {
    var next := Advance(active, e).value;
    forall b | b in next && '/' in b.1
      ensures (b.0, Top(b.1)) in next
    {
      TopSlash(b.1);
      TopSlash(Top(b.1));
      if (b.0, Top(b.1)) in active && (b.0, Top(b.1)) !in next {
        TopPrefix(e.test, b.1);
        TopSlash(e.test);
        assert HasDescendant(active, e.package, e.test);
      }
    }
  }

  /** In any accepted stream, at every moment a running descendant's top-level parent is running too. */
  lemma {:induction false} DescendantsRunInsideParents(events: seq<Event>, k: nat)
    requires Active(events).Some? && k <= |events|
    ensures Active(events[..k]).Some? && Enclosed(Active(events[..k]).value)
  {
    ActivePrefix(events, k);
    if k > 0 {
      assert events[..k][..k - 1] == events[..k - 1];
      DescendantsRunInsideParents(events, k - 1);
      AdvanceEnclosed(Active(events[..k - 1]).value, events[k - 1]);
    }
  }

  // ---- Lifecycles of one selected package -----------------------------------

  /** Before event `k` the body has run and not ended since. */
  ghost predicate RunningAt(es: seq<Event>, k: nat, b: Body) {
    && k <= |es| && b.1 != ""
    && exists i :: 0 <= i < k && RunOf(es[i], b) && forall j :: i < j < k ==> !EndOf(es[j], b)
  }

  predicate RunOf(e: Event, b: Body) {
    e.package == b.0 && e.test == b.1 && e.action == Run
  }

  predicate EndOf(e: Event, b: Body) {
    e.package == b.0 && e.test == b.1 && Terminal(e.action)
  }

  /** A descendant's event (any but output) comes while its top-level parent runs; what ends was running; and no
      top-level parent ends while a descendant of it runs. */
  ghost predicate InPlace(es: seq<Event>, k: nat)
    requires k < |es|
  {
    var e := es[k];
    e.test != "" && e.action != Output ==>
      && ('/' in e.test ==> RunningAt(es, k, (e.package, Top(e.test))))
      && (Terminal(e.action) ==> RunningAt(es, k, (e.package, e.test)))
      && (Terminal(e.action) && '/' !in e.test ==>
            forall n :: e.test + "/" <= n ==> !RunningAt(es, k, (e.package, n)))
  }

  ghost predicate AllInPlace(es: seq<Event>) {
    forall k :: 0 <= k < |es| ==> InPlace(es, k)
  }

  lemma RunningNext(es: seq<Event>, e: Event, b: Body)
    ensures RunningAt(es + [e], |es| + 1, b) <==>
            b.1 != "" && (RunOf(e, b) || (RunningAt(es, |es|, b) && !EndOf(e, b)))
    ensures forall k :: 0 <= k <= |es| ==> (RunningAt(es + [e], k, b) <==> RunningAt(es, k, b))
  {
    var all := es + [e];
    assert forall i :: 0 <= i < |es| ==> all[i] == es[i];
    assert all[|es|] == e;
    if RunOf(e, b) {
      assert RunOf(all[|es|], b);
    }
    if RunningAt(all, |es| + 1, b) && !RunOf(e, b) {
      var i :| 0 <= i < |es| + 1 && RunOf(all[i], b) && forall j :: i < j < |es| + 1 ==> !EndOf(all[j], b);
      assert RunOf(es[i], b) && forall j :: i < j < |es| ==> !EndOf(es[j], b);
    }
    if RunningAt(es, |es|, b) && !EndOf(e, b) {
      var i :| 0 <= i < |es| && RunOf(es[i], b) && forall j :: i < j < |es| ==> !EndOf(es[j], b);
      assert RunOf(all[i], b);
    }
    forall k | 0 <= k <= |es|
      ensures RunningAt(all, k, b) <==> RunningAt(es, k, b)
    {
      if RunningAt(all, k, b) {
        var i :| 0 <= i < k && RunOf(all[i], b) && forall j :: i < j < k ==> !EndOf(all[j], b);
        assert RunOf(es[i], b);
      }
      if RunningAt(es, k, b) {
        var i :| 0 <= i < k && RunOf(es[i], b) && forall j :: i < j < k ==> !EndOf(es[j], b);
        assert RunOf(all[i], b);
      }
    }
  }

  lemma InPlaceNext(es: seq<Event>, e: Event)
    ensures AllInPlace(es + [e]) <==> AllInPlace(es) && InPlace(es + [e], |es|)
  {
    hide RunningAt, InPlace;
    var all := es + [e];
    forall k | 0 <= k < |es|
      ensures InPlace(all, k) <==> InPlace(es, k)
    {
      SamePlace(es, e, k);
    }
  }

  lemma SamePlace(es: seq<Event>, e: Event, k: nat)
    requires k < |es|
    ensures InPlace(es + [e], k) <==> InPlace(es, k)
  {
    hide RunningAt;
    forall b: Body
      ensures RunningAt(es + [e], k, b) <==> RunningAt(es, k, b)
    {
      RunningNext(es, e, b);
    }
  }

  /** `verify_lifecycle_containment` accepts exactly the streams whose events are all in place, and keeps exactly the
      bodies that are running. */
  lemma {:induction false} ContainmentMeans(es: seq<Event>)
    ensures Active(es).Some? <==> AllInPlace(es)
    ensures Active(es).Some? ==> forall b :: b in Active(es).value <==> RunningAt(es, |es|, b)
  {
    if es != [] {
      var k := |es| - 1;
      var before, e := es[..k], es[k];
      assert es == before + [e];
      ContainmentMeans(before);
      InPlaceNext(before, e);
      if Active(before).Some? {
        AdvanceMeans(before, e, Active(before).value);
      }
    }
  }

  lemma AdvanceMeans(before: seq<Event>, e: Event, active: set<Body>)
    requires forall b :: b in active <==> RunningAt(before, |before|, b)
    ensures Advance(active, e).Some? <==> InPlace(before + [e], |before|)
    ensures Advance(active, e).Some? ==>
              forall b :: b in Advance(active, e).value <==> RunningAt(before + [e], |before| + 1, b)
  {
    hide RunningAt;
    forall b: Body
      ensures RunningAt(before + [e], |before|, b) <==> b in active
      ensures RunningAt(before + [e], |before| + 1, b) <==> b.1 != "" && (RunOf(e, b) || (b in active && !EndOf(e, b)))
      ensures b in active ==> b.1 != ""
    {
      RunningNext(before, e, b);
      RunningNamed(before, |before|, b);
    }
    assert (before + [e])[|before|] == e;
  }

  lemma RunningNamed(es: seq<Event>, k: nat, b: Body)
    ensures RunningAt(es, k, b) ==> b.1 != ""
  {}

  predicate OfBody(e: Event, test: string) {
    e.test == test && test != "" && e.action != Output
  }

  function Lifecycle(es: seq<Event>, test: string): seq<Action> {
    if es == [] then []
    else
      var before := Lifecycle(es[..|es| - 1], test);
      if OfBody(es[|es| - 1], test) then before + [es[|es| - 1].action] else before
  }

  predicate WholeLifecycle(a: seq<Action>) {
    a == [Run, Pass] || a == [Run, Skip] || a == [Run, Pause, Cont, Pass] || a == [Run, Pause, Cont, Skip]
  }

  function Bodies(es: seq<Event>): set<string> {
    set i | 0 <= i < |es| && es[i].test != "" && es[i].action != Output :: es[i].test
  }

  function RunBodies(es: seq<Event>): set<Body> {
    set i | 0 <= i < |es| && es[i].test != "" && es[i].action == Run :: (es[i].package, es[i].test)
  }

  function EndedBodies(es: seq<Event>): set<Body> {
    set i | 0 <= i < |es| && es[i].test != "" && Terminal(es[i].action) :: (es[i].package, es[i].test)
  }

  /** What `verify_logs` requires of the log of one package's selected parents. */
  ghost predicate SelectedLog(events: seq<Event>, package: string, names: seq<string>) {
    && Covers(events, map[package := true], Some(names))
    && RunBodies(events) == EndedBodies(events) && RunBodies(events) != {}
    && (forall t :: t in Bodies(events) ==> WholeLifecycle(Lifecycle(events, t)))
    && Active(events).Some?
    && (forall i :: 0 <= i < |events| && events[i].test != "" ==> Top(events[i].test) in names)
  }

  lemma {:induction false} LifecycleConcat(a: seq<Event>, b: seq<Event>, test: string)
    ensures Lifecycle(a + b, test) == Lifecycle(a, test) + Lifecycle(b, test)
  {
    if b == [] {
      assert a + b == a;
    } else {
      var n := |b| - 1;
      assert (a + b)[..|a + b| - 1] == a + b[..n];
      LifecycleConcat(a, b[..n], test);
    }
  }

  lemma {:induction false} LifecycleOrigin(es: seq<Event>, test: string, a: Action)
    requires a in Lifecycle(es, test)
    ensures exists i :: 0 <= i < |es| && OfBody(es[i], test) && es[i].action == a
  {
    var n := |es| - 1;
    if OfBody(es[n], test) && es[n].action == a {
    } else {
      LifecycleOrigin(es[..n], test, a);
      var i :| 0 <= i < n && OfBody(es[..n][i], test) && es[..n][i].action == a;
      assert OfBody(es[i], test) && es[i].action == a;
    }
  }

  lemma SamePackage(events: seq<Event>, package: string, names: seq<string>)
    requires SelectedLog(events, package, names)
    ensures forall i :: 0 <= i < |events| ==>
              events[i].package == package && events[i].action != Fail && events[i].action != BuildFail
  {
    forall i | 0 <= i < |events|
      ensures events[i].package == package && events[i].action != Fail && events[i].action != BuildFail
    {
      assert EventAllowed(events[i], map[package := true], Some(names));
    }
  }

  predicate Open(seen: seq<Action>) {
    Run in seen && Pass !in seen && Skip !in seen
  }

  lemma OpenNext(seen: seq<Action>, a: Action, rest: seq<Action>)
    requires WholeLifecycle(seen + [a] + rest)
    ensures a == Run ==> Open(seen + [a])
    ensures !Terminal(a) && Open(seen) ==> Open(seen + [a])
  {
    var all := seen + [a] + rest;
    assert all[|seen|] == a;
    if a == Run {
      assert |seen| == 0;
    }
  }

  lemma {:induction false} LifecycleAt(events: seq<Event>, k: nat, test: string)
    requires k < |events|
    ensures Lifecycle(events[..k + 1], test) ==
            Lifecycle(events[..k], test) + (if OfBody(events[k], test) then [events[k].action] else [])
    ensures Lifecycle(events, test) == Lifecycle(events[..k + 1], test) + Lifecycle(events[k + 1..], test)
  {
    assert events[..k + 1][..k] == events[..k];
    assert events == events[..k + 1] + events[k + 1..];
    LifecycleConcat(events[..k + 1], events[k + 1..], test);
  }

  /** While a body is active it has run and not yet ended. */
  lemma {:induction false} ActiveBodyOpen(events: seq<Event>, package: string, k: nat, test: string)
    requires forall i :: 0 <= i < |events| ==> events[i].package == package
    requires test in Bodies(events) ==> WholeLifecycle(Lifecycle(events, test))
    requires k <= |events| && Active(events[..k]).Some? && (package, test) in Active(events[..k]).value
    ensures Open(Lifecycle(events[..k], test))
  {
    var e := events[k - 1];
    assert events[..k][..k - 1] == events[..k - 1];
    LifecycleAt(events, k - 1, test);
    var before := Active(events[..k - 1]).value;
    if (package, test) in before {
      ActiveBodyOpen(events, package, k - 1, test);
    }
    if OfBody(e, test) {
      assert test in Bodies(events);
      OpenNext(Lifecycle(events[..k - 1], test), e.action, Lifecycle(events[k..], test));
    }
  }

  /** The stretch of a stream taken by one body. */
  ghost predicate Spans(events: seq<Event>, test: string, i: nat, j: nat) {
    && i < j < |events|
    && OfBody(events[i], test) && events[i].action == Run
    && OfBody(events[j], test) && Terminal(events[j].action)
  }

  /** In an accepted log every body runs once, is paused at most once, and ends once; and every lifecycle event of a
      descendant (any event but its output) lies strictly inside its top-level parent's one run-to-terminal stretch. */
  lemma {:induction false} SelectedBodiesNest(events: seq<Event>, package: string, names: seq<string>, k: nat)
    requires SelectedLog(events, package, names)
    requires k < |events| && events[k].test != "" && events[k].action != Output && '/' in events[k].test
    ensures WholeLifecycle(Lifecycle(events, events[k].test))
    ensures WholeLifecycle(Lifecycle(events, Top(events[k].test)))
    ensures exists i: nat, j: nat :: Spans(events, Top(events[k].test), i, j) && i < k < j
  {
    hide Covers, Lifecycle, WholeLifecycle, Open, Top;
    var e := events[k];
    var top := Top(e.test);
    TopSlash(e.test);
    assert e.test in Bodies(events);
    SamePackage(events, package, names);
    ActivePrefix(events, k + 1);
    assert events[..k + 1][..k] == events[..k];
    ActiveBodyOpen(events, package, k, top);
    var i, j := OpenSpans(events, top, k);
    assert i < k < j;
  }

  lemma OpenSpans(events: seq<Event>, test: string, k: nat) returns (i: nat, j: nat)
    requires k < |events| && Open(Lifecycle(events[..k], test)) && !OfBody(events[k], test)
    requires test in Bodies(events) ==> WholeLifecycle(Lifecycle(events, test))
    ensures Spans(events, test, i, j) && i < k < j
    ensures WholeLifecycle(Lifecycle(events, test))
  {
    hide Lifecycle;
    LifecycleOrigin(events[..k], test, Run);
    i :| 0 <= i < k && OfBody(events[..k][i], test) && events[..k][i].action == Run;
    assert OfBody(events[i], test) && test in Bodies(events);
    LifecycleAt(events, k, test);
    var seen, all, rest := Lifecycle(events[..k], test), Lifecycle(events, test), Lifecycle(events[k + 1..], test);
    assert all == seen + rest;
    var end := all[|all| - 1];
    assert end in all && end !in seen;
    assert end in rest;
    assert end == rest[|rest| - 1];
    LifecycleOrigin(events[k + 1..], test, end);
    j :| 0 <= j < |events[k + 1..]| && OfBody(events[k + 1..][j], test) && events[k + 1..][j].action == end;
    j := k + 1 + j;
  }

  /** Bodies of unassigned parents never ran: every selected name has a terminal and no other top-level name appears. */
  lemma SelectedExactly(events: seq<Event>, package: string, names: seq<string>, n: string)
    requires SelectedLog(events, package, names)
    ensures (package, n) in TestsEnded(events) <==> n in names
  {
    assert Names(TestsEnded(events)) == set x | x in names;
    if n in names {
      assert n in Names(TestsEnded(events));
      var t :| t in TestsEnded(events) && t.1 == n;
      var i :| 0 <= i < |events| && ParentEnd(events[i]) && t == (events[i].package, events[i].test);
      assert EventAllowed(events[i], map[package := true], Some(names));
    }
    if (package, n) in TestsEnded(events) {
      assert (package, n).1 in Names(TestsEnded(events));
    }
  }

  // ---- The checks, as run -----------------------------------------------------

  lemma {:induction false} LifecycleNonempty(es: seq<Event>, test: string)
    ensures test in Bodies(es) <==> Lifecycle(es, test) != []
  {
    if es != [] {
      var n := |es| - 1;
      LifecycleNonempty(es[..n], test);
      var last := if es[n].test != "" && es[n].action != Output then {es[n].test} else {};
      assert Bodies(es) == Bodies(es[..n]) + last by {
        assert forall i :: 0 <= i < n ==> es[..n][i] == es[i];
      }
    }
  }

  /** The lifecycle table: each test's non-output actions in order. */
  method Lifetimes(events: seq<Event>) returns (table: map<string, seq<Action>>)
    ensures table.Keys == Bodies(events)
    ensures forall t :: t in table ==> table[t] == Lifecycle(events, t)
  {
    table := map[];
    for k := 0 to |events|
      invariant forall t :: t in table <==> Lifecycle(events[..k], t) != []
      invariant forall t :: t in table ==> table[t] == Lifecycle(events[..k], t)
    {
      var e := events[k];
      assert events[..k + 1][..k] == events[..k];
      if e.test != "" && e.action != Output {
        table := table[e.test := (if e.test in table then table[e.test] else []) + [e.action]];
      }
    }
    assert events[..|events|] == events;
    forall t
      ensures t in table <==> t in Bodies(events)
    {
      LifecycleNonempty(events, t);
    }
  }

  /** `terminals` of scripts/run_ci_tier.py: no failure, no body ended twice, no body left running. */
  ghost predicate TierAccepts(events: seq<Event>) {
    Unfailed(events) && BodiesEndOnce(events) && RunBodies(events) <= EndedBodies(events)
  }

  lemma EndedNext(events: seq<Event>, k: nat)
    requires k < |events|
    ensures EndedBodies(events[..k + 1]) == EndedBodies(events[..k]) +
              (if events[k].test != "" && Terminal(events[k].action) then {(events[k].package, events[k].test)} else {})
    ensures RunBodies(events[..k + 1]) == RunBodies(events[..k]) +
              (if events[k].test != "" && events[k].action == Run then {(events[k].package, events[k].test)} else {})
  {
    var all, front := events[..k + 1], events[..k];
    assert all[k] == events[k] && forall i :: 0 <= i < k ==> all[i] == front[i];
  }

  ghost predicate Unfailed(es: seq<Event>) {
    forall i :: 0 <= i < |es| ==> es[i].action != Fail && es[i].action != BuildFail
  }

  ghost predicate BodiesEndOnce(es: seq<Event>) {
    forall i, j :: 0 <= i < j < |es| && es[i].test != "" && Terminal(es[i].action) && Terminal(es[j].action) ==>
      es[i].package != es[j].package || es[i].test != es[j].test
  }

  lemma EndOnceNext(es: seq<Event>, e: Event)
    ensures Unfailed(es + [e]) <==> Unfailed(es) && e.action != Fail && e.action != BuildFail
    ensures BodiesEndOnce(es + [e]) <==>
            BodiesEndOnce(es) && (e.test != "" && Terminal(e.action) ==> (e.package, e.test) !in EndedBodies(es))
  {
    var all := es + [e];
    assert forall i :: 0 <= i < |es| ==> all[i] == es[i];
    assert all[|es|] == e;
  }

  lemma TierRejectsPrefix(events: seq<Event>, k: nat)
    requires k <= |events| && (!Unfailed(events[..k]) || !BodiesEndOnce(events[..k]))
    ensures !TierAccepts(events)
  {
    assert forall i :: 0 <= i < k ==> events[..k][i] == events[i];
  }

  lemma NoBodies()
    ensures Unfailed([]) && BodiesEndOnce([]) && EndedBodies([]) == {} && RunBodies([]) == {}
  {}

  lemma TierParts(events: seq<Event>)
    requires Unfailed(events) && BodiesEndOnce(events)
    ensures TierAccepts(events) <==> RunBodies(events) <= EndedBodies(events)
  {}

  /** Records the terminal of every body; a skip stays a skip. */
  method Terminals(events: seq<Event>) returns (r: Option<map<Body, Action>>)
    ensures r.Some? <==> TierAccepts(events)
    ensures r.Some? ==>
              && r.value.Keys == EndedBodies(events)
              && forall i :: 0 <= i < |events| && events[i].test != "" && Terminal(events[i].action) ==>
                   r.value[(events[i].package, events[i].test)] == events[i].action
  {
    hide Unfailed, BodiesEndOnce, TierAccepts, RunBodies;
    var items: map<Body, Action> := map[];
    var runs: set<Body> := {};
    NoBodies();
    for k := 0 to |events|
      invariant Unfailed(events[..k]) && BodiesEndOnce(events[..k])
      invariant items.Keys == EndedBodies(events[..k]) && runs == RunBodies(events[..k])
      invariant forall i :: 0 <= i < k && events[i].test != "" && Terminal(events[i].action) ==>
                  && (events[i].package, events[i].test) in items
                  && items[(events[i].package, events[i].test)] == events[i].action
    {
      var e := events[k];
      EndedNext(events, k);
      EndOnceNext(events[..k], e);
      assert events[..k] + [e] == events[..k + 1];
      if e.action == Fail || e.action == BuildFail {
        TierRejectsPrefix(events, k + 1);
        return None;
      }
      var key := (e.package, e.test);
      if e.test != "" && e.action == Run {
        runs := runs + {key};
      }
      if e.test != "" && Terminal(e.action) {
        if key in items {
          TierRejectsPrefix(events, k + 1);
          return None;
        }
        items := items[key := e.action];
      }
    }
    assert events[..|events|] == events;
    TierParts(events);
    if !(runs <= items.Keys) {
      return None;
    }
    return Some(items);
  }

  lemma LifecycleOne(e: Event, test: string)
    requires OfBody(e, test)
    ensures Lifecycle([e], test) == [e.action]
  {
    assert [e][..0] == [];
  }

  lemma {:induction false} TwoEnds(es: seq<Event>, i: nat, j: nat, test: string)
    requires i < j < |es| && OfBody(es[i], test) && OfBody(es[j], test)
    ensures exists a, b :: 0 <= a < b < |Lifecycle(es, test)|
                           && Lifecycle(es, test)[a] == es[i].action && Lifecycle(es, test)[b] == es[j].action
  {
    hide Lifecycle;
    var front, back := es[..j], es[j..];
    assert es == front + back && front == es[..i] + es[i..j];
    LifecycleConcat(front, back, test);
    LifecycleConcat(es[..i], es[i..j], test);
    assert es[i..j] == [es[i]] + es[i + 1..j] && back == [es[j]] + es[j + 1..];
    LifecycleConcat([es[i]], es[i + 1..j], test);
    LifecycleConcat([es[j]], es[j + 1..], test);
    LifecycleOne(es[i], test);
    LifecycleOne(es[j], test);
    var a, b := |Lifecycle(es[..i], test)|, |Lifecycle(front, test)|;
    assert Lifecycle(es, test)[a] == es[i].action && Lifecycle(es, test)[b] == es[j].action;
  }

  /** The tier's own terminal check adds nothing after the lifecycle checks. */
  lemma SelectedSatisfiesTier(events: seq<Event>, package: string, names: seq<string>)
    requires SelectedLog(events, package, names)
    ensures TierAccepts(events)
  {
    SamePackage(events, package, names);
    forall i, j | 0 <= i < j < |events| && events[i].test != ""
                  && Terminal(events[i].action) && Terminal(events[j].action)
      ensures events[i].test != events[j].test
    {
      OneEnd(events, i, j);
    }
  }

  lemma LastOnlyEnds(seen: seq<Action>, a: nat, b: nat)
    requires WholeLifecycle(seen) && a < b < |seen|
    ensures !Terminal(seen[a])
  {}

  lemma OneEnd(events: seq<Event>, i: nat, j: nat)
    requires forall t :: t in Bodies(events) ==> WholeLifecycle(Lifecycle(events, t))
    requires i < j < |events| && events[i].test != "" && Terminal(events[i].action) && Terminal(events[j].action)
    ensures events[i].test != events[j].test
  {
    hide Lifecycle, WholeLifecycle;
    var t := events[i].test;
    assert t in Bodies(events);
    if events[j].test == t {
      TwoEnds(events, i, j, t);
      var a, b :| 0 <= a < b < |Lifecycle(events, t)|
                  && Lifecycle(events, t)[a] == events[i].action && Lifecycle(events, t)[b] == events[j].action;
      LastOnlyEnds(Lifecycle(events, t), a, b);
    }
  }

  /** The loop body of `verify_logs` for one package's selected parents. */
  method VerifySelected(events: seq<Event>, package: string, names: seq<string>) returns (ok: bool)
    ensures ok <==> SelectedLog(events, package, names)
  {
    var covered := Coverage(events, map[package := true], Some(names));
    if !covered || RunBodies(events) != EndedBodies(events) || RunBodies(events) == {} {
      return false;
    }
    var table := Lifetimes(events);
    if exists t :: t in table && !WholeLifecycle(table[t]) {
      return false;
    }
    var contained := VerifyContainment(events);
    if !contained || exists i :: 0 <= i < |events| && events[i].test != "" && Top(events[i].test) !in names {
      return false;
    }
    SelectedSatisfiesTier(events, package, names);
    var tier := Terminals(events);
    return tier.Some?;
  }
}
