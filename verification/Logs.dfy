/** Coverage and lifecycle evidence in `go test -json` event streams. */
module Logs {
  import opened Order
  import opened Units

  datatype Action = Start | Run | Pause | Cont | Output | Pass | Skip | Fail | BuildFail | Unknown

  /** One decoded event; an absent test is the empty name. */
  datatype Event = Event(package: string, test: string, action: Action, output: string)

  predicate Terminal(a: Action) {
    a == Pass || a == Skip
  }

  predicate Contains(s: string, part: string) {
    part <= s || (s != [] && Contains(s[1..], part))
  }

  /** name.split('/')[0] */
  function Top(name: string): (t: string)
    ensures '/' !in t && |t| <= |name| && name[..|t|] == t
    ensures |t| < |name| ==> name[|t|] == '/'
  {
    if name == "" || name[0] == '/' then "" else [name[0]] + Top(name[1..])
  }

  lemma {:induction false} TopSlash(name: string)
    ensures '/' in name <==> Top(name) != name
  {
    if '/' in name && Top(name) == name {
      assert false;
    }
    if Top(name) != name {
      assert |Top(name)| < |name| by {
        assert name[..|name|] == name;
      }
      assert name[|Top(name)|] == '/';
    }
  }

  // ---- coverage (scripts/run_go_shard.py) ---------------------------------

  /** What `coverage` demands of every event. */
  predicate EventAllowed(e: Event, packages: map<string, bool>, selected: Option<seq<string>>) {
    && e.package in packages
    && e.action != Unknown && e.action != Fail && e.action != BuildFail
    && (e.action == Output && selected.Some? ==> !Contains(e.output, "no tests to run"))
    && (e.test != "" && '/' !in e.test && selected.Some? ==> e.test in selected.value)
  }

  predicate PackageEnd(e: Event) {
    e.test == "" && Terminal(e.action)
  }

  predicate ParentEnd(e: Event) {
    e.test != "" && '/' !in e.test && Terminal(e.action)
  }

  /** Packages whose terminal was seen. */
  function Ended(es: seq<Event>): set<string> {
    set i | 0 <= i < |es| && PackageEnd(es[i]) :: es[i].package
  }

  /** Top-level tests whose terminal was seen. */
  function TestsEnded(es: seq<Event>): set<(string, string)> {
    set i | 0 <= i < |es| && ParentEnd(es[i]) :: (es[i].package, es[i].test)
  }

  /** Packages whose output said they have no test files. */
  function Untested(es: seq<Event>): set<string> {
    set i | 0 <= i < |es| && es[i].action == Output && Contains(es[i].output, "[no test files]") :: es[i].package
  }

  ghost predicate EndsOnce(es: seq<Event>) {
    forall i, j :: 0 <= i < j < |es| && PackageEnd(es[i]) && PackageEnd(es[j]) ==> es[i].package != es[j].package
  }

  ghost predicate TestsEndOnce(es: seq<Event>) {
    forall i, j :: 0 <= i < j < |es| && ParentEnd(es[i]) && ParentEnd(es[j]) ==>
      es[i].package != es[j].package || es[i].test != es[j].test
  }

  ghost predicate AllAllowed(es: seq<Event>, packages: map<string, bool>, selected: Option<seq<string>>) {
    forall i :: 0 <= i < |es| ==> EventAllowed(es[i], packages, selected)
  }

  ghost predicate SkipsExplained(es: seq<Event>, packages: map<string, bool>) {
    forall i :: 0 <= i < |es| && PackageEnd(es[i]) && es[i].action == Skip ==>
      es[i].package in packages && !packages[es[i].package] && es[i].package in Untested(es)
  }

  /** Every event allowed, one terminal per package and per top-level test, skips explained, selection exhausted. */
  ghost predicate Covers(events: seq<Event>, packages: map<string, bool>, selected: Option<seq<string>>) {
    && AllAllowed(events, packages, selected)
    && EndsOnce(events)
    && TestsEndOnce(events)
    && Ended(events) == packages.Keys
    && SkipsExplained(events, packages)
    && (selected.Some? ==> Names(TestsEnded(events)) == set n | n in selected.value)
  }

  /** No event of a covered stream fails or belongs elsewhere; where names were selected, no other top-level test shows
      up and no output says that there was nothing to run. */
  lemma CoveredEvent(events: seq<Event>, packages: map<string, bool>, selected: Option<seq<string>>, e: Event)
    requires Covers(events, packages, selected) && e in events
    ensures e.package in packages && e.action !in {Fail, BuildFail, Unknown}
    ensures selected.Some? ==>
              && (e.test != "" && '/' !in e.test ==> e.test in selected.value)
              && (e.action == Output ==> !Contains(e.output, "no tests to run"))
  {
    var i :| 0 <= i < |events| && events[i] == e;
    assert EventAllowed(events[i], packages, selected);
  }

  function Names(tests: set<(string, string)>): set<string> {
    set t | t in tests :: t.1
  }

  lemma Snoc(es: seq<Event>, e: Event, packages: map<string, bool>, selected: Option<seq<string>>)
    ensures Ended(es + [e]) == Ended(es) + (if PackageEnd(e) then {e.package} else {})
    ensures TestsEnded(es + [e]) == TestsEnded(es) + (if ParentEnd(e) then {(e.package, e.test)} else {})
    ensures Untested(es + [e]) ==
            Untested(es) + (if e.action == Output && Contains(e.output, "[no test files]") then {e.package} else {})
    ensures AllAllowed(es + [e], packages, selected) <==>
              AllAllowed(es, packages, selected) && EventAllowed(e, packages, selected)
    ensures EndsOnce(es + [e]) <==> EndsOnce(es) && (PackageEnd(e) ==> e.package !in Ended(es))
    ensures TestsEndOnce(es + [e]) <==> TestsEndOnce(es) && (ParentEnd(e) ==> (e.package, e.test) !in TestsEnded(es))
  {
    hide EndsOnce, TestsEndOnce, EventAllowed, Contains;
    var all := es + [e];
    assert forall i :: 0 <= i < |es| ==> all[i] == es[i];
    assert all[|es|] == e;
    SnocOnce(es, e);
  }

  lemma SnocOnce(es: seq<Event>, e: Event)
    ensures EndsOnce(es + [e]) <==> EndsOnce(es) && (PackageEnd(e) ==> e.package !in Ended(es))
    ensures TestsEndOnce(es + [e]) <==> TestsEndOnce(es) && (ParentEnd(e) ==> (e.package, e.test) !in TestsEnded(es))
  {
    var all := es + [e];
    assert forall i :: 0 <= i < |es| ==> all[i] == es[i];
    assert all[|es|] == e;
  }

  lemma NothingSeen(packages: map<string, bool>, selected: Option<seq<string>>)
    ensures AllAllowed([], packages, selected) && EndsOnce([]) && TestsEndOnce([])
  {}

  /** The verdicts given as soon as they are known. */
  lemma PrefixRejected(events: seq<Event>, k: nat, packages: map<string, bool>, selected: Option<seq<string>>)
    requires k <= |events|
    requires !AllAllowed(events[..k], packages, selected) || !EndsOnce(events[..k]) || !TestsEndOnce(events[..k])
    ensures !Covers(events, packages, selected)
  {
    assert forall i :: 0 <= i < k ==> events[..k][i] == events[i];
  }

  /** `coverage`: scans once, failing at the first event that cannot belong to a complete run. */
  method Coverage(events: seq<Event>, packages: map<string, bool>, selected: Option<seq<string>>) returns (ok: bool)
    ensures ok <==> Covers(events, packages, selected)
  {
    hide AllAllowed, EndsOnce, TestsEndOnce, Contains;
    NothingSeen(packages, selected);
    var terminals: map<string, Action> := map[];
    var tests: set<(string, string)> := {};
    var noTests: set<string> := {};
    for k := 0 to |events|
      invariant AllAllowed(events[..k], packages, selected) && EndsOnce(events[..k]) && TestsEndOnce(events[..k])
      invariant terminals.Keys == Ended(events[..k])
      invariant forall i :: 0 <= i < k && PackageEnd(events[i]) ==>
                  events[i].package in terminals && terminals[events[i].package] == events[i].action
      invariant tests == TestsEnded(events[..k]) && noTests == Untested(events[..k])
    {
      var e := events[k];
      assert events[..k + 1] == events[..k] + [e];
      Snoc(events[..k], e, packages, selected);
      if !EventAllowed(e, packages, selected) {
        PrefixRejected(events, k + 1, packages, selected);
        return false;
      }
      if e.action == Output && Contains(e.output, "[no test files]") {
        noTests := noTests + {e.package};
      }
      if ParentEnd(e) {
        if (e.package, e.test) in tests {
          PrefixRejected(events, k + 1, packages, selected);
          return false;
        }
        tests := tests + {(e.package, e.test)};
      }
      if PackageEnd(e) {
        if e.package in terminals {
          PrefixRejected(events, k + 1, packages, selected);
          return false;
        }
        terminals := terminals[e.package := e.action];
      }
    }
    assert events[..|events|] == events;
    if terminals.Keys != packages.Keys {
      return false;
    }
    var explained := forall p :: p in terminals && terminals[p] == Skip ==> !packages[p] && p in noTests;
    SkipsByPackage(events, packages, terminals);
    return explained && (selected.Some? ==> Names(tests) == set n | n in selected.value);
  }

  lemma SkipsByPackage(events: seq<Event>, packages: map<string, bool>, terminals: map<string, Action>)
    requires terminals.Keys == packages.Keys == Ended(events)
    requires forall i :: 0 <= i < |events| && PackageEnd(events[i]) ==>
                events[i].package in terminals && terminals[events[i].package] == events[i].action
    ensures SkipsExplained(events, packages) <==>
            forall p :: p in terminals && terminals[p] == Skip ==> !packages[p] && p in Untested(events)
  {
    forall p | p in terminals
      ensures exists i :: 0 <= i < |events| && PackageEnd(events[i]) && events[i].package == p
    {
      assert p in Ended(events);
    }
  }
}
