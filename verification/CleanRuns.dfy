/** What reconciliation does not refuse: workers that ran their assignments to the end, and nothing else. */
module CleanRuns {
  import opened Order
  import opened Shards
  import opened Units
  import opened Decode
  import opened Catalogs
  import opened Logs
  import opened Lifecycles
  import opened Reconcile

  // ---- The logs of a clean run ----------------------------------------------

  /** Every parent runs and passes, one after another. */
  function CleanParents(package: string, names: seq<string>): seq<Event> {
    if names == [] then []
    else
      var n := names[|names| - 1];
      CleanParents(package, names[..|names| - 1]) + [Event(package, n, Run, "")] + [Event(package, n, Pass, "")]
  }

  function PackagePass(package: string): Event {
    Event(package, "", Pass, "")
  }

  function CleanSelected(package: string, names: seq<string>): seq<Event> {
    CleanParents(package, names) + [PackagePass(package)]
  }

  const NO_TESTS: string := "[no test files]"

  /** Every package passes, or says that it has no tests and is skipped. */
  function CleanWhole(d: Discovery, packages: seq<string>): seq<Event> {
    if packages == [] then []
    else
      var p, before := packages[|packages| - 1], CleanWhole(d, packages[..|packages| - 1]);
      if HasTests(d, p) then before + [PackagePass(p)]
      else before + [Event(p, "", Output, NO_TESTS)] + [Event(p, "", Skip, "")]
  }

  function CleanGroups(parents: seq<Group>): map<string, seq<Event>> {
    if parents == [] then map[]
    else
      var g := parents[|parents| - 1];
      CleanGroups(parents[..|parents| - 1])[g.package := CleanSelected(g.package, g.names)]
  }

  function OtherThan(packages: seq<string>, package: string): seq<string> {
    if packages == [] then []
    else
      var p, before := packages[|packages| - 1], OtherThan(packages[..|packages| - 1], package);
      if p == package then before else before + [p]
  }

  /** What a worker leaves behind when everything it was assigned runs and passes, and nothing else does. */
  function CleanDirectory(d: Discovery, a: Assignment): Directory {
    var others := OtherThan(a.packages, GIT_IDENTITY);
    Directory(d, if GIT_IDENTITY in a.packages then Some(CleanWhole(d, [GIT_IDENTITY])) else None,
              if others != [] then Some(CleanWhole(d, others)) else None,
              if a.cli != [] then Some(CleanSelected(CLI, a.cli)) else None, CleanGroups(a.parents))
  }

  // ---- Selected parents -------------------------------------------------------

  ghost predicate Parents(names: seq<string>) {
    Distinct(names) && forall n :: n in names ==> RunnableName(n)
  }

  ghost function OfPackage(package: string, names: seq<string>): set<(string, string)> {
    set n | n in names :: (package, n)
  }

  lemma BodiesNext(es: seq<Event>, e: Event)
    ensures RunBodies(es + [e]) ==
            RunBodies(es) + (if e.test != "" && e.action == Run then {(e.package, e.test)} else {})
    ensures EndedBodies(es + [e]) ==
            EndedBodies(es) + (if e.test != "" && Terminal(e.action) then {(e.package, e.test)} else {})
    ensures Bodies(es + [e]) == Bodies(es) + (if e.test != "" && e.action != Output then {e.test} else {})
  {
    var all := es + [e];
    assert forall i :: 0 <= i < |es| ==> all[i] == es[i];
    assert all[|es|] == e;
  }

  lemma RunnableFacts(n: string)
    requires RunnableName(n)
    ensures n != "" && '/' !in n && Top(n) == n
  {
    RunnableColonless(n);
    TopSlash(n);
  }

  /** Nothing but runs and passes. */
  ghost predicate Plain(es: seq<Event>) {
    forall i :: 0 <= i < |es| ==> es[i].action == Run || es[i].action == Pass
  }

  lemma {:induction false} ParentsCover(package: string, names: seq<string>, packages: map<string, bool>,
                                        selected: seq<string>)
    requires Parents(names) && package in packages && forall n :: n in names ==> n in selected
    ensures var es := CleanParents(package, names);
            && AllAllowed(es, packages, Some(selected)) && EndsOnce(es) && TestsEndOnce(es) && Plain(es)
            && Ended(es) == {} && TestsEnded(es) == OfPackage(package, names)
  {
    hide AllAllowed, EndsOnce, TestsEndOnce, Ended, TestsEnded, RunnableName, Contains;
    if names == [] {
      NothingCovered(packages, Some(selected));
    } else {
      var k := |names| - 1;
      var n, before := names[k], CleanParents(package, names[..k]);
      assert names == names[..k] + [n];
      ParentsCover(package, names[..k], packages, selected);
      RunnableFacts(n);
      Snoc(before, Event(package, n, Run, ""), packages, Some(selected));
      Snoc(before + [Event(package, n, Run, "")], Event(package, n, Pass, ""), packages, Some(selected));
    }
  }

  lemma NothingCovered(packages: map<string, bool>, selected: Option<seq<string>>)
    ensures AllAllowed([], packages, selected) && EndsOnce([]) && TestsEndOnce([])
    ensures Ended([]) == {} && TestsEnded([]) == {} && Untested([]) == {}
  {}

  lemma {:induction false} ParentsLive(package: string, names: seq<string>, t: string)
    requires Parents(names) && t != ""
    ensures var es := CleanParents(package, names);
            && Lifecycle(es, t) == (if t in names then [Run, Pass] else [])
            && RunBodies(es) == OfPackage(package, names) == EndedBodies(es)
            && Bodies(es) == (set n | n in names) && Active(es) == Some({})
  {
    hide RunBodies, EndedBodies, Bodies, Active, Lifecycle, RunnableName;
    if names == [] {
      NoBodies();
    } else {
      var k := |names| - 1;
      var n, before := names[k], CleanParents(package, names[..k]);
      var run, pass := Event(package, n, Run, ""), Event(package, n, Pass, "");
      assert names == names[..k] + [n];
      ParentsLive(package, names[..k], t);
      RunnableFacts(n);
      BodiesNext(before, run);
      BodiesNext(before + [run], pass);
      RunThenPass(before, package, n, t);
    }
  }

  lemma NoBodies()
    ensures RunBodies([]) == {} && EndedBodies([]) == {} && Bodies([]) == {} && Active([]) == Some({})
    ensures forall t :: Lifecycle([], t) == []
  {}

  lemma RunThenPass(before: seq<Event>, package: string, n: string, t: string)
    requires Active(before) == Some({}) && n != "" && '/' !in n
    ensures var es := before + [Event(package, n, Run, "")] + [Event(package, n, Pass, "")];
            && Active(es) == Some({})
            && Lifecycle(es, t) == Lifecycle(before, t) + if t == n then [Run, Pass] else []
  {
    var run, pass := Event(package, n, Run, ""), Event(package, n, Pass, "");
    var mid := before + [run];
    assert mid[..|mid| - 1] == before && (mid + [pass])[..|mid|] == mid;
    assert {} + {(package, n)} == {(package, n)};
    assert Advance({}, run) == Some({(package, n)});
    assert !HasDescendant({(package, n)}, package, n) by {
      assert |n + "/"| > |n|;
    }
    assert {(package, n)} - {(package, n)} == {};
  }

  lemma SelectedCovers(package: string, names: seq<string>)
    requires Parents(names)
    ensures Covers(CleanSelected(package, names), map[package := true], Some(names))
  {
    hide RunnableName, Ended, TestsEnded, AllAllowed, EndsOnce, TestsEndOnce, Contains;
    var before, e, packages := CleanParents(package, names), PackagePass(package), map[package := true];
    ParentsCover(package, names, packages, names);
    Snoc(before, e, packages, Some(names));
    TestNames(package, names);
  }

  lemma SelectedLive(package: string, names: seq<string>, t: string)
    requires Parents(names) && t != ""
    ensures var es := CleanSelected(package, names);
            && Lifecycle(es, t) == (if t in names then [Run, Pass] else [])
            && RunBodies(es) == OfPackage(package, names) == EndedBodies(es)
            && Bodies(es) == (set n | n in names) && Active(es) == Some({})
  {
    hide Active, Lifecycle, RunnableName, RunBodies, EndedBodies, Bodies;
    var before, e := CleanParents(package, names), PackagePass(package);
    ParentsLive(package, names, t);
    BodiesNext(before, e);
    LastIsQuiet(before, e, t);
  }

  /** A clean log of selected parents is accepted. */
  lemma SelectedAccepted(package: string, names: seq<string>)
    requires Parents(names) && names != []
    ensures SelectedLog(CleanSelected(package, names), package, names)
  {
    hide Active, Lifecycle, RunnableName, Covers, RunBodies, EndedBodies, Bodies;
    var es := CleanSelected(package, names);
    SelectedCovers(package, names);
    RunnableFacts(names[0]);
    SelectedLive(package, names, names[0]);
    assert (package, names[0]) in OfPackage(package, names);
    forall t | t in Bodies(es)
      ensures WholeLifecycle(Lifecycle(es, t))
    {
      RunnableFacts(t);
      SelectedLive(package, names, t);
    }
    TopsListed(package, names);
  }

  lemma LastIsQuiet(before: seq<Event>, e: Event, t: string)
    requires e.test == "" && Active(before).Some?
    ensures Active(before + [e]) == Active(before) && Lifecycle(before + [e], t) == Lifecycle(before, t)
  {
    assert (before + [e])[..|before|] == before;
  }

  lemma TestNames(package: string, names: seq<string>)
    ensures Names(OfPackage(package, names)) == set n | n in names
  {
    forall n | n in names
      ensures n in Names(OfPackage(package, names))
    {
      assert (package, n) in OfPackage(package, names);
    }
  }

  lemma {:induction false} TopsListed(package: string, names: seq<string>)
    requires forall n :: n in names ==> RunnableName(n)
    ensures forall i :: 0 <= i < |CleanParents(package, names)| ==>
              var e := CleanParents(package, names)[i]; e.test != "" && Top(e.test) in names
  {
    hide RunnableName;
    if names != [] {
      var k := |names| - 1;
      assert names == names[..k] + [names[k]];
      TopsListed(package, names[..k]);
      RunnableFacts(names[k]);
    }
  }

  // ---- Whole packages -----------------------------------------------------------

  ghost predicate ListedIn(d: Discovery, order: seq<string>, packages: map<string, bool>) {
    Distinct(order) && forall p :: p in order ==> p in packages && packages[p] == HasTests(d, p)
  }

  lemma SkipsNext(es: seq<Event>, e: Event, packages: map<string, bool>)
    requires SkipsExplained(es, packages)
    requires PackageEnd(e) && e.action == Skip ==>
               e.package in packages && !packages[e.package] && e.package in Untested(es)
    ensures SkipsExplained(es + [e], packages)
  {
    hide AllAllowed, EndsOnce, TestsEndOnce, Ended, TestsEnded, Untested, Contains, EventAllowed;
    Snoc(es, e, packages, None);
    var all := es + [e];
    assert forall i :: 0 <= i < |es| ==> all[i] == es[i];
    assert all[|es|] == e;
  }

  /** One more package: it passes, or its lack of tests explains the skip. */
  lemma PackageNext(before: seq<Event>, p: string, packages: map<string, bool>)
    requires p in packages && AllAllowed(before, packages, None) && EndsOnce(before) && TestsEndOnce(before)
    requires SkipsExplained(before, packages) && p !in Ended(before)
    ensures var es := if packages[p] then before + [PackagePass(p)]
                      else before + [Event(p, "", Output, NO_TESTS)] + [Event(p, "", Skip, "")];
            && AllAllowed(es, packages, None) && EndsOnce(es) && TestsEndOnce(es)
            && SkipsExplained(es, packages) && Ended(es) == Ended(before) + {p}
  {
    hide AllAllowed, EndsOnce, TestsEndOnce, SkipsExplained, Ended, Untested;
    if packages[p] {
      Snoc(before, PackagePass(p), packages, None);
      SkipsNext(before, PackagePass(p), packages);
    } else {
      var said, skip := Event(p, "", Output, NO_TESTS), Event(p, "", Skip, "");
      Snoc(before, said, packages, None);
      SkipsNext(before, said, packages);
      Snoc(before + [said], skip, packages, None);
      SkipsNext(before + [said], skip, packages);
    }
  }

  lemma {:induction false} WholeCovers(d: Discovery, order: seq<string>, packages: map<string, bool>)
    requires ListedIn(d, order, packages)
    ensures var es := CleanWhole(d, order);
            && AllAllowed(es, packages, None) && EndsOnce(es) && TestsEndOnce(es)
            && SkipsExplained(es, packages) && Ended(es) == set p | p in order
  {
    hide AllAllowed, EndsOnce, TestsEndOnce, SkipsExplained, Ended, HasTests;
    if order == [] {
      NothingCovered(packages, None);
      NoSkips(packages);
    } else {
      var k := |order| - 1;
      assert order == order[..k] + [order[k]];
      WholeCovers(d, order[..k], packages);
      PackageNext(CleanWhole(d, order[..k]), order[k], packages);
    }
  }

  lemma NoSkips(packages: map<string, bool>)
    ensures SkipsExplained([], packages)
  {}

  lemma {:induction false} WholeLive(d: Discovery, order: seq<string>, p: string)
    ensures Active(CleanWhole(d, order)) == Some({})
    ensures p in order && !HasTests(d, p) ==> SkippedWhole(CleanWhole(d, order), p)
  {
    hide HasTests, Lifecycle;
    if order != [] {
      var k := |order| - 1;
      var q, before := order[k], CleanWhole(d, order[..k]);
      var said, skip := Event(q, "", Output, NO_TESTS), Event(q, "", Skip, "");
      assert order == order[..k] + [q];
      WholeLive(d, order[..k], p);
      if HasTests(d, q) {
        LastIsQuiet(before, PackagePass(q), "");
      } else {
        LastIsQuiet(before, said, "");
        LastIsQuiet(before + [said], skip, "");
        assert (before + [said] + [skip])[|before| + 1] == skip;
      }
      if SkippedWhole(before, p) {
        SkippedStill(before, CleanWhole(d, order), p);
      }
    }
  }

  lemma SkippedStill(es: seq<Event>, more: seq<Event>, p: string)
    requires es <= more && SkippedWhole(es, p)
    ensures SkippedWhole(more, p)
  {
    var i :| 0 <= i < |es| && es[i].package == p && es[i].test == "" && es[i].action == Skip;
    assert more[i] == es[i];
  }

  lemma {:induction false} WholeConcat(d: Discovery, a: seq<string>, b: seq<string>)
    ensures CleanWhole(d, a + b) == CleanWhole(d, a) + CleanWhole(d, b)
  {
    if b == [] {
      assert a + b == a;
    } else {
      var k := |b| - 1;
      assert (a + b)[..|a + b| - 1] == a + b[..k];
      WholeConcat(d, a, b[..k]);
    }
  }

  lemma {:induction false} OtherThanMembers(packages: seq<string>, package: string)
    ensures forall p :: p in OtherThan(packages, package) <==> p in packages && p != package
    ensures Distinct(packages) ==> Distinct(OtherThan(packages, package))
  {
    if packages != [] {
      var k := |packages| - 1;
      assert packages == packages[..k] + [packages[k]];
      OtherThanMembers(packages[..k], package);
      if Distinct(packages) {
        DistinctParts(packages[..k], [packages[k]]);
        assert packages[k] in [packages[k]];
        ConcatDistinct(OtherThan(packages[..k], package), [packages[k]]);
      }
    }
  }

  function InOrder(packages: seq<string>): seq<string> {
    (if GIT_IDENTITY in packages then [GIT_IDENTITY] else []) + OtherThan(packages, GIT_IDENTITY)
  }

  lemma InOrderMembers(packages: seq<string>)
    requires Distinct(packages)
    ensures Distinct(InOrder(packages)) && forall p :: p in InOrder(packages) <==> p in packages
  {
    OtherThanMembers(packages, GIT_IDENTITY);
  }

  lemma CleanWholeLog(d: Discovery, a: Assignment)
    ensures WholeLog(CleanDirectory(d, a)) == CleanWhole(d, InOrder(a.packages))
  {
    var others := OtherThan(a.packages, GIT_IDENTITY);
    WholeConcat(d, if GIT_IDENTITY in a.packages then [GIT_IDENTITY] else [], others);
  }

  // ---- One worker ---------------------------------------------------------------

  lemma {:induction false} CleanGroupsHold(parents: seq<Group>)
    ensures CleanGroups(parents).Keys == set k | 0 <= k < |parents| :: parents[k].package
    ensures Distinct(Keys(parents)) ==> forall k :: 0 <= k < |parents| ==>
              CleanGroups(parents)[parents[k].package] == CleanSelected(parents[k].package, parents[k].names)
  {
    if parents != [] {
      var n := |parents| - 1;
      assert Keys(parents[..n]) == Keys(parents)[..n];
      assert parents == parents[..n] + [parents[n]];
      CleanGroupsHold(parents[..n]);
      if Distinct(Keys(parents)) {
        forall k | 0 <= k < n
          ensures parents[k].package != parents[n].package
        {
          assert Keys(parents)[k] != Keys(parents)[n];
        }
      }
    }
  }

  lemma UnitIsListed(d: Discovery, p: string, n: string)
    requires WellFormed(d) && Colonless(p) && Unit(p, n) in ExecutionUnits(d)
    ensures RunnableName(n)
  {
    hide RunnableName, Unit;
    UnitsAreCompiled(d, Unit(p, n));
    SeparatedUnit(p, n);
    if j :| 0 <= j < |d.cli| && Unit(p, n) == Unit(CLI, d.cli[j]) {
      ConstantsColonless();
      UnitPackage(p, n, CLI, d.cli[j]);
    } else {
      var i, j :| 0 <= i < |d.parents| && 0 <= j < |d.parents[i].names|
                  && Unit(p, n) == Unit(d.parents[i].package, d.parents[i].names[j]);
      assert Keys(d.parents)[i] == d.parents[i].package;
      UnitPackage(p, n, d.parents[i].package, d.parents[i].names[j]);
    }
  }

  lemma GroupNames(d: Discovery, g: Group)
    requires WellFormed(d) && Colonless(g.package)
    requires Distinct(GroupUnits(g)) && forall u :: u in GroupUnits(g) ==> u in ExecutionUnits(d)
    ensures Parents(g.names)
  {
    hide RunnableName, ExecutionUnits, WellFormed;
    forall i, j | 0 <= i < j < |g.names|
      ensures g.names[i] != g.names[j]
    {
      assert GroupUnits(g)[i] != GroupUnits(g)[j];
    }
    forall n | n in g.names
      ensures RunnableName(n)
    {
      var i :| 0 <= i < |g.names| && g.names[i] == n;
      assert GroupUnits(g)[i] == Unit(g.package, n);
      UnitIsListed(d, g.package, n);
    }
  }

  lemma {:induction false} GroupDistinct(groups: seq<Group>, k: nat)
    requires k < |groups| && Distinct(AllUnits(groups))
    ensures Distinct(GroupUnits(groups[k]))
  {
    var n := |groups| - 1;
    DistinctParts(AllUnits(groups[..n]), GroupUnits(groups[n]));
    if k < n {
      GroupDistinct(groups[..n], k);
    }
  }

  lemma AssignmentParts(a: Assignment)
    requires Distinct(AssignedUnits(a))
    ensures Distinct(a.packages) && Distinct(GroupUnits(Group(CLI, a.cli))) && Distinct(AllUnits(a.parents))
    ensures forall u :: u in GroupUnits(Group(CLI, a.cli)) ==> u in AssignedUnits(a)
    ensures forall u :: u in AllUnits(a.parents) ==> u in AssignedUnits(a)
  {
    var front := a.packages + GroupUnits(Group(CLI, a.cli));
    assert AssignedUnits(a) == front + AllUnits(a.parents);
    DistinctParts(front, AllUnits(a.parents));
    DistinctParts(a.packages, GroupUnits(Group(CLI, a.cli)));
  }

  /** What can be run as assigned: packages that are packages, and one list of names for each parents' package. */
  ghost predicate Runnable(c: Catalog, a: Assignment) {
    && (forall p :: p in a.packages ==> p in PackageNames(c.discovery.packages))
    && Distinct(Keys(a.parents))
  }

  /** Whatever `build` assigns can be run as assigned. */
  lemma BuiltIsRunnable(c: Catalog, weights: map<string, int>, fixed: seq<int>, i: nat)
    requires WellFormed(c.discovery) && ValidCatalog(c, c.workers) && |fixed| == c.workers >= 1 && i < c.workers
    requires var bins := WorkerBins(c.discovery, weights, c.workers, fixed);
             bins.Some? && Decodes(c.assignments, bins.value)
    ensures Runnable(c, c.assignments[i])
  {
    hide ValidCatalog, WellFormed, ExecutionUnits, AssignedUnits, WorkerBins, Readable;
    var bins := WorkerBins(c.discovery, weights, c.workers, fixed).value;
    WorkerBinsFacts(c.discovery, weights, c.workers, fixed);
    MultisetMembers(Flatten(bins), ExecutionUnits(c.discovery));
    forall u | u in Flatten(bins)
      ensures Readable(u)
    {
      UnitsReadable(c.discovery, u);
    }
    DecodesUnits(c.assignments, bins);
    forall p | p in c.assignments[i].packages
      ensures p in PackageNames(c.discovery.packages)
    {
      AssignedPackageIsWhole(c, i, p);
      DiscoveryUnits(c.discovery);
    }
  }

  lemma AssignmentNames(c: Catalog, i: nat)
    requires ValidCatalog(c, c.workers) && WellFormed(c.discovery) && i < |c.assignments|
    ensures var a := c.assignments[i];
            && Distinct(a.packages) && Parents(a.cli)
            && forall k :: 0 <= k < |a.parents| ==> Parents(a.parents[k].names) && a.parents[k].names != []
  {
    hide ValidCatalog, WellFormed, ExecutionUnits, AssignedUnits, Parents;
    var a, d := c.assignments[i], c.discovery;
    ValidMeansExactlyOnce(c, c.workers, "");
    WorkersMatch(c, c.workers);
    AssignmentParts(a);
    forall u | u in AssignedUnits(a)
      ensures u in ExecutionUnits(d)
    {
      AssignedAreUnits(c, i, u);
    }
    ConstantsColonless();
    GroupNames(d, Group(CLI, a.cli));
    forall k | 0 <= k < |a.parents|
      ensures Parents(a.parents[k].names) && a.parents[k].names != []
    {
      ParentFacts(c, i, k);
      GroupDistinct(a.parents, k);
      forall u | u in GroupUnits(a.parents[k])
        ensures u in ExecutionUnits(d)
      {
        GroupInAll(a.parents, k, u);
      }
      GroupNames(d, a.parents[k]);
    }
  }

  lemma WholePackagesListed(d: Discovery, a: Assignment)
    requires Distinct(a.packages)
    ensures ListedIn(d, InOrder(a.packages), WholePackages(d, a))
    ensures (set p | p in InOrder(a.packages)) == WholePackages(d, a).Keys
  {
    InOrderMembers(a.packages);
  }

  lemma WholeAccepted(d: Discovery, a: Assignment)
    requires Distinct(a.packages)
    ensures var es := WholeLog(CleanDirectory(d, a));
            && Covers(es, WholePackages(d, a), None) && Active(es).Some?
            && forall p :: p in a.packages && !HasTests(d, p) ==> SkippedWhole(es, p)
  {
    hide AllAllowed, EndsOnce, TestsEndOnce, SkipsExplained, Ended, HasTests, WholePackages, InOrder, Active, WholeLog,
         CleanDirectory, SkippedWhole;
    var order := InOrder(a.packages);
    CleanWholeLog(d, a);
    WholePackagesListed(d, a);
    InOrderMembers(a.packages);
    WholeCovers(d, order, WholePackages(d, a));
    WholeLive(d, order, "");
    forall p | p in a.packages && !HasTests(d, p)
      ensures SkippedWhole(CleanWhole(d, order), p)
    {
      WholeLive(d, order, p);
    }
  }

  lemma LogsExpected(d: Discovery, a: Assignment)
    ensures ExpectedLogs(CleanDirectory(d, a), a)
  {
    OtherThanMembers(a.packages, GIT_IDENTITY);
    CleanGroupsHold(a.parents);
    var others := OtherThan(a.packages, GIT_IDENTITY);
    if p :| p in a.packages && p != GIT_IDENTITY {
      assert p in others;
    }
    if others != [] {
      assert others[0] in a.packages && others[0] != GIT_IDENTITY;
    }
  }

  /** A worker that ran all of its assignment cleanly is accepted. */
  lemma CleanDirectoryAccepted(c: Catalog, i: nat)
    requires ValidCatalog(c, c.workers) && Parsed(c.discovery) && i < |c.assignments| && Runnable(c, c.assignments[i])
    ensures LogsVerified(CleanDirectory(c.discovery, c.assignments[i]), c, c.assignments[i])
  {
    hide ValidCatalog, Parsed, WellFormed, Covers, Active, ExpectedLogs, SelectedLog, Parents, WholeLog, SkippedWhole,
         HasTests, WholePackages;
    var a, d := c.assignments[i], c.discovery;
    var dir := CleanDirectory(d, a);
    ParsedWellFormed(d);
    AssignmentNames(c, i);
    WholeAccepted(d, a);
    LogsExpected(d, a);
    CleanGroupsHold(a.parents);
    if a.cli != [] {
      SelectedAccepted(CLI, a.cli);
    }
    forall k | 0 <= k < |a.parents| && a.parents[k].names != []
      ensures SelectedLog(dir.parents[a.parents[k].package], a.parents[k].package, a.parents[k].names)
    {
      SelectedAccepted(a.parents[k].package, a.parents[k].names);
    }
  }

  lemma ParsedWellFormed(d: Discovery)
    requires Parsed(d)
    ensures WellFormed(d)
  {}

  /** One worker for each shard of a valid catalog, two, four or eight of them, reconcile after clean runs. */
  lemma CleanRunReconciles(c: Catalog, manifests: seq<Manifest>, dirs: seq<Directory>)
    requires ValidCatalog(c, c.workers) && c.workers in {2, 4, 8} && Parsed(c.discovery)
    requires |manifests| == |dirs| == c.workers && Reconcile.Shards(manifests) == Workers(c.workers)
    requires forall k :: 0 <= k < |manifests| && 0 <= manifests[k].shard < |c.assignments| ==>
               var a := c.assignments[manifests[k].shard];
               && manifests[k] == Manifest(manifests[k].shard, true, c, a) && Runnable(c, a)
               && dirs[k] == CleanDirectory(c.discovery, a)
    ensures Reconciled(manifests, dirs, c.workers)
  {
    hide ValidCatalog, Parsed, Reconcile.Shards, LogsVerified, CleanDirectory, Runnable;
    WorkersMatch(c, c.workers);
    forall k | 0 <= k < |manifests|
      ensures manifests[k].catalog == c && ManifestVerified(manifests[k], dirs[k], c)
    {
      ShardListed(manifests, k);
      CleanDirectoryAccepted(c, manifests[k].shard);
    }
  }
}
