/** Worker evidence: `verify_logs` (go_parent_shards.py) and `reconcile` (run_go_shard.py) for versioned catalogs. */
module Reconcile {
  import opened Order
  import opened Units
  import opened Decode
  import opened Catalogs
  import opened Logs
  import opened Lifecycles

  const GIT_IDENTITY: string := INTERNAL + "gitremote"

  /** One worker's saved evidence: its own discovery and the body logs it left behind. */
  datatype Directory = Directory(
    discovery: Discovery,
    git: Option<seq<Event>>,
    ordinary: Option<seq<Event>>,
    cli: Option<seq<Event>>,
    parents: map<string, seq<Event>>)

  datatype Manifest = Manifest(shard: int, success: bool, catalog: Catalog, coverage: Assignment)

  function Text(log: Option<seq<Event>>): seq<Event> {
    if log.Some? then log.value else []
  }

  /** The whole-package logs, in the order they are joined. */
  function WholeLog(dir: Directory): seq<Event> {
    Text(dir.git) + Text(dir.ordinary)
  }

  predicate HasTests(d: Discovery, package: string) {
    exists k :: 0 <= k < |d.packages| && d.packages[k] == Package(package, true)
  }

  /** Dicts compare without regard to order. */
  predicate SameDiscovery(a: Discovery, b: Discovery) {
    multiset(a.packages) == multiset(b.packages) && a.cli == b.cli && multiset(a.parents) == multiset(b.parents)
  }

  predicate SameAssignment(a: Assignment, b: Assignment) {
    a.packages == b.packages && a.cli == b.cli && multiset(a.parents) == multiset(b.parents)
  }

  predicate SameCatalog(a: Catalog, b: Catalog) {
    && a.workers == b.workers && SameDiscovery(a.discovery, b.discovery) && a.units == b.units
    && |a.assignments| == |b.assignments|
    && forall i :: 0 <= i < |a.assignments| ==> SameAssignment(a.assignments[i], b.assignments[i])
  }

  predicate SameManifest(a: Manifest, b: Manifest) {
    && a.shard == b.shard && a.success == b.success
    && SameCatalog(a.catalog, b.catalog) && SameAssignment(a.coverage, b.coverage)
  }

  function WholePackages(d: Discovery, a: Assignment): map<string, bool> {
    map p | p in a.packages :: HasTests(d, p)
  }

  predicate ExpectedLogs(dir: Directory, a: Assignment) {
    && (dir.git.Some? <==> GIT_IDENTITY in a.packages)
    && (dir.ordinary.Some? <==> exists p :: p in a.packages && p != GIT_IDENTITY)
    && (dir.cli.Some? <==> a.cli != [])
    && dir.parents.Keys == set k | 0 <= k < |a.parents| :: a.parents[k].package
  }

  predicate SkippedWhole(events: seq<Event>, package: string) {
    exists i :: 0 <= i < |events| && events[i].package == package && events[i].test == "" && events[i].action == Skip
  }

  /** What `verify_logs` accepts: discovery unchanged, exactly the expected logs, and every unit's evidence in them. */
  ghost predicate LogsVerified(dir: Directory, c: Catalog, a: Assignment) {
    && ValidCatalog(c, c.workers)
    && Parsed(dir.discovery) && SameDiscovery(dir.discovery, c.discovery)
    && (forall p :: p in a.packages ==> p in PackageNames(c.discovery.packages))
    && ExpectedLogs(dir, a)
    && Covers(WholeLog(dir), WholePackages(c.discovery, a), None)
    && Active(WholeLog(dir)).Some?
    && (forall p :: p in a.packages && !HasTests(c.discovery, p) ==> SkippedWhole(WholeLog(dir), p))
    && (a.cli != [] ==> SelectedLog(dir.cli.value, CLI, a.cli))
    && (forall k :: 0 <= k < |a.parents| && a.parents[k].names != [] ==>
          SelectedLog(dir.parents[a.parents[k].package], a.parents[k].package, a.parents[k].names))
  }

  method VerifyLogs(dir: Directory, c: Catalog, a: Assignment) returns (ok: bool)
    ensures ok <==> LogsVerified(dir, c, a)
  {
    var valid := Validate(c, c.workers);
    if !valid || !Parsed(dir.discovery) || !SameDiscovery(dir.discovery, c.discovery) || !ExpectedLogs(dir, a) {
      return false;
    }
    if exists p :: p in a.packages && p !in PackageNames(c.discovery.packages) {
      return false;
    }
    var whole := WholeLog(dir);
    var covered := Coverage(whole, WholePackages(c.discovery, a), None);
    var contained := VerifyContainment(whole);
    if !covered || !contained || exists p :: p in a.packages && !HasTests(c.discovery, p) && !SkippedWhole(whole, p) {
      return false;
    }
    if a.cli != [] {
      var cli := VerifySelected(dir.cli.value, CLI, a.cli);
      if !cli {
        return false;
      }
    }
    ok := VerifyParents(dir.parents, a.parents);
  }

  method VerifyParents(logs: map<string, seq<Event>>, parents: seq<Group>) returns (ok: bool)
    requires forall k :: 0 <= k < |parents| ==> parents[k].package in logs
    ensures ok <==> forall k :: 0 <= k < |parents| && parents[k].names != [] ==>
                      SelectedLog(logs[parents[k].package], parents[k].package, parents[k].names)
  {
    hide SelectedLog;
    for k := 0 to |parents|
      invariant forall j :: 0 <= j < k && parents[j].names != [] ==>
                  SelectedLog(logs[parents[j].package], parents[j].package, parents[j].names)
    {
      var g := parents[k];
      if g.names != [] {
        var verified := VerifySelected(logs[g.package], g.package, g.names);
        if !verified {
          return false;
        }
      }
    }
    return true;
  }

  // ---- What accepted logs establish ------------------------------------------

  ghost predicate InBodyLogs(dir: Directory, e: Event) {
    || e in WholeLog(dir)
    || e in Text(dir.cli)
    || exists p :: p in dir.parents && e in dir.parents[p]
  }

  /** The event that ends a unit: a package's own terminal, or the terminal of one top-level test. */
  ghost predicate Ends(e: Event, u: string) {
    || (PackageEnd(e) && e.package == u)
    || (ParentEnd(e) && Unit(e.package, e.test) == u)
  }

  ghost predicate Evidence(dir: Directory, u: string) {
    exists e :: InBodyLogs(dir, e) && Ends(e, u)
  }

  lemma NamesSplit(s: seq<Package>, p: Package, t: seq<Package>)
    ensures multiset(PackageNames(s + [p] + t)) == multiset(PackageNames(s + t)) + multiset{p.name}
  {
    assert PackageNames(s + [p] + t) == PackageNames(s) + [p.name] + PackageNames(t);
    assert PackageNames(s + t) == PackageNames(s) + PackageNames(t);
  }

  lemma {:induction false} NamesPermuted(a: seq<Package>, b: seq<Package>)
    requires multiset(a) == multiset(b)
    ensures multiset(PackageNames(a)) == multiset(PackageNames(b))
  {
    MultisetMembers(a, b);
    if a != [] {
      var n := |a| - 1;
      var j := Locate(a, b);
      NamesPermuted(a[..n], b[..j] + b[j + 1..]);
      assert a == a[..n] + [a[n]] + [] && a[..n] == a[..n] + [];
      NamesSplit(a[..n], a[n], []);
      NamesSplit(b[..j], b[j], b[j + 1..]);
    }
  }

  lemma KeysSplit(s: seq<Group>, g: Group, t: seq<Group>)
    ensures multiset(Keys(s + [g] + t)) == multiset(Keys(s + t)) + multiset{g.package}
  {
    assert Keys(s + [g] + t) == Keys(s) + [g.package] + Keys(t);
    assert Keys(s + t) == Keys(s) + Keys(t);
  }

  lemma {:induction false} KeysPermuted(a: seq<Group>, b: seq<Group>)
    requires multiset(a) == multiset(b)
    ensures multiset(Keys(a)) == multiset(Keys(b))
  {
    MultisetMembers(a, b);
    if a != [] {
      var n := |a| - 1;
      var j := Locate(a, b);
      KeysPermuted(a[..n], b[..j] + b[j + 1..]);
      assert a == a[..n] + [a[n]] + [] && a[..n] == a[..n] + [];
      KeysSplit(a[..n], a[n], []);
      KeysSplit(b[..j], b[j], b[j + 1..]);
    }
  }

  lemma CatalogWellFormed(d: Discovery, c: Catalog)
    requires WellFormed(d) && SameDiscovery(d, c.discovery) && ValidCatalog(c, c.workers)
    ensures WellFormed(c.discovery)
  {
    var names, names' := PackageNames(d.packages), PackageNames(c.discovery.packages);
    var keys, keys' := Keys(d.parents), Keys(c.discovery.parents);
    NamesPermuted(d.packages, c.discovery.packages);
    KeysPermuted(d.parents, c.discovery.parents);
    MultisetMembers(names, names');
    DistinctMultiset(names);
    DistinctMultiset(names');
    DistinctMultiset(keys);
    DistinctMultiset(keys');
  }

  /** A unit is either a plain package run whole, or a discovered parent of the CLI or of a split package. */
  lemma UnitKinds(d: Discovery, u: string)
    requires WellFormed(d) && u in ExecutionUnits(d)
    ensures Colonless(u) ==> u != CLI && !HasParents(d, u)
    ensures forall p, n :: Colonless(p) && u == Unit(p, n) ==> p == CLI || HasParents(d, p)
  {
    DiscoveryUnits(d);
    ConstantsColonless();
    KeepMembers(d, PackageNames(d.packages));
    AllUnitsOrigin(d.parents);
    if u in Whole(d) {
      forall p, n | Colonless(p)
        ensures u != Unit(p, n)
      {
        SeparatedUnit(p, n);
      }
    } else {
      var q, m := CLI, "";
      if u in AllUnits(d.parents) {
        var i, j :| 0 <= i < |d.parents| && 0 <= j < |d.parents[i].names|
                  && u == Unit(d.parents[i].package, d.parents[i].names[j]);
        q, m := d.parents[i].package, d.parents[i].names[j];
        assert HasParents(d, q);
      } else {
        var j :| 0 <= j < |d.cli| && CliUnits(d)[j] == u;
        m := d.cli[j];
      }
      SeparatedUnit(q, m);
      forall p, n | Colonless(p) && u == Unit(p, n)
        ensures p == q
      {
        UnitPackage(p, n, q, m);
      }
    }
  }

  lemma SeparatedUnit(p: string, n: string)
    requires Colonless(p)
    ensures !Colonless(Unit(p, n))
  {
    assert Unit(p, n)[|p|] == ':';
  }

  /** The package part of a unit is fixed by the first separator, whatever follows it. */
  lemma UnitPackage(p: string, n: string, q: string, m: string)
    requires Colonless(p) && Colonless(q) && Unit(p, n) == Unit(q, m)
    ensures p == q && n == m
  {
    FindColonless(p, n);
    FindColonless(q, m);
    assert Unit(p, n)[..|p|] == p && Unit(q, m)[..|q|] == q;
    assert Unit(p, n)[|p| + 2..] == n && Unit(q, m)[|q| + 2..] == m;
  }

  lemma AssignedAreUnits(c: Catalog, i: nat, u: string)
    requires ValidCatalog(c, c.workers) && i < |c.assignments| && u in AssignedUnits(c.assignments[i])
    ensures u in ExecutionUnits(c.discovery)
  {
    AllAssignedOrigin(c.assignments, u);
  }

  lemma SelectedEvent(events: seq<Event>, package: string, names: seq<string>, e: Event)
    requires SelectedLog(events, package, names) && e in events
    ensures e.package == package
    ensures e.test != "" ==> Top(e.test) in names
    ensures e.test != "" ==> Unit(package, Top(e.test)) in GroupUnits(Group(package, names))
  {
    SamePackage(events, package, names);
    var i :| 0 <= i < |events| && events[i] == e;
    if e.test != "" {
      var j :| 0 <= j < |names| && names[j] == Top(e.test);
      assert GroupUnits(Group(package, names))[j] == Unit(package, Top(e.test));
    }
  }

  lemma {:induction false} GroupInAll(groups: seq<Group>, k: nat, u: string)
    requires k < |groups| && u in GroupUnits(groups[k])
    ensures u in AllUnits(groups)
  {
    AllUnitsOrigin(groups);
    var j :| 0 <= j < |groups[k].names| && GroupUnits(groups[k])[j] == u;
    assert u == Unit(groups[k].package, groups[k].names[j]);
  }

  /** The parent whose log holds an event found in neither the whole-package logs nor the CLI log. */
  lemma ParentOfEvent(dir: Directory, c: Catalog, a: Assignment, e: Event) returns (k: nat)
    requires LogsVerified(dir, c, a) && InBodyLogs(dir, e) && e !in WholeLog(dir) && e !in Text(dir.cli)
    requires forall k :: 0 <= k < |a.parents| ==> a.parents[k].names != []
    ensures k < |a.parents| && a.parents[k].package == e.package
    ensures e.test != "" ==> Unit(e.package, Top(e.test)) in AllUnits(a.parents)
  {
    var p :| p in dir.parents && e in dir.parents[p];
    k :| 0 <= k < |a.parents| && a.parents[k].package == p;
    SelectedEvent(dir.parents[p], p, a.parents[k].names, e);
    if e.test != "" {
      GroupInAll(a.parents, k, Unit(p, Top(e.test)));
    }
  }

  /** Every log event belongs to a whole package or to a parent of this assignment. */
  lemma NothingUnassignedRan(dir: Directory, c: Catalog, a: Assignment, e: Event)
    requires LogsVerified(dir, c, a) && InBodyLogs(dir, e)
    requires forall k :: 0 <= k < |a.parents| ==> a.parents[k].names != []
    ensures e in WholeLog(dir) ==> e.package in a.packages
    ensures e !in WholeLog(dir) ==>
              e.package == CLI || exists k :: 0 <= k < |a.parents| && a.parents[k].package == e.package
    ensures e !in WholeLog(dir) && e.test != "" ==> Unit(e.package, Top(e.test)) in AssignedUnits(a)
  {
    if e in WholeLog(dir) {
      var i :| 0 <= i < |WholeLog(dir)| && WholeLog(dir)[i] == e;
      assert EventAllowed(WholeLog(dir)[i], WholePackages(c.discovery, a), None);
    } else if e in Text(dir.cli) {
      SelectedEvent(dir.cli.value, CLI, a.cli, e);
    } else {
      var k := ParentOfEvent(dir, c, a, e);
    }
  }

  lemma TestsEndedEvent(events: seq<Event>, package: string, names: seq<string>, n: string) returns (e: Event)
    requires SelectedLog(events, package, names) && n in names
    ensures e in events && ParentEnd(e) && e.package == package && e.test == n
  {
    SelectedExactly(events, package, names, n);
    var i :| 0 <= i < |events| && ParentEnd(events[i]) && (package, n) == (events[i].package, events[i].test);
    e := events[i];
  }

  lemma AssignedHasEvidence(dir: Directory, c: Catalog, a: Assignment, u: string)
    requires LogsVerified(dir, c, a) && u in AssignedUnits(a)
    requires forall k :: 0 <= k < |a.parents| ==> a.parents[k].names != []
    ensures Evidence(dir, u)
  {
    if u in a.packages {
      assert u in WholePackages(c.discovery, a).Keys;
      assert u in Ended(WholeLog(dir));
      var i :| 0 <= i < |WholeLog(dir)| && PackageEnd(WholeLog(dir)[i]) && WholeLog(dir)[i].package == u;
      assert InBodyLogs(dir, WholeLog(dir)[i]) && Ends(WholeLog(dir)[i], u);
    } else if u in GroupUnits(Group(CLI, a.cli)) {
      var j :| 0 <= j < |a.cli| && GroupUnits(Group(CLI, a.cli))[j] == u;
      var e := TestsEndedEvent(dir.cli.value, CLI, a.cli, a.cli[j]);
      assert InBodyLogs(dir, e) && Ends(e, u);
    } else {
      AllUnitsOrigin(a.parents);
      var k, j :| 0 <= k < |a.parents| && 0 <= j < |a.parents[k].names|
                  && u == Unit(a.parents[k].package, a.parents[k].names[j]);
      var p := a.parents[k].package;
      var e := TestsEndedEvent(dir.parents[p], p, a.parents[k].names, a.parents[k].names[j]);
      assert InBodyLogs(dir, e) && Ends(e, u);
    }
  }

  /** A whole package with compiled tests ends by a pass. */
  lemma TestedPackagePasses(dir: Directory, c: Catalog, a: Assignment, p: string, e: Event)
    requires LogsVerified(dir, c, a) && p in a.packages && Package(p, true) in c.discovery.packages
    requires e in WholeLog(dir) && PackageEnd(e) && e.package == p
    ensures e.action == Pass
  {
    hide Contains, Active, ValidCatalog, SelectedLog, EventAllowed, Untested;
    var es := WholeLog(dir);
    var i :| 0 <= i < |es| && es[i] == e;
    var k :| 0 <= k < |c.discovery.packages| && c.discovery.packages[k] == Package(p, true);
    assert WholePackages(c.discovery, a)[p];
  }

  /** A whole package without tests ends by a skip, and its log says why. */
  lemma UntestedPackageSkips(dir: Directory, c: Catalog, a: Assignment, p: string)
    requires LogsVerified(dir, c, a) && p in a.packages && Package(p, true) !in c.discovery.packages
    ensures exists x :: x in WholeLog(dir) && x.package == p && x.test == "" && x.action == Skip
    ensures exists x :: x in WholeLog(dir) && x.package == p && x.action == Output
                        && Contains(x.output, "[no test files]")
  {
    hide Contains, Active, ValidCatalog, SelectedLog, EventAllowed;
    var es := WholeLog(dir);
    assert SkippedWhole(es, p);
    var i :| 0 <= i < |es| && es[i].package == p && es[i].test == "" && es[i].action == Skip;
    assert PackageEnd(es[i]) && p in Untested(es);
    var j :| 0 <= j < |es| && es[j].action == Output && Contains(es[j].output, "[no test files]")
             && es[j].package == p;
    assert es[i] in es && es[j] in es;
  }

  lemma AssignedMembers(a: Assignment, u: string)
    requires u in a.packages || u in AllUnits(a.parents)
    ensures u in AssignedUnits(a)
  {}

  /** A package assigned by a valid catalog is one to be run whole exactly when its name has no separator in it. */
  lemma AssignedPackageIsWhole(c: Catalog, i: nat, p: string)
    requires ValidCatalog(c, c.workers) && WellFormed(c.discovery)
    requires i < |c.assignments| && p in c.assignments[i].packages
    ensures p in Whole(c.discovery) <==> Colonless(p)
  {
    AssignedMembers(c.assignments[i], p);
    AssignedAreUnits(c, i, p);
    DiscoveryUnits(c.discovery);
    UnitKinds(c.discovery, p);
    if p !in Whole(c.discovery) {
      AllUnitsOrigin(c.discovery.parents);
      UnitsHaveSeparators(c.discovery, p);
    }
  }

  lemma UnitsHaveSeparators(d: Discovery, u: string)
    requires WellFormed(d) && u in ExecutionUnits(d) && u !in Whole(d)
    ensures !Colonless(u)
  {
    ConstantsColonless();
    if u in CliUnits(d) {
      var j :| 0 <= j < |d.cli| && CliUnits(d)[j] == u;
      SeparatedUnit(CLI, d.cli[j]);
    } else {
      var i, j := UnitOrigin(d.parents, u);
      assert Keys(d.parents)[i] == d.parents[i].package;
      SeparatedUnit(d.parents[i].package, d.parents[i].names[j]);
    }
  }

  /** A catalog that assigns a CLI parent under the name of a package. */
  function Disguised(): Catalog {
    var u := Unit(CLI, "TestA");
    Catalog(1, Discovery([Package(CLI, true)], ["TestA"], []), [u], [Assignment([u], [], [])])
  }

  lemma OneParentUnits(d: Discovery, n: string)
    requires d == Discovery([Package(CLI, true)], [n], []) && RunnableName(n)
    ensures WellFormed(d) && ExecutionUnits(d) == [Unit(CLI, n)] && PackageNames(d.packages) == [CLI]
  {
    hide RunnableName, Unit;
    ConstantsColonless();
    assert PackageNames(d.packages) == [CLI];
    assert [CLI][..0] == [];
    assert Keep(d, [CLI]) == [];
  }

  lemma OneAssigned(u: string)
    ensures AllAssigned([Assignment([u], [], [])]) == [u]
    ensures AssignedUnits(Assignment([u], [], [])) == [u]
  {
    assert [Assignment([u], [], [])][..0] == [];
  }

  /** Validation accepts it, although what it assigns as a package is no package. */
  lemma DisguisedIsValid()
    ensures ValidCatalog(Disguised(), 1) && WellFormed(Disguised().discovery)
    ensures var p := Unit(CLI, "TestA");
            p in Disguised().assignments[0].packages && p !in PackageNames(Disguised().discovery.packages)
  {
    hide WellFormed, ExecutionUnits, AllAssigned, AssignedUnits, Unit;
    assert RunnableName("TestA");
    ConstantsColonless();
    SeparatedUnit(CLI, "TestA");
    OneParentUnits(Disguised().discovery, "TestA");
    OneAssigned(Unit(CLI, "TestA"));
    WellFormedExpected(Disguised().discovery);
  }

  lemma WellFormedExpected(d: Discovery)
    requires WellFormed(d)
    ensures CLI in PackageNames(d.packages) && ExpectedParents(d) && ListedNames(d.cli)
  {}

  /** A whole package of a valid catalog holds no parent units, and is not itself a parent unit's package. */
  lemma WholeEvidence(c: Catalog, i: nat, u: string, e: Event)
    requires i < |c.assignments| && ValidCatalog(c, c.workers) && WellFormed(c.discovery) && Colonless(e.package)
    requires u in ExecutionUnits(c.discovery) && e.package in c.assignments[i].packages && Ends(e, u)
    ensures u in AssignedUnits(c.assignments[i])
  {
    hide ValidCatalog, ExecutionUnits, WellFormed, AssignedUnits;
    AssignedMembers(c.assignments[i], e.package);
    AssignedAreUnits(c, i, e.package);
    UnitKinds(c.discovery, e.package);
    UnitKinds(c.discovery, u);
  }

  /** A package split into parents of a valid catalog is never a unit of its own. */
  lemma SplitPackageIsNoUnit(c: Catalog, i: nat, k: nat)
    requires i < |c.assignments| && ValidCatalog(c, c.workers) && WellFormed(c.discovery)
    requires k < |c.assignments[i].parents|
    ensures c.assignments[i].parents[k].package !in ExecutionUnits(c.discovery)
  {
    hide ValidCatalog, ExecutionUnits, WellFormed, AssignedUnits;
    var a := c.assignments[i];
    ParentFacts(c, i, k);
    AllUnitsOrigin(a.parents);
    var p := a.parents[k].package;
    var v := Unit(p, a.parents[k].names[0]);
    AssignedMembers(a, v);
    AssignedAreUnits(c, i, v);
    UnitKinds(c.discovery, v);
    if p in ExecutionUnits(c.discovery) {
      UnitKinds(c.discovery, p);
    }
  }

  lemma ParentFacts(c: Catalog, i: nat, k: nat)
    requires i < |c.assignments| && ValidCatalog(c, c.workers) && WellFormed(c.discovery)
    requires k < |c.assignments[i].parents|
    ensures c.assignments[i].parents[k].names != []
    ensures Colonless(c.assignments[i].parents[k].package)
  {
    var a := c.assignments[i];
    assert ValidAssignment(a, c.discovery);
    assert Keys(a.parents)[k] == a.parents[k].package;
    ConstantsColonless();
  }

  lemma EvidenceIsAssigned(dir: Directory, c: Catalog, i: nat, u: string, e: Event)
    requires i < |c.assignments| && LogsVerified(dir, c, c.assignments[i])
    requires u in ExecutionUnits(c.discovery) && InBodyLogs(dir, e) && Ends(e, u)
    ensures u in AssignedUnits(c.assignments[i])
  {
    hide LogsVerified, ValidCatalog, ExecutionUnits, WellFormed, AssignedUnits, InBodyLogs, WholeLog, SameDiscovery;
    var a := c.assignments[i];
    VerifiedWellFormed(dir, c, a);
    forall k | 0 <= k < |a.parents|
      ensures a.parents[k].names != []
    {
      ParentFacts(c, i, k);
    }
    NothingUnassignedRan(dir, c, a, e);
    if e in WholeLog(dir) {
      WholeEvidence(c, i, u, e);
    } else if PackageEnd(e) && e.package == u {
      ConstantsColonless();
      UnitKinds(c.discovery, u);
      assert u != CLI;
      var k :| 0 <= k < |a.parents| && a.parents[k].package == e.package;
      SplitPackageIsNoUnit(c, i, k);
    } else {
      TopSlash(e.test);
    }
  }

  lemma VerifiedWellFormed(dir: Directory, c: Catalog, a: Assignment)
    requires LogsVerified(dir, c, a)
    ensures ValidCatalog(c, c.workers) && WellFormed(c.discovery)
    ensures forall p :: p in a.packages ==> Colonless(p)
  {
    hide ValidCatalog, SameDiscovery, Covers, Active, SelectedLog, ExpectedLogs;
    CatalogWellFormed(dir.discovery, c);
  }

  /** Accepted logs end exactly the units of their assignment, among all units there are. */
  lemma EvidenceIffAssigned(dir: Directory, c: Catalog, i: nat, u: string)
    requires i < |c.assignments| && LogsVerified(dir, c, c.assignments[i])
    requires u in ExecutionUnits(c.discovery)
    ensures Evidence(dir, u) <==> u in AssignedUnits(c.assignments[i])
  {
    hide LogsVerified, ValidCatalog, ExecutionUnits, WellFormed, AssignedUnits, InBodyLogs, Ends;
    VerifiedWellFormed(dir, c, c.assignments[i]);
    forall k | 0 <= k < |c.assignments[i].parents|
      ensures c.assignments[i].parents[k].names != []
    {
      ParentFacts(c, i, k);
    }
    if Evidence(dir, u) {
      var e :| InBodyLogs(dir, e) && Ends(e, u);
      EvidenceIsAssigned(dir, c, i, u, e);
    }
    if u in AssignedUnits(c.assignments[i]) {
      AssignedHasEvidence(dir, c, c.assignments[i], u);
    }
  }

  // ---- reconcile ---------------------------------------------------------------

  function Shards(manifests: seq<Manifest>): set<int> {
    set k | 0 <= k < |manifests| :: manifests[k].shard
  }

  /** set(range(workers)) */
  function Workers(workers: nat): (r: set<int>)
    ensures |r| == workers && forall i :: i in r <==> 0 <= i < workers
  {
    if workers == 0 then {} else Workers(workers - 1) + {workers - 1}
  }

  /** list.index: the first equal manifest. */
  function IndexOf(manifests: seq<Manifest>, m: Manifest): (k: nat)
    requires m in manifests
    ensures k < |manifests| && SameManifest(manifests[k], m)
    ensures forall j :: 0 <= j < k ==> !SameManifest(manifests[j], m)
  {
    if SameManifest(manifests[0], m) then 0 else 1 + IndexOf(manifests[1..], m)
  }

  ghost predicate Reconciled(manifests: seq<Manifest>, dirs: seq<Directory>, workers: int)
    requires |manifests| == |dirs|
  {
    && workers in {2, 4, 8} && |manifests| == workers
    && Shards(manifests) == Workers(workers)
    && ValidCatalog(manifests[0].catalog, workers)
    && forall k :: 0 <= k < |manifests| ==> ManifestVerified(manifests[k], dirs[k], manifests[0].catalog)
  }

  ghost predicate ManifestVerified(m: Manifest, dir: Directory, first: Catalog) {
    && m.success && SameCatalog(m.catalog, first)
    && 0 <= m.shard < |first.assignments|
    && SameAssignment(m.coverage, first.assignments[m.shard])
    && LogsVerified(dir, first, first.assignments[m.shard])
  }

  lemma ShardsLast(manifests: seq<Manifest>)
    requires manifests != []
    ensures var n := |manifests| - 1; Shards(manifests) == Shards(manifests[..n]) + {manifests[n].shard}
    ensures forall i :: 0 <= i < |manifests| - 1 ==> manifests[i].shard in Shards(manifests[..|manifests| - 1])
  {
    var n := |manifests| - 1;
    assert forall i :: 0 <= i < n ==> manifests[..n][i] == manifests[i];
  }

  lemma {:induction false} ShardsInjective(manifests: seq<Manifest>)
    ensures |Shards(manifests)| <= |manifests|
    ensures |Shards(manifests)| == |manifests| ==>
              forall i, j :: 0 <= i < j < |manifests| ==> manifests[i].shard != manifests[j].shard
  {
    if manifests != [] {
      var n := |manifests| - 1;
      hide Shards;
      ShardsInjective(manifests[..n]);
      assert forall i :: 0 <= i < n ==> manifests[..n][i] == manifests[i];
      ShardsLast(manifests);
      if manifests[n].shard in Shards(manifests[..n]) {
        assert Shards(manifests) == Shards(manifests[..n]);
      }
    }
  }

  lemma ShardListed(manifests: seq<Manifest>, k: nat)
    requires k < |manifests|
    ensures manifests[k].shard in Shards(manifests)
  {}

  lemma WorkersMatch(c: Catalog, workers: int)
    requires ValidCatalog(c, workers)
    ensures c.workers == workers == |c.assignments|
  {}

  /** `reconcile` for versioned catalogs. */
  method ReconcileWorkers(manifests: seq<Manifest>, dirs: seq<Directory>, workers: int) returns (ok: bool)
    requires |manifests| == |dirs|
    ensures ok <==> Reconciled(manifests, dirs, workers)
  {
    hide ManifestVerified, Shards, ValidCatalog;
    if workers !in {2, 4, 8} || |manifests| != workers || Shards(manifests) != Workers(workers) {
      return false;
    }
    var first := manifests[0].catalog;
    var valid := Validate(first, workers);
    if !valid {
      return false;
    }
    ShardsInjective(manifests);
    forall k | 0 <= k < workers
      ensures 0 <= manifests[k].shard < workers
    {
      ShardListed(manifests, k);
    }
    WorkersMatch(first, workers);
    ok := VerifyEach(manifests, dirs, first);
  }

  /** Each manifest is paired with its directory by equality lookup; distinct shards make that its own directory. */
  method VerifyEach(manifests: seq<Manifest>, dirs: seq<Directory>, first: Catalog) returns (ok: bool)
    requires |manifests| == |dirs|
    requires forall i, j :: 0 <= i < j < |manifests| ==> manifests[i].shard != manifests[j].shard
    requires forall k :: 0 <= k < |manifests| ==> 0 <= manifests[k].shard < |first.assignments|
    ensures ok <==> forall k :: 0 <= k < |manifests| ==> ManifestVerified(manifests[k], dirs[k], first)
  {
    hide ManifestVerified;
    for k := 0 to |manifests|
      invariant forall j :: 0 <= j < k ==> ManifestVerified(manifests[j], dirs[j], first)
    {
      var own := IndexOf(manifests, manifests[k]);
      assert own == k;
      var verified := VerifyManifest(manifests[k], dirs[own], first);
      if !verified {
        return false;
      }
    }
    return true;
  }

  method VerifyManifest(m: Manifest, dir: Directory, first: Catalog) returns (ok: bool)
    requires 0 <= m.shard < |first.assignments|
    ensures ok <==> ManifestVerified(m, dir, first)
  {
    hide LogsVerified;
    if !m.success || !SameCatalog(m.catalog, first) || !SameAssignment(m.coverage, first.assignments[m.shard]) {
      return false;
    }
    ok := VerifyLogs(dir, first, first.assignments[m.shard]);
  }

  /** Whatever a directory of accepted evidence logged belongs to the assignment of its own manifest: to one of its
      whole packages, or to a parent assigned to it. */
  lemma NothingElseRan(manifests: seq<Manifest>, dirs: seq<Directory>, workers: int, k: nat, e: Event)
    requires |manifests| == |dirs| && Reconciled(manifests, dirs, workers) && k < workers && InBodyLogs(dirs[k], e)
    ensures 0 <= manifests[k].shard < |manifests[0].catalog.assignments|
    ensures var a := manifests[0].catalog.assignments[manifests[k].shard];
            && (e in WholeLog(dirs[k]) ==> e.package in a.packages)
            && (e !in WholeLog(dirs[k]) ==>
                  e.package == CLI || exists j :: 0 <= j < |a.parents| && a.parents[j].package == e.package)
            && (e !in WholeLog(dirs[k]) && e.test != "" ==> Unit(e.package, Top(e.test)) in AssignedUnits(a))
  {
    hide LogsVerified, ValidCatalog, ExecutionUnits, WellFormed, AssignedUnits, InBodyLogs, WholeLog, SameCatalog;
    var c := manifests[0].catalog;
    assert ManifestVerified(manifests[k], dirs[k], c);
    var i := manifests[k].shard;
    VerifiedWellFormed(dirs[k], c, c.assignments[i]);
    forall j | 0 <= j < |c.assignments[i].parents|
      ensures c.assignments[i].parents[j].names != []
    {
      ParentFacts(c, i, j);
    }
    NothingUnassignedRan(dirs[k], c, c.assignments[i], e);
  }

  /** Every accepted manifest succeeded, carries the one catalog, covers its own shard's assignment, and left exactly
      the logs of it behind. */
  lemma ManifestsAgree(manifests: seq<Manifest>, dirs: seq<Directory>, workers: int, k: nat)
    requires |manifests| == |dirs| && Reconciled(manifests, dirs, workers) && k < workers
    ensures 0 <= manifests[k].shard < |manifests[0].catalog.assignments|
    ensures var m, c, own := manifests[k], manifests[0].catalog, manifests[k].catalog;
            && m.success && own.workers == c.workers == workers && own.units == c.units
            && multiset(own.discovery.packages) == multiset(c.discovery.packages)
            && own.discovery.cli == c.discovery.cli && multiset(own.discovery.parents) == multiset(c.discovery.parents)
            && |own.assignments| == |c.assignments|
    ensures var m, a := manifests[k], manifests[0].catalog.assignments[manifests[k].shard];
            && m.coverage.packages == a.packages && m.coverage.cli == a.cli
            && multiset(m.coverage.parents) == multiset(a.parents)
            && m.catalog.assignments[m.shard].packages == a.packages && m.catalog.assignments[m.shard].cli == a.cli
            && multiset(m.catalog.assignments[m.shard].parents) == multiset(a.parents)
    ensures var dir, a := dirs[k], manifests[0].catalog.assignments[manifests[k].shard];
            && (dir.git.Some? <==> GIT_IDENTITY in a.packages)
            && (dir.ordinary.Some? <==> exists p :: p in a.packages && p != GIT_IDENTITY)
            && (dir.cli.Some? <==> a.cli != [])
            && forall p :: p in dir.parents <==> exists j :: 0 <= j < |a.parents| && a.parents[j].package == p
  {
    hide Shards, ValidCatalog, Covers, SelectedLog, Active, SkippedWhole, Parsed;
    assert ManifestVerified(manifests[k], dirs[k], manifests[0].catalog);
    WorkersMatch(manifests[0].catalog, workers);
  }

  /** End to end: accepted evidence ends every compiled unit in exactly one worker's logs. */
  lemma ReconciledMeansComplete(manifests: seq<Manifest>, dirs: seq<Directory>, workers: int, u: string)
    requires |manifests| == |dirs| && Reconciled(manifests, dirs, workers)
    requires u in ExecutionUnits(manifests[0].catalog.discovery)
    ensures exists k :: 0 <= k < workers && Evidence(dirs[k], u)
    ensures forall j, k ::
              0 <= j < workers && 0 <= k < workers && Evidence(dirs[j], u) && Evidence(dirs[k], u) ==> j == k
  {
    hide ManifestVerified, ValidCatalog, Evidence, ExecutionUnits, AssignedTo, Shards;
    var c := manifests[0].catalog;
    forall k | 0 <= k < workers
      ensures manifests[k].shard >= 0 && (Evidence(dirs[k], u) <==> AssignedTo(c, manifests[k].shard, u))
    {
      EvidenceOfManifest(manifests[k], dirs[k], c, u);
    }
    var i := OnlyWorker(c, workers, u);
    var k := ShardHolder(manifests, workers, i);
    assert AssignedTo(c, manifests[k].shard, u);
  }

  lemma EvidenceOfManifest(m: Manifest, dir: Directory, c: Catalog, u: string)
    requires ManifestVerified(m, dir, c) && u in ExecutionUnits(c.discovery)
    ensures m.shard >= 0 && (Evidence(dir, u) <==> AssignedTo(c, m.shard, u))
  {
    hide LogsVerified, Evidence, ExecutionUnits, AssignedUnits;
    EvidenceIffAssigned(dir, c, m.shard, u);
  }

  lemma ShardHolder(manifests: seq<Manifest>, workers: nat, i: nat) returns (k: nat)
    requires |manifests| == workers && Shards(manifests) == Workers(workers) && i < workers
    ensures k < workers && manifests[k].shard == i
    ensures forall j :: 0 <= j < workers && manifests[j].shard == i ==> j == k
  {
    ShardsInjective(manifests);
    assert i in Shards(manifests);
    k :| 0 <= k < |manifests| && manifests[k].shard == i;
  }

  lemma OnlyWorker(c: Catalog, workers: nat, u: string) returns (i: nat)
    requires ValidCatalog(c, workers) && u in ExecutionUnits(c.discovery)
    ensures i < workers && AssignedTo(c, i, u)
    ensures forall j: nat :: AssignedTo(c, j, u) ==> j == i
  {
    ValidMeansExactlyOnce(c, workers, u);
    i :| AssignedTo(c, i, u);
  }
}
