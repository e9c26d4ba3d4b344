/** The three-worker native schedule of scripts/run_native_full.py: whole ordinary packages and single CLI parents are
    placed on workers, then turned into package runs and CLI selections. */
module NativeFull {
  import opened Order
  import opened Placement
  import opened Shards
  import opened Units
  import opened Decode
  import opened FullRace

  const WORKERS: nat := 3

  /** One `go test` command and the names it is recorded to run. */
  datatype Invocation = Invocation(command: Command, selected: Names)

  /** How many of the invocations execute a body. */
  ghost function Count(invocations: seq<Invocation>, names: Names, p: string, n: string): nat {
    if invocations == [] then 0
    else
      var k := |invocations| - 1;
      Count(invocations[..k], names, p, n) + if Executes(invocations[k].command, names, p, n) then 1 else 0
  }

  lemma {:induction false} CountConcat(a: seq<Invocation>, b: seq<Invocation>, names: Names, p: string, n: string)
    ensures Count(a + b, names, p, n) == Count(a, names, p, n) + Count(b, names, p, n)
  {
    if b == [] {
      assert a + b == a;
    } else {
      var k := |b| - 1;
      assert (a + b)[..|a| + k] == a + b[..k];
      CountConcat(a, b[..k], names, p, n);
    }
  }

  ghost function One(holds: bool): nat {
    if holds then 1 else 0
  }

  lemma CountOne(i: Invocation, names: Names, p: string, n: string)
    ensures Count([i], names, p, n) == One(Executes(i.command, names, p, n))
  {
    assert [i][..0] == [];
  }

  function Flat(workers: seq<seq<Invocation>>): seq<Invocation> {
    if workers == [] then [] else Flat(workers[..|workers| - 1]) + workers[|workers| - 1]
  }

  // ---- Units ---------------------------------------------------------------------

  /** One unit per CLI parent, one per other package; a CLI without parents is a package like the others. */
  function UnitsOf(names: Names, p: string): seq<string>
    requires p in names
  {
    if p == CLI && names[p] != [] then GroupUnits(Group(CLI, names[p])) else [p]
  }

  function NativeUnits(names: Names, packages: seq<string>): seq<string>
    requires forall p :: p in packages ==> p in names
  {
    if packages == [] then []
    else NativeUnits(names, packages[..|packages| - 1]) + UnitsOf(names, packages[|packages| - 1])
  }

  /** Discovery of a module: every package once, in dictionary order. */
  ghost predicate Compiled(names: Names, packages: seq<string>) {
    && WellListed(names) && Distinct(packages)
    && (forall p :: p in packages <==> p in names)
    && forall p :: p in packages ==> Colonless(p)
  }

  /** The unit whose worker runs a body. */
  function Home(p: string, n: string): string {
    if p == CLI then Unit(CLI, n) else p
  }

  ghost predicate NativeUnit(names: Names, u: string) {
    || (u in names && Colonless(u) && (u == CLI ==> names[u] == []))
    || (exists n :: Listed(names, CLI, n) && u == Unit(CLI, n))
  }

  function PackageOf(u: string): string {
    u[..Find(u)]
  }

  lemma PackageOfUnit(p: string, n: string)
    requires Colonless(p)
    ensures PackageOf(p) == p && PackageOf(Unit(p, n)) == p
  {
    FindColonless(p, n);
  }

  lemma CliUnitInjective(a: string, b: string)
    requires Unit(CLI, a) == Unit(CLI, b)
    ensures a == b
  {
    assert Unit(CLI, a)[|CLI| + 2..] == a && Unit(CLI, b)[|CLI| + 2..] == b;
  }

  lemma UnitsOfFacts(names: Names, p: string)
    requires WellListed(names) && p in names && Colonless(p)
    ensures forall u :: u in UnitsOf(names, p) ==> NativeUnit(names, u) && PackageOf(u) == p
    ensures forall n :: n in names[p] ==> Home(p, n) in UnitsOf(names, p)
    ensures Distinct(UnitsOf(names, p))
  {
    hide PackageOf;
    var units := UnitsOf(names, p);
    if p == CLI && names[p] != [] {
      forall i | 0 <= i < |units|
        ensures NativeUnit(names, units[i]) && PackageOf(units[i]) == p
      {
        assert Listed(names, CLI, names[p][i]);
        PackageOfUnit(p, names[p][i]);
      }
      forall i, j | 0 <= i < j < |units|
        ensures units[i] != units[j]
      {
        if units[i] == units[j] {
          CliUnitInjective(names[p][i], names[p][j]);
        }
      }
      forall n | n in names[p]
        ensures Home(p, n) in units
      {
        var k :| 0 <= k < |names[p]| && names[p][k] == n;
        assert units[k] == Home(p, n);
      }
    } else {
      PackageOfUnit(p, "");
    }
  }

  /** The units are distinct, and every body of a listed package has its home among them. */
  lemma {:induction false} NativeUnitsFacts(names: Names, packages: seq<string>)
    requires WellListed(names) && Distinct(packages)
    requires forall p :: p in packages ==> p in names && Colonless(p)
    ensures forall u :: u in NativeUnits(names, packages) ==> NativeUnit(names, u) && PackageOf(u) in packages
    ensures forall q, n :: Listed(names, q, n) && q in packages ==> Home(q, n) in NativeUnits(names, packages)
    ensures Distinct(NativeUnits(names, packages))
  {
    hide WellListed, NativeUnit, UnitsOf, Home, PackageOf;
    if packages != [] {
      var k := |packages| - 1;
      assert packages == packages[..k] + [packages[k]];
      assert packages[k] in packages && packages[k] !in packages[..k];
      assert forall p :: p in packages[..k] ==> p in packages;
      NativeUnitsFacts(names, packages[..k]);
      UnitsOfFacts(names, packages[k]);
      var before, added := NativeUnits(names, packages[..k]), UnitsOf(names, packages[k]);
      assert NativeUnits(names, packages) == before + added;
      assert forall u :: u in before + added <==> u in before || u in added;
      DistinctConcat(before, added);
      forall q, n | Listed(names, q, n) && q in packages
        ensures Home(q, n) in before + added
      {
        if q == packages[k] {
          assert n in names[q];
        }
      }
    }
  }

  lemma DistinctConcat(a: seq<string>, b: seq<string>)
    requires Distinct(a) && Distinct(b) && forall x :: x in a ==> x !in b
    ensures Distinct(a + b)
  {
    assert forall i :: 0 <= i < |a| ==> a[i] in a;
    assert forall i :: 0 <= i < |b| ==> b[i] in b;
  }

  // ---- One worker ------------------------------------------------------------------

  /** What decoding a worker's units gives: its packages run whole, and its CLI parents. */
  lemma {:induction false} NativeDecoded(names: Names, bin: seq<string>)
    requires forall u :: u in bin ==> NativeUnit(names, u)
    requires WellListed(names)
    ensures Decoded(bin).Some?
    ensures var a := Decoded(bin).value;
            && (forall p :: p in a.packages <==> p in bin && Colonless(p))
            && (forall n :: n in a.cli <==> Unit(CLI, n) in bin)
  {
    if bin != [] {
      var k := |bin| - 1;
      var u := bin[k];
      assert bin == bin[..k] + [u];
      NativeDecoded(names, bin[..k]);
      NativeAdded(names, Decoded(bin[..k]).value, u);
    }
  }

  lemma NativeAdded(names: Names, a: Assignment, u: string)
    requires NativeUnit(names, u) && WellListed(names)
    ensures AddUnit(a, u).Some?
    ensures Colonless(u) ==> AddUnit(a, u).value == a.(packages := a.packages + [u]) && forall n :: u != Unit(CLI, n)
    ensures !Colonless(u) ==> exists n :: u == Unit(CLI, n) && AddUnit(a, u).value == a.(cli := a.cli + [n])
    ensures forall n, m :: u == Unit(CLI, n) && u == Unit(CLI, m) ==> n == m
  {
    ConstantsColonless();
    forall n, m | u == Unit(CLI, n) && u == Unit(CLI, m)
      ensures n == m
    {
      CliUnitInjective(n, m);
    }
    forall n
      ensures !Colonless(Unit(CLI, n))
    {
      assert Unit(CLI, n)[|CLI|] == ':';
    }
    if Colonless(u) {
      SplitUnit(u, "");
    } else {
      var n :| Listed(names, CLI, n) && u == Unit(CLI, n);
      RunnableColonless(n);
      SplitUnit(CLI, n);
    }
  }

  function Rest(cli: seq<string>): seq<string> {
    Without(cli, [ISOLATED])
  }

  /** The CLI invocations of one worker: everything but the isolated parent together, the isolated one alone. */
  function CliGroups(cli: seq<string>): seq<seq<string>> {
    (if Rest(cli) != [] || cli == [] then [Rest(cli)] else []) + (if ISOLATED in cli then [[ISOLATED]] else [])
  }

  function CliInvocation(group: seq<string>): Invocation {
    Invocation(Command({CLI}, if group == [] then Everything else Running(group), false), map[CLI := group])
  }

  function CliInvocations(groups: seq<seq<string>>): (r: seq<Invocation>)
    ensures |r| == |groups| && forall k :: 0 <= k < |r| ==> r[k] == CliInvocation(groups[k])
  {
    seq(|groups|, k requires 0 <= k < |groups| => CliInvocation(groups[k]))
  }

  function Pick(names: Names, packages: seq<string>): Names {
    map p | p in packages && p in names :: names[p]
  }

  function PackageInvocation(names: Names, packages: seq<string>): Invocation {
    Invocation(Command((set p | p in packages), Everything, false), Pick(names, packages))
  }

  function OrdinaryInvocations(names: Names, a: Assignment): seq<Invocation> {
    var ordinary := Without(SortNames(a.packages), [CLI]);
    if ordinary == [] then [] else [PackageInvocation(names, ordinary)]
  }

  function HostsCli(a: Assignment): bool {
    CLI in a.packages || a.cli != []
  }

  /** The invocations of the worker assigned `a`. */
  function WorkerInvocations(names: Names, a: Assignment): seq<Invocation> {
    OrdinaryInvocations(names, a) +
    if HostsCli(a) then CliInvocations(CliGroups(SortNames(a.cli))) else []
  }

  /** What each invocation executes is what it is recorded to select. */
  ghost predicate Faithful(invocations: seq<Invocation>, names: Names) {
    forall k, p, n :: 0 <= k < |invocations| ==>
      (Executes(invocations[k].command, names, p, n) <==> Listed(invocations[k].selected, p, n))
  }

  lemma OrdinaryRuns(names: Names, a: Assignment, p: string, n: string)
    requires forall q :: q in a.packages ==> q in names
    ensures Faithful(OrdinaryInvocations(names, a), names)
    ensures Listed(names, p, n) ==>
              Count(OrdinaryInvocations(names, a), names, p, n) == One(p != CLI && p in a.packages)
  {
    var ordinary := Without(SortNames(a.packages), [CLI]);
    SortNamesFacts(a.packages);
    WithoutMembers(SortNames(a.packages), [CLI]);
    if ordinary != [] {
      CountOne(PackageInvocation(names, ordinary), names, p, n);
    } else {
      assert forall q :: q in a.packages && q != CLI ==> q in ordinary;
    }
  }

  lemma FaithfulConcat(a: seq<Invocation>, b: seq<Invocation>, names: Names)
    requires Faithful(a, names) && Faithful(b, names)
    ensures Faithful(a + b, names)
  {
    hide Executes, Listed;
  }

  lemma CliInvocationRuns(names: Names, group: seq<string>, p: string, n: string)
    requires CLI in names && (forall m :: m in group ==> m in names[CLI]) && (group == [] ==> names[CLI] == [])
    ensures Faithful([CliInvocation(group)], names)
    ensures Count([CliInvocation(group)], names, p, n) == One(p == CLI && n in group)
  {
    CountOne(CliInvocation(group), names, p, n);
  }

  /** The groups share out the worker's CLI names: `first` and then perhaps the isolated one. */
  lemma GroupsOf(cli: seq<string>)
    ensures CliInvocations(CliGroups(cli)) ==
            (if Rest(cli) != [] || cli == [] then [CliInvocation(Rest(cli))] else []) +
            (if ISOLATED in cli then [CliInvocation([ISOLATED])] else [])
    ensures forall n :: n in Rest(cli) <==> n in cli && n != ISOLATED
  {
    hide CliInvocation;
    WithoutMembers(cli, [ISOLATED]);
  }

  lemma CliRuns(names: Names, cli: seq<string>, p: string, n: string)
    requires CLI in names && (forall m :: m in cli ==> m in names[CLI]) && (cli == [] ==> names[CLI] == [])
    ensures Faithful(CliInvocations(CliGroups(cli)), names)
    ensures Count(CliInvocations(CliGroups(cli)), names, p, n) == One(p == CLI && n in cli)
  {
    hide Executes, Listed, CliInvocation, Rest, CliGroups, Faithful, Count;
    GroupsOf(cli);
    var none: seq<Invocation> := [];
    NoInvocations(names, p, n);
    var first := if Rest(cli) != [] || cli == [] then [CliInvocation(Rest(cli))] else none;
    var alone := if ISOLATED in cli then [CliInvocation([ISOLATED])] else none;
    if first != none {
      CliInvocationRuns(names, Rest(cli), p, n);
    }
    if alone != none {
      CliInvocationRuns(names, [ISOLATED], p, n);
    }
    FaithfulConcat(first, alone, names);
    CountConcat(first, alone, names, p, n);
  }

  lemma NoInvocations(names: Names, p: string, n: string)
    ensures Faithful([], names) && Count([], names, p, n) == 0
  {}

  /** A worker runs exactly the bodies whose home units it was given, each once. */
  lemma WorkerRuns(names: Names, bin: seq<string>, p: string, n: string)
    requires WellListed(names) && forall u :: u in bin ==> NativeUnit(names, u)
    requires Listed(names, p, n) && Colonless(p)
    ensures Decoded(bin).Some?
    ensures Faithful(WorkerInvocations(names, Decoded(bin).value), names)
    ensures Count(WorkerInvocations(names, Decoded(bin).value), names, p, n) == One(Home(p, n) in bin)
  {
    hide WellListed, Faithful, Count, OrdinaryInvocations, CliInvocations, CliGroups, SortNames, Unit;
    NativeDecoded(names, bin);
    var a := Decoded(bin).value;
    DecodedNames(names, bin, a);
    OrdinaryRuns(names, a, p, n);
    NoInvocations(names, p, n);
    var cli := if HostsCli(a) then CliInvocations(CliGroups(SortNames(a.cli))) else [];
    SortNamesFacts(a.cli);
    if HostsCli(a) {
      CliRuns(names, SortNames(a.cli), p, n);
    }
    FaithfulConcat(OrdinaryInvocations(names, a), cli, names);
    CountConcat(OrdinaryInvocations(names, a), cli, names, p, n);
  }

  lemma DecodedNames(names: Names, bin: seq<string>, a: Assignment)
    requires WellListed(names) && forall u :: u in bin ==> NativeUnit(names, u)
    requires forall p :: p in a.packages <==> p in bin && Colonless(p)
    requires forall n :: n in a.cli <==> Unit(CLI, n) in bin
    ensures forall p :: p in a.packages ==> p in names && (p == CLI ==> names[p] == [])
    ensures forall n :: n in a.cli ==> Listed(names, CLI, n)
    ensures HostsCli(a) ==> CLI in names && (a.cli == [] ==> names[CLI] == [])
  {
    ConstantsColonless();
    forall n
      ensures !Colonless(Unit(CLI, n))
    {
      assert Unit(CLI, n)[|CLI|] == ':';
    }
    forall n | n in a.cli
      ensures Listed(names, CLI, n)
    {
      var m :| Listed(names, CLI, m) && Unit(CLI, n) == Unit(CLI, m);
      CliUnitInjective(n, m);
    }
    if a.cli != [] {
      assert a.cli[0] in a.cli;
    }
  }

  /** Ordinary packages, CLI parents, and the isolated CLI parent, each kind in a process of its own. */
  function KindOf(p: string, n: string): nat {
    if p != CLI then 0 else if n != ISOLATED then 1 else 2
  }

  ghost predicate ExecutesAt(invocations: seq<Invocation>, names: Names, k: nat, p: string, n: string) {
    k < |invocations| && Executes(invocations[k].command, names, p, n)
  }

  /** One invocation executes bodies of one kind, and later invocations later kinds. */
  ghost predicate Grouped(invocations: seq<Invocation>, names: Names) {
    forall j, k, p, n, q, m ::
      j <= k && ExecutesAt(invocations, names, j, p, n) && ExecutesAt(invocations, names, k, q, m) ==>
        if j == k then KindOf(p, n) == KindOf(q, m) else KindOf(p, n) < KindOf(q, m)
  }

  ghost predicate KindsWithin(invocations: seq<Invocation>, names: Names, low: nat, high: nat) {
    && Grouped(invocations, names)
    && forall k, p, n :: ExecutesAt(invocations, names, k, p, n) ==> low <= KindOf(p, n) < high
  }

  lemma KindsConcat(a: seq<Invocation>, b: seq<Invocation>, names: Names, low: nat, mid: nat, high: nat)
    requires low <= mid <= high && KindsWithin(a, names, low, mid) && KindsWithin(b, names, mid, high)
    ensures KindsWithin(a + b, names, low, high)
  {
    hide KindOf, Executes;
    forall k: nat, p, n | ExecutesAt(a + b, names, k, p, n)
      ensures if k < |a| then ExecutesAt(a, names, k, p, n) else ExecutesAt(b, names, k - |a|, p, n)
    {}
  }

  lemma KindsNone(names: Names, low: nat, high: nat)
    ensures KindsWithin([], names, low, high)
  {}

  lemma KindsOne(i: Invocation, names: Names, kind: nat)
    requires forall p, n :: Executes(i.command, names, p, n) ==> KindOf(p, n) == kind
    ensures KindsWithin([i], names, kind, kind + 1)
  {
    hide KindOf, Executes;
  }

  /** The packages a worker was given are each named by a command that filters nothing. */
  ghost predicate NamesPackage(invocations: seq<Invocation>, p: string) {
    exists k :: 0 <= k < |invocations| && p in invocations[k].command.packages
                && invocations[k].command.filter == Everything
  }

  lemma OrdinaryShape(names: Names, a: Assignment)
    ensures KindsWithin(OrdinaryInvocations(names, a), names, 0, 1) && |OrdinaryInvocations(names, a)| <= 1
    ensures forall p :: p in a.packages && p != CLI ==> NamesPackage(OrdinaryInvocations(names, a), p)
  {
    var ordinary := Without(SortNames(a.packages), [CLI]);
    SortNamesFacts(a.packages);
    WithoutMembers(SortNames(a.packages), [CLI]);
    KindsNone(names, 0, 1);
    if ordinary != [] {
      KindsOne(PackageInvocation(names, ordinary), names, 0);
      assert OrdinaryInvocations(names, a)[0].command.packages == set p | p in ordinary;
    }
    forall p | p in a.packages && p != CLI
      ensures NamesPackage(OrdinaryInvocations(names, a), p)
    {
      assert p in ordinary;
      assert p in OrdinaryInvocations(names, a)[0].command.packages;
    }
  }

  lemma NothingRests()
    ensures Rest([]) == []
  {}

  lemma CliShape(names: Names, cli: seq<string>)
    requires cli == [] ==> CLI in names && names[CLI] == []
    ensures KindsWithin(CliInvocations(CliGroups(cli)), names, 1, 3) && 1 <= |CliInvocations(CliGroups(cli))| <= 2
    ensures cli == [] ==> NamesPackage(CliInvocations(CliGroups(cli)), CLI)
  {
    hide Rest;
    assert cli != [] ==> cli[0] in cli;
    GroupsOf(cli);
    KindsNone(names, 1, 2);
    KindsNone(names, 2, 3);
    var none: seq<Invocation> := [];
    var first := if Rest(cli) != [] || cli == [] then [CliInvocation(Rest(cli))] else none;
    var alone := if ISOLATED in cli then [CliInvocation([ISOLATED])] else none;
    if first != none {
      KindsOne(CliInvocation(Rest(cli)), names, 1);
    }
    KindsOne(CliInvocation([ISOLATED]), names, 2);
    KindsConcat(first, alone, names, 1, 2, 3);
    if cli == [] {
      NothingRests();
      assert CliInvocations(CliGroups(cli))[0] == CliInvocation([]);
    }
  }

  /** The invocations of one worker, by kind, naming every package it was given. */
  lemma ShapeOf(names: Names, a: Assignment)
    requires HostsCli(a) && a.cli == [] ==> CLI in names && names[CLI] == []
    requires CLI in a.packages ==> a.cli == []
    requires a.packages != [] || a.cli != []
    ensures var invocations := WorkerInvocations(names, a);
            && 1 <= |invocations| <= 3 && Grouped(invocations, names)
            && forall p :: p in a.packages ==> NamesPackage(invocations, p)
  {
    hide Grouped, OrdinaryInvocations, CliInvocations, CliGroups, SortNames, NamesPackage;
    var ordinary := OrdinaryInvocations(names, a);
    OrdinaryShape(names, a);
    KindsNone(names, 1, 3);
    var none: seq<Invocation> := [];
    var cli := if HostsCli(a) then CliInvocations(CliGroups(SortNames(a.cli))) else none;
    SortNamesFacts(a.cli);
    if HostsCli(a) {
      CliShape(names, SortNames(a.cli));
    } else {
      assert a.packages[0] in a.packages;
      NamedMeansSome(ordinary, a.packages[0]);
    }
    KindsConcat(ordinary, cli, names, 0, 1, 3);
    forall p | p in a.packages
      ensures NamesPackage(ordinary + cli, p)
    {
      NamedEither(ordinary, cli, p);
    }
  }

  lemma NamedMeansSome(invocations: seq<Invocation>, p: string)
    requires NamesPackage(invocations, p)
    ensures invocations != []
  {}

  lemma NoneShortened(names: Names, a: Assignment)
    ensures forall k :: 0 <= k < |WorkerInvocations(names, a)| ==> !WorkerInvocations(names, a)[k].command.short
  {}

  /** A worker's invocations are at most three, by kind, and name every package it was given. */
  lemma WorkerShape(names: Names, bin: seq<string>)
    requires WellListed(names) && bin != [] && forall u :: u in bin ==> NativeUnit(names, u)
    ensures Decoded(bin).Some?
    ensures var invocations := WorkerInvocations(names, Decoded(bin).value);
            && 1 <= |invocations| <= 3 && Grouped(invocations, names)
            && (forall k :: 0 <= k < |invocations| ==> !invocations[k].command.short)
            && forall p :: p in bin && Colonless(p) ==> NamesPackage(invocations, p)
  {
    hide WellListed, Grouped, WorkerInvocations, NamesPackage, Unit, NativeUnit;
    NativeDecoded(names, bin);
    var a := Decoded(bin).value;
    NoneShortened(names, a);
    DecodedNames(names, bin, a);
    SomeUnit(names, bin, a);
    if CLI in a.packages && a.cli != [] {
      assert a.cli[0] in a.cli;
      NotBoth(names, a.cli[0]);
    }
    ShapeOf(names, a);
  }

  lemma NotBoth(names: Names, n: string)
    requires Listed(names, CLI, n)
    ensures names[CLI] != []
  {}

  lemma NamedEither(a: seq<Invocation>, b: seq<Invocation>, p: string)
    requires NamesPackage(a, p) || NamesPackage(b, p)
    ensures NamesPackage(a + b, p)
  {
    if NamesPackage(a, p) {
      var k :| 0 <= k < |a| && p in a[k].command.packages && a[k].command.filter == Everything;
      assert (a + b)[k] == a[k];
    } else {
      var k :| 0 <= k < |b| && p in b[k].command.packages && b[k].command.filter == Everything;
      assert (a + b)[|a| + k] == b[k];
    }
  }

  lemma SomeUnit(names: Names, bin: seq<string>, a: Assignment)
    requires bin != [] && forall u :: u in bin ==> NativeUnit(names, u)
    requires forall p :: p in a.packages <==> p in bin && Colonless(p)
    requires forall n :: n in a.cli <==> Unit(CLI, n) in bin
    ensures a.packages != [] || a.cli != []
  {
    var u := bin[0];
    assert u in bin;
    if Colonless(u) {
      assert u in a.packages;
    } else {
      var n :| Listed(names, CLI, n) && u == Unit(CLI, n);
      assert n in a.cli;
    }
  }

  // ---- All workers -------------------------------------------------------------------

  /** The scheduler's commands for the placed units. */
  ghost predicate Commands(names: Names, bins: seq<seq<string>>, workers: seq<seq<Invocation>>) {
    && |workers| == |bins|
    && forall i :: 0 <= i < |bins| ==>
                     Decoded(bins[i]).Some? && workers[i] == WorkerInvocations(names, Decoded(bins[i]).value)
  }

  lemma {:induction false} WorkersCount(names: Names, bins: seq<seq<string>>, workers: seq<seq<Invocation>>, p: string,
                                        n: string)
    requires WellListed(names) && Listed(names, p, n) && Colonless(p) && Commands(names, bins, workers)
    requires forall i, u :: 0 <= i < |bins| && u in bins[i] ==> NativeUnit(names, u)
    requires Distinct(Flatten(bins))
    ensures Count(Flat(workers), names, p, n) == One(Home(p, n) in Flatten(bins))
  {
    hide WellListed, Listed, Decoded, Home, NativeUnit, WorkerInvocations, Count, Colonless;
    if bins == [] {
      NoInvocations(names, p, n);
    } else {
      var k := |bins| - 1;
      var front := Flatten(bins[..k]);
      DistinctParts(front, bins[k]);
      WorkersCount(names, bins[..k], workers[..k], p, n);
      WorkerRuns(names, bins[k], p, n);
      CountConcat(Flat(workers[..k]), workers[k], names, p, n);
    }
  }

  lemma DistinctParts(a: seq<string>, b: seq<string>)
    requires Distinct(a + b)
    ensures Distinct(a) && Distinct(b) && forall x :: x in a ==> x !in b
  {
    var all := a + b;
    assert forall i :: 0 <= i < |a| ==> all[i] == a[i];
    assert forall i :: 0 <= i < |b| ==> all[|a| + i] == b[i];
  }

  lemma {:induction false} WorkersFaithful(names: Names, bins: seq<seq<string>>, workers: seq<seq<Invocation>>)
    requires WellListed(names) && Commands(names, bins, workers)
    requires forall i, u :: 0 <= i < |bins| && u in bins[i] ==> NativeUnit(names, u)
    ensures Faithful(Flat(workers), names)
  {
    hide WellListed, Decoded, NativeUnit, WorkerInvocations, Faithful;
    if bins == [] {
      NoInvocations(names, "", "");
    } else {
      var k := |bins| - 1;
      WorkersFaithful(names, bins[..k], workers[..k]);
      WorkerFaithful(names, bins[k]);
      FaithfulConcat(Flat(workers[..k]), workers[k], names);
    }
  }

  lemma WorkerFaithful(names: Names, bin: seq<string>)
    requires WellListed(names) && forall u :: u in bin ==> NativeUnit(names, u)
    ensures Decoded(bin).Some? && Faithful(WorkerInvocations(names, Decoded(bin).value), names)
  {
    hide WellListed, Faithful, OrdinaryInvocations, CliInvocations, CliGroups, SortNames, Unit;
    NativeDecoded(names, bin);
    var a := Decoded(bin).value;
    DecodedNames(names, bin, a);
    OrdinaryRuns(names, a, "", "");
    NoInvocations(names, "", "");
    var cli := if HostsCli(a) then CliInvocations(CliGroups(SortNames(a.cli))) else [];
    SortNamesFacts(a.cli);
    if HostsCli(a) {
      CliRuns(names, SortNames(a.cli), "", "");
    }
    FaithfulConcat(OrdinaryInvocations(names, a), cli, names);
  }

  predicate SelectorsFit(invocations: seq<Invocation>) {
    forall k :: 0 <= k < |invocations| && invocations[k].command.filter.Running? ==>
                  Selectable(invocations[k].command.filter.chosen)
  }

  predicate WorkerFits(names: Names, bin: seq<string>) {
    Decoded(bin).Some? ==> SelectorsFit(WorkerInvocations(names, Decoded(bin).value))
  }

  /** Every discovered body runs in exactly one invocation of one worker, and every invocation runs what it records. */
  ghost predicate NativeExactlyOnce(workers: seq<seq<Invocation>>, names: Names) {
    && Faithful(Flat(workers), names)
    && forall p, n :: Listed(names, p, n) ==> Count(Flat(workers), names, p, n) == 1
  }

  lemma PlacedExactlyOnce(names: Names, packages: seq<string>, bins: seq<seq<string>>, workers: seq<seq<Invocation>>)
    requires Compiled(names, packages) && Commands(names, bins, workers)
    requires multiset(Flatten(bins)) == multiset(NativeUnits(names, packages))
    ensures NativeExactlyOnce(workers, names)
  {
    hide WellListed, Home, NativeUnit, Flatten, Flat, Count, Faithful, Decoded, NativeUnits;
    var units := NativeUnits(names, packages);
    NativeUnitsFacts(names, packages);
    MultisetMembers(Flatten(bins), units);
    DistinctMultiset(units);
    DistinctMultiset(Flatten(bins));
    FlattenMembers(bins);
    WorkersFaithful(names, bins, workers);
    forall p, n | Listed(names, p, n)
      ensures Count(Flat(workers), names, p, n) == 1
    {
      WorkersCount(names, bins, workers, p, n);
    }
  }

  /** Three nonempty bins that share out the units, the heaviest unit (the first among equals) in the first, and none
      heavier than 11/9 of the largest of any rival division. */
  ghost predicate Balanced(units: seq<string>, weights: map<string, int>, bins: seq<seq<string>>) {
    && |bins| == WORKERS && (forall i :: 0 <= i < WORKERS ==> bins[i] != [])
    && multiset(Flatten(bins)) == multiset(units)
    && (forall u :: u in units && Foremost(units, weights, u) ==> u in bins[0])
    && forall rival: string -> nat, largest: int ::
         0 <= largest && Feasible(units, Weight(weights), rival, 3, largest) ==>
         forall i :: 0 <= i < WORKERS ==> 9 * Total(bins[i], Weight(weights)) <= 11 * largest
  }

  ghost predicate Foremost(units: seq<string>, weights: map<string, int>, u: string) {
    forall v :: v in units && v != u ==>
      (Weight(weights)(u) > Weight(weights)(v) || (Weight(weights)(u) == Weight(weights)(v) && StringLeq(u, v)))
  }

  lemma PlacedBalanced(units: seq<string>, weights: map<string, int>)
    requires Accepts(units, weights, WORKERS, None) && WORKERS <= |units|
    ensures Balanced(units, weights, Bins(units, weights, ZeroLoads(WORKERS)))
  {
    hide Bins, Flatten, Total, Feasible, Weight, Accepts;
    var bins := Bins(units, weights, ZeroLoads(WORKERS));
    NonemptyIffEnoughUnits(units, weights, WORKERS);
    BinsPartitionUnits(units, weights, ZeroLoads(WORKERS));
    forall u | u in units && Foremost(units, weights, u)
      ensures u in bins[0]
    {
      HeaviestInFirstBin(units, weights, WORKERS, u);
    }
    forall rival: string -> nat, largest: int | 0 <= largest && Feasible(units, Weight(weights), rival, 3, largest)
      ensures forall i :: 0 <= i < WORKERS ==> 9 * Total(bins[i], Weight(weights)) <= 11 * largest
    {
      WithinFourThirdsOfOptimal(units, weights, WORKERS, rival, largest);
    }
  }

  /** Worker `i` executes exactly the bodies whose home was placed on it, each once, in at most three invocations by
      kind, and names every package placed on it. */
  ghost predicate FollowsBins(names: Names, bins: seq<seq<string>>, workers: seq<seq<Invocation>>) {
    && |workers| == |bins|
    && (forall i, p, n :: 0 <= i < |bins| && Listed(names, p, n) ==>
          Count(workers[i], names, p, n) == if Home(p, n) in bins[i] then 1 else 0)
    && forall i :: 0 <= i < |bins| ==>
         && 1 <= |workers[i]| <= 3 && Grouped(workers[i], names)
         && (forall k :: 0 <= k < |workers[i]| ==> !workers[i][k].command.short)
         && forall p :: p in bins[i] && Colonless(p) ==> NamesPackage(workers[i], p)
  }

  lemma PlacedFollow(names: Names, packages: seq<string>, bins: seq<seq<string>>, workers: seq<seq<Invocation>>)
    requires Compiled(names, packages) && Commands(names, bins, workers)
    requires multiset(Flatten(bins)) == multiset(NativeUnits(names, packages))
    requires forall i :: 0 <= i < |bins| ==> bins[i] != []
    ensures FollowsBins(names, bins, workers)
  {
    hide WellListed, Home, NativeUnit, Flatten, Count, Decoded, NativeUnits, Grouped, NamesPackage, WorkerInvocations,
         Listed;
    NativeUnitsFacts(names, packages);
    MultisetMembers(Flatten(bins), NativeUnits(names, packages));
    FlattenMembers(bins);
    forall i, p, n | 0 <= i < |bins| && Listed(names, p, n)
      ensures Count(workers[i], names, p, n) == if Home(p, n) in bins[i] then 1 else 0
    {
      ListedPackage(names, packages, p, n);
      WorkerRuns(names, bins[i], p, n);
    }
    forall i | 0 <= i < |bins|
      ensures 1 <= |workers[i]| <= 3 && Grouped(workers[i], names)
      ensures forall k :: 0 <= k < |workers[i]| ==> !workers[i][k].command.short
      ensures forall p :: p in bins[i] && Colonless(p) ==> NamesPackage(workers[i], p)
    {
      WorkerShape(names, bins[i]);
    }
  }

  lemma ListedPackage(names: Names, packages: seq<string>, p: string, n: string)
    requires Compiled(names, packages) && Listed(names, p, n)
    ensures Colonless(p)
  {}

  /** The native `schedule`: it needs a unit for every worker and selectors that fit, and then runs every body once. */
  method NativeSchedule(names: Names, packages: seq<string>, weights: map<string, int>)
    returns (r: Option<seq<seq<Invocation>>>)
    requires Compiled(names, packages)
    requires forall u :: u in NativeUnits(names, packages) ==> u in weights && 1 <= weights[u]
    ensures r.Some? ==> |r.value| == WORKERS && NativeExactlyOnce(r.value, names)
    ensures r.Some? ==> exists bins ::
              Balanced(NativeUnits(names, packages), weights, bins) && FollowsBins(names, bins, r.value)
    ensures r.Some? <==>
            && WORKERS <= |NativeUnits(names, packages)|
            && forall i :: 0 <= i < WORKERS ==>
                 WorkerFits(names, Bins(NativeUnits(names, packages), weights, ZeroLoads(WORKERS))[i])
  {
    hide Decoded, WellListed, WorkerInvocations, SelectorsFit, NativeUnits, NativeExactlyOnce, Flatten, NativeUnit,
         Bins, Balanced, FollowsBins;
    var units := NativeUnits(names, packages);
    CompiledUnits(names, packages);
    var placed := Partition(units, weights, WORKERS, None, false);
    NonemptyIffEnoughUnits(units, weights, WORKERS);
    if placed.None? {
      return None;
    }
    var bins := placed.value;
    BinsPartitionUnits(units, weights, ZeroLoads(WORKERS));
    PlacedUnitsNative(names, packages, bins);
    var workers: seq<seq<Invocation>> := [];
    for k := 0 to |bins|
      invariant |workers| == k && forall i :: 0 <= i < k ==> WorkerFits(names, bins[i])
      invariant forall i ::
                0 <= i < k ==> Decoded(bins[i]).Some? && workers[i] == WorkerInvocations(names, Decoded(bins[i]).value)
    {
      var a := DecodeWorker(bins[k]);
      var invocations := WorkerInvocations(names, a.value);
      if !SelectorsFit(invocations) {
        return None;
      }
      workers := workers + [invocations];
    }
    PlacedExactlyOnce(names, packages, bins, workers);
    PlacedFollow(names, packages, bins, workers);
    PlacedBalanced(units, weights);
    return Some(workers);
  }

  lemma {:induction false} CompiledUnits(names: Names, packages: seq<string>)
    requires Compiled(names, packages)
    ensures Distinct(NativeUnits(names, packages))
  {
    hide NativeUnits, WellListed;
    NativeUnitsFacts(names, packages);
  }

  lemma {:induction false} PlacedUnitsNative(names: Names, packages: seq<string>, bins: seq<seq<string>>)
    requires Compiled(names, packages) && multiset(Flatten(bins)) == multiset(NativeUnits(names, packages))
    ensures forall i :: 0 <= i < |bins| ==> Decoded(bins[i]).Some?
  {
    hide NativeUnits, WellListed, NativeUnit, Flatten, Decoded;
    NativeUnitsFacts(names, packages);
    MultisetMembers(Flatten(bins), NativeUnits(names, packages));
    FlattenMembers(bins);
    forall i | 0 <= i < |bins|
      ensures Decoded(bins[i]).Some?
    {
      NativeDecoded(names, bins[i]);
    }
  }
}
