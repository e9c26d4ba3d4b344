/** Exhaustive full-race scheduling (scripts/full_race.py) and its daily re-batching (scripts/run_ci_tier.py). */
module FullRace {
  import opened Order
  import opened Placement
  import opened Shards
  import opened Units
  import opened Catalogs
  import opened Lanes

  const SELECTOR_LIMIT: int := 120000
  const ISOLATED: string := "TestPickerQualificationRealCLIPhases"

  /** Discovered names, or the names one command is recorded to run, by package. */
  type Names = map<string, seq<string>>

  /** `-skip S` leaves out the names of S in every package of the command; `-run S` keeps only them. */
  datatype Filter = Everything | Skipping(skipped: seq<string>) | Running(chosen: seq<string>)
  datatype Command = Command(packages: set<string>, filter: Filter, short: bool)
  datatype Schedule = Schedule(assignments: seq<Names>, commands: seq<Command>, batches: seq<seq<nat>>)

  // ---- Command semantics ---------------------------------------------------

  ghost predicate Listed(names: Names, p: string, n: string) {
    p in names && n in names[p]
  }

  ghost predicate Passes(f: Filter, n: string) {
    match f
    case Everything => true
    case Skipping(skipped) => n !in skipped
    case Running(chosen) => n in chosen
  }

  /** The bodies one command executes. */
  ghost predicate Executes(c: Command, names: Names, p: string, n: string) {
    p in c.packages && Listed(names, p, n) && Passes(c.filter, n)
  }

  ghost predicate Runs(commands: seq<Command>, names: Names, i: nat, p: string, n: string) {
    i < |commands| && Executes(commands[i], names, p, n)
  }

  /** Each command runs exactly its recorded names; every discovered name runs in one command and no other. */
  ghost predicate ExactlyOnce(commands: seq<Command>, assignments: seq<Names>, names: Names) {
    && |commands| == |assignments|
    && (forall i, p, n :: 0 <= i < |commands| ==>
                            (Executes(commands[i], names, p, n) <==> Listed(assignments[i], p, n)))
    && (forall p, n :: Listed(names, p, n) ==> exists i :: Runs(commands, names, i, p, n))
    && (forall i, j, p, n :: Runs(commands, names, i, p, n) && Runs(commands, names, j, p, n) ==> i == j)
  }

  function Joined(batches: seq<seq<nat>>): seq<nat> {
    if batches == [] then [] else Joined(batches[..|batches| - 1]) + batches[|batches| - 1]
  }

  // ---- What is split off the all-package run -----------------------------------

  predicate WellListed(names: Names) {
    forall p :: p in names ==> ListedNames(names[p])
  }

  /** A CLI name that another package also declares must not be skipped globally. */
  predicate Collides(names: Names, n: string) {
    exists p :: p in names && p != CLI && n in names[p]
  }

  function Cli(names: Names): seq<string> {
    if CLI in names then names[CLI] else []
  }

  /** Names only the CLI declares: the isolated ones, or the others. */
  function Exclusive(names: Names, cli: seq<string>, isolated: bool): seq<string> {
    if cli == [] then []
    else
      var n := cli[|cli| - 1];
      var rest := Exclusive(names, cli[..|cli| - 1], isolated);
      if !Collides(names, n) && (n == ISOLATED) == isolated then rest + [n] else rest
  }

  function Without(ns: seq<string>, excluded: seq<string>): seq<string> {
    if ns == [] then []
    else
      var rest := Without(ns[..|ns| - 1], excluded);
      if ns[|ns| - 1] in excluded then rest else rest + [ns[|ns| - 1]]
  }

  lemma {:induction false} ExclusiveMembers(names: Names, cli: seq<string>, isolated: bool)
    requires Distinct(cli)
    ensures Distinct(Exclusive(names, cli, isolated))
    ensures forall n ::
              n in Exclusive(names, cli, isolated) <==> n in cli && !Collides(names, n) && (n == ISOLATED) == isolated
  {
    hide Collides;
    if cli != [] {
      var k := |cli| - 1;
      ExclusiveMembers(names, cli[..k], isolated);
      assert cli == cli[..k] + [cli[k]];
      assert forall n :: n in cli[..k] ==> n != cli[k];
    }
  }

  lemma {:induction false} WithoutMembers(ns: seq<string>, excluded: seq<string>)
    ensures forall n :: n in Without(ns, excluded) <==> n in ns && n !in excluded
  {
    if ns != [] {
      var k := |ns| - 1;
      WithoutMembers(ns[..k], excluded);
      assert ns == ns[..k] + [ns[k]];
    }
  }

  function TextLength(names: seq<string>): nat {
    if names == [] then 0 else TextLength(names[..|names| - 1]) + |names[|names| - 1]|
  }

  /** `selector`: the pattern ^(a|b|...)$ and its terminator fit one argument. */
  predicate Selectable(names: seq<string>) {
    && names != [] && Distinct(names)
    && (forall n :: n in names ==> '/' !in n)
    && 2 + TextLength(names) + (|names| - 1) + 2 + 1 <= SELECTOR_LIMIT
  }

  function Alternatives(names: seq<string>): string {
    if names == [] then ""
    else if |names| == 1 then names[0]
    else Alternatives(names[..|names| - 1]) + "|" + names[|names| - 1]
  }

  /** The pattern that selects exactly these names; none of their characters needs escaping. */
  function Pattern(names: seq<string>): string {
    "^(" + Alternatives(names) + ")$"
  }

  lemma {:induction false} AlternativesLength(names: seq<string>)
    requires names != []
    ensures |Alternatives(names)| == TextLength(names) + |names| - 1
  {
    if |names| == 1 {
      assert names[..0] == [];
    } else {
      AlternativesLength(names[..|names| - 1]);
    }
  }

  /** What `selector` accepts: distinct names below no parent whose pattern, with its terminator, fits one argument. */
  lemma SelectableMeans(names: seq<string>)
    ensures Selectable(names) <==>
              && names != [] && (forall i, j :: 0 <= i < j < |names| ==> names[i] != names[j])
              && (forall i :: 0 <= i < |names| ==> '/' !in names[i])
              && |Pattern(names)| + 1 <= 120000
  {
    if names != [] {
      AlternativesLength(names);
    }
  }

  // ---- The two private groups ---------------------------------------------------

  function Ordinary(names: Names): seq<string> {
    SortNames(Exclusive(names, Cli(names), false))
  }

  function Isolated(names: Names): seq<string> {
    SortNames(Exclusive(names, Cli(names), true))
  }

  /** One of two balanced halves, once there are two names to share. */
  function Second(names: Names, hints: map<string, int>): seq<string> {
    if |Ordinary(names)| < 2 then [] else Bins(Ordinary(names), hints, ZeroLoads(2))[1]
  }

  function Excluded(names: Names, hints: map<string, int>): seq<string> {
    SortNames(Second(names, hints) + Isolated(names))
  }

  function NonEmpty(groups: seq<seq<string>>): seq<seq<string>> {
    if groups == [] then []
    else
      var rest := NonEmpty(groups[..|groups| - 1]);
      if groups[|groups| - 1] == [] then rest else rest + [groups[|groups| - 1]]
  }

  function PrivateGroups(names: Names, hints: map<string, int>): seq<seq<string>> {
    NonEmpty([Second(names, hints), Isolated(names)])
  }

  /** Names that may be moved to private runs: duplicate-free groups, apart from each other, only the CLI's. */
  ghost predicate Private(names: Names, groups: seq<seq<string>>) {
    && (forall k, n :: 0 <= k < |groups| && n in groups[k] ==> n in Cli(names) && !Collides(names, n))
    && (forall j, k, n :: 0 <= j < k < |groups| && n in groups[j] ==> n !in groups[k])
  }

  ghost predicate InGroups(groups: seq<seq<string>>, n: string) {
    exists k :: 0 <= k < |groups| && n in groups[k]
  }

  lemma BinMember(bins: seq<seq<string>>, i: nat)
    requires i < |bins|
    ensures forall n :: n in bins[i] ==> n in Flatten(bins)
  {
    FlattenMembers(bins);
  }

  /** The second half is a proper, duplicate-free part of the ordinary names. */
  lemma SecondMembers(names: Names, hints: map<string, int>)
    requires WellListed(names)
    requires |Ordinary(names)| < 2 || Accepts(Ordinary(names), hints, 2, None)
    ensures forall n :: n in Second(names, hints) ==> n in Ordinary(names)
    ensures Second(names, hints) == [] <==> |Ordinary(names)| < 2
  {
    hide Exclusive, Flatten, Cli, SortNames, WellListed;
    var ordinary := Ordinary(names);
    if |ordinary| >= 2 {
      BinsPartitionUnits(ordinary, hints, ZeroLoads(2));
      MultisetMembers(Flatten(Bins(ordinary, hints, ZeroLoads(2))), ordinary);
      NonemptyIffEnoughUnits(ordinary, hints, 2);
      BinMember(Bins(ordinary, hints, ZeroLoads(2)), 1);
    }
  }

  lemma ExclusiveFacts(names: Names)
    requires WellListed(names)
    ensures Distinct(Ordinary(names))
    ensures forall n :: n in Ordinary(names) <==> n in Cli(names) && !Collides(names, n) && n != ISOLATED
    ensures forall n :: n in Isolated(names) <==> n in Cli(names) && !Collides(names, n) && n == ISOLATED
  {
    hide Collides, Exclusive, SortNames;
    assert Distinct(Cli(names));
    ExclusiveMembers(names, Cli(names), false);
    ExclusiveMembers(names, Cli(names), true);
    SortNamesFacts(Exclusive(names, Cli(names), false));
    SortNamesFacts(Exclusive(names, Cli(names), true));
  }

  lemma {:induction false} NonEmptyMembers(groups: seq<seq<string>>, n: string)
    ensures InGroups(NonEmpty(groups), n) <==> InGroups(groups, n)
  {
    if groups != [] {
      var k := |groups| - 1;
      var rest := NonEmpty(groups[..k]);
      NonEmptyMembers(groups[..k], n);
      if InGroups(groups[..k], n) {
        var i :| 0 <= i < k && n in groups[..k][i];
        assert n in groups[i];
        var j :| 0 <= j < |rest| && n in rest[j];
        assert NonEmpty(groups)[j] == rest[j];
      }
      if n in groups[k] {
        assert NonEmpty(groups)[|rest|] == groups[k];
      }
      if InGroups(NonEmpty(groups), n) {
        var j :| 0 <= j < |NonEmpty(groups)| && n in NonEmpty(groups)[j];
        assert j < |rest| ==> n in rest[j];
      }
      if InGroups(groups, n) {
        var i :| 0 <= i < |groups| && n in groups[i];
        assert i < k ==> n in groups[..k][i];
      }
    }
  }

  lemma NonEmptyPair(a: seq<string>, b: seq<string>)
    ensures NonEmpty([a, b]) == (if a == [] then [] else [a]) + (if b == [] then [] else [b])
  {
    assert [a, b][..1] == [a] && [a][..0] == [];
    assert NonEmpty([]) == [];
    assert NonEmpty([a]) == if a == [] then [] else [a];
  }

  lemma PrivateGroupsFacts(names: Names, hints: map<string, int>)
    requires WellListed(names)
    requires |Ordinary(names)| < 2 || Accepts(Ordinary(names), hints, 2, None)
    ensures Private(names, PrivateGroups(names, hints))
    ensures forall n :: n in Excluded(names, hints) <==> InGroups(PrivateGroups(names, hints), n)
  {
    hide Second, Ordinary, Isolated, Cli, Collides, NonEmpty, SortNames;
    var second, isolated := Second(names, hints), Isolated(names);
    SecondMembers(names, hints);
    ExclusiveFacts(names);
    NonEmptyPair(second, isolated);
    SortNamesFacts(second + isolated);
    forall n
      ensures n in second + isolated <==> InGroups(PrivateGroups(names, hints), n)
    {
      NonEmptyMembers([second, isolated], n);
      assert [second, isolated][0] == second && [second, isolated][1] == isolated;
    }
  }

  // ---- Exactly once ---------------------------------------------------------------

  function Remaining(names: Names, excluded: seq<string>): Names {
    map p | p in names :: if p == CLI then Without(names[p], excluded) else names[p]
  }

  function PrivateCommands(groups: seq<seq<string>>): (r: seq<Command>)
    ensures |r| == |groups| && forall k :: 0 <= k < |r| ==> r[k] == Command({CLI}, Running(groups[k]), false)
  {
    seq(|groups|, k requires 0 <= k < |groups| => Command({CLI}, Running(groups[k]), false))
  }

  function PrivateNames(groups: seq<seq<string>>): (r: seq<Names>)
    ensures |r| == |groups| && forall k :: 0 <= k < |r| ==> r[k] == map[CLI := groups[k]]
  {
    seq(|groups|, k requires 0 <= k < |groups| => map[CLI := groups[k]])
  }

  function AllPackages(names: Names, excluded: seq<string>): Command {
    Command(names.Keys, if excluded == [] then Everything else Skipping(excluded), false)
  }

  function AllCommands(names: Names, excluded: seq<string>, groups: seq<seq<string>>): (r: seq<Command>)
    ensures |r| == |groups| + 1 && r[0] == AllPackages(names, excluded)
    ensures forall k :: 0 <= k < |groups| ==> r[k + 1] == PrivateCommands(groups)[k]
  {
    [AllPackages(names, excluded)] + PrivateCommands(groups)
  }

  function AllAssignments(names: Names, excluded: seq<string>, groups: seq<seq<string>>): (r: seq<Names>)
    ensures |r| == |groups| + 1 && r[0] == Remaining(names, excluded)
    ensures forall k :: 0 <= k < |groups| ==> r[k + 1] == PrivateNames(groups)[k]
  {
    [Remaining(names, excluded)] + PrivateNames(groups)
  }

  lemma FirstCommand(names: Names, excluded: seq<string>, groups: seq<seq<string>>, p: string, n: string)
    requires Private(names, groups) && forall n :: n in excluded <==> InGroups(groups, n)
    ensures Executes(AllPackages(names, excluded), names, p, n) <==> Listed(Remaining(names, excluded), p, n)
    ensures Executes(AllPackages(names, excluded), names, p, n) <==> Listed(names, p, n) && n !in excluded
  {
    if p in names {
      WithoutMembers(names[p], excluded);
      assert p != CLI && n in names[p] ==> Collides(names, n);
    }
  }

  lemma PrivateCommand(names: Names, groups: seq<seq<string>>, k: nat, p: string, n: string)
    requires Private(names, groups) && k < |groups|
    ensures Executes(PrivateCommands(groups)[k], names, p, n) <==> Listed(PrivateNames(groups)[k], p, n)
    ensures Executes(PrivateCommands(groups)[k], names, p, n) <==> Listed(names, p, n) && n in groups[k]
  {
    assert PrivateNames(groups)[k] == map[CLI := groups[k]];
    if n in groups[k] {
      assert n in Cli(names) && !Collides(names, n);
    }
  }

  /** Which command of the schedule runs a body: the one whose private group names it, or else the first. */
  lemma CommandRuns(names: Names, excluded: seq<string>, groups: seq<seq<string>>, i: nat, p: string, n: string)
    requires Private(names, groups) && (forall n :: n in excluded <==> InGroups(groups, n)) && i <= |groups|
    ensures Executes(AllCommands(names, excluded, groups)[i], names, p, n) <==>
              Listed(AllAssignments(names, excluded, groups)[i], p, n)
    ensures Executes(AllCommands(names, excluded, groups)[i], names, p, n) <==>
            Listed(names, p, n) && if i == 0 then !InGroups(groups, n) else n in groups[i - 1]
  {
    hide *;
    if i == 0 {
      FirstCommand(names, excluded, groups, p, n);
    } else {
      PrivateCommand(names, groups, i - 1, p, n);
    }
  }

  /** Skipping the private names everywhere and running each private group on the CLI alone runs every body once. */
  lemma PrivateRunsExactlyOnce(names: Names, excluded: seq<string>, groups: seq<seq<string>>)
    requires Private(names, groups) && forall n :: n in excluded <==> InGroups(groups, n)
    ensures ExactlyOnce(AllCommands(names, excluded, groups), AllAssignments(names, excluded, groups), names)
  {
    hide Executes, Listed, Private, Remaining, AllPackages, AllCommands, AllAssignments, PrivateCommands, PrivateNames;
    var commands := AllCommands(names, excluded, groups);
    forall i: nat, p, n | i < |commands|
      ensures Executes(commands[i], names, p, n) <==> Listed(AllAssignments(names, excluded, groups)[i], p, n)
    {
      CommandRuns(names, excluded, groups, i, p, n);
    }
    forall p, n | Listed(names, p, n)
      ensures exists i :: Runs(commands, names, i, p, n)
    {
      var i := RunningCommand(names, excluded, groups, p, n);
      assert Runs(commands, names, i, p, n);
    }
    forall i, j, p, n | Runs(commands, names, i, p, n) && Runs(commands, names, j, p, n)
      ensures i == j
    {
      OneCommandRuns(names, excluded, groups, i, j, p, n);
    }
  }

  lemma GroupOf(groups: seq<seq<string>>, n: string) returns (k: nat)
    requires InGroups(groups, n)
    ensures k < |groups| && n in groups[k]
  {
    k :| 0 <= k < |groups| && n in groups[k];
  }

  lemma GroupHas(names: Names, groups: seq<seq<string>>, k: nat, n: string)
    requires Private(names, groups) && k < |groups| && n in groups[k]
    ensures InGroups(groups, n)
    ensures forall j :: 0 <= j < |groups| && n in groups[j] ==> j == k
  {
    hide Collides, Cli;
  }

  lemma RunningCommand(names: Names, excluded: seq<string>, groups: seq<seq<string>>, p: string, n: string)
    returns (i: nat)
    requires Private(names, groups) && (forall n :: n in excluded <==> InGroups(groups, n)) && Listed(names, p, n)
    ensures i <= |groups| && Executes(AllCommands(names, excluded, groups)[i], names, p, n)
  {
    hide *;
    i := 0;
    if InGroups(groups, n) {
      var k := GroupOf(groups, n);
      i := k + 1;
    }
    CommandRuns(names, excluded, groups, i, p, n);
  }

  lemma OneCommandRuns(names: Names, excluded: seq<string>, groups: seq<seq<string>>, i: nat, j: nat, p: string,
                       n: string)
    requires Private(names, groups) && forall n :: n in excluded <==> InGroups(groups, n)
    requires i <= |groups| && Executes(AllCommands(names, excluded, groups)[i], names, p, n)
    requires j <= |groups| && Executes(AllCommands(names, excluded, groups)[j], names, p, n)
    ensures i == j
  {
    hide *;
    CommandRuns(names, excluded, groups, i, p, n);
    CommandRuns(names, excluded, groups, j, p, n);
    if i > 0 {
      GroupHas(names, groups, i - 1, n);
    } else if j > 0 {
      GroupHas(names, groups, j - 1, n);
    }
  }

  // ---- What is split off -------------------------------------------------------------

  /** A name that the CLI declares and no other package does. */
  ghost predicate CliAlone(names: Names, n: string) {
    Listed(names, CLI, n) && forall p :: p in names && p != CLI ==> n !in names[p]
  }

  ghost predicate Shared(names: Names, n: string) {
    CliAlone(names, n) && n != ISOLATED
  }

  ghost predicate TwoShared(names: Names) {
    exists a, b :: a != b && Shared(names, a) && Shared(names, b)
  }

  /** A CLI-only command that executes exactly the chosen names. */
  ghost predicate RunsExactly(c: Command, names: Names, chosen: seq<string>) {
    && c.packages == {CLI}
    && forall p, n :: Executes(c, names, p, n) <==> p == CLI && n in chosen
  }

  ghost predicate PlacedFirst(names: Names, hints: map<string, int>, u: string) {
    forall v :: Shared(names, v) && v != u ==>
      (Weight(hints)(u) > Weight(hints)(v) || (Weight(hints)(u) == Weight(hints)(v) && StringLeq(u, v)))
  }

  /** Two nonempty halves of the shared names, the heaviest name (the first among equals) in the first of them, and
      neither heavier than 7/6 of the larger half of any other division. */
  ghost predicate Halves(names: Names, hints: map<string, int>, first: seq<string>, second: seq<string>) {
    && first != [] && second != [] && Distinct(first + second)
    && (forall n :: n in first + second <==> Shared(names, n))
    && (forall u :: Shared(names, u) && PlacedFirst(names, hints, u) ==> u in first)
    && forall rival: string -> nat, larger: int ::
         0 <= larger && Feasible(first + second, Weight(hints), rival, 2, larger) ==>
           6 * Total(first, Weight(hints)) <= 7 * larger && 6 * Total(second, Weight(hints)) <= 7 * larger
  }

  /** The second of two balanced halves of the shared names runs in a process of its own, and so does the isolated
      parent, once they exist; the first command covers every package. */
  ghost predicate SplitOff(names: Names, hints: map<string, int>, commands: seq<Command>) {
    && |commands| == 1 + (if TwoShared(names) then 1 else 0) + (if CliAlone(names, ISOLATED) then 1 else 0)
    && commands[0].packages == names.Keys
    && (TwoShared(names) ==>
          exists first, second :: Halves(names, hints, first, second) && RunsExactly(commands[1], names, second))
    && (CliAlone(names, ISOLATED) ==> RunsExactly(commands[|commands| - 1], names, [ISOLATED]))
  }

  lemma SharedOrdinary(names: Names)
    requires WellListed(names)
    ensures Distinct(Ordinary(names)) && forall n :: n in Ordinary(names) <==> Shared(names, n)
    ensures TwoShared(names) <==> |Ordinary(names)| >= 2
    ensures Isolated(names) == if CliAlone(names, ISOLATED) then [ISOLATED] else []
  {
    hide Ordinary, Isolated;
    ExclusiveFacts(names);
    var ordinary, isolated := Ordinary(names), Isolated(names);
    forall n
      ensures CliAlone(names, n) <==> n in Cli(names) && !Collides(names, n)
    {}
    if |ordinary| >= 2 {
      assert ordinary[0] != ordinary[1] && Shared(names, ordinary[0]) && Shared(names, ordinary[1]);
    }
    IsolatedOnce(names);
    AtMostOne(isolated, ISOLATED);
  }

  lemma FirstTwo(s: seq<string>)
    requires Distinct(s) && |s| >= 2
    ensures s[0] in s && s[1] in s && s[0] != s[1]
  {}

  lemma AtMostOne(s: seq<string>, x: string)
    requires Distinct(s) && forall y :: y in s ==> y == x
    ensures s == if x in s then [x] else []
  {
    if |s| >= 2 {
      FirstTwo(s);
    } else if |s| == 1 {
      assert s[0] in s;
    }
  }

  lemma IsolatedOnce(names: Names)
    requires WellListed(names)
    ensures Distinct(Isolated(names))
  {
    hide Exclusive, SortNames;
    assert Distinct(Cli(names));
    ExclusiveMembers(names, Cli(names), true);
    SortNamesFacts(Exclusive(names, Cli(names), true));
  }

  lemma FlattenPair(bins: seq<seq<string>>)
    requires |bins| == 2
    ensures Flatten(bins) == bins[0] + bins[1]
  {
    assert bins[..1][..0] == [];
    assert Flatten(bins[..1]) == bins[0];
  }

  lemma SecondIsHalf(names: Names, hints: map<string, int>)
    requires WellListed(names) && TwoShared(names) && Accepts(Ordinary(names), hints, 2, None)
    ensures exists first :: Halves(names, hints, first, Second(names, hints))
  {
    hide Ordinary, Isolated, TwoShared, Shared, Bins, Total, Feasible, Weight;
    SharedOrdinary(names);
    var ordinary, zero := Ordinary(names), ZeroLoads(2);
    var bins := Bins(ordinary, hints, zero);
    NonemptyIffEnoughUnits(ordinary, hints, 2);
    BinsPartitionUnits(ordinary, hints, zero);
    FlattenPair(bins);
    MultisetMembers(bins[0] + bins[1], ordinary);
    DistinctMultiset(ordinary);
    DistinctMultiset(bins[0] + bins[1]);
    forall u | Shared(names, u) && PlacedFirst(names, hints, u)
      ensures u in bins[0]
    {
      HeaviestInFirstBin(ordinary, hints, 2, u);
    }
    forall rival: string -> nat, larger: int |
      0 <= larger && Feasible(bins[0] + bins[1], Weight(hints), rival, 2, larger)
      ensures 6 * Total(bins[0], Weight(hints)) <= 7 * larger && 6 * Total(bins[1], Weight(hints)) <= 7 * larger
    {
      FeasiblePermuted(bins[0] + bins[1], ordinary, Weight(hints), rival, 2, larger);
      WithinFourThirdsOfOptimal(ordinary, hints, 2, rival, larger);
    }
    assert Halves(names, hints, bins[0], bins[1]);
    assert Second(names, hints) == bins[1];
  }

  lemma ScheduleSplits(names: Names, hints: map<string, int>)
    requires WellListed(names) && Schedulable(names, hints)
    ensures SplitOff(names, hints, AllCommands(names, Excluded(names, hints), PrivateGroups(names, hints)))
  {
    hide Second, Ordinary, Isolated, TwoShared, CliAlone, Excluded, Halves, Private, InGroups, AllCommands;
    var second, isolated := Second(names, hints), Isolated(names);
    var excluded, groups := Excluded(names, hints), PrivateGroups(names, hints);
    var commands := AllCommands(names, excluded, groups);
    SharedOrdinary(names);
    SecondMembers(names, hints);
    PrivateGroupsFacts(names, hints);
    NonEmptyPair(second, isolated);
    if TwoShared(names) {
      SecondIsHalf(names, hints);
      GroupRunsExactly(names, excluded, groups, 1);
      var first :| Halves(names, hints, first, second);
      assert RunsExactly(commands[1], names, second);
    }
    if CliAlone(names, ISOLATED) {
      GroupRunsExactly(names, excluded, groups, |groups|);
    }
  }

  lemma GroupRunsExactly(names: Names, excluded: seq<string>, groups: seq<seq<string>>, i: nat)
    requires Private(names, groups) && (forall n :: n in excluded <==> InGroups(groups, n)) && 1 <= i <= |groups|
    ensures RunsExactly(AllCommands(names, excluded, groups)[i], names, groups[i - 1])
  {
    hide InGroups, AllCommands, Executes, Private, Listed, AllAssignments;
    var c := AllCommands(names, excluded, groups)[i];
    assert c == PrivateCommands(groups)[i - 1];
    forall p, n
      ensures Executes(c, names, p, n) <==> p == CLI && n in groups[i - 1]
    {
      CommandRuns(names, excluded, groups, i, p, n);
      if n in groups[i - 1] {
        PrivatePlace(names, groups, i - 1, p, n);
      }
    }
  }

  lemma PrivatePlace(names: Names, groups: seq<seq<string>>, k: nat, p: string, n: string)
    requires Private(names, groups) && k < |groups| && n in groups[k]
    ensures Listed(names, p, n) <==> p == CLI
  {
    assert n in Cli(names) && !Collides(names, n);
  }

  /** What `schedule` refuses: a negative hint for a name to share, or a selector too long for one argument. */
  ghost predicate Schedulable(names: Names, hints: map<string, int>) {
    && (|Ordinary(names)| < 2 || Accepts(Ordinary(names), hints, 2, None))
    && (Excluded(names, hints) != [] ==> Selectable(Excluded(names, hints)))
    && forall k :: 0 <= k < |PrivateGroups(names, hints)| ==> Selectable(PrivateGroups(names, hints)[k])
  }

  /** Every name of a well-listed discovery runs exactly once and every command is in one batch, whatever the hints. */
  method MakeSchedule(names: Names, hints: map<string, int>) returns (r: Option<Schedule>)
    requires WellListed(names)
    ensures r.Some? <==> Schedulable(names, hints)
    ensures r.Some? ==> ExactlyOnce(r.value.commands, r.value.assignments, names)
    ensures r.Some? ==>
              Joined(r.value.batches) == Range(|r.value.commands|) && r.value.batches != [] && r.value.batches[0] == [0]
    ensures r.Some? ==> forall i :: 0 <= i < |r.value.commands| ==> !r.value.commands[i].short
    ensures r.Some? ==> SplitOff(names, hints, r.value.commands)
    ensures r.Some? ==>
              r.value.batches ==
              if TwoShared(names) && CliAlone(names, ISOLATED) then [[0], [1, 2]] else Singles(|r.value.commands|)
  {
    hide SplitOff, TwoShared, CliAlone, ExactlyOnce, WellListed, Exclusive, Isolated, Ordinary, Remaining, SortNames,
         Selectable, Accepts, Private, InGroups, Bins, AllAssignments, Singles, Joined, NonEmpty;
    var isolated := Isolated(names);
    var second := SecondHalf(names, hints);
    if second.None? {
      return None;
    }
    var excluded := SortNames(second.value + isolated);
    PrivateGroupsFacts(names, hints);
    if excluded != [] && !Selectable(excluded) {
      return None;
    }
    var groups := SelectableGroups([second.value, isolated]);
    if groups.None? {
      return None;
    }
    PrivateRunsExactlyOnce(names, excluded, groups.value);
    ScheduleSplits(names, hints);
    SharedOrdinary(names);
    SecondMembers(names, hints);
    NonEmptyPair(second.value, isolated);
    var count := 1 + |groups.value|;
    var batches := if second.value != [] && isolated != [] then [[0], [1, 2]] else Singles(count);
    if second.value != [] && isolated != [] {
      PairBatch();
    } else {
      SinglesJoin(count);
    }
    return Some(Schedule(AllAssignments(names, excluded, groups.value), AllCommands(names, excluded, groups.value),
                         batches));
  }

  lemma PairBatch()
    ensures Joined([[0], [1, 2]]) == Range(3)
  {
    assert [[0], [1, 2]][..1] == [[0]] && [[0]][..0] == [];
    assert Joined([[0]]) == [0];
  }

  /** The second CLI process's names, or the Failure of sharing them out. */
  method SecondHalf(names: Names, hints: map<string, int>) returns (r: Option<seq<string>>)
    requires WellListed(names)
    ensures r.Some? <==> |Ordinary(names)| < 2 || Accepts(Ordinary(names), hints, 2, None)
    ensures r.Some? ==> r.value == Second(names, hints)
  {
    hide WellListed, Exclusive, Bins;
    var ordinary := Ordinary(names);
    ExclusiveFacts(names);
    if |ordinary| < 2 {
      return Some([]);
    }
    var advice := Advice(hints, ordinary);
    assert forall u :: u in ordinary ==> Hint(advice, u) == Hint(hints, u);
    var bins := Partition(ordinary, advice, 2, None, false);
    if Accepts(ordinary, advice, 2, None) {
      NonemptyIffEnoughUnits(ordinary, advice, 2);
    }
    if bins.None? {
      return None;
    }
    DependsOnlyOnUnitsAndTheirHints(ordinary, ordinary, advice, hints, ZeroLoads(2));
    return Some(bins.value[1]);
  }

  /** The loop over the private groups: each nonempty one needs a selector that fits. */
  method SelectableGroups(all: seq<seq<string>>) returns (r: Option<seq<seq<string>>>)
    ensures r.Some? <==> forall k :: 0 <= k < |NonEmpty(all)| ==> Selectable(NonEmpty(all)[k])
    ensures r.Some? ==> r.value == NonEmpty(all)
  {
    hide Selectable;
    var groups: seq<seq<string>> := [];
    for k := 0 to |all|
      invariant groups == NonEmpty(all[..k])
      invariant forall j :: 0 <= j < |groups| ==> Selectable(groups[j])
    {
      assert all[..k + 1][..k] == all[..k];
      if all[k] != [] {
        if !Selectable(all[k]) {
          NonEmptyKeeps(all, k);
          return None;
        }
        groups := groups + [all[k]];
      }
    }
    assert all[..|all|] == all;
    return Some(groups);
  }

  lemma NonEmptyKeeps(groups: seq<seq<string>>, k: nat)
    requires k < |groups| && groups[k] != []
    ensures exists j :: 0 <= j < |NonEmpty(groups)| && NonEmpty(groups)[j] == groups[k]
  {
    var n := |groups| - 1;
    if k < n {
      NonEmptyKeeps(groups[..n], k);
      var j :| 0 <= j < |NonEmpty(groups[..n])| && NonEmpty(groups[..n])[j] == groups[k];
      assert NonEmpty(groups)[j] == groups[k];
    } else {
      assert NonEmpty(groups)[|NonEmpty(groups[..n])|] == groups[k];
    }
  }

  function Singles(m: nat): (r: seq<seq<nat>>)
    ensures |r| == m && forall i :: 0 <= i < m ==> r[i] == [i]
  {
    seq(m, i => [i])
  }

  lemma {:induction false} SinglesJoin(m: nat)
    ensures Joined(Singles(m)) == Range(m)
  {
    if m > 0 {
      SinglesJoin(m - 1);
      assert Singles(m)[..m - 1] == Singles(m - 1);
      assert Range(m) == Range(m - 1) + [m - 1];
    }
  }

  // ---- The daily tier --------------------------------------------------------------

  /** Every command shortened, all in one batch; which bodies each one selects does not change. */
  method DailySchedule(names: Names, hints: map<string, int>) returns (r: Option<Schedule>)
    requires WellListed(names)
    ensures r.Some? <==> Schedulable(names, hints)
    ensures r.Some? ==> ExactlyOnce(r.value.commands, r.value.assignments, names)
    ensures r.Some? ==>
              r.value.batches == [Range(|r.value.commands|)] && Joined(r.value.batches) == Range(|r.value.commands|)
    ensures r.Some? ==> forall i :: 0 <= i < |r.value.commands| ==> r.value.commands[i].short
    ensures r.Some? ==> SplitOff(names, hints, r.value.commands)
  {
    hide Schedulable, ExactlyOnce, WellListed, SplitOff;
    var full := MakeSchedule(names, hints);
    if full.None? {
      return None;
    }
    var commands := full.value.commands;
    for k := 0 to |commands|
      invariant |commands| == |full.value.commands|
      invariant forall i :: 0 <= i < k ==> commands[i] == full.value.commands[i].(short := true)
      invariant forall i :: k <= i < |commands| ==> commands[i] == full.value.commands[i]
    {
      commands := commands[k := commands[k].(short := true)];
    }
    ShortRunsTheSame(full.value.commands, commands, full.value.assignments, names);
    ShortSplitsTheSame(names, hints, full.value.commands, commands);
    assert [Range(|commands|)][..0] == [];
    return Some(Schedule(full.value.assignments, commands, [Range(|commands|)]));
  }

  lemma ShortSplitsTheSame(names: Names, hints: map<string, int>, commands: seq<Command>, short: seq<Command>)
    requires |commands| == |short| && forall i :: 0 <= i < |short| ==> short[i] == commands[i].(short := true)
    requires SplitOff(names, hints, commands)
    ensures SplitOff(names, hints, short)
  {
    hide Halves, TwoShared, CliAlone;
    forall i: nat, p, n | i < |short|
      ensures Executes(short[i], names, p, n) <==> Executes(commands[i], names, p, n)
    {}
    if TwoShared(names) {
      var first, second :| Halves(names, hints, first, second) && RunsExactly(commands[1], names, second);
      assert RunsExactly(short[1], names, second);
    }
  }

  lemma ShortRunsTheSame(commands: seq<Command>, short: seq<Command>, assignments: seq<Names>, names: Names)
    requires |commands| == |short| && forall i :: 0 <= i < |short| ==> short[i] == commands[i].(short := true)
    requires ExactlyOnce(commands, assignments, names)
    ensures ExactlyOnce(short, assignments, names)
  {
    forall i: nat, p, n
      ensures Runs(short, names, i, p, n) <==> Runs(commands, names, i, p, n)
    {}
    forall p, n | Listed(names, p, n)
      ensures exists i :: Runs(short, names, i, p, n)
    {
      var i :| Runs(commands, names, i, p, n);
      assert Runs(short, names, i, p, n);
    }
    forall i, p, n | 0 <= i < |short|
      ensures Executes(short[i], names, p, n) <==> Listed(assignments[i], p, n)
    {
      assert Runs(short, names, i, p, n) <==> Runs(commands, names, i, p, n);
    }
  }
}
