/** `build` and `validate` of scripts/go_parent_shards.py. */
module Catalogs {
  import opened Order
  import opened Placement
  import opened Shards
  import opened Units
  import opened Decode
  import opened Lanes

  datatype Hints = Hints(packages: map<string, int>, cli: map<string, int>, parents: map<string, int>)

  /** Advice for every unit: package hints, then CLI hints under their unit names, then parent hints. */
  function Weights(h: Hints): map<string, int> {
    var cliUnits := set n | n in h.cli :: Unit(CLI, n);
    assert forall n :: Unit(CLI, n)[|CLI| + 2..] == n;
    h.packages + (map u | u in cliUnits :: h.cli[u[|CLI| + 2..]]) + h.parents
  }

  /** Which hint a key gets: its parent hint; else, for a unit of the CLI, its CLI hint; else its package hint. */
  lemma HintPrecedence(h: Hints, key: string)
    ensures key in h.parents ==> key in Weights(h) && Weights(h)[key] == h.parents[key]
    ensures key !in h.parents ==>
              forall n :: n in h.cli && key == Unit(CLI, n) ==> key in Weights(h) && Weights(h)[key] == h.cli[n]
    ensures key !in h.parents && (forall n :: n in h.cli ==> key != Unit(CLI, n)) ==>
              && (key in Weights(h) <==> key in h.packages)
              && (key in h.packages ==> Weights(h)[key] == h.packages[key])
  {
    forall n | n in h.cli && key == Unit(CLI, n)
      ensures key[|CLI| + 2..] == n
    {
      assert Unit(CLI, n) == (CLI + SEPARATOR) + n && |CLI + SEPARATOR| == |CLI| + 2;
    }
    var cliUnits := set n | n in h.cli :: Unit(CLI, n);
    assert key in cliUnits <==> exists n :: n in h.cli && key == Unit(CLI, n);
  }

  // ---- What a valid catalog is ------------------------------------------

  /** The tests of `validate` that bear on coverage. */
  ghost predicate ValidCatalog(c: Catalog, workers: int) {
    && c.workers == workers
    && CLI in PackageNames(c.discovery.packages)
    && ExpectedParents(c.discovery)
    && ListedNames(c.discovery.cli)
    && (forall i :: 0 <= i < |c.discovery.parents| ==> ListedNames(c.discovery.parents[i].names))
    && Ordered(StringLeq, c.units) && Distinct(c.units)
    && SameMembers(c.units, ExecutionUnits(c.discovery))
    && |c.assignments| == workers
    && (forall i :: 0 <= i < |c.assignments| ==> ValidAssignment(c.assignments[i], c.discovery))
    && Distinct(AllAssigned(c.assignments))
    && SameMembers(AllAssigned(c.assignments), ExecutionUnits(c.discovery))
  }

  predicate SameMembers(a: seq<string>, b: seq<string>) {
    (forall u :: u in a ==> u in b) && (forall u :: u in b ==> u in a)
  }

  predicate ValidAssignment(a: Assignment, d: Discovery) {
    && (forall k :: 0 <= k < |a.parents| ==> a.parents[k].package in Keys(d.parents) && a.parents[k].names != [])
    && AssignedUnits(a) != []
  }

  /** `validate`, rejecting in the source's order. */
  method Validate(c: Catalog, workers: int) returns (ok: bool)
    ensures ok <==> ValidCatalog(c, workers)
  {
    hide ExecutionUnits, AssignedUnits, ListedNames, ExpectedParents, SameMembers;
    var d := c.discovery;
    if c.workers != workers || CLI !in PackageNames(d.packages) || !ExpectedParents(d) {
      return false;
    }
    if !ListedNames(d.cli) || exists i :: 0 <= i < |d.parents| && !ListedNames(d.parents[i].names) {
      return false;
    }
    var units := ExecutionUnits(d);
    if !Ordered(StringLeq, c.units) || !Distinct(c.units) || !SameMembers(c.units, units)
       || |c.assignments| != workers {
      return false;
    }
    var listed: seq<string> := [];
    for k := 0 to |c.assignments|
      invariant forall i :: 0 <= i < k ==> ValidAssignment(c.assignments[i], d)
      invariant listed == AllAssigned(c.assignments[..k])
    {
      assert c.assignments[..k + 1][..k] == c.assignments[..k];
      if !ValidAssignment(c.assignments[k], d) {
        return false;
      }
      listed := listed + AssignedUnits(c.assignments[k]);
    }
    assert c.assignments[..|c.assignments|] == c.assignments;
    ok := Distinct(listed) && SameMembers(listed, units);
  }

  lemma {:induction false} AllAssignedOrigin(assignments: seq<Assignment>, u: string)
    ensures u in AllAssigned(assignments) <==> exists i :: 0 <= i < |assignments| && u in AssignedUnits(assignments[i])
  {
    hide AssignedUnits;
    if assignments != [] {
      var k := |assignments| - 1;
      AllAssignedOrigin(assignments[..k], u);
      if u in AllAssigned(assignments[..k]) {
        var i :| 0 <= i < k && u in AssignedUnits(assignments[..k][i]);
        assert u in AssignedUnits(assignments[i]);
      }
      if i :| 0 <= i < |assignments| && u in AssignedUnits(assignments[i]) {
        if i < k {
          assert u in AssignedUnits(assignments[..k][i]);
        }
      }
    }
  }

  lemma DistinctParts(a: seq<string>, b: seq<string>)
    requires Distinct(a + b)
    ensures Distinct(a) && Distinct(b) && forall u :: u in a ==> u !in b
  {
    forall i, j | 0 <= i < j < |a|
      ensures a[i] != a[j]
    {
      assert (a + b)[i] != (a + b)[j];
    }
    forall i, j | 0 <= i < j < |b|
      ensures b[i] != b[j]
    {
      assert (a + b)[|a| + i] != (a + b)[|a| + j];
    }
    forall i, j | 0 <= i < |a| && 0 <= j < |b|
      ensures a[i] != b[j]
    {
      assert (a + b)[i] != (a + b)[|a| + j];
    }
  }

  lemma {:induction false} AllAssignedDistinct(assignments: seq<Assignment>, i: nat)
    requires Distinct(AllAssigned(assignments)) && i < |assignments|
    ensures Distinct(AssignedUnits(assignments[i]))
    ensures forall j, u :: i < j < |assignments| && u in AssignedUnits(assignments[i]) ==>
                             u !in AssignedUnits(assignments[j])
  {
    hide AssignedUnits, Distinct;
    var k := |assignments| - 1;
    DistinctParts(AllAssigned(assignments[..k]), AssignedUnits(assignments[k]));
    if i < k {
      AllAssignedDistinct(assignments[..k], i);
      assert forall j :: 0 <= j < k ==> assignments[..k][j] == assignments[j];
      forall u | u in AssignedUnits(assignments[i])
        ensures u !in AssignedUnits(assignments[k])
      {
        AllAssignedOrigin(assignments[..k], u);
        assert u in AssignedUnits(assignments[..k][i]);
      }
    }
  }

  ghost predicate AssignedTo(c: Catalog, i: nat, u: string) {
    i < |c.assignments| && u in AssignedUnits(c.assignments[i])
  }

  /** A valid catalog gives every execution unit to exactly one worker, once, and nothing else to anyone. */
  lemma ValidMeansExactlyOnce(c: Catalog, workers: int, u: string)
    requires ValidCatalog(c, workers)
    ensures u in ExecutionUnits(c.discovery) <==> exists i :: AssignedTo(c, i, u)
    ensures forall i, j :: AssignedTo(c, i, u) && AssignedTo(c, j, u) ==> i == j
    ensures forall i ::
              0 <= i < workers ==> Distinct(AssignedUnits(c.assignments[i])) && AssignedUnits(c.assignments[i]) != []
  {
    AllAssignedOrigin(c.assignments, u);
    if u in AllAssigned(c.assignments) {
      var i :| 0 <= i < |c.assignments| && u in AssignedUnits(c.assignments[i]);
      assert AssignedTo(c, i, u);
    }
    forall i | 0 <= i < workers
      ensures Distinct(AssignedUnits(c.assignments[i]))
      ensures forall j, v ::
                i < j < workers && v in AssignedUnits(c.assignments[i]) ==> v !in AssignedUnits(c.assignments[j])
    {
      AllAssignedDistinct(c.assignments, i);
    }
  }

  // ---- The generator ------------------------------------------------------

  /** The scheduling arguments `partition` accepts for both lanes. */
  ghost predicate CanSchedule(d: Discovery, weights: map<string, int>, workers: int, initial: Option<seq<int>>) {
    && 1 <= workers <= MAX_WORKERS
    && (forall u :: u in ExecutionUnits(d) ==> 0 <= Hint(weights, u))
    && (initial.Some? ==> |initial.value| == workers && forall i :: 0 <= i < workers ==> 0 <= initial.value[i])
  }

  /** Both lanes placed separately and paired. */
  function LaneBins(d: Discovery, weights: map<string, int>, workers: int, fixed: seq<int>): (bins: seq<seq<string>>)
    requires |fixed| == workers && 1 <= workers
    ensures |bins| == workers
  {
    Combined(Bins(SortNames(OrdinaryUnits(d)), weights, fixed), Bins(CliUnits(d), weights, ZeroLoads(workers)),
             fixed, Weight(weights))
  }

  /** One sorted, nonempty bin of units per worker. */
  function WorkerBins(d: Discovery, weights: map<string, int>, workers: int, fixed: seq<int>): Option<seq<seq<string>>>
    requires |fixed| == workers && 1 <= workers
  {
    var bins := LaneBins(d, weights, workers, fixed);
    EmptiesMembers(bins, |bins|);
    match Repaired(bins, Empties(bins, |bins|), fixed, Weight(weights))
    case None => None
    case Some(repaired) => Some(SortBins(repaired))
  }

  lemma LanesUnits(d: Discovery, weights: map<string, int>, workers: int, fixed: seq<int>)
    requires WellFormed(d) && |fixed| == workers && 1 <= workers
    ensures multiset(Flatten(LaneBins(d, weights, workers, fixed))) == multiset(ExecutionUnits(d))
  {
    var ordinary, cli := OrdinaryUnits(d), CliUnits(d);
    SortNamesFacts(ordinary);
    BinsPartitionUnits(SortNames(ordinary), weights, fixed);
    BinsPartitionUnits(cli, weights, ZeroLoads(workers));
    CombinedUnits(Bins(SortNames(ordinary), weights, fixed), Bins(cli, weights, ZeroLoads(workers)), fixed,
                  Weight(weights));
  }

  /** Hints and fixed loads decide placement only: bins exist iff there is a unit per worker, and hold every unit
      once. */
  lemma WorkerBinsFacts(d: Discovery, weights: map<string, int>, workers: int, fixed: seq<int>)
    requires WellFormed(d) && |fixed| == workers && 1 <= workers
    ensures WorkerBins(d, weights, workers, fixed).Some? <==> workers <= |ExecutionUnits(d)|
    ensures var r := WorkerBins(d, weights, workers, fixed);
            r.Some? ==>
              && |r.value| == workers
              && multiset(Flatten(r.value)) == multiset(ExecutionUnits(d))
              && forall i :: 0 <= i < workers ==> r.value[i] != []
  {
    hide WellFormed, ExecutionUnits, LaneBins, Flatten, Repaired, Empties, SortNames;
    var bins := LaneBins(d, weights, workers, fixed);
    LanesUnits(d, weights, workers, fixed);
    MultisetMembers(Flatten(bins), ExecutionUnits(d));
    EmptiesMembers(bins, |bins|);
    RepairedFills(bins, Empties(bins, |bins|), fixed, Weight(weights));
    var repaired := Repaired(bins, Empties(bins, |bins|), fixed, Weight(weights));
    if repaired.Some? {
      FlattenSorted(repaired.value);
      SortedBinsNonempty(repaired.value);
    }
  }

  lemma UnitsReadable(d: Discovery, u: string)
    requires WellFormed(d) && u in ExecutionUnits(d)
    ensures Readable(u)
  {
    DiscoveryUnits(d);
    AllUnitsOrigin(d.parents);
    if u in Whole(d) {
      assert Colonless(u);
    } else if u in AllUnits(d.parents) {
      var a, b :| 0 <= a < |d.parents| && 0 <= b < |d.parents[a].names|
                  && u == Unit(d.parents[a].package, d.parents[a].names[b]);
      assert Colonless(d.parents[a].package) && Colonless(d.parents[a].names[b]);
    } else {
      var b :| 0 <= b < |d.cli| && CliUnits(d)[b] == u;
      ConstantsColonless();
      RunnableColonless(d.cli[b]);
    }
  }

  /** The assignments read back from worker bins. */
  ghost predicate Decodes(assignments: seq<Assignment>, bins: seq<seq<string>>) {
    && |assignments| == |bins|
    && forall i :: 0 <= i < |bins| ==> Decoded(bins[i]) == Some(assignments[i])
  }

  lemma {:induction false} SameUnits(assignments: seq<Assignment>, bins: seq<seq<string>>)
    requires |assignments| == |bins|
    requires forall i :: 0 <= i < |bins| ==> multiset(AssignedUnits(assignments[i])) == multiset(bins[i])
    ensures multiset(AllAssigned(assignments)) == multiset(Flatten(bins))
  {
    if bins != [] {
      var k := |bins| - 1;
      SameUnits(assignments[..k], bins[..k]);
      var front, last := AllAssigned(assignments[..k]), AssignedUnits(assignments[k]);
      assert AllAssigned(assignments) == front + last && Flatten(bins) == Flatten(bins[..k]) + bins[k];
    }
  }

  /** Reading the bins back gives each worker exactly its bin's units. */
  lemma DecodesUnits(assignments: seq<Assignment>, bins: seq<seq<string>>)
    requires Decodes(assignments, bins)
    requires forall u :: u in Flatten(bins) ==> Readable(u)
    ensures multiset(AllAssigned(assignments)) == multiset(Flatten(bins))
    ensures forall i ::
              0 <= i < |bins| ==> Tidy(assignments[i]) && multiset(AssignedUnits(assignments[i])) == multiset(bins[i])
  {
    FlattenMembers(bins);
    forall i | 0 <= i < |bins|
      ensures Tidy(assignments[i]) && multiset(AssignedUnits(assignments[i])) == multiset(bins[i])
    {
      assert forall u :: u in bins[i] ==> u in Flatten(bins);
      DecodedInverts(bins[i]);
    }
    SameUnits(assignments, bins);
  }

  /** A parent of some unit read back is a discovered heavy package with names. */
  lemma AssignmentValid(a: Assignment, bin: seq<string>, d: Discovery)
    requires WellFormed(d) && Tidy(a) && bin != []
    requires multiset(AssignedUnits(a)) == multiset(bin)
    requires forall u :: u in bin ==> u in ExecutionUnits(d)
    ensures ValidAssignment(a, d)
  {
    MultisetMembers(AssignedUnits(a), bin);
    DiscoveryUnits(d);
    AllUnitsOrigin(a.parents);
    AllUnitsOrigin(d.parents);
    ConstantsColonless();
    forall k | 0 <= k < |a.parents|
      ensures a.parents[k].package in Keys(d.parents)
    {
      var p, n := a.parents[k].package, a.parents[k].names[0];
      var u := Unit(p, n);
      assert p in Keys(a.parents) by {
        assert Keys(a.parents)[k] == p;
      }
      assert u in AllUnits(a.parents) && u in AssignedUnits(a);
      assert u in ExecutionUnits(d);
      SplitUnit(p, n);
      if u in Whole(d) {
        SplitUnit(u, []);
      } else if u in AllUnits(d.parents) {
        var i, j :| 0 <= i < |d.parents| && 0 <= j < |d.parents[i].names|
                  && u == Unit(d.parents[i].package, d.parents[i].names[j]);
        SplitUnit(d.parents[i].package, d.parents[i].names[j]);
        assert Keys(d.parents)[i] == p;
      } else {
        var b :| 0 <= b < |d.cli| && CliUnits(d)[b] == u;
        RunnableColonless(d.cli[b]);
        SplitUnit(CLI, d.cli[b]);
      }
    }
  }

  lemma BuiltIsValid(d: Discovery, workers: int, bins: seq<seq<string>>, assignments: seq<Assignment>)
    requires WellFormed(d) && Decodes(assignments, bins)
    requires |bins| == workers && forall i :: 0 <= i < workers ==> bins[i] != []
    requires multiset(Flatten(bins)) == multiset(ExecutionUnits(d))
    ensures ValidCatalog(Catalog(workers, d, SortNames(ExecutionUnits(d)), assignments), workers)
  {
    var units := ExecutionUnits(d);
    MultisetMembers(Flatten(bins), units);
    forall u | u in Flatten(bins)
      ensures Readable(u)
    {
      UnitsReadable(d, u);
    }
    DecodesUnits(assignments, bins);
    MultisetMembers(AllAssigned(assignments), units);
    DiscoveryUnits(d);
    DistinctMultiset(units);
    DistinctMultiset(AllAssigned(assignments));
    SortNamesFacts(units);
    FlattenMembers(bins);
    forall i | 0 <= i < workers
      ensures ValidAssignment(assignments[i], d)
    {
      assert forall u :: u in bins[i] ==> u in Flatten(bins);
      AssignmentValid(assignments[i], bins[i], d);
    }
  }

  /** The advice for just these units. */
  function Advice(weights: map<string, int>, units: seq<string>): map<string, int> {
    map u | u in units && u in weights :: weights[u]
  }

  /** One lane's placement; idle workers are allowed. */
  method PlaceLane(units: seq<string>, weights: map<string, int>, workers: int, initial: Option<seq<int>>)
    returns (r: Option<seq<seq<string>>>)
    ensures r.Some? <==> Accepts(units, weights, workers, initial)
    ensures r.Some? ==> r.value == Bins(units, weights, InitialLoads(workers, initial))
  {
    var advice := Advice(weights, units);
    assert forall u :: u in units ==> Hint(advice, u) == Hint(weights, u);
    r := Partition(units, advice, workers, initial, true);
    if r.Some? {
      DependsOnlyOnUnitsAndTheirHints(units, units, advice, weights, InitialLoads(workers, initial));
    }
  }

  /** Reads every worker's bin back. */
  method DecodeAll(bins: seq<seq<string>>) returns (assignments: seq<Assignment>)
    requires forall i :: 0 <= i < |bins| ==> Decoded(bins[i]).Some?
    ensures Decodes(assignments, bins)
  {
    assignments := [];
    for k := 0 to |bins|
      invariant |assignments| == k
      invariant forall i :: 0 <= i < k ==> Decoded(bins[i]) == Some(assignments[i])
    {
      var a := DecodeWorker(bins[k]);
      assignments := assignments + [a.value];
    }
  }

  lemma LanesAccepted(d: Discovery, weights: map<string, int>, workers: int, initial: Option<seq<int>>)
    requires WellFormed(d)
    ensures CanSchedule(d, weights, workers, initial) <==>
            && Accepts(SortNames(OrdinaryUnits(d)), weights, workers, initial)
            && Accepts(CliUnits(d), weights, workers, None)
  {
    DiscoveryUnits(d);
    SortNamesFacts(OrdinaryUnits(d));
  }

  lemma {:induction false} BinsReadable(d: Discovery, bins: seq<seq<string>>)
    requires WellFormed(d) && multiset(Flatten(bins)) == multiset(ExecutionUnits(d))
    ensures forall i :: 0 <= i < |bins| ==> Decoded(bins[i]).Some?
  {
    hide WellFormed, Decoded, Readable, ExecutionUnits, Tidy, AssignedUnits, Flatten;
    MultisetMembers(Flatten(bins), ExecutionUnits(d));
    forall u | u in Flatten(bins)
      ensures Readable(u)
    {
      UnitsReadable(d, u);
    }
    FlattenMembers(bins);
    forall i | 0 <= i < |bins|
      ensures Decoded(bins[i]).Some?
    {
      DecodedInverts(bins[i]);
    }
  }

  // ---- How the units are shared out -----------------------------------------

  predicate NoneLighter(u: string, names: seq<string>, w: string -> int) {
    forall v :: v in names ==> w(u) <= w(v)
  }

  /** The bins share out the units, and none without its lightest unit is busier than any other. */
  ghost predicate Levelled(units: seq<string>, w: string -> int, initial: seq<int>, bins: seq<seq<string>>) {
    && |bins| == |initial| && multiset(Flatten(bins)) == multiset(units)
    && forall i, j, u :: 0 <= i < |bins| && 0 <= j < |bins| && u in bins[i] && NoneLighter(u, bins[i], w) ==>
         initial[i] + Total(bins[i], w) - w(u) <= initial[j] + Total(bins[j], w)
  }

  /** No bin is heavier than (4m - 1)/3m of the largest of any rival division. */
  ghost predicate Tight(units: seq<string>, w: string -> int, bins: seq<seq<string>>) {
    forall rival: string -> nat, largest: int :: 0 <= largest && Feasible(units, w, rival, |bins|, largest) ==>
      forall i :: 0 <= i < |bins| ==> 3 * |bins| * Total(bins[i], w) <= (4 * |bins| - 1) * largest
  }

  /** Each lane is levelled, the CLI's without the fixed loads; the lanes are paired in opposed order; and the workers
      still empty, in order, each take a unit from the busiest that can spare one. */
  ghost predicate SharedOut(d: Discovery, w: string -> int, fixed: seq<int>, ordinary: seq<seq<string>>,
                            cli: seq<seq<string>>, guest: seq<nat>, paired: seq<seq<string>>, todo: seq<nat>,
                            run: seq<seq<seq<string>>>, bins: seq<seq<string>>)
  {
    && Levelled(OrdinaryUnits(d), w, fixed, ordinary)
    && Levelled(CliUnits(d), w, ZeroLoads(|fixed|), cli) && Tight(CliUnits(d), w, cli)
    && Opposed(ordinary, cli, fixed, w, guest, paired)
    && Increasing(todo) && (forall i :: 0 <= i < |paired| ==> (paired[i] == [] <==> i in todo))
    && Run(run, todo, fixed, w) && run[0] == paired
    && |bins| == |run[|todo|]| && forall i :: 0 <= i < |bins| ==> multiset(bins[i]) == multiset(run[|todo|][i])
  }

  ghost predicate WellShared(d: Discovery, w: string -> int, fixed: seq<int>, bins: seq<seq<string>>) {
    exists ordinary, cli, guest, paired, todo, run ::
      SharedOut(d, w, fixed, ordinary, cli, guest, paired, todo, run, bins)
  }

  predicate Increasing(indices: seq<nat>) {
    forall a, b :: 0 <= a < b < |indices| ==> indices[a] < indices[b]
  }

  lemma {:induction false} EmptiesIncrease(bins: seq<seq<string>>, k: nat)
    requires k <= |bins|
    ensures Increasing(Empties(bins, k)) && Within(Empties(bins, k), k)
  {
    if k > 0 {
      EmptiesIncrease(bins, k - 1);
    }
  }

  lemma LaneLevelled(units: seq<string>, listed: seq<string>, weights: map<string, int>, initial: seq<int>)
    requires initial != [] && multiset(listed) == multiset(units)
    ensures Levelled(units, Weight(weights), initial, Bins(listed, weights, initial))
  {
    hide Bins, Flatten, Total, Weight;
    var w, bins := Weight(weights), Bins(listed, weights, initial);
    BinsPartitionUnits(listed, weights, initial);
    forall i, j, u | 0 <= i < |bins| && 0 <= j < |bins| && u in bins[i] && NoneLighter(u, bins[i], w)
      ensures initial[i] + Total(bins[i], w) - w(u) <= initial[j] + Total(bins[j], w)
    {
      NoWorkerWorthRelieving(listed, weights, initial, i, j, u);
    }
  }

  lemma LaneTight(units: seq<string>, weights: map<string, int>, workers: nat)
    requires workers > 0 && Accepts(units, weights, workers, None)
    ensures Tight(units, Weight(weights), Bins(units, weights, ZeroLoads(workers)))
  {
    hide Bins, Total, Weight, Feasible, Accepts;
    var bins := Bins(units, weights, ZeroLoads(workers));
    forall rival: string -> nat, largest: int | 0 <= largest && Feasible(units, Weight(weights), rival, |bins|, largest)
      ensures forall i :: 0 <= i < |bins| ==> 3 * |bins| * Total(bins[i], Weight(weights)) <= (4 * |bins| - 1) * largest
    {
      WithinFourThirdsOfOptimal(units, weights, workers, rival, largest);
    }
  }

  lemma SortedSame(bins: seq<seq<string>>)
    ensures forall i :: 0 <= i < |bins| ==> multiset(SortBins(bins)[i]) == multiset(bins[i])
  {
    forall i | 0 <= i < |bins|
      ensures multiset(SortNames(bins[i])) == multiset(bins[i])
    {
      SortNamesFacts(bins[i]);
    }
  }

  /** The generator's bins are so shared out. */
  lemma WorkerBinsWellShared(d: Discovery, weights: map<string, int>, workers: int, fixed: seq<int>)
    requires WellFormed(d) && |fixed| == workers && Accepts(CliUnits(d), weights, workers, None)
    requires WorkerBins(d, weights, workers, fixed).Some?
    ensures WellShared(d, Weight(weights), fixed, WorkerBins(d, weights, workers, fixed).value)
  {
    hide WellFormed, Bins, Combined, Repaired, Levelled, Tight, Opposed, Run, OrdinaryUnits, CliUnits, SortNames,
         SortBins, Weight, Empties;
    var w, sorted, paired := Weight(weights), SortNames(OrdinaryUnits(d)), LaneBins(d, weights, workers, fixed);
    var ordinary, cli := Bins(sorted, weights, fixed), Bins(CliUnits(d), weights, ZeroLoads(workers));
    var todo := Empties(paired, |paired|);
    SortNamesFacts(OrdinaryUnits(d));
    LaneLevelled(OrdinaryUnits(d), sorted, weights, fixed);
    LaneLevelled(CliUnits(d), CliUnits(d), weights, ZeroLoads(workers));
    LaneTight(CliUnits(d), weights, workers);
    CombinedOpposed(ordinary, cli, fixed, w);
    var guest :| Opposed(ordinary, cli, fixed, w, guest, paired);
    EmptiesMembers(paired, |paired|);
    EmptiesIncrease(paired, |paired|);
    var run := RepairRuns(paired, todo, fixed, w);
    SortedSame(run[|todo|]);
    var bins := WorkerBins(d, weights, workers, fixed).value;
    assert SharedOut(d, w, fixed, ordinary, cli, guest, paired, todo, run, bins);
  }

  /** `build`: for acceptable advice it succeeds exactly when every worker can have a unit,
      and whatever it returns passes `validate`. */
  method Build(d: Discovery, hints: Hints, workers: int, initial: Option<seq<int>>) returns (r: Option<Catalog>)
    requires WellFormed(d)
    ensures r.Some? <==> CanSchedule(d, Weights(hints), workers, initial) && workers <= |ExecutionUnits(d)|
    ensures r.Some? ==> r.value.discovery == d && ValidCatalog(r.value, workers)
    ensures r.Some? ==>
              var bins := WorkerBins(d, Weights(hints), workers, InitialLoads(workers, initial));
              && bins.Some? && Decodes(r.value.assignments, bins.value)
              && WellShared(d, Weight(Weights(hints)), InitialLoads(workers, initial), bins.value)
  {
    hide WellShared;
    var weights := Weights(hints);
    LanesAccepted(d, weights, workers, initial);
    var ordinary := PlaceLane(SortNames(OrdinaryUnits(d)), weights, workers, initial);
    if ordinary.None? {
      return None;
    }
    var cli := PlaceLane(CliUnits(d), weights, workers, None);
    if cli.None? {
      return None;
    }
    var fixed := InitialLoads(workers, initial);
    WorkerBinsFacts(d, weights, workers, fixed);
    if WorkerBins(d, weights, workers, fixed).Some? {
      WorkerBinsWellShared(d, weights, workers, fixed);
    }
    var bins := Pair(ordinary.value, cli.value, fixed, Weight(weights));
    var repaired := Repair(bins, fixed, Weight(weights));
    if repaired.None? {
      return None;
    }
    var workerBins := SortBins(repaired.value);
    BinsReadable(d, workerBins);
    var assignments := DecodeAll(workerBins);
    BuiltIsValid(d, workers, workerBins, assignments);
    return Some(Catalog(workers, d, SortNames(ExecutionUnits(d)), assignments));
  }

  lemma PlacedUnits(units: seq<string>, weights: map<string, int>, initial: seq<int>)
    requires initial != []
    ensures forall u :: u in Flatten(Bins(units, weights, initial)) <==> u in units
  {
    BinsPartitionUnits(units, weights, initial);
    MultisetMembers(Flatten(Bins(units, weights, initial)), units);
  }

  lemma LaneBinsDependOnUnits(ordinary: seq<string>, cli: seq<string>, weights: map<string, int>,
                              weights': map<string, int>, fixed: seq<int>)
    requires fixed != []
    requires forall u :: u in ordinary || u in cli ==> Hint(weights, u) == Hint(weights', u)
    ensures Combined(Bins(ordinary, weights, fixed), Bins(cli, weights, ZeroLoads(|fixed|)), fixed, Weight(weights)) ==
            Combined(Bins(ordinary, weights', fixed), Bins(cli, weights', ZeroLoads(|fixed|)), fixed, Weight(weights'))
  {
    var zero := ZeroLoads(|fixed|);
    DependsOnlyOnUnitsAndTheirHints(ordinary, ordinary, weights, weights', fixed);
    DependsOnlyOnUnitsAndTheirHints(cli, cli, weights, weights', zero);
    PlacedUnits(ordinary, weights, fixed);
    PlacedUnits(cli, weights, zero);
    CombinedCongruent(Bins(ordinary, weights, fixed), Bins(cli, weights, zero), fixed, Weight(weights),
                      Weight(weights'));
  }

  lemma SameLanes(d: Discovery, d': Discovery)
    requires WellFormed(d) && WellFormed(d')
    requires multiset(OrdinaryUnits(d)) == multiset(OrdinaryUnits(d')) && multiset(d.cli) == multiset(d'.cli)
    ensures SortNames(OrdinaryUnits(d)) == SortNames(OrdinaryUnits(d')) && CliUnits(d) == CliUnits(d')
  {
    StringLinear();
    SameMultisetSameSort(StringLeq, OrdinaryUnits(d), OrdinaryUnits(d'));
    OrderedUnique(StringLeq, d.cli, d'.cli);
  }

  /** The bins depend neither on the order in which units were discovered nor on hints for anything else. */
  lemma ScheduleForgetsOrderAndStaleHints(d: Discovery, d': Discovery, weights: map<string, int>,
                                          weights': map<string, int>, workers: int, fixed: seq<int>)
    requires WellFormed(d) && WellFormed(d') && |fixed| == workers && 1 <= workers
    requires multiset(OrdinaryUnits(d)) == multiset(OrdinaryUnits(d')) && multiset(d.cli) == multiset(d'.cli)
    requires forall u :: u in ExecutionUnits(d) ==> Hint(weights, u) == Hint(weights', u)
    ensures WorkerBins(d, weights, workers, fixed) == WorkerBins(d', weights', workers, fixed)
  {
    hide WellFormed, Combined, Bins, Flatten, Repaired, Empties, SortNames;
    SameLanes(d, d');
    SortNamesFacts(OrdinaryUnits(d));
    LaneBinsDependOnUnits(SortNames(OrdinaryUnits(d)), CliUnits(d), weights, weights', fixed);
    var bins := LaneBins(d, weights, workers, fixed);
    LanesUnits(d, weights, workers, fixed);
    MultisetMembers(Flatten(bins), ExecutionUnits(d));
    EmptiesMembers(bins, |bins|);
    assert forall u :: u in Flatten(bins) ==> Weight(weights)(u) == Weight(weights')(u);
    RepairedCongruent(bins, Empties(bins, |bins|), fixed, Weight(weights), Weight(weights'));
  }
}
