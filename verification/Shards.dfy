/** `partition` of scripts/run_go_shard.py: validated longest-first scheduling of named units. */
module Shards {
  import opened Order
  import opened Placement

  const DEFAULT_MS := 1000
  const MAX_WORKERS := 16

  function Hint(hints: map<string, int>, name: string): int {
    if name in hints then hints[name] else DEFAULT_MS
  }

  /** Every unit weighs at least one millisecond; unknown units weigh a second. */
  function Weight(hints: map<string, int>): string -> int {
    (name: string) => Max(1, Hint(hints, name))
  }

  /** Heaviest first, names breaking ties. */
  function HeavierFirst(hints: map<string, int>): (string, string) -> bool {
    (a: string, b: string) =>
      Weight(hints)(a) > Weight(hints)(b) || (Weight(hints)(a) == Weight(hints)(b) && StringLeq(a, b))
  }

  lemma HeavierFirstLinear(hints: map<string, int>)
    ensures Linear(HeavierFirst(hints))
  {
    StringLinear();
  }

  function Ranked(units: seq<string>, hints: map<string, int>): seq<string> {
    Sort(HeavierFirst(hints), units)
  }

  function SortBins(bins: seq<seq<string>>): (r: seq<seq<string>>)
    ensures |r| == |bins| && forall i :: 0 <= i < |bins| ==> r[i] == SortNames(bins[i])
  {
    seq(|bins|, i requires 0 <= i < |bins| => SortNames(bins[i]))
  }

  /** The bins `partition` returns when it accepts its arguments. */
  function Bins(units: seq<string>, hints: map<string, int>, initial: seq<int>): (bins: seq<seq<string>>)
    requires initial != []
    ensures |bins| == |initial|
  {
    SortBins(Assign(Ranked(units, hints), Weight(hints), initial).bins)
  }

  function ZeroLoads(workers: nat): (loads: seq<int>)
    ensures |loads| == workers && forall i :: 0 <= i < workers ==> loads[i] == 0
  {
    seq(workers, _ => 0)
  }

  function InitialLoads(workers: nat, initial: Option<seq<int>>): seq<int> {
    if initial.Some? then initial.value else ZeroLoads(workers)
  }

  /** What `partition` demands of its arguments before it places anything. */
  predicate Accepts(units: seq<string>, hints: map<string, int>, workers: int, initial: Option<seq<int>>) {
    && 1 <= workers <= MAX_WORKERS
    && Distinct(units)
    && (forall u :: u in units ==> 0 <= Hint(hints, u))
    && (initial.Some? ==> |initial.value| == workers && forall i :: 0 <= i < workers ==> 0 <= initial.value[i])
  }

  function Flatten(bins: seq<seq<string>>): seq<string> {
    if bins == [] then [] else Flatten(bins[..|bins| - 1]) + bins[|bins| - 1]
  }

  lemma Exchange(a: multiset<string>, b: multiset<string>, c: multiset<string>, d: multiset<string>,
                 e: multiset<string>)
    requires a + b == c + d
    ensures (a + e) + b == (c + e) + d
  {
    assert (a + e) + b == (a + b) + e && (c + e) + d == (c + d) + e;
  }

  lemma {:induction false} FlattenUpdate(bins: seq<seq<string>>, i: nat, bin: seq<string>)
    requires i < |bins|
    ensures multiset(Flatten(bins[i := bin])) + multiset(bins[i]) == multiset(Flatten(bins)) + multiset(bin)
  {
    var n := |bins| - 1;
    var next := bins[i := bin];
    if i == n {
      assert next[..n] == bins[..n];
    } else {
      assert next[..n] == bins[..n][i := bin] && bins[..n][i] == bins[i] && next[n] == bins[n];
      FlattenUpdate(bins[..n], i, bin);
      Exchange(multiset(Flatten(next[..n])), multiset(bins[i]), multiset(Flatten(bins[..n])), multiset(bin),
               multiset(bins[n]));
    }
  }

  lemma {:induction false} FlattenEmpty(bins: seq<seq<string>>)
    requires forall i :: 0 <= i < |bins| ==> bins[i] == []
    ensures Flatten(bins) == []
  {
    if bins != [] {
      FlattenEmpty(bins[..|bins| - 1]);
    }
  }

  lemma {:induction false} FlattenMembers(bins: seq<seq<string>>)
    ensures forall u :: u in Flatten(bins) <==> exists i :: 0 <= i < |bins| && u in bins[i]
  {
    if bins != [] {
      var n := |bins| - 1;
      FlattenMembers(bins[..n]);
      forall u
        ensures u in Flatten(bins) <==> exists i :: 0 <= i < |bins| && u in bins[i]
      {
        if u in Flatten(bins[..n]) {
          var i :| 0 <= i < n && u in bins[..n][i];
          assert u in bins[i];
        }
        if i :| 0 <= i < |bins| && u in bins[i] {
          if i < n {
            assert u in bins[..n][i];
          }
        }
      }
    }
  }

  lemma {:induction false} FlattenSorted(bins: seq<seq<string>>)
    ensures multiset(Flatten(SortBins(bins))) == multiset(Flatten(bins))
  {
    if bins != [] {
      var n := |bins| - 1;
      FlattenSorted(bins[..n]);
      assert SortBins(bins)[..n] == SortBins(bins[..n]);
      SortNamesFacts(bins[n]);
    }
  }

  lemma PlaceFlatten(p: Plan, u: string, w: string -> int)
    requires p.loads != [] && |p.bins| == |p.loads|
    ensures multiset(Flatten(Place(p, u, w).bins)) == multiset(Flatten(p.bins)) + multiset{u}
  {
    var i := Least(p.loads);
    FlattenUpdate(p.bins, i, p.bins[i] + [u]);
    var before, held := multiset(Flatten(p.bins)), multiset(p.bins[i]);
    assert before + multiset(p.bins[i] + [u]) == (before + multiset{u}) + held;
    Cancel(multiset(Flatten(Place(p, u, w).bins)), before + multiset{u}, held);
  }

  lemma {:induction false} AssignFlatten(order: seq<string>, w: string -> int, initial: seq<int>)
    requires initial != []
    ensures multiset(Flatten(Assign(order, w, initial).bins)) == multiset(order)
  {
    if order == [] {
      FlattenEmpty(EmptyBins(|initial|));
    } else {
      var n := |order| - 1;
      var p := Assign(order[..n], w, initial);
      AssignFlatten(order[..n], w, initial);
      PlaceFlatten(p, order[n], w);
      assert order == order[..n] + [order[n]];
    }
  }

  /** The bins hold every unit exactly once: hints only choose where. */
  lemma BinsPartitionUnits(units: seq<string>, hints: map<string, int>, initial: seq<int>)
    requires initial != []
    ensures multiset(Flatten(Bins(units, hints, initial))) == multiset(units)
  {
    HeavierFirstLinear(hints);
    SortSorts(HeavierFirst(hints), units);
    AssignFlatten(Ranked(units, hints), Weight(hints), initial);
    FlattenSorted(Assign(Ranked(units, hints), Weight(hints), initial).bins);
  }

  // ---- The bound, in terms of the returned bins -------------------------

  ghost function Only(w: string -> int, f: string -> nat, i: nat): string -> int {
    (u: string) => if f(u) == i then w(u) else 0
  }

  lemma {:induction false} ShareTotal(names: seq<string>, w: string -> int, f: string -> nat, i: nat)
    ensures Total(Share(names, f, i), w) == Total(names, Only(w, f, i))
  {
    if names != [] {
      var n := |names| - 1;
      ShareTotal(names[..n], w, f, i);
      TotalAppend(Share(names[..n], f, i), names[n], w);
    }
  }

  /** Whatever the hints and however the units are assigned to `workers`, no worker's predicted load
      exceeds (4m - 1)/3m of that assignment's largest load. */
  lemma WithinFourThirdsOfOptimal(units: seq<string>, hints: map<string, int>, workers: int,
                                  rival: string -> nat, makespan: int)
    requires Accepts(units, hints, workers, None)
    requires 0 <= makespan && Feasible(units, Weight(hints), rival, workers, makespan)
    ensures var bins := Bins(units, hints, ZeroLoads(workers));
            forall i :: 0 <= i < workers ==>
              3 * workers * Total(bins[i], Weight(hints)) <= (4 * workers - 1) * makespan
  {
    hide Assign, Ranked, Total, Share, Decreasing, Bins;
    var w, order, zero := Weight(hints), Ranked(units, hints), ZeroLoads(workers);
    RankedDecreasing(units, hints);
    forall i | 0 <= i < workers
      ensures Total(Share(order, rival, i), w) <= makespan
    {
      ShareTotal(order, w, rival, i);
      ShareTotal(units, w, rival, i);
      TotalPermutation(order, units, Only(w, rival, i));
    }
    MakespanBound(order, w, zero, rival, makespan);
    forall i | 0 <= i < workers
      ensures 3 * workers * Total(Bins(units, hints, zero)[i], w) <= (4 * workers - 1) * makespan
    {
      BinLoad(units, hints, zero, i);
    }
  }

  lemma FeasiblePermuted(names: seq<string>, names': seq<string>, w: string -> int, rival: string -> nat, workers: int,
                         makespan: int)
    requires multiset(names) == multiset(names') && 1 <= workers
    requires Feasible(names, w, rival, workers, makespan)
    ensures Feasible(names', w, rival, workers, makespan)
  {
    hide Total, Share;
    MultisetMembers(names, names');
    forall i | 0 <= i < workers
      ensures Total(Share(names', rival, i), w) <= makespan
    {
      ShareTotal(names, w, rival, i);
      ShareTotal(names', w, rival, i);
      TotalPermutation(names, names', Only(w, rival, i));
    }
  }

  lemma RankedDecreasing(units: seq<string>, hints: map<string, int>)
    ensures Decreasing(Ranked(units, hints), Weight(hints))
    ensures multiset(Ranked(units, hints)) == multiset(units)
    ensures forall u :: u in Ranked(units, hints) <==> u in units
  {
    var order := Ranked(units, hints);
    HeavierFirstLinear(hints);
    SortMembers(HeavierFirst(hints), units);
    SortSorts(HeavierFirst(hints), units);
    forall i, j | 0 <= i < j < |order|
      ensures Weight(hints)(order[i]) >= Weight(hints)(order[j])
    {
      assert HeavierFirst(hints)(order[i], order[j]);
    }
  }

  /** A unit weighs its hint, at least one millisecond, and a second without one. */
  lemma WeightOf(hints: map<string, int>, u: string)
    ensures Weight(hints)(u) == if u !in hints then 1000 else if hints[u] < 1 then 1 else hints[u]
  {}

  /** Units are placed heaviest first, and of two equal ones the earlier name first. */
  lemma PlacedHeaviestFirst(units: seq<string>, hints: map<string, int>, i: nat, j: nat)
    requires i < j < |Ranked(units, hints)|
    ensures var a, b := Ranked(units, hints)[i], Ranked(units, hints)[j];
            Weight(hints)(a) > Weight(hints)(b) || (Weight(hints)(a) == Weight(hints)(b) && StringLeq(a, b))
  {
    HeavierFirstLinear(hints);
    SortSorts(HeavierFirst(hints), units);
    assert HeavierFirst(hints)(Ranked(units, hints)[i], Ranked(units, hints)[j]);
  }

  lemma {:induction false} FirstStays(order: seq<string>, w: string -> int, workers: nat)
    requires order != [] && workers > 0
    ensures order[0] in Assign(order, w, ZeroLoads(workers)).bins[0]
  {
    var n := |order| - 1;
    if n > 0 {
      FirstStays(order[..n], w, workers);
    } else {
      assert order[..0] == [];
      var zero, k := ZeroLoads(workers), Least(ZeroLoads(workers));
      assert zero[k] == zero[0];
    }
  }

  /** From zero loads the heaviest unit, the first by name among equals, is the first worker's. */
  lemma HeaviestInFirstBin(units: seq<string>, hints: map<string, int>, workers: nat, u: string)
    requires workers > 0 && u in units
    requires forall v :: v in units && v != u ==>
               Weight(hints)(u) > Weight(hints)(v) || (Weight(hints)(u) == Weight(hints)(v) && StringLeq(u, v))
    ensures u in Bins(units, hints, ZeroLoads(workers))[0]
  {
    hide Assign, Ranked, Weight, Bins;
    var order := Ranked(units, hints);
    RankedDecreasing(units, hints);
    var i :| 0 <= i < |order| && order[i] == u;
    if i > 0 && order[0] != u {
      PlacedHeaviestFirst(units, hints, 0, i);
      StringAntisymmetric(order[0], u);
    }
    FirstStays(order, Weight(hints), workers);
    BinLoad(units, hints, ZeroLoads(workers), 0);
  }

  /** A returned bin carries exactly the load predicted for its worker. */
  lemma BinLoad(units: seq<string>, hints: map<string, int>, initial: seq<int>, i: nat)
    requires initial != [] && i < |initial|
    ensures var plan := Assign(Ranked(units, hints), Weight(hints), initial);
            && plan.loads[i] == initial[i] + Total(Bins(units, hints, initial)[i], Weight(hints))
            && (forall u :: u in Bins(units, hints, initial)[i] <==> u in plan.bins[i])
            && |Bins(units, hints, initial)[i]| == |plan.bins[i]|
  {
    var w, order := Weight(hints), Ranked(units, hints);
    var plan := Assign(order, w, initial);
    AssignLoads(order, w, initial);
    SortNamesFacts(plan.bins[i]);
    TotalPermutation(SortNames(plan.bins[i]), plan.bins[i], w);
  }

  /** Under any fixed loads, taking its lightest unit from a worker leaves it no busier than any other. */
  lemma NoWorkerWorthRelieving(units: seq<string>, hints: map<string, int>, initial: seq<int>, i: nat, j: nat,
                               u: string)
    requires initial != [] && i < |initial| && j < |initial|
    requires var bins := Bins(units, hints, initial);
             u in bins[i] && forall v :: v in bins[i] ==> Weight(hints)(u) <= Weight(hints)(v)
    ensures var bins, w := Bins(units, hints, initial), Weight(hints);
            initial[i] + Total(bins[i], w) - w(u) <= initial[j] + Total(bins[j], w)
  {
    var w, order := Weight(hints), Ranked(units, hints);
    var plan := Assign(order, w, initial);
    RankedDecreasing(units, hints);
    BinLoad(units, hints, initial, i);
    BinLoad(units, hints, initial, j);
    BalancedUnderAnyLoads(order, w, initial, i, j);
    var last := plan.bins[i][|plan.bins[i]| - 1];
    assert last in plan.bins[i];
  }

  // ---- Determinism --------------------------------------------------------

  lemma {:induction false} SortCongruent<T(!new)>(leq: (T, T) -> bool, leq': (T, T) -> bool, s: seq<T>)
    requires forall a, b :: a in s && b in s ==> leq(a, b) == leq'(a, b)
    ensures Sort(leq, s) == Sort(leq', s)
    ensures forall x :: x in Sort(leq, s) ==> x in s
  {
    if s != [] {
      SortCongruent(leq, leq', s[1..]);
      InsertCongruent(leq, leq', s[0], Sort(leq, s[1..]), s);
    }
  }

  lemma {:induction false} InsertCongruent<T(!new)>(leq: (T, T) -> bool, leq': (T, T) -> bool, x: T, s: seq<T>,
                                                    within: seq<T>)
    requires x in within && forall y :: y in s ==> y in within
    requires forall a, b :: a in within && b in within ==> leq(a, b) == leq'(a, b)
    ensures Insert(leq, x, s) == Insert(leq', x, s)
    ensures forall y :: y in Insert(leq, x, s) ==> y in within
  {
    if s != [] && !leq(x, s[0]) {
      InsertCongruent(leq, leq', x, s[1..], within);
    }
  }

  lemma {:induction false} AssignCongruent(order: seq<string>, w: string -> int, w': string -> int, initial: seq<int>)
    requires initial != []
    requires forall u :: u in order ==> w(u) == w'(u)
    ensures Assign(order, w, initial) == Assign(order, w', initial)
  {
    if order != [] {
      var n := |order| - 1;
      assert forall u :: u in order[..n] ==> u in order;
      AssignCongruent(order[..n], w, w', initial);
      assert order[n] in order;
    }
  }

  /** Neither the order of discovery nor hints for other names affect the result. */
  lemma DependsOnlyOnUnitsAndTheirHints(units: seq<string>, units': seq<string>,
                                        hints: map<string, int>, hints': map<string, int>, initial: seq<int>)
    requires initial != []
    requires multiset(units) == multiset(units')
    requires forall u :: u in units ==> Hint(hints, u) == Hint(hints', u)
    ensures Bins(units, hints, initial) == Bins(units', hints', initial)
  {
    MultisetMembers(units, units');
    forall a, b | a in units' && b in units'
      ensures HeavierFirst(hints)(a, b) == HeavierFirst(hints')(a, b)
    {
      assert a in units && b in units;
      assert Weight(hints)(a) == Weight(hints')(a) && Weight(hints)(b) == Weight(hints')(b);
    }
    HeavierFirstLinear(hints);
    SameMultisetSameSort(HeavierFirst(hints), units, units');
    SortCongruent(HeavierFirst(hints), HeavierFirst(hints'), units');
    AssignCongruent(Ranked(units', hints'), Weight(hints), Weight(hints'), initial);
  }

  // ---- Empty workers --------------------------------------------------------

  lemma {:induction false} FlattenLength(bins: seq<seq<string>>)
    ensures (forall i :: 0 <= i < |bins| ==> bins[i] != []) ==> |bins| <= |Flatten(bins)|
    ensures (forall i :: 0 <= i < |bins| ==> |bins[i]| <= 1) ==> |Flatten(bins)| <= |bins|
    ensures (forall i :: 0 <= i < |bins| ==> |bins[i]| <= 1) && (exists i :: 0 <= i < |bins| && bins[i] == []) ==>
              |Flatten(bins)| < |bins|
  {
    if bins != [] {
      var n := |bins| - 1;
      FlattenLength(bins[..n]);
      assert forall i :: 0 <= i < n ==> bins[..n][i] == bins[i];
    }
  }

  ghost predicate IdleMeansEmpty(p: Plan) {
    && |p.loads| == |p.bins|
    && (forall i :: 0 <= i < |p.bins| ==> p.loads[i] >= 0 && (p.loads[i] == 0 <==> p.bins[i] == []))
    && (forall i, j :: 0 <= i < |p.bins| && 0 <= j < |p.bins| && p.bins[i] == [] ==> |p.bins[j]| <= 1)
  }

  lemma PlaceIdle(p: Plan, u: string, w: string -> int)
    requires p.loads != [] && IdleMeansEmpty(p) && 0 < w(u)
    ensures IdleMeansEmpty(Place(p, u, w))
  {
    var k := Least(p.loads);
    assert forall i :: 0 <= i < |p.loads| ==> p.loads[k] <= p.loads[i];
  }

  /** From zero loads an idle worker is always preferred, so enough units leave none idle. */
  lemma {:induction false} IdleFirst(order: seq<string>, w: string -> int, initial: seq<int>)
    requires initial != [] && forall i :: 0 <= i < |initial| ==> initial[i] == 0
    requires forall u :: u in order ==> 0 < w(u)
    ensures IdleMeansEmpty(Assign(order, w, initial))
  {
    if order != [] {
      var n := |order| - 1;
      assert forall u :: u in order[..n] ==> u in order;
      IdleFirst(order[..n], w, initial);
      assert order[n] in order;
      PlaceIdle(Assign(order[..n], w, initial), order[n], w);
    }
  }

  /** From zero loads the "nonempty" check passes exactly when there is a unit for every worker. */
  lemma NonemptyIffEnoughUnits(units: seq<string>, hints: map<string, int>, workers: int)
    requires Accepts(units, hints, workers, None)
    ensures (forall i :: 0 <= i < workers ==> Bins(units, hints, ZeroLoads(workers))[i] != []) <==> workers <= |units|
  {
    var zero := ZeroLoads(workers);
    var bins := Bins(units, hints, zero);
    var p := Assign(Ranked(units, hints), Weight(hints), zero);
    IdleFirst(Ranked(units, hints), Weight(hints), zero);
    BinsPartitionUnits(units, hints, zero);
    MultisetMembers(Flatten(bins), units);
    FlattenLength(bins);
    forall i | 0 <= i < workers
      ensures |bins[i]| == |p.bins[i]|
    {
      BinLoad(units, hints, zero, i);
    }
    if i :| 0 <= i < workers && bins[i] == [] {
      forall j | 0 <= j < workers
        ensures |bins[j]| <= 1
      {
        assert p.bins[i] == [];
      }
    }
  }

  // ---- The method ---------------------------------------------------------

  /** Places the heaviest remaining unit on the least loaded worker, or refuses; `None` is the raised Failure.
      The source's final disjoint/exhaustive test can never fail, which the last assertion shows. */
  method Partition(units: seq<string>, hints: map<string, int>, workers: int,
                   initial: Option<seq<int>>, allowEmpty: bool)
    returns (r: Option<seq<seq<string>>>)
    ensures r.Some? <==>
            && Accepts(units, hints, workers, initial)
            && (allowEmpty ||
                forall i :: 0 <= i < workers ==> Bins(units, hints, InitialLoads(workers, initial))[i] != [])
    ensures r.Some? ==> r.value == Bins(units, hints, InitialLoads(workers, initial))
  {
    hide Assign, Ranked, Flatten, Decreasing, SortNames, Weight;
    if !(1 <= workers <= MAX_WORKERS) || !Distinct(units) {
      return None;
    }
    var weighed := Weigh(units, hints);
    if weighed.None? {
      return None;
    }
    var loads := InitialLoads(workers, initial);
    if |loads| != workers || exists i :: 0 <= i < |loads| && loads[i] < 0 {
      return None;
    }
    var order := Ranked(units, hints);
    RankedDecreasing(units, hints);
    assert forall k :: 0 <= k < |order| ==> order[k] in units;
    var bins := PlaceAll(order, weighed.value, loads, Weight(hints));
    SortedBinsNonempty(bins);
    assert SortBins(bins) == Bins(units, hints, InitialLoads(workers, initial));
    if !allowEmpty && exists i :: 0 <= i < |bins| && bins[i] == [] {
      ghost var idle :| 0 <= idle < |bins| && bins[idle] == [];
      assert SortBins(bins)[idle] == [];
      return None;
    }
    PlacedDisjointExhaustive(units, hints, loads);
    assert Distinct(Flatten(bins)) && forall u :: u in Flatten(bins) <==> u in units;
    return Some(SortBins(bins));
  }

  /** The weighing loop of `partition`: a negative hint for any unit is refused. */
  method Weigh(units: seq<string>, hints: map<string, int>) returns (r: Option<map<string, int>>)
    ensures r.Some? <==> forall u :: u in units ==> 0 <= Hint(hints, u)
    ensures r.Some? ==> forall u :: u in units ==> u in r.value && r.value[u] == Weight(hints)(u)
  {
    var weights: map<string, int> := map[];
    for k := 0 to |units|
      invariant forall u :: u in units[..k] ==> 0 <= Hint(hints, u) && u in weights && weights[u] == Weight(hints)(u)
    {
      var value := if units[k] in hints then hints[units[k]] else DEFAULT_MS;
      if value < 0 {
        assert units[k] in units;
        return None;
      }
      weights := weights[units[k] := Max(1, value)];
    }
    assert units[..|units|] == units;
    return Some(weights);
  }

  lemma SortedBinsNonempty(bins: seq<seq<string>>)
    ensures forall i :: 0 <= i < |bins| ==> (SortBins(bins)[i] == [] <==> bins[i] == [])
  {
    forall i | 0 <= i < |bins|
      ensures SortNames(bins[i]) == [] <==> bins[i] == []
    {
      SortNamesFacts(bins[i]);
    }
  }

  lemma PlacedDisjointExhaustive(units: seq<string>, hints: map<string, int>, initial: seq<int>)
    requires initial != [] && Distinct(units)
    ensures var flat := Flatten(Assign(Ranked(units, hints), Weight(hints), initial).bins);
            Distinct(flat) && forall u :: u in flat <==> u in units
  {
    var order := Ranked(units, hints);
    var flat := Flatten(Assign(order, Weight(hints), initial).bins);
    AssignFlatten(order, Weight(hints), initial);
    RankedDecreasing(units, hints);
    MultisetMembers(flat, units);
    DistinctMultiset(units);
    DistinctMultiset(flat);
  }

  lemma NothingAssigned(w: string -> int, initial: seq<int>)
    requires initial != []
    ensures Assign([], w, initial) == Plan(EmptyBins(|initial|), initial)
  {}

  lemma AssignNext(order: seq<string>, k: nat, w: string -> int, initial: seq<int>)
    requires initial != [] && k < |order|
    ensures Assign(order[..k + 1], w, initial) == Place(Assign(order[..k], w, initial), order[k], w)
  {
    assert order[..k + 1][..k] == order[..k];
  }

  /** The placing loop of `partition`. */
  method PlaceAll(order: seq<string>, weights: map<string, int>, initial: seq<int>, ghost w: string -> int)
    returns (bins: seq<seq<string>>)
    requires initial != []
    requires forall k :: 0 <= k < |order| ==> order[k] in weights && weights[order[k]] == w(order[k])
    ensures bins == Assign(order, w, initial).bins
  {
    hide Assign;
    var loads := initial;
    bins := EmptyBins(|loads|);
    ghost var plan := Plan(bins, loads);
    NothingAssigned(w, initial);
    for k := 0 to |order|
      invariant plan == Assign(order[..k], w, initial)
      invariant bins == plan.bins && loads == plan.loads
    {
      AssignNext(order, k, w, initial);
      plan := Place(plan, order[k], w);
      var index := Least(loads);
      bins := bins[index := bins[index] + [order[k]]];
      loads := loads[index := loads[index] + weights[order[k]]];
    }
    assert order[..|order|] == order;
  }
}
