/** Longest-first placement of execution units on workers (scripts/run_go_shard.py). */
module Placement {
  import opened Order

  /** Units held by each worker, and each worker's predicted load. */
  datatype Plan = Plan(bins: seq<seq<string>>, loads: seq<int>)

  function Sum(xs: seq<int>): int {
    if xs == [] then 0 else Sum(xs[..|xs| - 1]) + xs[|xs| - 1]
  }

  /** The least loaded worker, lowest index first. */
  function Least(loads: seq<int>): (k: nat)
    requires loads != []
    ensures k < |loads|
    ensures forall j :: 0 <= j < |loads| ==> loads[k] <= loads[j]
    ensures forall j :: 0 <= j < k ==> loads[k] < loads[j]
  {
    if |loads| == 1 then 0
    else
      var k := Least(loads[..|loads| - 1]);
      if loads[|loads| - 1] < loads[k] then |loads| - 1 else k
  }

  function Place(p: Plan, name: string, w: string -> int): Plan
    requires p.loads != [] && |p.bins| == |p.loads|
  {
    var i := Least(p.loads);
    Plan(p.bins[i := p.bins[i] + [name]], p.loads[i := p.loads[i] + w(name)])
  }

  function EmptyBins(m: nat): (bins: seq<seq<string>>)
    ensures |bins| == m && forall i :: 0 <= i < m ==> bins[i] == []
  {
    seq(m, _ => [])
  }

  /** Place the names one by one, each on the then least loaded worker. */
  function Assign(order: seq<string>, w: string -> int, initial: seq<int>): (p: Plan)
    requires initial != []
    ensures |p.bins| == |p.loads| == |initial|
  {
    if order == [] then Plan(EmptyBins(|initial|), initial)
    else Place(Assign(order[..|order| - 1], w, initial), order[|order| - 1], w)
  }

  /** The names an arbitrary assignment `f` gives to worker `i`, in order. */
  ghost function Share(names: seq<string>, f: string -> nat, i: nat): seq<string> {
    if names == [] then []
    else
      var rest := Share(names[..|names| - 1], f, i);
      if f(names[|names| - 1]) == i then rest + [names[|names| - 1]] else rest
  }

  ghost function BinTotals(bins: seq<seq<string>>, w: string -> int): (r: seq<int>)
    ensures |r| == |bins|
    ensures forall i :: 0 <= i < |bins| ==> r[i] == Total(bins[i], w)
  {
    seq(|bins|, i requires 0 <= i < |bins| => Total(bins[i], w))
  }

  ghost function ShareTotals(names: seq<string>, f: string -> nat, m: nat, w: string -> int): (r: seq<int>)
    ensures |r| == m
    ensures forall i :: 0 <= i < m ==> r[i] == Total(Share(names, f, i), w)
  {
    seq(m, i requires 0 <= i < m => Total(Share(names, f, i), w))
  }

  lemma {:induction false} SumUpdate(xs: seq<int>, i: nat, d: int)
    requires i < |xs|
    ensures Sum(xs[i := xs[i] + d]) == Sum(xs) + d
  {
    var n := |xs| - 1;
    var ys := xs[i := xs[i] + d];
    if i == n {
      assert ys[..n] == xs[..n];
    } else {
      assert ys[..n] == xs[..n][i := xs[..n][i] + d];
      SumUpdate(xs[..n], i, d);
    }
  }

  lemma {:induction false} SumZero(xs: seq<int>)
    requires forall i :: 0 <= i < |xs| ==> xs[i] == 0
    ensures Sum(xs) == 0
  {
    if xs != [] {
      SumZero(xs[..|xs| - 1]);
    }
  }

  lemma {:induction false} SumAtMost(xs: seq<int>, bound: int)
    requires forall i :: 0 <= i < |xs| ==> xs[i] <= bound
    ensures Sum(xs) <= |xs| * bound
  {
    if xs != [] {
      SumAtMost(xs[..|xs| - 1], bound);
    }
  }

  lemma {:induction false} SumAtLeast(xs: seq<int>, bound: int)
    requires forall i :: 0 <= i < |xs| ==> bound <= xs[i]
    ensures |xs| * bound <= Sum(xs)
  {
    if xs != [] {
      SumAtLeast(xs[..|xs| - 1], bound);
    }
  }

  lemma ShareAppend(prefix: seq<string>, u: string, f: string -> nat, i: nat)
    ensures Share(prefix + [u], f, i) == if f(u) == i then Share(prefix, f, i) + [u] else Share(prefix, f, i)
  {
    assert (prefix + [u])[..|prefix|] == prefix;
  }

  lemma ShareTotalsAppend(prefix: seq<string>, u: string, f: string -> nat, m: nat, w: string -> int)
    requires f(u) < m
    ensures var before := ShareTotals(prefix, f, m, w);
            ShareTotals(prefix + [u], f, m, w) == before[f(u) := before[f(u)] + w(u)]
  {
    hide Share, Total;
    forall i | 0 <= i < m
      ensures Total(Share(prefix + [u], f, i), w) == Total(Share(prefix, f, i), w) + if f(u) == i then w(u) else 0
    {
      ShareAppend(prefix, u, f, i);
      TotalAppend(Share(prefix, f, i), u, w);
    }
  }

  lemma NoShares(f: string -> nat, m: nat, w: string -> int)
    ensures Sum(ShareTotals([], f, m, w)) == 0
  {
    SumZero(ShareTotals([], f, m, w));
  }

  /** Whatever weight is counted, an assignment distributes the whole of it. */
  lemma {:induction false} SharesSum(names: seq<string>, f: string -> nat, m: nat, w: string -> int)
    requires forall u :: u in names ==> f(u) < m
    ensures Sum(ShareTotals(names, f, m, w)) == Total(names, w)
  {
    hide ShareTotals, Sum, Share;
    if names == [] {
      NoShares(f, m, w);
    } else {
      hide Total;
      var prefix, u := names[..|names| - 1], names[|names| - 1];
      assert names == prefix + [u];
      SharesSum(prefix, f, m, w);
      ShareTotalsAppend(prefix, u, f, m, w);
      TotalAppend(prefix, u, w);
      SumUpdate(ShareTotals(prefix, f, m, w), f(u), w(u));
    }
  }

  lemma PlaceTotals(p: Plan, u: string, w: string -> int, v: string -> int)
    requires p.loads != [] && |p.bins| == |p.loads|
    ensures var i, before := Least(p.loads), BinTotals(p.bins, v);
            BinTotals(Place(p, u, w).bins, v) == before[i := before[i] + v(u)]
  {
    TotalAppend(p.bins[Least(p.loads)], u, v);
  }

  /** The greedy plan also distributes the whole of any weight, counted or not in its loads. */
  lemma {:induction false} AssignSum(order: seq<string>, w: string -> int, initial: seq<int>, v: string -> int)
    requires initial != []
    ensures Sum(BinTotals(Assign(order, w, initial).bins, v)) == Total(order, v)
  {
    var all := BinTotals(Assign(order, w, initial).bins, v);
    if order == [] {
      SumZero(all);
    } else {
      var n := |order| - 1;
      var u := order[n];
      var p := Assign(order[..n], w, initial);
      var before := BinTotals(p.bins, v);
      AssignSum(order[..n], w, initial, v);
      PlaceTotals(p, u, w, v);
      SumUpdate(before, Least(p.loads), v(u));
    }
  }

  /** Predicted loads are the initial loads plus the weights placed. */
  lemma {:induction false} AssignLoads(order: seq<string>, w: string -> int, initial: seq<int>)
    requires initial != []
    ensures var p := Assign(order, w, initial);
            forall i :: 0 <= i < |initial| ==> p.loads[i] == initial[i] + Total(p.bins[i], w)
  {
    if order != [] {
      var n := |order| - 1;
      AssignLoads(order[..n], w, initial);
      var p := Assign(order[..n], w, initial);
      TotalAppend(p.bins[Least(p.loads)], order[n], w);
    }
  }

  lemma {:induction false} AssignMembers(order: seq<string>, w: string -> int, initial: seq<int>, i: nat)
    requires initial != [] && i < |initial|
    ensures forall u :: u in Assign(order, w, initial).bins[i] ==> u in order
  {
    if order != [] {
      var n := |order| - 1;
      AssignMembers(order[..n], w, initial, i);
      assert forall u :: u in order[..n] ==> u in order;
    }
  }

  lemma {:induction false} ShareMembers(names: seq<string>, f: string -> nat, i: nat)
    ensures forall u :: u in Share(names, f, i) ==> u in names && f(u) == i
  {
    if names != [] {
      ShareMembers(names[..|names| - 1], f, i);
    }
  }

  // ---- The scheduling bound --------------------------------------------

  ghost predicate Decreasing(order: seq<string>, w: string -> int) {
    forall i, j :: 0 <= i < j < |order| ==> w(order[i]) >= w(order[j])
  }

  /** Two units count double when one of them cannot share a worker with a unit of weight `p` below `t`. */
  ghost function Huge(w: string -> int, p: int, t: int): string -> int {
    (u: string) => if w(u) + p > t then 2 else 1
  }

  lemma TotalAtLeast(names: seq<string>, w: string -> int, low: int)
    requires forall u :: u in names ==> low <= w(u)
    ensures |names| * low <= Total(names, w)
  {
    if names != [] {
      assert forall u :: u in names[..|names| - 1] ==> u in names;
      TotalAtLeast(names[..|names| - 1], w, low);
    }
  }

  /** Below makespan `t < 3p`, a worker whose units all weigh at least `p` has at most two slots. */
  lemma OptimalSlots(names: seq<string>, w: string -> int, p: int, t: int)
    requires 0 < p && t < 3 * p
    requires forall u :: u in names ==> p <= w(u)
    requires Total(names, w) <= t
    ensures Total(names, Huge(w, p, t)) <= 2
  {
    TotalAtLeast(names, w, p);
    FewerThan(|names|, p, t);
    if |names| == 2 {
      assert names[..1] == [names[0]] && names[..1][..0] == [];
      assert Total(names[..1], w) == w(names[0]);
      assert names[0] in names && names[1] in names;
      assert Total(names[..1], Huge(w, p, t)) == Huge(w, p, t)(names[0]);
    } else if |names| == 1 {
      assert names[..0] == [];
    }
  }

  lemma ThreeAtLeast(n: nat, p: int)
    requires 3 <= n && 0 < p
    ensures 3 * p <= n * p
  {
    assert 0 <= (n - 3) * p;
  }

  lemma FewerThan(n: nat, p: int, t: int)
    requires 0 < p && n * p <= t < 3 * p
    ensures n < 3
  {
    if n >= 3 {
      ThreeAtLeast(n, p);
    }
  }

  /** A worker that `p` would push past `t >= p` already fills two slots. */
  lemma GreedySlots(names: seq<string>, w: string -> int, p: int, t: int)
    requires p <= t < Total(names, w) + p
    ensures Total(names, Huge(w, p, t)) >= 2
  {
    if |names| == 1 {
      assert names[..0] == [];
    } else if |names| >= 2 {
      TotalAtLeast(names, Huge(w, p, t), 1);
    }
  }

  ghost predicate Feasible(order: seq<string>, w: string -> int, f: string -> nat, m: nat, t: int) {
    && (forall u :: u in order ==> f(u) < m)
    && (forall i :: 0 <= i < m ==> Total(Share(order, f, i), w) <= t)
  }

  lemma FeasiblePrefix(prefix: seq<string>, u: string, w: string -> int, f: string -> nat, m: nat, t: int)
    requires Feasible(prefix + [u], w, f, m, t) && 0 < w(u)
    requires forall x :: x in prefix ==> 0 < w(x)
    ensures Feasible(prefix, w, f, m, t)
    ensures w(u) <= t
  {
    assert u in prefix + [u];
    assert f(u) < m;
    forall i | 0 <= i < m
      ensures Total(Share(prefix, f, i), w) <= t
      ensures f(u) == i ==> w(u) <= t
    {
      ShareAppend(prefix, u, f, i);
      TotalAppend(Share(prefix, f, i), u, w);
      ShareMembers(prefix, f, i);
      TotalAtLeast(Share(prefix, f, i), w, 0);
      assert Total(Share(prefix + [u], f, i), w) <= t;
    }
    assert Total(Share(prefix, f, f(u)), w) <= t;
  }

  /** Any assignment within makespan `t < 3p` of units weighing at least `p` uses at most two slots a worker. */
  lemma SlotsAvailable(names: seq<string>, w: string -> int, f: string -> nat, m: nat, p: int, t: int)
    requires Feasible(names, w, f, m, t) && 0 < p && t < 3 * p
    requires forall u :: u in names ==> p <= w(u)
    ensures Total(names, Huge(w, p, t)) <= 2 * m
  {
    var v := Huge(w, p, t);
    SharesSum(names, f, m, v);
    forall i | 0 <= i < m
      ensures ShareTotals(names, f, m, v)[i] <= 2
    {
      ShareMembers(names, f, i);
      OptimalSlots(Share(names, f, i), w, p, t);
    }
    SumAtMost(ShareTotals(names, f, m, v), 2);
  }

  /** If the next unit fits on no worker within `t`, the greedy plan already fills two slots on each. */
  lemma {:induction false} SlotsFilled(prefix: seq<string>, w: string -> int, initial: seq<int>, p: int, t: int)
    requires initial != [] && forall i :: 0 <= i < |initial| ==> initial[i] == 0
    requires var loads := Assign(prefix, w, initial).loads; p <= t < loads[Least(loads)] + p
    ensures Total(prefix, Huge(w, p, t)) >= 2 * |initial|
  {
    var plan := Assign(prefix, w, initial);
    var v := Huge(w, p, t);
    AssignSum(prefix, w, initial, v);
    AssignLoads(prefix, w, initial);
    forall i | 0 <= i < |initial|
      ensures BinTotals(plan.bins, v)[i] >= 2
    {
      assert plan.loads[Least(plan.loads)] <= plan.loads[i];
      GreedySlots(plan.bins[i], w, p, t);
    }
    SumAtLeast(BinTotals(plan.bins, v), 2);
  }

  /** A unit heavier than a third of an achievable makespan never pushes the greedy plan past it. */
  lemma HeavyUnitsFit(prefix: seq<string>, u: string, w: string -> int, initial: seq<int>, f: string -> nat, t: int)
    requires initial != [] && forall i :: 0 <= i < |initial| ==> initial[i] == 0
    requires 0 < w(u) && forall x :: x in prefix ==> w(u) <= w(x)
    requires Feasible(prefix + [u], w, f, |initial|, t)
    requires t < 3 * w(u)
    ensures var loads := Assign(prefix, w, initial).loads; loads[Least(loads)] + w(u) <= t
  {
    FeasiblePrefix(prefix, u, w, f, |initial|, t);
    SlotsAvailable(prefix + [u], w, f, |initial|, w(u), t);
    TotalAppend(prefix, u, Huge(w, w(u), t));
    var loads := Assign(prefix, w, initial).loads;
    if loads[Least(loads)] + w(u) > t {
      SlotsFilled(prefix, w, initial, w(u), t);
    }
  }

  /** `load` is within (4m - 1)/3m of `t`. */
  predicate Near(m: int, load: int, t: int) {
    3 * m * load <= (4 * m - 1) * t
  }

  /** `m` loads of `before` and one unit of `last` fit in `m` makespans. */
  predicate Averaged(m: int, before: int, last: int, t: int) {
    m * before + last <= m * t
  }

  /** The least load is at most the average left free by the last unit. */
  lemma LeastIsAverage(prefix: seq<string>, u: string, w: string -> int, initial: seq<int>, f: string -> nat, t: int)
    requires initial != [] && forall i :: 0 <= i < |initial| ==> initial[i] == 0
    requires Feasible(prefix + [u], w, f, |initial|, t)
    ensures var loads := Assign(prefix, w, initial).loads; Averaged(|initial|, loads[Least(loads)], w(u), t)
  {
    var m, plan := |initial|, Assign(prefix, w, initial);
    var totals := BinTotals(plan.bins, w);
    SharesSum(prefix + [u], f, m, w);
    SumAtMost(ShareTotals(prefix + [u], f, m, w), t);
    TotalAppend(prefix, u, w);
    AssignSum(prefix, w, initial, w);
    AssignLoads(prefix, w, initial);
    var least := plan.loads[Least(plan.loads)];
    assert forall i :: 0 <= i < m ==> totals[i] == plan.loads[i];
    SumAtLeast(totals, least);
  }

  lemma Scale(m: int, load: int, t: int)
    requires 1 <= m && load <= t && 0 <= t
    ensures Near(m, load, t)
  {
    assert 3 * m * load <= 3 * m * t;
    assert (4 * m - 1) * t == 3 * m * t + (m - 1) * t;
    assert 0 <= (m - 1) * t;
  }

  lemma AverageBound(m: int, before: int, last: int, t: int)
    requires 1 <= m && Averaged(m, before, last, t) && 3 * last <= t
    ensures Near(m, before + last, t)
  {
    assert 3 * m * (before + last) == 3 * (m * before + last) + 3 * (m - 1) * last;
    assert (m - 1) * (3 * last) <= (m - 1) * t;
    assert (4 * m - 1) * t == 3 * (m * t) + (m - 1) * t;
  }

  /** Wherever the next unit goes, its worker stays within the bound. */
  lemma PlaceWithinBound(prefix: seq<string>, u: string, w: string -> int, initial: seq<int>, f: string -> nat, t: int)
    requires initial != [] && forall i :: 0 <= i < |initial| ==> initial[i] == 0
    requires 0 < w(u) && forall x :: x in prefix ==> w(u) <= w(x)
    requires Feasible(prefix + [u], w, f, |initial|, t)
    ensures var loads := Assign(prefix, w, initial).loads; Near(|initial|, loads[Least(loads)] + w(u), t)
  {
    hide Near, Averaged, Feasible, Assign;
    var m, loads := |initial|, Assign(prefix, w, initial).loads;
    FeasiblePrefix(prefix, u, w, f, m, t);
    if t < 3 * w(u) {
      HeavyUnitsFit(prefix, u, w, initial, f, t);
      Scale(m, loads[Least(loads)] + w(u), t);
    } else {
      LeastIsAverage(prefix, u, w, initial, f, t);
      AverageBound(m, loads[Least(loads)], w(u), t);
    }
  }

  lemma LastIsLightest(order: seq<string>, w: string -> int)
    requires order != [] && Decreasing(order, w)
    ensures Decreasing(order[..|order| - 1], w)
    ensures forall x :: x in order[..|order| - 1] ==> w(order[|order| - 1]) <= w(x)
  {}

  lemma AssignLast(order: seq<string>, w: string -> int, initial: seq<int>)
    requires order != [] && initial != []
    ensures Assign(order, w, initial) == Place(Assign(order[..|order| - 1], w, initial), order[|order| - 1], w)
  {}

  /** Graham's bound: from zero loads every greedy load is within (4m - 1)/3m of ANY assignment's makespan. */
  lemma {:induction false} MakespanBound(order: seq<string>, w: string -> int, initial: seq<int>, f: string -> nat,
                                         t: int)
    requires initial != [] && forall i :: 0 <= i < |initial| ==> initial[i] == 0
    requires Decreasing(order, w) && forall u :: u in order ==> 0 < w(u)
    requires 0 <= t && Feasible(order, w, f, |initial|, t)
    ensures forall i :: 0 <= i < |initial| ==> Near(|initial|, Assign(order, w, initial).loads[i], t)
  {
    hide Near, Feasible, Decreasing;
    var m := |initial|;
    if order == [] {
      Scale(m, 0, t);
    } else {
      hide Assign;
      var n := |order| - 1;
      var prefix, u := order[..n], order[n];
      assert order == prefix + [u];
      LastIsLightest(order, w);
      assert forall x :: x in prefix ==> x in order;
      FeasiblePrefix(prefix, u, w, f, m, t);
      MakespanBound(prefix, w, initial, f, t);
      PlaceWithinBound(prefix, u, w, initial, f, t);
      AssignLast(order, w, initial);
    }
  }

  // ---- Any initial loads -----------------------------------------------

  /** Without the unit it received last, worker `i` is no busier than worker `j`, and that unit is its lightest. */
  ghost predicate Relieved(p: Plan, w: string -> int, i: nat, j: nat)
    requires i < |p.bins| == |p.loads| && j < |p.bins|
  {
    p.bins[i] != [] ==>
      var last := p.bins[i][|p.bins[i]| - 1];
      (forall u :: u in p.bins[i] ==> w(last) <= w(u)) && p.loads[i] - w(last) <= p.loads[j]
  }

  lemma PlaceRelieved(p: Plan, u: string, w: string -> int, i: nat, j: nat)
    requires p.loads != [] && i < |p.bins| == |p.loads| && j < |p.bins|
    requires 0 < w(u) && (forall x :: x in p.bins[i] ==> w(u) <= w(x))
    requires Relieved(p, w, i, j)
    ensures Relieved(Place(p, u, w), w, i, j)
  {
    var k := Least(p.loads);
    assert p.loads[k] <= p.loads[j];
  }

  /** Under any initial loads, a bin without its last, lightest unit never exceeds another worker. */
  lemma {:induction false} BalancedUnderAnyLoads(order: seq<string>, w: string -> int, initial: seq<int>, i: nat,
                                                 j: nat)
    requires initial != [] && i < |initial| && j < |initial|
    requires Decreasing(order, w) && forall u :: u in order ==> 0 < w(u)
    ensures Relieved(Assign(order, w, initial), w, i, j)
  {
    hide Decreasing;
    if order != [] {
      hide Assign, Relieved;
      var n := |order| - 1;
      assert forall u :: u in order[..n] ==> u in order;
      LastIsLightest(order, w);
      BalancedUnderAnyLoads(order[..n], w, initial, i, j);
      AssignMembers(order[..n], w, initial, i);
      AssignLast(order, w, initial);
      PlaceRelieved(Assign(order[..n], w, initial), order[n], w, i, j);
    }
  }
}
