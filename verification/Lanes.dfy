/** Pairing the ordinary and CLI lanes and repairing empty workers (go_parent_shards.py, `build`). */
module Lanes {
  import opened Order
  import opened Shards

  function Range(m: nat): (r: seq<nat>)
    ensures |r| == m && forall i :: 0 <= i < m ==> r[i] == i
  {
    seq(m, i => i)
  }

  function LoadAt(loads: seq<int>, i: nat): int {
    if i < |loads| then loads[i] else 0
  }

  predicate Busy(bins: seq<seq<string>>, i: nat) {
    i < |bins| && bins[i] != []
  }

  /** Ordinary workers with nothing first, then by predicted load, then by index. */
  function IdleThenLight(bins: seq<seq<string>>, loads: seq<int>): (nat, nat) -> bool {
    (i: nat, j: nat) =>
      if Busy(bins, i) != Busy(bins, j) then Busy(bins, j)
      else if LoadAt(loads, i) != LoadAt(loads, j) then LoadAt(loads, i) < LoadAt(loads, j)
      else i <= j
  }

  /** CLI bins heaviest first, then by index. */
  function Heaviest(loads: seq<int>): (nat, nat) -> bool {
    (i: nat, j: nat) =>
      if LoadAt(loads, i) != LoadAt(loads, j) then LoadAt(loads, i) > LoadAt(loads, j) else i <= j
  }

  lemma WorkerOrdersLinear(bins: seq<seq<string>>, loads: seq<int>)
    ensures Linear(IdleThenLight(bins, loads)) && Linear(Heaviest(loads))
  {}

  /** The bins after the first `k` pairings of an ordinary worker with a CLI bin. */
  function Paired(bins: seq<seq<string>>, cli: seq<seq<string>>, hosts: seq<nat>, guests: seq<nat>, k: nat)
    : (r: seq<seq<string>>)
    requires k <= |hosts| && k <= |guests|
    requires Within(hosts, |bins|) && Within(guests, |cli|)
    ensures |r| == |bins|
  {
    if k == 0 then bins
    else
      var before := Paired(bins, cli, hosts, guests, k - 1);
      before[hosts[k - 1] := before[hosts[k - 1]] + cli[guests[k - 1]]]
  }

  predicate Within(indices: seq<nat>, m: nat) {
    forall k :: 0 <= k < |indices| ==> indices[k] < m
  }

  function Gather(bins: seq<seq<string>>, indices: seq<nat>): seq<string>
    requires Within(indices, |bins|)
  {
    if indices == [] then []
    else Gather(bins, indices[..|indices| - 1]) + bins[indices[|indices| - 1]]
  }

  lemma {:induction false} GatherConcat(bins: seq<seq<string>>, a: seq<nat>, b: seq<nat>)
    requires Within(a, |bins|) && Within(b, |bins|)
    ensures Gather(bins, a + b) == Gather(bins, a) + Gather(bins, b)
  {
    if b == [] {
      assert a + b == a;
    } else {
      var n := |b| - 1;
      assert (a + b)[..|a + b| - 1] == a + b[..n];
      GatherConcat(bins, a, b[..n]);
    }
  }

  lemma GatherInsert(bins: seq<seq<string>>, front: seq<nat>, x: nat, back: seq<nat>)
    requires Within(front, |bins|) && Within(back, |bins|) && x < |bins|
    ensures multiset(Gather(bins, front + [x] + back)) == multiset(Gather(bins, front + back)) + multiset(bins[x])
  {
    GatherConcat(bins, front, back);
    GatherConcat(bins, front + [x], back);
    assert (front + [x])[..|front|] == front;
  }

  lemma {:induction false} GatherPermutation(bins: seq<seq<string>>, a: seq<nat>, b: seq<nat>)
    requires multiset(a) == multiset(b) && Within(a, |bins|) && Within(b, |bins|)
    ensures multiset(Gather(bins, a)) == multiset(Gather(bins, b))
  {
    MultisetMembers(a, b);
    if a != [] {
      var j := Locate(a, b);
      var front, back := b[..j], b[j + 1..];
      GatherPermutation(bins, a[..|a| - 1], front + back);
      GatherInsert(bins, front, b[j], back);
    }
  }

  lemma {:induction false} GatherAll(bins: seq<seq<string>>, k: nat)
    requires k <= |bins|
    ensures Gather(bins, Range(k)) == Flatten(bins[..k])
  {
    if k > 0 {
      assert Range(k)[..k - 1] == Range(k - 1);
      assert bins[..k][..k - 1] == bins[..k - 1];
      GatherAll(bins, k - 1);
    }
  }

  lemma {:induction false} PairedUnits(bins: seq<seq<string>>, cli: seq<seq<string>>, hosts: seq<nat>, guests: seq<nat>,
                                       k: nat)
    requires k <= |hosts| && k <= |guests|
    requires Within(hosts, |bins|) && Within(guests, |cli|)
    ensures multiset(Flatten(Paired(bins, cli, hosts, guests, k))) ==
            multiset(Flatten(bins)) + multiset(Gather(cli, guests[..k]))
  {
    hide Flatten;
    if k > 0 {
      assert guests[..k][..k - 1] == guests[..k - 1];
      PairedUnits(bins, cli, hosts, guests, k - 1);
      var before := Paired(bins, cli, hosts, guests, k - 1);
      var h, extra := hosts[k - 1], cli[guests[k - 1]];
      FlattenUpdate(before, h, before[h] + extra);
      var all, held := multiset(Flatten(before)), multiset(before[h]);
      assert all + multiset(before[h] + extra) == (all + multiset(extra)) + held;
      Cancel(multiset(Flatten(before[h := before[h] + extra])), all + multiset(extra), held);
    }
  }

  /** Predicted load of every worker once its lanes are combined. */
  function Loads(bins: seq<seq<string>>, fixed: seq<int>, w: string -> int): (r: seq<int>)
    requires |bins| == |fixed|
    ensures |r| == |bins| && forall i :: 0 <= i < |r| ==> r[i] == fixed[i] + Total(bins[i], w)
  {
    seq(|bins|, i requires 0 <= i < |bins| => fixed[i] + Total(bins[i], w))
  }

  function Hosts(ordinary: seq<seq<string>>, fixed: seq<int>, w: string -> int): seq<nat>
    requires |ordinary| == |fixed|
  {
    Sort(IdleThenLight(ordinary, Loads(ordinary, fixed, w)), Range(|ordinary|))
  }

  function Guests(cli: seq<seq<string>>, w: string -> int): seq<nat> {
    Sort(Heaviest(Loads(cli, ZeroLoads(|cli|), w)), Range(|cli|))
  }

  lemma HostsAndGuests(ordinary: seq<seq<string>>, cli: seq<seq<string>>, fixed: seq<int>, w: string -> int)
    requires |ordinary| == |fixed| == |cli|
    ensures |Hosts(ordinary, fixed, w)| == |Guests(cli, w)| == |ordinary|
    ensures Within(Hosts(ordinary, fixed, w), |ordinary|) && Within(Guests(cli, w), |cli|)
    ensures multiset(Guests(cli, w)) == multiset(Range(|cli|))
  {
    WorkerOrdersLinear(ordinary, Loads(ordinary, fixed, w));
    WorkerOrdersLinear(cli, Loads(cli, ZeroLoads(|cli|), w));
    SortedRange(IdleThenLight(ordinary, Loads(ordinary, fixed, w)), |ordinary|);
    SortedRange(Heaviest(Loads(cli, ZeroLoads(|cli|), w)), |cli|);
  }

  lemma SortedRange(leq: (nat, nat) -> bool, m: nat)
    requires Linear(leq)
    ensures |Sort(leq, Range(m))| == m && Within(Sort(leq, Range(m)), m)
    ensures multiset(Sort(leq, Range(m))) == multiset(Range(m))
  {
    SortSorts(leq, Range(m));
    MultisetMembers(Sort(leq, Range(m)), Range(m));
    var s := Sort(leq, Range(m));
    forall k | 0 <= k < |s|
      ensures s[k] < m
    {
      assert s[k] in s;
    }
  }

  /** Both lanes on every worker: the lightest ordinary lane hosts the heaviest CLI bin, and so on. */
  function Combined(ordinary: seq<seq<string>>, cli: seq<seq<string>>, fixed: seq<int>, w: string -> int)
    : (r: seq<seq<string>>)
    requires |ordinary| == |fixed| == |cli|
    ensures |r| == |ordinary|
  {
    HostsAndGuests(ordinary, cli, fixed, w);
    var hosts, guests := Hosts(ordinary, fixed, w), Guests(cli, w);
    Paired(ordinary, cli, hosts, guests, |ordinary|)
  }

  /** Pairing moves no unit out of sight: both lanes' units are all there, once. */
  lemma {:induction false} CombinedUnits(ordinary: seq<seq<string>>, cli: seq<seq<string>>, fixed: seq<int>,
                                         w: string -> int)
    requires |ordinary| == |fixed| == |cli|
    ensures multiset(Flatten(Combined(ordinary, cli, fixed, w))) == multiset(Flatten(ordinary)) + multiset(Flatten(cli))
  {
    HostsAndGuests(ordinary, cli, fixed, w);
    var m, hosts, guests := |ordinary|, Hosts(ordinary, fixed, w), Guests(cli, w);
    assert guests[..m] == guests && cli[..m] == cli;
    PairedUnits(ordinary, cli, hosts, guests, m);
    GatherPermutation(cli, guests, Range(m));
    GatherAll(cli, m);
  }

  lemma {:induction false} PairedAt(bins: seq<seq<string>>, cli: seq<seq<string>>, hosts: seq<nat>, guests: seq<nat>,
                                    k: nat, a: nat)
    requires k <= |hosts| && k <= |guests| && a < |hosts|
    requires Within(hosts, |bins|) && Within(guests, |cli|) && Distinct(hosts)
    ensures Paired(bins, cli, hosts, guests, k)[hosts[a]] ==
            if a < k then bins[hosts[a]] + cli[guests[a]] else bins[hosts[a]]
  {
    if k > 0 {
      PairedAt(bins, cli, hosts, guests, k - 1, a);
    }
  }

  /** Each ordinary worker gets one CLI bin whole, and the order of the two lanes is opposed: of two workers, the one
      that is idle, or lighter when both or neither are, never gets the lighter CLI bin. */
  lemma LighterHostsHeavier(ordinary: seq<seq<string>>, cli: seq<seq<string>>, fixed: seq<int>, w: string -> int,
                            a: nat, b: nat)
    requires |ordinary| == |fixed| == |cli| && a < b < |ordinary|
    ensures |Hosts(ordinary, fixed, w)| == |Guests(cli, w)| == |ordinary|
    ensures var hosts, guests := Hosts(ordinary, fixed, w), Guests(cli, w);
            && hosts[a] < |ordinary| && hosts[b] < |ordinary| && guests[a] < |cli| && guests[b] < |cli|
            && hosts[a] != hosts[b] && guests[a] != guests[b]
            && Combined(ordinary, cli, fixed, w)[hosts[a]] == ordinary[hosts[a]] + cli[guests[a]]
            && (ordinary[hosts[a]] == [] || ordinary[hosts[b]] != [])
            && ((ordinary[hosts[a]] == [] <==> ordinary[hosts[b]] == []) ==>
                  Loads(ordinary, fixed, w)[hosts[a]] <= Loads(ordinary, fixed, w)[hosts[b]])
            && Total(cli[guests[a]], w) >= Total(cli[guests[b]], w)
  {
    hide Hosts, Guests, Paired;
    HostsAndGuests(ordinary, cli, fixed, w);
    HostsSorted(ordinary, fixed, w, a, b);
    GuestsSorted(cli, w, a, b);
    var hosts, loads := Hosts(ordinary, fixed, w), Loads(ordinary, fixed, w);
    PairedAt(ordinary, cli, hosts, Guests(cli, w), |ordinary|, a);
    assert LoadAt(loads, hosts[a]) == loads[hosts[a]] && LoadAt(loads, hosts[b]) == loads[hosts[b]];
    assert Busy(ordinary, hosts[a]) <==> ordinary[hosts[a]] != [];
    assert Busy(ordinary, hosts[b]) <==> ordinary[hosts[b]] != [];
  }

  lemma HostsSorted(ordinary: seq<seq<string>>, fixed: seq<int>, w: string -> int, a: nat, b: nat)
    requires |ordinary| == |fixed| && a < b < |ordinary|
    ensures var hosts := Hosts(ordinary, fixed, w);
            && |hosts| == |ordinary| && Distinct(hosts)
            && IdleThenLight(ordinary, Loads(ordinary, fixed, w))(hosts[a], hosts[b])
  {
    hide IdleThenLight;
    var loads := Loads(ordinary, fixed, w);
    WorkerOrdersLinear(ordinary, loads);
    SortSorts(IdleThenLight(ordinary, loads), Range(|ordinary|));
    SortMembers(IdleThenLight(ordinary, loads), Range(|ordinary|));
  }

  lemma GuestsSorted(cli: seq<seq<string>>, w: string -> int, a: nat, b: nat)
    requires a < b < |cli|
    ensures var guests := Guests(cli, w);
            |guests| == |cli| && Distinct(guests) && Heaviest(Loads(cli, ZeroLoads(|cli|), w))(guests[a], guests[b])
  {
    hide Heaviest;
    var loads := Loads(cli, ZeroLoads(|cli|), w);
    WorkerOrdersLinear(cli, loads);
    SortSorts(Heaviest(loads), Range(|cli|));
    SortMembers(Heaviest(loads), Range(|cli|));
  }

  /** Worker `i` is served before worker `j`: it is idle and the other is not, or it is the lighter. */
  predicate Before(ordinary: seq<seq<string>>, fixed: seq<int>, w: string -> int, i: nat, j: nat)
    requires i < |ordinary| == |fixed| && j < |ordinary|
  {
    || (ordinary[i] == [] && ordinary[j] != [])
    || ((ordinary[i] == [] <==> ordinary[j] == [])
        && fixed[i] + Total(ordinary[i], w) < fixed[j] + Total(ordinary[j], w))
  }

  /** Worker `i` has its ordinary bin and the CLI bin `guest[i]`, no CLI bin serves two, and who is served before
      another gets no lighter CLI bin. */
  ghost predicate Opposed(ordinary: seq<seq<string>>, cli: seq<seq<string>>, fixed: seq<int>, w: string -> int,
                          guest: seq<nat>, bins: seq<seq<string>>)
  {
    && |ordinary| == |cli| == |fixed| == |guest| == |bins|
    && Distinct(guest) && Within(guest, |cli|)
    && (forall i :: 0 <= i < |bins| ==> bins[i] == ordinary[i] + cli[guest[i]])
    && forall i, j :: 0 <= i < |bins| && 0 <= j < |bins| && Before(ordinary, fixed, w, i, j) ==>
         Total(cli[guest[i]], w) >= Total(cli[guest[j]], w)
  }

  /** Where each worker stands among the hosts. */
  lemma {:induction false} Places(hosts: seq<nat>, k: nat) returns (place: seq<nat>)
    requires Distinct(hosts) && multiset(hosts) == multiset(Range(|hosts|)) && k <= |hosts|
    ensures |place| == k && forall i :: 0 <= i < k ==> place[i] < |hosts| && hosts[place[i]] == i
  {
    place := [];
    if k > 0 {
      var front := Places(hosts, k - 1);
      assert Range(|hosts|)[k - 1] == k - 1 && k - 1 in Range(|hosts|);
      MultisetMembers(hosts, Range(|hosts|));
      var a :| 0 <= a < |hosts| && hosts[a] == k - 1;
      place := front + [a];
    }
  }

  lemma CombinedOpposed(ordinary: seq<seq<string>>, cli: seq<seq<string>>, fixed: seq<int>, w: string -> int)
    requires |ordinary| == |fixed| == |cli|
    ensures exists guest :: Opposed(ordinary, cli, fixed, w, guest, Combined(ordinary, cli, fixed, w))
  {
    hide Hosts, Guests, Paired, IdleThenLight, Heaviest, Total;
    var m, hosts, guests := |ordinary|, Hosts(ordinary, fixed, w), Guests(cli, w);
    var bins := Combined(ordinary, cli, fixed, w);
    HostsAndGuests(ordinary, cli, fixed, w);
    HostsDistinct(ordinary, cli, fixed, w);
    var place := Places(hosts, m);
    var guest := seq(m, i requires 0 <= i < m => guests[place[i]]);
    forall i, j | 0 <= i < m && 0 <= j < m && Before(ordinary, fixed, w, i, j)
      ensures Total(cli[guest[i]], w) >= Total(cli[guest[j]], w)
    {
      if place[i] < place[j] {
        LighterHostsHeavier(ordinary, cli, fixed, w, place[i], place[j]);
      } else if place[j] < place[i] {
        LighterHostsHeavier(ordinary, cli, fixed, w, place[j], place[i]);
      }
    }
    forall i | 0 <= i < m
      ensures bins[i] == ordinary[i] + cli[guest[i]]
    {
      PairedAt(ordinary, cli, hosts, guests, m, place[i]);
    }
    forall i, j | 0 <= i < j < m
      ensures guest[i] != guest[j]
    {
      assert place[i] != place[j];
    }
    assert Opposed(ordinary, cli, fixed, w, guest, bins);
  }

  lemma HostsDistinct(ordinary: seq<seq<string>>, cli: seq<seq<string>>, fixed: seq<int>, w: string -> int)
    requires |ordinary| == |fixed| == |cli|
    ensures Distinct(Hosts(ordinary, fixed, w)) && Distinct(Guests(cli, w))
    ensures multiset(Hosts(ordinary, fixed, w)) == multiset(Range(|ordinary|))
  {
    var loads, zero := Loads(ordinary, fixed, w), Loads(cli, ZeroLoads(|cli|), w);
    WorkerOrdersLinear(ordinary, loads);
    WorkerOrdersLinear(cli, zero);
    SortedRange(IdleThenLight(ordinary, loads), |ordinary|);
    SortMembers(IdleThenLight(ordinary, loads), Range(|ordinary|));
    SortMembers(Heaviest(zero), Range(|cli|));
  }

  // ---- Repairing empty workers ------------------------------------------

  /** The busiest of the first `k` workers holding more than one unit, lowest index first. */
  function Donor(bins: seq<seq<string>>, loads: seq<int>, k: nat): (d: Option<nat>)
    requires k <= |bins| == |loads|
    ensures d.Some? ==> d.value < k && |bins[d.value]| > 1
    ensures d.None? <==> forall i :: 0 <= i < k ==> |bins[i]| <= 1
    ensures d.Some? ==> forall i :: 0 <= i < k && |bins[i]| > 1 ==>
                          loads[i] < loads[d.value] || (loads[i] == loads[d.value] && d.value <= i)
  {
    if k == 0 then None
    else
      var before := Donor(bins, loads, k - 1);
      if |bins[k - 1]| > 1 && (before.None? || loads[before.value] < loads[k - 1]) then Some(k - 1) else before
  }

  /** The lightest unit of a worker, first by name among equals. */
  function Lightest(names: seq<string>, w: string -> int): (u: string)
    requires names != []
    ensures u in names
    ensures forall v :: v in names ==> w(u) < w(v) || (w(u) == w(v) && StringLeq(u, v))
  {
    StringLinear();
    var last := names[|names| - 1];
    if |names| == 1 then last
    else
      var best := Lightest(names[..|names| - 1], w);
      assert forall v :: v in names ==> v in names[..|names| - 1] || v == last;
      if w(last) < w(best) || (w(last) == w(best) && StringLeq(last, best)) then last else best
  }

  /** list.remove */
  function Remove(names: seq<string>, u: string): (r: seq<string>)
    requires u in names
    ensures |r| == |names| - 1
    ensures multiset(r) + multiset{u} == multiset(names)
  {
    assert names == [names[0]] + names[1..];
    if names[0] == u then names[1..] else [names[0]] + Remove(names[1..], u)
  }

  function Donate(bins: seq<seq<string>>, donor: nat, index: nat, w: string -> int): (r: seq<seq<string>>)
    requires donor < |bins| && index < |bins| && bins[donor] != []
    ensures |r| == |bins|
  {
    var moved := Lightest(bins[donor], w);
    var middle := bins[donor := Remove(bins[donor], moved)];
    middle[index := middle[index] + [moved]]
  }

  /** The repair loop over the workers found empty; `None` is "not enough execution units". */
  function Repaired(bins: seq<seq<string>>, todo: seq<nat>, fixed: seq<int>, w: string -> int)
    : (r: Option<seq<seq<string>>>)
    requires |bins| == |fixed|
    requires Within(todo, |bins|)
    ensures r.Some? ==> |r.value| == |bins|
    decreases |todo|
  {
    if todo == [] then Some(bins)
    else
      var donor := Donor(bins, Loads(bins, fixed, w), |bins|);
      if donor.None? then None
      else Repaired(Donate(bins, donor.value, todo[0], w), todo[1..], fixed, w)
  }

  /** Exactly the listed workers are empty. */
  ghost predicate OnlyEmpty(bins: seq<seq<string>>, todo: seq<nat>) {
    && Distinct(todo)
    && forall i :: 0 <= i < |bins| ==> (bins[i] == [] <==> i in todo)
  }

  lemma {:induction false} DonateUnits(bins: seq<seq<string>>, donor: nat, index: nat, w: string -> int)
    requires donor < |bins| && index < |bins| && bins[donor] != []
    ensures multiset(Flatten(Donate(bins, donor, index, w))) == multiset(Flatten(bins))
  {
    var moved := Lightest(bins[donor], w);
    var less := Remove(bins[donor], moved);
    var middle := bins[donor := less];
    FlattenUpdate(bins, donor, less);
    FlattenUpdate(middle, index, middle[index] + [moved]);
    var a, b, c := multiset(Flatten(bins)), multiset(Flatten(middle)), multiset(Flatten(Donate(bins, donor, index, w)));
    assert b + (multiset(less) + multiset{moved}) == a + multiset(less);
    assert (b + multiset{moved}) + multiset(less) == a + multiset(less);
    Cancel(b + multiset{moved}, a, multiset(less));
    assert multiset(middle[index] + [moved]) == multiset(middle[index]) + multiset{moved};
    assert c + multiset(middle[index]) == (b + multiset{moved}) + multiset(middle[index]);
    Cancel(c, b + multiset{moved}, multiset(middle[index]));
  }

  /** The repair fills every worker exactly when there is a unit for each, and loses none. */
  lemma {:induction false} RepairedFills(bins: seq<seq<string>>, todo: seq<nat>, fixed: seq<int>, w: string -> int)
    requires |bins| == |fixed| && OnlyEmpty(bins, todo)
    requires Within(todo, |bins|)
    ensures Repaired(bins, todo, fixed, w).Some? <==> |bins| <= |Flatten(bins)|
    ensures var r := Repaired(bins, todo, fixed, w);
            r.Some? ==>
              && multiset(Flatten(r.value)) == multiset(Flatten(bins))
              && forall i :: 0 <= i < |bins| ==> r.value[i] != []
    decreases |todo|
  {
    FlattenLength(bins);
    if todo != [] {
      var donor := Donor(bins, Loads(bins, fixed, w), |bins|);
      assert todo[0] in todo;
      if donor.Some? {
        var next := Donate(bins, donor.value, todo[0], w);
        DonateUnits(bins, donor.value, todo[0], w);
        MultisetMembers(Flatten(next), Flatten(bins));
        DonateEmpties(bins, todo, donor.value, w);
        RepairedFills(next, todo[1..], fixed, w);
      }
    }
  }

  lemma DonateEmpties(bins: seq<seq<string>>, todo: seq<nat>, donor: nat, w: string -> int)
    requires OnlyEmpty(bins, todo) && todo != [] && Within(todo, |bins|)
    requires donor < |bins| && |bins[donor]| > 1
    ensures OnlyEmpty(Donate(bins, donor, todo[0], w), todo[1..])
  {
    var next := Donate(bins, donor, todo[0], w);
    assert todo == [todo[0]] + todo[1..];
    assert todo[0] in todo && bins[todo[0]] == [];
    assert todo[0] !in todo[1..];
    forall i | 0 <= i < |next|
      ensures next[i] == [] <==> i in todo[1..]
    {
      assert i in todo <==> i == todo[0] || i in todo[1..];
    }
  }

  /** Unit `u` moves from the busiest worker that can spare one, lowest index first, where it is the lightest, earliest
      name first, to worker `index`. */
  ghost predicate Moves(before: seq<seq<string>>, after: seq<seq<string>>, donor: nat, u: string, index: nat,
                        fixed: seq<int>, w: string -> int)
  {
    && |before| == |after| == |fixed| && donor < |before| && index < |before| && donor != index
    && |before[donor]| > 1 && u in before[donor]
    && (forall i :: 0 <= i < |before| && |before[i]| > 1 ==>
          var load, most := fixed[i] + Total(before[i], w), fixed[donor] + Total(before[donor], w);
          load < most || (load == most && donor <= i))
    && (forall v :: v in before[donor] ==> w(u) < w(v) || (w(u) == w(v) && StringLeq(u, v)))
    && multiset(after[donor]) + multiset{u} == multiset(before[donor]) && after[index] == before[index] + [u]
    && forall i :: 0 <= i < |before| && i != donor && i != index ==> after[i] == before[i]
  }

  ghost predicate Relieved(before: seq<seq<string>>, after: seq<seq<string>>, index: nat, fixed: seq<int>,
                           w: string -> int)
  {
    exists donor, u :: Moves(before, after, donor, u, index, fixed, w)
  }

  /** One move for every worker listed, in order. */
  ghost predicate Run(run: seq<seq<seq<string>>>, todo: seq<nat>, fixed: seq<int>, w: string -> int) {
    && |run| == |todo| + 1
    && forall k :: 0 <= k < |todo| ==> Relieved(run[k], run[k + 1], todo[k], fixed, w)
  }

  lemma DonateRelieves(bins: seq<seq<string>>, todo: seq<nat>, donor: nat, fixed: seq<int>, w: string -> int)
    requires |bins| == |fixed| && OnlyEmpty(bins, todo) && todo != [] && Within(todo, |bins|)
    requires Donor(bins, Loads(bins, fixed, w), |bins|) == Some(donor)
    ensures Relieved(bins, Donate(bins, donor, todo[0], w), todo[0], fixed, w)
  {
    assert todo[0] in todo;
    assert Moves(bins, Donate(bins, donor, todo[0], w), donor, Lightest(bins[donor], w), todo[0], fixed, w);
  }

  lemma RunCons(bins: seq<seq<string>>, rest: seq<seq<seq<string>>>, todo: seq<nat>, fixed: seq<int>,
                w: string -> int)
    requires todo != [] && Run(rest, todo[1..], fixed, w) && Relieved(bins, rest[0], todo[0], fixed, w)
    ensures Run([bins] + rest, todo, fixed, w)
    ensures ([bins] + rest)[0] == bins && ([bins] + rest)[|todo|] == rest[|todo| - 1]
  {
    hide Relieved;
    var run := [bins] + rest;
    forall k | 0 <= k < |todo|
      ensures Relieved(run[k], run[k + 1], todo[k], fixed, w)
    {
      if k > 0 {
        assert Relieved(rest[k - 1], rest[k], todo[1..][k - 1], fixed, w);
      }
    }
  }

  lemma RepairStep(bins: seq<seq<string>>, todo: seq<nat>, fixed: seq<int>, w: string -> int)
    returns (next: seq<seq<string>>)
    requires |bins| == |fixed| && OnlyEmpty(bins, todo) && Within(todo, |bins|) && todo != []
    requires Repaired(bins, todo, fixed, w).Some?
    ensures Relieved(bins, next, todo[0], fixed, w)
    ensures |next| == |bins| && OnlyEmpty(next, todo[1..]) && Within(todo[1..], |next|)
    ensures Repaired(next, todo[1..], fixed, w) == Repaired(bins, todo, fixed, w)
  {
    hide Relieved, Donate, Loads, OnlyEmpty;
    var donor := Donor(bins, Loads(bins, fixed, w), |bins|).value;
    DonateRelieves(bins, todo, donor, fixed, w);
    assert todo[0] in todo;
    next := Donate(bins, donor, todo[0], w);
    DonateEmpties(bins, todo, donor, w);
  }

  lemma NothingToRepair(bins: seq<seq<string>>, fixed: seq<int>, w: string -> int)
    requires |bins| == |fixed|
    ensures Repaired(bins, [], fixed, w) == Some(bins)
  {}

  /** The repair is a run of such moves, one for every empty worker. */
  lemma {:induction false} RepairRuns(bins: seq<seq<string>>, todo: seq<nat>, fixed: seq<int>, w: string -> int)
    returns (run: seq<seq<seq<string>>>)
    requires |bins| == |fixed| && OnlyEmpty(bins, todo) && Within(todo, |bins|)
    requires Repaired(bins, todo, fixed, w).Some?
    ensures Run(run, todo, fixed, w) && |run| == |todo| + 1
    ensures run[0] == bins && run[|todo|] == Repaired(bins, todo, fixed, w).value
    decreases |todo|
  {
    hide Relieved, OnlyEmpty, Repaired;
    if todo == [] {
      NothingToRepair(bins, fixed, w);
      return [bins];
    }
    hide Run;
    var next := RepairStep(bins, todo, fixed, w);
    var rest := RepairRuns(next, todo[1..], fixed, w);
    RunCons(bins, rest, todo, fixed, w);
    run := [bins] + rest;
  }

  function Empties(bins: seq<seq<string>>, k: nat): seq<nat>
    requires k <= |bins|
  {
    if k == 0 then [] else if bins[k - 1] == [] then Empties(bins, k - 1) + [k - 1] else Empties(bins, k - 1)
  }

  lemma {:induction false} EmptiesMembers(bins: seq<seq<string>>, k: nat)
    requires k <= |bins|
    ensures Distinct(Empties(bins, k))
    ensures Within(Empties(bins, k), k)
    ensures forall i :: 0 <= i < k ==> (bins[i] == [] <==> i in Empties(bins, k))
  {
    if k > 0 {
      EmptiesMembers(bins, k - 1);
    }
  }

  /** The pairing loop. */
  method Pair(ordinary: seq<seq<string>>, cli: seq<seq<string>>, fixed: seq<int>, w: string -> int)
    returns (bins: seq<seq<string>>)
    requires |ordinary| == |fixed| == |cli|
    ensures bins == Combined(ordinary, cli, fixed, w)
  {
    HostsAndGuests(ordinary, cli, fixed, w);
    var hosts, guests := Hosts(ordinary, fixed, w), Guests(cli, w);
    bins := ordinary;
    for k := 0 to |ordinary|
      invariant bins == Paired(ordinary, cli, hosts, guests, k)
    {
      bins := bins[hosts[k] := bins[hosts[k]] + cli[guests[k]]];
    }
  }

  /** The repair loop: every empty worker takes the lightest unit of the busiest worker that can spare one. */
  method Repair(bins: seq<seq<string>>, fixed: seq<int>, w: string -> int) returns (r: Option<seq<seq<string>>>)
    requires |bins| == |fixed|
    ensures Within(Empties(bins, |bins|), |bins|) && r == Repaired(bins, Empties(bins, |bins|), fixed, w)
  {
    EmptiesMembers(bins, |bins|);
    var todo := Empties(bins, |bins|);
    var current := bins;
    for k := 0 to |todo|
      invariant |current| == |bins|
      invariant Repaired(current, todo[k..], fixed, w) == Repaired(bins, todo, fixed, w)
    {
      assert todo[k..][1..] == todo[k + 1..];
      var donor := Donor(current, Loads(current, fixed, w), |current|);
      if donor.None? {
        return None;
      }
      current := Donate(current, donor.value, todo[k], w);
    }
    r := Some(current);
  }

  // ---- Only the weights of the units themselves matter --------------------

  lemma {:induction false} TotalCongruent(names: seq<string>, w: string -> int, w': string -> int)
    requires forall u :: u in names ==> w(u) == w'(u)
    ensures Total(names, w) == Total(names, w')
  {
    if names != [] {
      assert names[|names| - 1] in names;
      assert forall u :: u in names[..|names| - 1] ==> u in names;
      TotalCongruent(names[..|names| - 1], w, w');
    }
  }

  lemma LoadsCongruent(bins: seq<seq<string>>, fixed: seq<int>, w: string -> int, w': string -> int)
    requires |bins| == |fixed| && forall u :: u in Flatten(bins) ==> w(u) == w'(u)
    ensures Loads(bins, fixed, w) == Loads(bins, fixed, w')
  {
    hide Total, Flatten;
    FlattenMembers(bins);
    forall i | 0 <= i < |bins|
      ensures Total(bins[i], w) == Total(bins[i], w')
    {
      assert forall u :: u in bins[i] ==> u in Flatten(bins);
      TotalCongruent(bins[i], w, w');
    }
  }

  lemma {:induction false} CombinedCongruent(ordinary: seq<seq<string>>, cli: seq<seq<string>>, fixed: seq<int>,
                                             w: string -> int, w': string -> int)
    requires |ordinary| == |fixed| == |cli|
    requires forall u :: u in Flatten(ordinary) || u in Flatten(cli) ==> w(u) == w'(u)
    ensures Combined(ordinary, cli, fixed, w) == Combined(ordinary, cli, fixed, w')
  {
    LoadsCongruent(ordinary, fixed, w, w');
    LoadsCongruent(cli, ZeroLoads(|cli|), w, w');
  }

  lemma {:induction false} LightestCongruent(names: seq<string>, w: string -> int, w': string -> int)
    requires names != [] && forall u :: u in names ==> w(u) == w'(u)
    ensures Lightest(names, w) == Lightest(names, w')
  {
    StringLinear();
    var a, b := Lightest(names, w), Lightest(names, w');
    assert w(a) == w'(a) && w(b) == w'(b);
  }

  lemma {:induction false} RepairedCongruent(bins: seq<seq<string>>, todo: seq<nat>, fixed: seq<int>, w: string -> int,
                                             w': string -> int)
    requires |bins| == |fixed| && Within(todo, |bins|)
    requires forall u :: u in Flatten(bins) ==> w(u) == w'(u)
    requires OnlyEmpty(bins, todo)
    ensures Repaired(bins, todo, fixed, w) == Repaired(bins, todo, fixed, w')
    decreases |todo|
  {
    hide Loads, Donor, Donate, Flatten, OnlyEmpty;
    LoadsCongruent(bins, fixed, w, w');
    if todo != [] {
      var donor := Donor(bins, Loads(bins, fixed, w), |bins|);
      if donor.Some? {
        var d := donor.value;
        assert todo[0] in todo;
        DonateCongruent(bins, d, todo[0], w, w');
        DonateEmpties(bins, todo, d, w);
        RepairedCongruent(Donate(bins, d, todo[0], w), todo[1..], fixed, w, w');
      }
    }
  }

  lemma DonateCongruent(bins: seq<seq<string>>, donor: nat, index: nat, w: string -> int, w': string -> int)
    requires donor < |bins| && index < |bins| && bins[donor] != []
    requires forall u :: u in Flatten(bins) ==> w(u) == w'(u)
    ensures Donate(bins, donor, index, w) == Donate(bins, donor, index, w')
    ensures forall u :: u in Flatten(Donate(bins, donor, index, w)) ==> w(u) == w'(u)
  {
    hide Flatten, Lightest;
    FlattenMembers(bins);
    assert forall u :: u in bins[donor] ==> u in Flatten(bins);
    LightestCongruent(bins[donor], w, w');
    DonateUnits(bins, donor, index, w);
    MultisetMembers(Flatten(Donate(bins, donor, index, w)), Flatten(bins));
  }
}
