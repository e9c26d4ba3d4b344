/** `cli_durations` of scripts/generate_go_shard_hints.py: a forest of test bodies recovered from slash names and
    lifecycles, and the logical cost of every tree in it. Instants and durations are exact, in one unit. */
module CostForest {
  import opened Order

  /** run, terminal - or run, pause, cont, terminal - with the elapsed time the terminal reports. */
  datatype Node =
    | Sequential(elapsed: int, run: int, end: int)
    | Parallel(elapsed: int, run: int, pause: int, cont: int, end: int)

  /** The time a body holds its parent up. */
  function Synchronous(n: Node): int {
    match n
    case Sequential(_, run, end) => end - run
    case Parallel(_, run, pause, _, _) => pause - run
  }

  /** The parent was active when the child started, and its lifecycle contains the child's. */
  predicate Encloses(parent: Node, child: Node) {
    && (parent.Sequential? || child.run < parent.pause || child.run >= parent.cont)
    && parent.run <= child.run && parent.end >= child.end
  }

  type Nodes = map<string, Node>

  /** name.rsplit('/', 1)[0] */
  function Above(name: string): (p: string)
    requires '/' in name
    ensures |p| < |name| && p + "/" <= name
  {
    var n := |name| - 1;
    if name[n] == '/' then name[..n] else Above(name[..n])
  }

  /** The search upwards from a prefix: the first executed body on the way that encloses the child. */
  function Search(nodes: Nodes, child: Node, prefix: string): (p: Option<string>)
    ensures p.Some? ==> p.value in nodes && Encloses(nodes[p.value], child) && |p.value| <= |prefix|
    ensures p.Some? ==> p.value == prefix || p.value + "/" <= prefix
    decreases |prefix|
  {
    if prefix in nodes && Encloses(nodes[prefix], child) then Some(prefix)
    else if '/' !in prefix then None
    else Search(nodes, child, Above(prefix))
  }

  /** A body with a slash in its name has a parent, if the search finds one. */
  function Parent(nodes: Nodes, name: string): (p: Option<string>)
    ensures p.Some? ==> p.value in nodes && name in nodes && Encloses(nodes[p.value], nodes[name])
    ensures p.Some? ==> |p.value| < |name| && p.value + "/" <= name
  {
    if name in nodes && '/' in name then Search(nodes, nodes[name], Above(name)) else None
  }

  lemma {:induction false} AboveIsLongest(name: string, p: string)
    requires '/' in name && p + "/" <= name
    ensures p == Above(name) || p + "/" <= Above(name)
  {
    var n := |name| - 1;
    if name[n] == '/' {
      if |p| < n {
        assert (p + "/")[|p|] == name[|p|];
        assert p + "/" <= name[..n];
      } else {
        assert p == name[..n];
      }
    } else {
      assert |p| < n by {
        assert (p + "/")[|p|] == name[|p|];
      }
      assert '/' in name[..n] by {
        assert (p + "/")[|p|] == name[..n][|p|];
      }
      assert p + "/" <= name[..n];
      AboveIsLongest(name[..n], p);
    }
  }

  /** The parent is the nearest: no enclosing executed prefix is longer, and there is one unless none encloses it. */
  lemma {:induction false} SearchFindsNearest(nodes: Nodes, child: Node, prefix: string, q: string)
    requires (q == prefix || q + "/" <= prefix) && q in nodes && Encloses(nodes[q], child)
    ensures Search(nodes, child, prefix).Some? && |q| <= |Search(nodes, child, prefix).value|
    decreases |prefix|
  {
    if !(prefix in nodes && Encloses(nodes[prefix], child)) {
      assert '/' in prefix by {
        assert (q + "/")[|q|] == prefix[|q|];
      }
      AboveIsLongest(prefix, q);
      SearchFindsNearest(nodes, child, Above(prefix), q);
    }
  }

  /** A lifecycle that contains the child's, and during which the child started while it was not paused. */
  ghost predicate Around(parent: Node, child: Node) {
    && parent.run <= child.run && child.end <= parent.end
    && (parent.Parallel? ==> child.run < parent.pause || parent.cont <= child.run)
  }

  /** The parent found was running around the child. */
  lemma ParentIsAround(nodes: Nodes, name: string)
    requires Parent(nodes, name).Some?
    ensures var p := Parent(nodes, name).value;
            p in nodes && name in nodes && p + "/" <= name && Around(nodes[p], nodes[name])
  {}

  lemma ParentIsNearest(nodes: Nodes, name: string, q: string)
    requires name in nodes && q + "/" <= name && q in nodes && Around(nodes[q], nodes[name])
    ensures Parent(nodes, name).Some? && |q| <= |Parent(nodes, name).value|
  {
    assert '/' in name by {
      assert (q + "/")[|q|] == name[|q|];
    }
    AboveIsLongest(name, q);
    SearchFindsNearest(nodes, nodes[name], Above(name), q);
  }

  // ---- The forest ----------------------------------------------------------------------------

  function Longest(order: seq<string>): nat {
    if order == [] then 0
    else
      var rest := Longest(order[..|order| - 1]);
      if rest < |order[|order| - 1]| then |order[|order| - 1]| else rest
  }

  lemma {:induction false} NoLonger(order: seq<string>, name: string)
    requires name in order
    ensures |name| <= Longest(order)
  {
    var n := |order| - 1;
    if name != order[n] {
      assert name in order[..n];
      NoLonger(order[..n], name);
    }
  }

  /** The children of a body, in the order its trees were read. */
  function Children(nodes: Nodes, order: seq<string>, name: string): (r: seq<string>)
    ensures |r| <= |order| && forall c :: c in r ==> c in order && Parent(nodes, c) == Some(name) && |name| < |c|
  {
    if order == [] then []
    else
      var rest := Children(nodes, order[..|order| - 1], name);
      if Parent(nodes, order[|order| - 1]) == Some(name) then rest + [order[|order| - 1]] else rest
  }

  function SynchronousTime(nodes: Nodes, children: seq<string>): int {
    if children == [] then 0
    else
      var c := children[|children| - 1];
      SynchronousTime(nodes, children[..|children| - 1]) + if c in nodes then Synchronous(nodes[c]) else 0
  }

  /** A body's own cost: its elapsed time without what its children held it up for, never negative. */
  function Own(nodes: Nodes, order: seq<string>, name: string): int {
    if name in nodes then Max(0, nodes[name].elapsed - SynchronousTime(nodes, Children(nodes, order, name))) else 0
  }

  function Height(order: seq<string>, name: string): nat {
    if |name| <= Longest(order) then Longest(order) - |name| + 1 else 0
  }

  /** The recursive cost. It terminates because every child's name is longer than its parent's. */
  function Cost(nodes: Nodes, order: seq<string>, name: string): int
    decreases Height(order, name), |order| + 1
  {
    Own(nodes, order, name) + CostsOf(nodes, order, name, Children(nodes, order, name))
  }

  function CostsOf(nodes: Nodes, order: seq<string>, name: string, children: seq<string>): int
    requires forall c :: c in children ==> c in order && |name| < |c|
    decreases Height(order, name), |children|
  {
    if children == [] then 0
    else
      var c := children[|children| - 1];
      NoLonger(order, c);
      CostsOf(nodes, order, name, children[..|children| - 1]) + Cost(nodes, order, c)
  }

  // ---- Every body counted once -------------------------------------------------------------------

  /** What the children of `name` among `listed` contribute. */
  function Below(nodes: Nodes, listed: seq<string>, f: string -> int): string -> int {
    (name: string) => Total(Children(nodes, listed, name), f)
  }

  function Attached(nodes: Nodes, parents: seq<string>, f: string -> int): string -> int {
    (c: string) => if Parent(nodes, c).Some? && Parent(nodes, c).value in parents then f(c) else 0
  }

  lemma BelowNext(nodes: Nodes, listed: seq<string>, f: string -> int, c: string, name: string)
    ensures Below(nodes, listed + [c], f)(name) ==
            Below(nodes, listed, f)(name) + if Parent(nodes, c) == Some(name) then f(c) else 0
  {
    assert (listed + [c])[..|listed|] == listed;
    var before := Children(nodes, listed, name);
    assert (before + [c])[..|before|] == before;
  }

  lemma {:induction false} OneMoreChild(nodes: Nodes, parents: seq<string>, listed: seq<string>, f: string -> int,
                                        c: string)
    requires Distinct(parents)
    ensures Total(parents, Below(nodes, listed + [c], f)) ==
            Total(parents, Below(nodes, listed, f)) + Attached(nodes, parents, f)(c)
  {
    hide Parent, Children, Below;
    if parents != [] {
      var n := |parents| - 1;
      assert parents == parents[..n] + [parents[n]];
      assert parents[n] !in parents[..n];
      OneMoreChild(nodes, parents[..n], listed, f, c);
      BelowNext(nodes, listed, f, c, parents[n]);
    }
  }

  /** Summing over parents and then over their children is summing over the attached bodies: each has one parent. */
  lemma {:induction false} SumOverChildren(nodes: Nodes, parents: seq<string>, listed: seq<string>, f: string -> int)
    requires Distinct(parents)
    ensures Total(parents, Below(nodes, listed, f)) == Total(listed, Attached(nodes, parents, f))
  {
    if listed == [] {
      NoChildren(nodes, parents, f);
    } else {
      var n := |listed| - 1;
      assert listed == listed[..n] + [listed[n]];
      SumOverChildren(nodes, parents, listed[..n], f);
      OneMoreChild(nodes, parents, listed[..n], f, listed[n]);
    }
  }

  lemma {:induction false} NoChildren(nodes: Nodes, parents: seq<string>, f: string -> int)
    ensures Total(parents, Below(nodes, [], f)) == 0
  {
    if parents != [] {
      NoChildren(nodes, parents[..|parents| - 1], f);
    }
  }

  function CostOf(nodes: Nodes, order: seq<string>): string -> int {
    (name: string) => Cost(nodes, order, name)
  }

  function OwnOf(nodes: Nodes, order: seq<string>): string -> int {
    (name: string) => Own(nodes, order, name)
  }

  lemma {:induction false} CostsAreSum(nodes: Nodes, order: seq<string>, name: string, children: seq<string>)
    requires forall c :: c in children ==> c in order && |name| < |c|
    ensures CostsOf(nodes, order, name, children) == Total(children, CostOf(nodes, order))
  {
    hide Cost;
    if children != [] {
      CostsAreSum(nodes, order, name, children[..|children| - 1]);
    }
  }

  lemma {:induction false} SumOfCosts(nodes: Nodes, order: seq<string>, names: seq<string>)
    ensures Total(names, CostOf(nodes, order)) ==
            Total(names, OwnOf(nodes, order)) + Total(names, Below(nodes, order, CostOf(nodes, order)))
  {
    hide Own;
    if names != [] {
      var last := names[|names| - 1];
      SumOfCosts(nodes, order, names[..|names| - 1]);
      CostsAreSum(nodes, order, last, Children(nodes, order, last));
    }
  }

  function Roots(order: seq<string>): (r: seq<string>)
    ensures forall n :: n in r <==> n in order && '/' !in n
  {
    if order == [] then []
    else
      var rest := Roots(order[..|order| - 1]);
      assert order == order[..|order| - 1] + [order[|order| - 1]];
      if '/' in order[|order| - 1] then rest else rest + [order[|order| - 1]]
  }

  /** `order` lists the bodies, and every one below the top has found its parent. */
  ghost predicate Forest(nodes: Nodes, order: seq<string>) {
    && Distinct(order) && (forall n :: n in order <==> n in nodes)
    && forall n :: n in order && '/' in n ==> Parent(nodes, n).Some?
  }

  lemma {:induction false} RootsAndAttached(nodes: Nodes, order: seq<string>, listed: seq<string>, f: string -> int)
    requires Forest(nodes, order) && forall n :: n in listed ==> n in order
    ensures Total(listed, f) == Total(Roots(listed), f) + Total(listed, Attached(nodes, order, f))
  {
    if listed != [] {
      var n := |listed| - 1;
      assert listed[n] in listed;
      assert forall m :: m in listed[..n] ==> m in listed;
      RootsAndAttached(nodes, order, listed[..n], f);
    }
  }

  lemma {:induction false} RootsDistinct(order: seq<string>)
    requires Distinct(order)
    ensures Distinct(Roots(order))
  {
    if order != [] {
      RootsDistinct(order[..|order| - 1]);
    }
  }

  /** Conservation: the costs of the trees add up to the own costs of all bodies, each counted exactly once. */
  lemma CostsCountEveryBodyOnce(nodes: Nodes, order: seq<string>, names: seq<string>)
    requires Forest(nodes, order) && Distinct(names) && forall n :: n in names <==> n in order && '/' !in n
    ensures Total(names, CostOf(nodes, order)) == Total(order, OwnOf(nodes, order))
  {
    hide Cost, Own, Parent, Children;
    var f := CostOf(nodes, order);
    SumOfCosts(nodes, order, order);
    SumOverChildren(nodes, order, order, f);
    RootsAndAttached(nodes, order, order, f);
    RootsDistinct(order);
    DistinctSameMembers(names, Roots(order));
    TotalPermutation(names, Roots(order), f);
  }

  /** A child holds its parent up until it pauses, if it runs in parallel, and otherwise until it ends. */
  function Held(nodes: Nodes): string -> int {
    (c: string) =>
      if c !in nodes then 0
      else if nodes[c].Parallel? then nodes[c].pause - nodes[c].run
      else nodes[c].end - nodes[c].run
  }

  lemma {:induction false} HeldUp(nodes: Nodes, children: seq<string>)
    ensures SynchronousTime(nodes, children) == Total(children, Held(nodes))
  {
    if children != [] {
      HeldUp(nodes, children[..|children| - 1]);
    }
  }

  /** A tree costs its root's elapsed time without what its children held it up for, never less than nothing, and the
      costs of its children's trees. */
  lemma CostIs(nodes: Nodes, order: seq<string>, name: string)
    requires name in nodes
    ensures var children := Children(nodes, order, name); var held := Total(children, Held(nodes));
            Cost(nodes, order, name) ==
            Total(children, CostOf(nodes, order))
            + if nodes[name].elapsed < held then 0 else nodes[name].elapsed - held
  {
    hide Cost, CostsOf, Children, Parent;
    ChildrenEnclosed(nodes, order, name);
    HeldUp(nodes, Children(nodes, order, name));
    CostsAreSum(nodes, order, name, Children(nodes, order, name));
  }

  // ---- The program -----------------------------------------------------------------------------------

  function Recorded(children: map<string, seq<string>>, name: string): seq<string> {
    if name in children then children[name] else []
  }

  ghost predicate Records(nodes: Nodes, listed: seq<string>, children: map<string, seq<string>>) {
    forall name :: Children(nodes, listed, name) == Recorded(children, name)
  }

  lemma RecordsNext(nodes: Nodes, order: seq<string>, k: nat, children: map<string, seq<string>>)
    requires k < |order| && Records(nodes, order[..k], children)
    ensures var p := Parent(nodes, order[k]);
            Records(nodes, order[..k + 1],
                    if p.None? then children else children[p.value := Recorded(children, p.value) + [order[k]]])
  {
    hide Parent;
    assert order[..k + 1][..k] == order[..k];
    var p := Parent(nodes, order[k]);
    var next := if p.None? then children else children[p.value := Recorded(children, p.value) + [order[k]]];
    forall name
      ensures Children(nodes, order[..k + 1], name) == Recorded(next, name)
    {
      assert Children(nodes, order[..k], name) == Recorded(children, name);
    }
  }

  ghost predicate AllAttached(nodes: Nodes, listed: seq<string>) {
    forall n :: n in listed && '/' in n ==> Parent(nodes, n).Some?
  }

  lemma AttachedNext(nodes: Nodes, order: seq<string>, k: nat)
    requires k < |order| && AllAttached(nodes, order[..k])
    ensures '/' in order[k] && Parent(nodes, order[k]).None? ==> !AllAttached(nodes, order)
    ensures ('/' in order[k] && Parent(nodes, order[k]).None?) || AllAttached(nodes, order[..k + 1])
  {
    hide Parent;
    assert order[..k + 1] == order[..k] + [order[k]];
    assert order[k] in order;
  }

  /** The attachment loop: `None` is the Failure of a descendant without an active enclosing parent. */
  method Attach(nodes: Nodes, order: seq<string>) returns (r: Option<map<string, seq<string>>>)
    requires Distinct(order) && forall n :: n in order <==> n in nodes
    ensures r.Some? <==> Forest(nodes, order)
    ensures r.Some? ==> Records(nodes, order, r.value)
  {
    hide Parent, Records, AllAttached, Recorded;
    var children: map<string, seq<string>> := map[];
    NothingRecorded(nodes);
    for k := 0 to |order|
      invariant AllAttached(nodes, order[..k]) && Records(nodes, order[..k], children)
    {
      RecordsNext(nodes, order, k, children);
      AttachedNext(nodes, order, k);
      var name := order[k];
      assert name in order;
      if '/' in name {
        var parent := FindParent(nodes, name);
        if parent.None? {
          return None;
        }
        children := children[parent.value := Recorded(children, parent.value) + [name]];
      } else {
        TopHasNoParent(nodes, name);
      }
    }
    assert order[..|order|] == order;
    IsForest(nodes, order);
    return Some(children);
  }

  lemma NothingRecorded(nodes: Nodes)
    ensures Records(nodes, [], map[]) && AllAttached(nodes, [])
  {}

  lemma TopHasNoParent(nodes: Nodes, name: string)
    requires '/' !in name
    ensures Parent(nodes, name).None?
  {}

  lemma IsForest(nodes: Nodes, order: seq<string>)
    requires Distinct(order) && (forall n :: n in order <==> n in nodes) && AllAttached(nodes, order)
    ensures Forest(nodes, order)
  {}

  /** The while loop over shorter and shorter prefixes. */
  method FindParent(nodes: Nodes, name: string) returns (r: Option<string>)
    requires name in nodes && '/' in name
    ensures r == Parent(nodes, name)
  {
    var prefix, searching := Above(name), true;
    r := None;
    while searching
      invariant searching ==> Search(nodes, nodes[name], prefix) == Parent(nodes, name)
      invariant if searching then r == None else r == Parent(nodes, name)
      decreases |prefix|, searching
    {
      if prefix in nodes && Encloses(nodes[prefix], nodes[name]) {
        r, searching := Some(prefix), false;
      } else if '/' !in prefix {
        searching := false;
      } else {
        prefix := Above(prefix);
      }
    }
  }

  /** The recursive cost with its own re-check of every child, which never fails. */
  method CheckedCost(nodes: Nodes, order: seq<string>, children: map<string, seq<string>>, name: string)
    returns (r: Option<int>)
    requires Records(nodes, order, children)
    ensures r.Some? <==> name in nodes
    ensures r.Some? ==> r.value == Cost(nodes, order, name)
    decreases Height(order, name)
  {
    hide Own, CostsOf, Cost, Parent, Children, SynchronousTime, Longest;
    if name !in nodes {
      return None;
    }
    var node := nodes[name];
    var mine := Recorded(children, name);
    ChildrenEnclosed(nodes, order, name);
    if c :| c in mine && (nodes[c].run < node.run || nodes[c].end > node.end) {
      return None;
    }
    var total := Max(0, node.elapsed - SynchronousTime(nodes, mine));
    NoCosts(nodes, order, name);
    for k := 0 to |mine|
      invariant total == Own(nodes, order, name) + CostsOf(nodes, order, name, mine[..k])
    {
      assert mine[k] in mine;
      CostsNext(nodes, order, name, mine, k);
      NoLonger(order, mine[k]);
      var below := CheckedCost(nodes, order, children, mine[k]);
      total := total + below.value;
    }
    assert mine[..|mine|] == mine;
    return Some(total);
  }

  lemma ChildrenEnclosed(nodes: Nodes, order: seq<string>, name: string)
    ensures forall c :: c in Children(nodes, order, name) ==>
              c in nodes && name in nodes && nodes[name].run <= nodes[c].run && nodes[c].end <= nodes[name].end
    ensures name in nodes ==>
              Own(nodes, order, name) ==
              Max(0, nodes[name].elapsed - SynchronousTime(nodes, Children(nodes, order, name)))
    ensures Cost(nodes, order, name) ==
            Own(nodes, order, name) + CostsOf(nodes, order, name, Children(nodes, order, name))
  {
    hide Children, Parent;
  }

  lemma NoCosts(nodes: Nodes, order: seq<string>, name: string)
    ensures CostsOf(nodes, order, name, []) == 0
  {}

  lemma CostsNext(nodes: Nodes, order: seq<string>, name: string, children: seq<string>, k: nat)
    requires k < |children| && forall c :: c in children ==> c in order && |name| < |c|
    ensures CostsOf(nodes, order, name, children[..k + 1]) ==
            CostsOf(nodes, order, name, children[..k]) + Cost(nodes, order, children[k])
  {
    hide Cost;
    assert children[..k + 1][..k] == children[..k];
  }

  /** `cli_durations` once the lifecycles are read: the cost of every selected tree. */
  method CliDurations(nodes: Nodes, order: seq<string>, names: seq<string>) returns (r: Option<map<string, int>>)
    requires Distinct(order) && forall n :: n in order <==> n in nodes
    ensures r.Some? <==> Forest(nodes, order) && forall n :: n in names ==> n in nodes
    ensures r.Some? ==> forall n :: n in names ==> n in r.value && r.value[n] == Cost(nodes, order, n)
  {
    hide Forest, Cost;
    var children := Attach(nodes, order);
    if children.None? {
      return None;
    }
    var costs: map<string, int> := map[];
    for k := 0 to |names|
      invariant forall n :: n in names[..k] ==> n in nodes && n in costs && costs[n] == Cost(nodes, order, n)
    {
      var cost := CheckedCost(nodes, order, children.value, names[k]);
      if cost.None? {
        assert names[k] in names;
        return None;
      }
      costs := costs[names[k] := cost.value];
      assert names[..k + 1] == names[..k] + [names[k]];
    }
    assert names[..|names|] == names;
    return Some(costs);
  }
}
