/** Turning one worker's sorted units back into an assignment (go_parent_shards.py, `build`). */
module Decode {
  import opened Order
  import opened Units

  /** parents.setdefault(package, []).append(parent) */
  function AppendTo(groups: seq<Group>, package: string, parent: string): seq<Group> {
    if groups == [] then [Group(package, [parent])]
    else
      var k := |groups| - 1;
      if groups[k].package == package then groups[k := Group(package, groups[k].names + [parent])]
      else AppendTo(groups[..k], package, parent) + [groups[k]]
  }

  /** Adds one unit; `None` is the ValueError of unpacking a name with more than one separator. */
  function AddUnit(a: Assignment, name: string): Option<Assignment> {
    if !Separated(name) then Some(a.(packages := a.packages + [name]))
    else
      var parts := Split(name);
      if |parts| != 2 then None
      else if parts[0] == CLI then Some(a.(cli := a.cli + [parts[1]]))
      else Some(a.(parents := AppendTo(a.parents, parts[0], parts[1])))
  }

  /** The units an assignment stands for, listed as `validate` lists them. */
  function AssignedUnits(a: Assignment): seq<string> {
    a.packages + GroupUnits(Group(CLI, a.cli)) + AllUnits(a.parents)
  }

  function AllAssigned(assignments: seq<Assignment>): seq<string> {
    if assignments == [] then []
    else AllAssigned(assignments[..|assignments| - 1]) + AssignedUnits(assignments[|assignments| - 1])
  }

  const NOTHING := Assignment([], [], [])

  lemma {:induction false} AppendToUnits(groups: seq<Group>, package: string, parent: string)
    ensures multiset(AllUnits(AppendTo(groups, package, parent))) ==
            multiset(AllUnits(groups)) + multiset{Unit(package, parent)}
  {
    var u := Unit(package, parent);
    if groups == [] {
      assert [] + [Group(package, [parent])] == AppendTo(groups, package, parent);
      assert GroupUnits(Group(package, [parent])) == [u];
    } else {
      var k := |groups| - 1;
      var prefix, last := groups[..k], groups[k];
      assert groups == prefix + [last];
      if last.package == package {
        var grown := Group(package, last.names + [parent]);
        assert groups[k := grown] == prefix + [grown];
        assert GroupUnits(grown) == GroupUnits(last) + [u];
        assert AllUnits(prefix) + GroupUnits(grown) == AllUnits(groups) + [u];
      } else {
        AppendToUnits(prefix, package, parent);
      }
    }
  }

  lemma {:induction false} AppendToKeys(groups: seq<Group>, package: string, parent: string)
    requires Distinct(Keys(groups))
    ensures Distinct(Keys(AppendTo(groups, package, parent)))
    ensures forall p :: p in Keys(AppendTo(groups, package, parent)) <==> p in Keys(groups) || p == package
    ensures ColonlessGroups(groups) && Colonless(package) && Colonless(parent) ==>
              ColonlessGroups(AppendTo(groups, package, parent))
    ensures (forall i :: 0 <= i < |groups| ==> groups[i].names != []) ==>
              forall i :: 0 <= i < |AppendTo(groups, package, parent)| ==>
                            AppendTo(groups, package, parent)[i].names != []
  {
    if groups == [] {
      assert Keys(AppendTo(groups, package, parent)) == [package];
    } else {
      var k := |groups| - 1;
      var prefix, last := groups[..k], groups[k];
      assert Keys(groups) == Keys(prefix) + [last.package];
      if last.package == package {
        assert Keys(AppendTo(groups, package, parent)) == Keys(groups);
      } else {
        AppendToKeys(prefix, package, parent);
        var rest := AppendTo(prefix, package, parent);
        assert Keys(rest + [last]) == Keys(rest) + [last.package];
        assert last.package !in Keys(prefix);
      }
    }
  }

  /** Units that decoding can read back: a plain package or one encoded parent. */
  ghost predicate Readable(name: string) {
    || Colonless(name)
    || exists p, n :: Colonless(p) && Colonless(n) && name == Unit(p, n)
  }

  ghost predicate Tidy(a: Assignment) {
    && Distinct(Keys(a.parents))
    && CLI !in Keys(a.parents)
    && ColonlessGroups(a.parents) && (forall p :: p in a.packages ==> Colonless(p))
    && forall i :: 0 <= i < |a.parents| ==> a.parents[i].names != []
  }

  /** Reading one unit into an assignment adds exactly that unit. */
  lemma AddUnitAdds(a: Assignment, name: string)
    requires Readable(name) && Tidy(a)
    ensures AddUnit(a, name).Some?
    ensures var b := AddUnit(a, name).value;
            Tidy(b) && multiset(AssignedUnits(b)) == multiset(AssignedUnits(a)) + multiset{name}
  {
    if Colonless(name) {
      hide AllUnits, Find;
      SplitUnit(name, []);
    } else {
      var p, n :| Colonless(p) && Colonless(n) && name == Unit(p, n);
      AddParent(a, p, n);
    }
  }

  lemma AddParent(a: Assignment, p: string, n: string)
    requires Tidy(a) && Colonless(p) && Colonless(n)
    ensures AddUnit(a, Unit(p, n)).Some?
    ensures var b := AddUnit(a, Unit(p, n)).value;
            Tidy(b) && multiset(AssignedUnits(b)) == multiset(AssignedUnits(a)) + multiset{Unit(p, n)}
  {
    hide AllUnits, Find, Split, Separated, AppendTo, Unit;
    SplitUnit(p, n);
    if p == CLI {
      var cli := GroupUnits(Group(CLI, a.cli));
      assert GroupUnits(Group(CLI, a.cli + [n])) == cli + [Unit(p, n)];
    } else {
      AppendToUnits(a.parents, p, n);
      AppendToKeys(a.parents, p, n);
    }
  }

  /** Decoding inverts encoding: the assignment stands for exactly the names it was read from. */
  lemma {:induction false} DecodedInverts(names: seq<string>)
    requires forall n :: n in names ==> Readable(n)
    ensures Decoded(names).Some?
    ensures Tidy(Decoded(names).value) && multiset(AssignedUnits(Decoded(names).value)) == multiset(names)
  {
    if names == [] {
      assert AssignedUnits(NOTHING) == [];
    } else {
      var k := |names| - 1;
      assert names == names[..k] + [names[k]];
      DecodedInverts(names[..k]);
      AddUnitAdds(Decoded(names[..k]).value, names[k]);
    }
  }

  /** Decodes one worker's names in order. */
  method DecodeWorker(names: seq<string>) returns (r: Option<Assignment>)
    ensures r == Decoded(names)
  {
    var a := NOTHING;
    for k := 0 to |names|
      invariant Some(a) == Decoded(names[..k])
    {
      assert names[..k + 1][..k] == names[..k];
      var next := AddUnit(a, names[k]);
      if next.None? {
        DecodedFails(names, k + 1);
        return None;
      }
      a := next.value;
    }
    assert names[..|names|] == names;
    r := Some(a);
  }

  function Decoded(names: seq<string>): Option<Assignment> {
    if names == [] then Some(NOTHING)
    else
      var before := Decoded(names[..|names| - 1]);
      if before.None? then None else AddUnit(before.value, names[|names| - 1])
  }

  lemma {:induction false} DecodedFails(names: seq<string>, k: nat)
    requires k <= |names| && Decoded(names[..k]).None?
    ensures Decoded(names).None?
    decreases |names| - k
  {
    if k < |names| {
      assert names[..k + 1][..k] == names[..k];
      DecodedFails(names, k + 1);
    } else {
      assert names[..k] == names;
    }
  }
}
