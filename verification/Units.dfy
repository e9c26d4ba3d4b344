/** The versioned catalog of scripts/go_parent_shards.py: execution units and their names. */
module Units {
  import opened Order

  const MODULE: string := "github.com/wangjohn/agent-archive/"
  const INTERNAL: string := MODULE + "internal/"
  const CLI: string := INTERNAL + "cli"
  const HEAVY: seq<string> := [INTERNAL + "catalog", INTERNAL + "statshtml", INTERNAL + "state", INTERNAL + "collector"]
  const SEPARATOR: string := "::"

  /** A Python dict entry: one package and the runnable names listed for it. */
  datatype Group = Group(package: string, names: seq<string>)
  datatype Package = Package(name: string, hasTests: bool)
  /** What compiled discovery found. */
  datatype Discovery = Discovery(packages: seq<Package>, cli: seq<string>, parents: seq<Group>)
  datatype Assignment = Assignment(packages: seq<string>, cli: seq<string>, parents: seq<Group>)
  datatype Catalog = Catalog(workers: int, discovery: Discovery, units: seq<string>, assignments: seq<Assignment>)

  predicate Colonless(s: string) {
    ':' !in s
  }

  function Unit(package: string, parent: string): string {
    package + SEPARATOR + parent
  }

  function GroupUnits(g: Group): (r: seq<string>)
    ensures |r| == |g.names| && forall i :: 0 <= i < |r| ==> r[i] == Unit(g.package, g.names[i])
  {
    seq(|g.names|, i requires 0 <= i < |g.names| => Unit(g.package, g.names[i]))
  }

  function AllUnits(groups: seq<Group>): seq<string> {
    if groups == [] then [] else AllUnits(groups[..|groups| - 1]) + GroupUnits(groups[|groups| - 1])
  }

  function Keys(groups: seq<Group>): (r: seq<string>)
    ensures |r| == |groups| && forall i :: 0 <= i < |r| ==> r[i] == groups[i].package
  {
    seq(|groups|, i requires 0 <= i < |groups| => groups[i].package)
  }

  function PackageNames(packages: seq<Package>): (r: seq<string>)
    ensures |r| == |packages| && forall i :: 0 <= i < |r| ==> r[i] == packages[i].name
  {
    seq(|packages|, i requires 0 <= i < |packages| => packages[i].name)
  }

  // ---- Python's name.split('::') ---------------------------------------

  /** Position of the first separator, or the length of `s` when it has none. */
  function Find(s: string): (i: nat)
    ensures i <= |s|
  {
    if |s| < 2 then |s| else if s[..2] == SEPARATOR then 0 else 1 + Find(s[1..])
  }

  predicate Separated(s: string) {
    Find(s) < |s| && Find(s) + 2 <= |s|
  }

  function Split(s: string): (parts: seq<string>)
    ensures |parts| >= 1
    decreases |s|
  {
    if Separated(s) then [s[..Find(s)]] + Split(s[Find(s) + 2..]) else [s]
  }

  lemma {:induction false} FindColonless(p: string, rest: string)
    requires Colonless(p)
    ensures Find(p + SEPARATOR + rest) == |p|
    ensures Find(p) == |p|
  {
    var s := p + SEPARATOR + rest;
    if p == [] {
      assert s[..2] == SEPARATOR;
    } else {
      assert s[1..] == p[1..] + SEPARATOR + rest;
      assert s[0] == p[0] != ':';
      assert s[..2][0] == p[0];
      FindColonless(p[1..], rest);
      if |p| >= 2 {
        assert p[..2][0] == p[0];
      }
    }
  }

  /** Encoding a package and parent name as one unit loses nothing. */
  lemma SplitUnit(package: string, parent: string)
    requires Colonless(package) && Colonless(parent)
    ensures Separated(Unit(package, parent))
    ensures Split(Unit(package, parent)) == [package, parent]
    ensures !Separated(package)
  {
    var s := Unit(package, parent);
    FindColonless(package, parent);
    FindColonless(parent, []);
    assert s[..|package|] == package;
    assert s[|package| + 2..] == parent;
    assert Split(parent) == [parent];
  }

  lemma UnitInjective(p: string, n: string, p': string, n': string)
    requires Colonless(p) && Colonless(n) && Colonless(p') && Colonless(n')
    requires Unit(p, n) == Unit(p', n')
    ensures p == p' && n == n'
  {
    SplitUnit(p, n);
    SplitUnit(p', n');
  }

  // ---- Discovered units ---------------------------------------------------

  /** Matches the listing grammar (Test|Fuzz|Example)\w*, TestMain excluded. */
  predicate RunnableName(n: string) {
    && n != "TestMain"
    && ("Test" <= n || "Fuzz" <= n || "Example" <= n)
    && forall i :: 0 <= i < |n| ==> WordChar(n[i])
  }

  predicate WordChar(c: char) {
    'a' <= c <= 'z' || 'A' <= c <= 'Z' || '0' <= c <= '9' || c == '_'
  }

  lemma RunnableColonless(n: string)
    requires RunnableName(n)
    ensures Colonless(n) && '/' !in n
  {}

  predicate ListedNames(names: seq<string>) {
    && Ordered(StringLeq, names)
    && Distinct(names)
    && forall n :: n in names ==> RunnableName(n)
  }

  /** Discovery as the listing and metadata parsers return it. */
  predicate WellFormed(d: Discovery) {
    && Distinct(PackageNames(d.packages))
    && (forall p :: p in PackageNames(d.packages) ==> Colonless(p))
    && CLI in PackageNames(d.packages)
    && ListedNames(d.cli)
    && Distinct(Keys(d.parents))
    && ExpectedParents(d)
    && forall i :: 0 <= i < |d.parents| ==> ListedNames(d.parents[i].names)
  }

  /** What a worker's own listing must parse to: also at least three packages, and some name in the CLI. */
  predicate Parsed(d: Discovery) {
    WellFormed(d) && |d.packages| >= 3 && d.cli != []
  }

  predicate ExpectedParents(d: Discovery) {
    && (forall p :: p in Keys(d.parents) ==> p in HEAVY && p in PackageNames(d.packages))
    && (forall p :: p in HEAVY && p in PackageNames(d.packages) ==> p in Keys(d.parents))
  }

  predicate HasParents(d: Discovery, package: string) {
    exists i :: 0 <= i < |d.parents| && d.parents[i].package == package && d.parents[i].names != []
  }

  function Whole(d: Discovery): seq<string> {
    Keep(d, PackageNames(d.packages))
  }

  /** The packages run whole: neither the CLI nor split into parents. */
  function Keep(d: Discovery, names: seq<string>): seq<string> {
    if names == [] then []
    else
      var n := names[|names| - 1];
      var rest := Keep(d, names[..|names| - 1]);
      if n == CLI || HasParents(d, n) then rest else rest + [n]
  }

  function CliUnits(d: Discovery): seq<string> {
    GroupUnits(Group(CLI, d.cli))
  }

  function OrdinaryUnits(d: Discovery): seq<string> {
    Whole(d) + AllUnits(d.parents)
  }

  function ExecutionUnits(d: Discovery): seq<string> {
    OrdinaryUnits(d) + CliUnits(d)
  }

  lemma ConstantsColonless()
    ensures Colonless(CLI) && CLI !in HEAVY
    ensures forall p :: p in HEAVY ==> Colonless(p)
    ensures Distinct(HEAVY)
  {
    assert Colonless(MODULE) && Colonless("internal/");
    assert Colonless("cli") && Colonless("catalog") && Colonless("statshtml");
    assert Colonless("state") && Colonless("collector");
    assert |INTERNAL| == 43 && |CLI| == 46;
    assert |HEAVY[0]| == 50 && |HEAVY[1]| == 52 && |HEAVY[2]| == 48 && |HEAVY[3]| == 52;
    assert HEAVY[1][43] != HEAVY[3][43];
  }

  lemma {:induction false} KeepMembers(d: Discovery, names: seq<string>)
    requires Distinct(names)
    ensures Distinct(Keep(d, names))
    ensures forall n :: n in Keep(d, names) <==> n in names && n != CLI && !HasParents(d, n)
  {
    if names != [] {
      var k := |names| - 1;
      KeepMembers(d, names[..k]);
      assert names == names[..k] + [names[k]];
      assert forall n :: n in names[..k] ==> n != names[k];
    }
  }

  /** Where a unit of some group comes from. */
  lemma {:induction false} UnitListed(groups: seq<Group>, i: nat, j: nat)
    requires i < |groups| && j < |groups[i].names|
    ensures Unit(groups[i].package, groups[i].names[j]) in AllUnits(groups)
  {
    var k := |groups| - 1;
    if i < k {
      UnitListed(groups[..k], i, j);
    } else {
      assert GroupUnits(groups[k])[j] == Unit(groups[i].package, groups[i].names[j]);
    }
  }

  lemma {:induction false} UnitOrigin(groups: seq<Group>, u: string) returns (i: nat, j: nat)
    requires u in AllUnits(groups)
    ensures i < |groups| && j < |groups[i].names| && u == Unit(groups[i].package, groups[i].names[j])
  {
    var k := |groups| - 1;
    if u in AllUnits(groups[..k]) {
      i, j := UnitOrigin(groups[..k], u);
    } else {
      i := k;
      j :| 0 <= j < |groups[k].names| && GroupUnits(groups[k])[j] == u;
    }
  }

  lemma AllUnitsOrigin(groups: seq<Group>)
    ensures forall u :: u in AllUnits(groups) <==>
                        exists i, j :: 0 <= i < |groups| && 0 <= j < |groups[i].names|
                                       && u == Unit(groups[i].package, groups[i].names[j])
  {
    hide AllUnits, Unit;
    forall u | u in AllUnits(groups)
      ensures exists i, j ::
                0 <= i < |groups| && 0 <= j < |groups[i].names| && u == Unit(groups[i].package, groups[i].names[j])
    {
      var i, j := UnitOrigin(groups, u);
    }
    forall i, j | 0 <= i < |groups| && 0 <= j < |groups[i].names|
      ensures Unit(groups[i].package, groups[i].names[j]) in AllUnits(groups)
    {
      UnitListed(groups, i, j);
    }
  }

  ghost predicate ColonlessGroups(groups: seq<Group>) {
    forall i :: 0 <= i < |groups| ==> Colonless(groups[i].package) && forall n :: n in groups[i].names ==> Colonless(n)
  }

  lemma {:induction false} AllUnitsDistinct(groups: seq<Group>)
    requires Distinct(Keys(groups)) && ColonlessGroups(groups)
    requires forall i :: 0 <= i < |groups| ==> Distinct(groups[i].names)
    ensures Distinct(AllUnits(groups))
  {
    if groups != [] {
      var k := |groups| - 1;
      var last := groups[k];
      assert Keys(groups[..k]) == Keys(groups)[..k];
      AllUnitsDistinct(groups[..k]);
      AllUnitsOrigin(groups[..k]);
      var units := GroupUnits(last);
      forall a, b | 0 <= a < b < |units|
        ensures units[a] != units[b]
      {
        if units[a] == units[b] {
          UnitInjective(last.package, last.names[a], last.package, last.names[b]);
        }
      }
      forall u, b | u in AllUnits(groups[..k]) && 0 <= b < |units|
        ensures u != units[b]
      {
        var i, j :| 0 <= i < k && 0 <= j < |groups[..k][i].names|
                    && u == Unit(groups[..k][i].package, groups[..k][i].names[j]);
        assert Keys(groups)[i] != Keys(groups)[k];
        if u == units[b] {
          UnitInjective(groups[i].package, groups[i].names[j], last.package, last.names[b]);
        }
      }
      ConcatDistinct(AllUnits(groups[..k]), units);
    }
  }

  lemma ConcatDistinct(a: seq<string>, b: seq<string>)
    requires Distinct(a) && Distinct(b)
    requires forall u, j :: u in a && 0 <= j < |b| ==> u != b[j]
    ensures Distinct(a + b)
  {
    forall i, j | 0 <= i < j < |a + b|
      ensures (a + b)[i] != (a + b)[j]
    {
      if i < |a| <= j {
        assert a[i] in a;
      }
    }
  }

  /** What is compiled: a package run whole, a parent of the CLI, or a parent of a split package. */
  ghost predicate Compiled(d: Discovery, u: string) {
    || (u in PackageNames(d.packages) && u != CLI && !HasParents(d, u))
    || (exists j :: 0 <= j < |d.cli| && u == Unit(CLI, d.cli[j]))
    || (exists i, j :: 0 <= i < |d.parents| && 0 <= j < |d.parents[i].names|
                       && u == Unit(d.parents[i].package, d.parents[i].names[j]))
  }

  /** The execution units are exactly what is compiled. */
  lemma UnitsAreCompiled(d: Discovery, u: string)
    requires WellFormed(d)
    ensures u in ExecutionUnits(d) <==> Compiled(d, u)
  {
    KeepMembers(d, PackageNames(d.packages));
    AllUnitsOrigin(d.parents);
    assert u in CliUnits(d) <==> exists j :: 0 <= j < |d.cli| && u == Unit(CLI, d.cli[j]) by {
      if j :| 0 <= j < |d.cli| && u == Unit(CLI, d.cli[j]) {
        assert CliUnits(d)[j] == u;
      }
    }
  }

  /** What well-formed discovery gives the catalog: distinct units, each a plain package or one package's parent. */
  lemma DiscoveryUnits(d: Discovery)
    requires WellFormed(d)
    ensures Distinct(ExecutionUnits(d)) && Distinct(OrdinaryUnits(d)) && Distinct(CliUnits(d))
    ensures forall u :: u in ExecutionUnits(d) <==> Compiled(d, u)
    ensures ColonlessGroups(d.parents) && ColonlessGroups([Group(CLI, d.cli)])
    ensures forall p :: p in Whole(d) ==> Colonless(p) && p in PackageNames(d.packages)
  {
    hide *;
    UnitsDistinct(d);
    forall u
      ensures u in ExecutionUnits(d) <==> Compiled(d, u)
    {
      UnitsAreCompiled(d, u);
    }
  }

  lemma UnitsDistinct(d: Discovery)
    requires WellFormed(d)
    ensures Distinct(ExecutionUnits(d)) && Distinct(OrdinaryUnits(d)) && Distinct(CliUnits(d))
    ensures ColonlessGroups(d.parents) && ColonlessGroups([Group(CLI, d.cli)])
    ensures forall p :: p in Whole(d) ==> Colonless(p) && p in PackageNames(d.packages)
  {
    ConstantsColonless();
    KeepMembers(d, PackageNames(d.packages));
    forall i | 0 <= i < |d.parents|
      ensures Colonless(d.parents[i].package) && forall n :: n in d.parents[i].names ==> Colonless(n)
    {
      assert Keys(d.parents)[i] in Keys(d.parents);
      forall n | n in d.parents[i].names
        ensures Colonless(n)
      {
        RunnableColonless(n);
      }
    }
    forall n | n in d.cli
      ensures Colonless(n)
    {
      RunnableColonless(n);
    }
    var cli := [Group(CLI, d.cli)];
    assert AllUnits(cli) == CliUnits(d) by {
      assert cli[..0] == [];
    }
    assert Keys(cli) == [CLI];
    AllUnitsDistinct(cli);
    AllUnitsDistinct(d.parents);
    AllUnitsOrigin(d.parents);
    var whole, parents := Whole(d), AllUnits(d.parents);
    forall u, j | u in whole && 0 <= j < |parents|
      ensures u != parents[j]
    {
      assert parents[j] in parents;
      var a, b :| 0 <= a < |d.parents| && 0 <= b < |d.parents[a].names|
                  && parents[j] == Unit(d.parents[a].package, d.parents[a].names[b]);
      SplitUnit(d.parents[a].package, d.parents[a].names[b]);
      SplitUnit(u, []);
    }
    ConcatDistinct(whole, parents);
    forall u, j | u in whole + parents && 0 <= j < |CliUnits(d)|
      ensures u != CliUnits(d)[j]
    {
      SplitUnit(CLI, d.cli[j]);
      if u in whole {
        SplitUnit(u, []);
      } else {
        var a, b :| 0 <= a < |d.parents| && 0 <= b < |d.parents[a].names|
                  && u == Unit(d.parents[a].package, d.parents[a].names[b]);
        SplitUnit(d.parents[a].package, d.parents[a].names[b]);
        assert Keys(d.parents)[a] in Keys(d.parents);
      }
    }
    ConcatDistinct(whole + parents, CliUnits(d));
  }
}
