/** Total orders and sorting: the one meaning of the scripts' `sorted` calls. */
module Order {

  datatype Option<+T> = None | Some(value: T)

  function Max(a: int, b: int): int {
    if a < b then b else a
  }

  function Min(a: int, b: int): int {
    if a < b then a else b
  }

  ghost predicate Linear<T(!new)>(leq: (T, T) -> bool) {
    && (forall a, b :: leq(a, b) || leq(b, a))
    && (forall a, b :: leq(a, b) && leq(b, a) ==> a == b)
    && (forall a, b, c :: leq(a, b) && leq(b, c) ==> leq(a, c))
  }

  predicate Ordered<T>(leq: (T, T) -> bool, s: seq<T>) {
    forall i, j :: 0 <= i < j < |s| ==> leq(s[i], s[j])
  }

  predicate Distinct<T(==)>(s: seq<T>) {
    forall i, j :: 0 <= i < j < |s| ==> s[i] != s[j]
  }

  function Insert<T>(leq: (T, T) -> bool, x: T, s: seq<T>): seq<T> {
    if s == [] || leq(x, s[0]) then [x] + s else [s[0]] + Insert(leq, x, s[1..])
  }

  function Sort<T>(leq: (T, T) -> bool, s: seq<T>): seq<T> {
    if s == [] then [] else Insert(leq, s[0], Sort(leq, s[1..]))
  }

  lemma LinearAt<T(!new)>(leq: (T, T) -> bool, a: T, b: T, c: T)
    requires Linear(leq)
    ensures leq(a, b) || leq(b, a)
    ensures leq(a, b) && leq(b, a) ==> a == b
    ensures leq(a, b) && leq(b, c) ==> leq(a, c)
  {}

  /** Multisets that differ by the same addend are equal. */
  lemma Cancel<T>(a: multiset<T>, b: multiset<T>, c: multiset<T>)
    requires a + c == b + c
    ensures a == b
  {
    forall x
      ensures a[x] == b[x]
    {
      assert (a + c)[x] == (b + c)[x];
    }
  }

  lemma HeadTail<T>(s: seq<T>)
    requires s != []
    ensures multiset(s) == multiset(s[1..]) + multiset{s[0]}
  {
    assert s == [s[0]] + s[1..];
  }

  lemma {:induction false} InsertMultiset<T>(leq: (T, T) -> bool, x: T, s: seq<T>)
    ensures multiset(Insert(leq, x, s)) == multiset(s) + multiset{x}
  {
    if s != [] && !leq(x, s[0]) {
      InsertMultiset(leq, x, s[1..]);
      HeadTail(s);
    }
  }

  lemma InsertMembers<T>(leq: (T, T) -> bool, x: T, s: seq<T>)
    ensures forall y :: y in Insert(leq, x, s) ==> y == x || y in s
  {
    InsertMultiset(leq, x, s);
    forall y | y in Insert(leq, x, s)
      ensures y == x || y in s
    {
      assert y in multiset(Insert(leq, x, s));
      assert y in multiset(s) + multiset{x};
    }
  }

  lemma {:induction false} InsertKeepsOrder<T(!new)>(leq: (T, T) -> bool, x: T, s: seq<T>)
    requires Linear(leq) && Ordered(leq, s)
    ensures Ordered(leq, Insert(leq, x, s))
  {
    hide Linear;
    if s != [] {
      LinearAt(leq, x, s[0], x);
      if leq(x, s[0]) {
        forall j | 0 <= j < |s|
          ensures leq(x, s[j])
        {
          LinearAt(leq, x, s[0], s[j]);
        }
      } else {
        InsertKeepsOrder(leq, x, s[1..]);
        InsertMembers(leq, x, s[1..]);
        var rest := Insert(leq, x, s[1..]);
        forall j | 0 <= j < |rest|
          ensures leq(s[0], rest[j])
        {
          assert rest[j] in rest;
        }
      }
    }
  }

  /** Sorting permutes its input into order. */
  lemma {:induction false} SortSorts<T(!new)>(leq: (T, T) -> bool, s: seq<T>)
    requires Linear(leq)
    ensures Ordered(leq, Sort(leq, s))
    ensures multiset(Sort(leq, s)) == multiset(s)
    ensures |Sort(leq, s)| == |s|
  {
    hide Linear, Ordered;
    if s != [] {
      SortSorts(leq, s[1..]);
      InsertKeepsOrder(leq, s[0], Sort(leq, s[1..]));
      InsertMultiset(leq, s[0], Sort(leq, s[1..]));
      HeadTail(s);
    } else {
      OrderedEmpty(leq);
    }
    assert |multiset(Sort(leq, s))| == |Sort(leq, s)|;
  }

  lemma OrderedEmpty<T>(leq: (T, T) -> bool)
    ensures Ordered(leq, [])
  {}

  lemma HeadIsLeast<T(!new)>(leq: (T, T) -> bool, s: seq<T>, x: T)
    requires Linear(leq) && Ordered(leq, s) && x in s
    ensures leq(s[0], x)
  {
    LinearAt(leq, x, x, x);
    var i :| 0 <= i < |s| && s[i] == x;
    if i > 0 {
      assert leq(s[0], s[i]);
    }
  }

  /** An ordered arrangement of a multiset is unique, so `sorted` forgets the input order. */
  lemma {:induction false} OrderedUnique<T(!new)>(leq: (T, T) -> bool, s: seq<T>, t: seq<T>)
    requires Linear(leq) && Ordered(leq, s) && Ordered(leq, t)
    requires multiset(s) == multiset(t)
    ensures s == t
  {
    hide Linear;
    MultisetMembers(s, t);
    if s != [] {
      HeadIsLeast(leq, s, t[0]);
      HeadIsLeast(leq, t, s[0]);
      LinearAt(leq, s[0], t[0], s[0]);
      HeadTail(s);
      HeadTail(t);
      assert s == [s[0]] + s[1..] && t == [t[0]] + t[1..];
      Cancel(multiset(s[1..]), multiset(t[1..]), multiset{s[0]});
      OrderedUnique(leq, s[1..], t[1..]);
    }
  }

  lemma {:induction false} SameMultisetSameSort<T(!new)>(leq: (T, T) -> bool, s: seq<T>, t: seq<T>)
    requires Linear(leq) && multiset(s) == multiset(t)
    ensures Sort(leq, s) == Sort(leq, t)
  {
    SortSorts(leq, s);
    SortSorts(leq, t);
    OrderedUnique(leq, Sort(leq, s), Sort(leq, t));
  }

  lemma MultisetMembers<T>(s: seq<T>, t: seq<T>)
    requires multiset(s) == multiset(t)
    ensures forall x :: x in s <==> x in t
    ensures |s| == |t|
  {
    assert forall x :: x in s <==> x in multiset(s);
    assert forall x :: x in t <==> x in multiset(t);
    assert |multiset(s)| == |s| && |multiset(t)| == |t|;
  }

  /** Where the last element of `a` sits in its rearrangement `b`. */
  lemma Locate<T>(a: seq<T>, b: seq<T>) returns (j: nat)
    requires a != [] && multiset(a) == multiset(b)
    ensures j < |b| && b[j] == a[|a| - 1]
    ensures b == b[..j] + [b[j]] + b[j + 1..]
    ensures multiset(a[..|a| - 1]) == multiset(b[..j] + b[j + 1..])
  {
    var n := |a| - 1;
    MultisetMembers(a, b);
    assert a[n] in b;
    j :| 0 <= j < |b| && b[j] == a[n];
    assert a == a[..n] + [a[n]] && b == b[..j] + [b[j]] + b[j + 1..];
    assert multiset(a[..n]) + multiset{a[n]} == multiset(b[..j] + b[j + 1..]) + multiset{a[n]};
    Cancel(multiset(a[..n]), multiset(b[..j] + b[j + 1..]), multiset{a[n]});
  }

  lemma DistinctMultiset<T>(s: seq<T>)
    ensures Distinct(s) <==> forall x :: multiset(s)[x] <= 1
  {
    if s != [] {
      var n := |s| - 1;
      DistinctMultiset(s[..n]);
      assert s == s[..n] + [s[n]];
      if Distinct(s) {
        assert Distinct(s[..n]);
        forall x
          ensures multiset(s)[x] <= 1
        {
          if x == s[n] {
            assert x !in s[..n];
          }
        }
      } else {
        var i, j :| 0 <= i < j < |s| && s[i] == s[j];
        if j < n {
          assert s[..n][i] == s[..n][j];
          var x :| multiset(s[..n])[x] > 1;
          assert multiset(s)[x] > 1;
        } else {
          assert s[i] in s[..n];
          assert multiset(s)[s[n]] >= 2;
        }
      }
    }
  }

  lemma SortMembers<T(!new)>(leq: (T, T) -> bool, s: seq<T>)
    requires Linear(leq)
    ensures forall x :: x in Sort(leq, s) <==> x in s
    ensures |Sort(leq, s)| == |s|
    ensures Distinct(s) <==> Distinct(Sort(leq, s))
  {
    SortSorts(leq, s);
    MultisetMembers(Sort(leq, s), s);
    DistinctMultiset(s);
    DistinctMultiset(Sort(leq, s));
  }

  /** Two duplicate-free sequences over the same members are rearrangements. */
  lemma {:induction false} DistinctSameMembers<T>(s: seq<T>, t: seq<T>)
    requires Distinct(s) && Distinct(t)
    requires forall x :: x in s <==> x in t
    ensures multiset(s) == multiset(t)
    ensures |s| == |t|
  {
    DistinctMultiset(s);
    DistinctMultiset(t);
    forall x
      ensures multiset(s)[x] == multiset(t)[x]
    {
      assert x in multiset(s) <==> x in s;
      assert x in multiset(t) <==> x in t;
    }
    assert multiset(s) == multiset(t);
    MultisetMembers(s, t);
  }

  // ---- Sums --------------------------------------------------------------

  /** The weights of a sequence, added up. */
  function Total<T>(s: seq<T>, w: T -> int): int {
    if s == [] then 0 else Total(s[..|s| - 1], w) + w(s[|s| - 1])
  }

  lemma TotalAppend<T>(s: seq<T>, x: T, w: T -> int)
    ensures Total(s + [x], w) == Total(s, w) + w(x)
  {
    assert (s + [x])[..|s|] == s;
  }

  lemma {:induction false} TotalConcat<T>(a: seq<T>, b: seq<T>, w: T -> int)
    ensures Total(a + b, w) == Total(a, w) + Total(b, w)
  {
    if b == [] {
      assert a + b == a;
    } else {
      var n := |b| - 1;
      TotalConcat(a, b[..n], w);
      assert (a + b)[..|a + b| - 1] == a + b[..n];
    }
  }

  /** A sum does not depend on the order of its terms. */
  lemma {:induction false} TotalPermutation<T>(a: seq<T>, b: seq<T>, w: T -> int)
    requires multiset(a) == multiset(b)
    ensures Total(a, w) == Total(b, w)
  {
    MultisetMembers(a, b);
    if a != [] {
      var j := Locate(a, b);
      TotalPermutation(a[..|a| - 1], b[..j] + b[j + 1..], w);
      TotalConcat(b[..j], b[j + 1..], w);
      TotalAppend(b[..j], b[j], w);
      TotalConcat(b[..j] + [b[j]], b[j + 1..], w);
    }
  }

  // ---- Strings, compared by code point from the left -------------------

  predicate StringLeq(a: string, b: string) {
    if a == [] then true
    else if b == [] then false
    else if a[0] != b[0] then a[0] < b[0]
    else StringLeq(a[1..], b[1..])
  }

  lemma StringTotal(a: string, b: string)
    ensures StringLeq(a, b) || StringLeq(b, a)
  {}

  lemma StringAntisymmetric(a: string, b: string)
    requires StringLeq(a, b) && StringLeq(b, a)
    ensures a == b
  {
    if a != [] {
      StringAntisymmetric(a[1..], b[1..]);
      assert a == [a[0]] + a[1..] && b == [b[0]] + b[1..];
    }
  }

  lemma StringTransitive(a: string, b: string, c: string)
    requires StringLeq(a, b) && StringLeq(b, c)
    ensures StringLeq(a, c)
  {
    if a != [] && a[0] == b[0] == c[0] {
      StringTransitive(a[1..], b[1..], c[1..]);
    }
  }

  /** Python compares strings by a total order, so sorted name lists are canonical. */
  lemma StringLinear()
    ensures Linear(StringLeq)
  {
    forall a, b
      ensures StringLeq(a, b) || StringLeq(b, a)
    {
      StringTotal(a, b);
    }
    forall a, b | StringLeq(a, b) && StringLeq(b, a)
      ensures a == b
    {
      StringAntisymmetric(a, b);
    }
    forall a, b, c | StringLeq(a, b) && StringLeq(b, c)
      ensures StringLeq(a, c)
    {
      StringTransitive(a, b, c);
    }
  }

  /** The order is that of dictionaries: the first difference decides, and a prefix comes first. */
  lemma {:induction false} StringLeqIsLexicographic(a: string, b: string)
    ensures StringLeq(a, b) <==>
              || a <= b
              || exists k :: 0 <= k < |a| && k < |b| && a[..k] == b[..k] && a[k] < b[k]
  {
    if a != [] && b != [] {
      StringLeqIsLexicographic(a[1..], b[1..]);
      if a[0] == b[0] {
        if a[1..] <= b[1..] {
          assert a == [a[0]] + a[1..] && b == [b[0]] + b[1..];
        }
        if k :| 0 <= k < |a[1..]| && k < |b[1..]| && a[1..][..k] == b[1..][..k] && a[1..][k] < b[1..][k] {
          assert a[..k + 1] == [a[0]] + a[1..][..k] && b[..k + 1] == [b[0]] + b[1..][..k];
          assert a[k + 1] < b[k + 1];
        }
        if k :| 0 <= k < |a| && k < |b| && a[..k] == b[..k] && a[k] < b[k] {
          assert k > 0;
          assert a[1..][..k - 1] == a[..k][1..] && b[1..][..k - 1] == b[..k][1..];
          assert a[1..][k - 1] < b[1..][k - 1];
        }
      } else {
        assert a[..0] == b[..0];
        if k :| 0 <= k < |a| && k < |b| && a[..k] == b[..k] && a[k] < b[k] {
          assert k > 0 ==> a[..k][0] == b[..k][0];
        }
      }
    }
  }

  function SortNames(names: seq<string>): seq<string> {
    Sort(StringLeq, names)
  }

  lemma SortNamesFacts(names: seq<string>)
    ensures Ordered(StringLeq, SortNames(names))
    ensures multiset(SortNames(names)) == multiset(names)
    ensures |SortNames(names)| == |names|
    ensures forall x :: x in SortNames(names) <==> x in names
    ensures Distinct(names) <==> Distinct(SortNames(names))
  {
    StringLinear();
    SortSorts(StringLeq, names);
    SortMembers(StringLeq, names);
  }
}
