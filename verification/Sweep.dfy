/** The sweep line of `resource_report` (scripts/report_ci_timing.py): how many Linux jobs ran at once. */
module Sweep {
  import opened Order

  datatype Allocation = Allocated | Unallocated | Unclear

  /** A physical job row; instants are whole ticks of the reporting clock. */
  datatype Job = Job(linux: bool, allocation: Allocation, seconds: Option<int>, identified: bool, start: int, end: int)

  datatype Point = Point(at: int, change: int)

  /** As the report builds its rows: the known running time of an allocated job is that of its own interval. A job that
      no runner took keeps its interval and runs for zero seconds. */
  predicate Timed(jobs: seq<Job>) {
    forall i :: 0 <= i < |jobs| && jobs[i].allocation == Allocated && jobs[i].seconds.Some? ==>
                  jobs[i].seconds.value == jobs[i].end - jobs[i].start
  }

  predicate Counted(j: Job) {
    j.linux && j.allocation == Allocated && j.seconds.Some? && j.identified && j.seconds.value > 0
  }

  /** A Linux row that ran, or may have run, at a time nobody knows. */
  predicate Unplaced(j: Job) {
    j.linux && j.allocation != Unallocated && !(j.allocation == Allocated && j.seconds.Some? && j.identified)
  }

  predicate RunsAt(j: Job, t: int) {
    Counted(j) && j.start <= t < j.end
  }

  /** The number of counted jobs running at an instant. */
  ghost function ActiveAt(jobs: seq<Job>, t: int): nat {
    if jobs == [] then 0
    else ActiveAt(jobs[..|jobs| - 1], t) + if RunsAt(jobs[|jobs| - 1], t) then 1 else 0
  }

  /** `peak` is reached at some instant and exceeded at none. */
  ghost predicate Peak(jobs: seq<Job>, peak: int) {
    (exists t :: ActiveAt(jobs, t) == peak) && forall t :: ActiveAt(jobs, t) <= peak
  }

  // ---- The points of the sweep -----------------------------------------------------

  function PointsOf(j: Job): seq<Point> {
    if Counted(j) then [Point(j.start, 1), Point(j.end, -1)] else []
  }

  function Points(jobs: seq<Job>): seq<Point> {
    if jobs == [] then [] else Points(jobs[..|jobs| - 1]) + PointsOf(jobs[|jobs| - 1])
  }

  /** Tuples compare by time, then ends before starts. */
  predicate Earlier(a: Point, b: Point) {
    a.at < b.at || (a.at == b.at && a.change <= b.change)
  }

  /** The change of a point not later than the cut. */
  function Upto(cut: Point): Point -> int {
    (p: Point) => if Earlier(p, cut) then p.change else 0
  }

  function SumUpTo(points: seq<Point>, cut: Point): int {
    Total(points, Upto(cut))
  }

  lemma PairSum(a: Point, b: Point, cut: Point)
    ensures SumUpTo([a, b], cut) ==
            (if Earlier(a, cut) then a.change else 0) + (if Earlier(b, cut) then b.change else 0)
  {
    TotalAppend([], a, Upto(cut));
    TotalAppend([a], b, Upto(cut));
    assert [] + [a] == [a] && [a] + [b] == [a, b];
  }

  /** Starts and ends seen by an instant add up to the jobs running then. */
  lemma {:induction false} SumIsActive(jobs: seq<Job>, t: int)
    requires Timed(jobs)
    ensures SumUpTo(Points(jobs), Point(t, 1)) == ActiveAt(jobs, t)
  {
    if jobs != [] {
      var n := |jobs| - 1;
      var j := jobs[n];
      SumIsActive(jobs[..n], t);
      TotalConcat(Points(jobs[..n]), PointsOf(j), Upto(Point(t, 1)));
      PairSum(Point(j.start, 1), Point(j.end, -1), Point(t, 1));
    }
  }

  /** Counting the ends at an instant but not its starts never goes below zero. */
  lemma {:induction false} EndsFollowStarts(jobs: seq<Job>, t: int)
    requires Timed(jobs)
    ensures 0 <= SumUpTo(Points(jobs), Point(t, -1))
  {
    if jobs != [] {
      var n := |jobs| - 1;
      var j := jobs[n];
      EndsFollowStarts(jobs[..n], t);
      TotalConcat(Points(jobs[..n]), PointsOf(j), Upto(Point(t, -1)));
      PairSum(Point(j.start, 1), Point(j.end, -1), Point(t, -1));
    }
  }

  ghost predicate UnitSteps(points: seq<Point>) {
    forall i :: 0 <= i < |points| ==> points[i].change == 1 || points[i].change == -1
  }

  lemma {:induction false} PointsUnit(jobs: seq<Job>)
    ensures forall p :: p in Points(jobs) ==> p.change == 1 || p.change == -1
  {
    if jobs != [] {
      PointsUnit(jobs[..|jobs| - 1]);
    }
  }

  // ---- The sorted sweep ----------------------------------------------------------------

  /** The running count after `k` points. */
  function Running(points: seq<Point>, k: nat): int
    requires k <= |points|
  {
    if k == 0 then 0 else Running(points, k - 1) + points[k - 1].change
  }

  /** Where an ordered sequence crosses a cut. */
  lemma {:induction false} Crossing(s: seq<Point>, n: nat, cut: Point) returns (k: nat)
    requires Ordered(Earlier, s) && n <= |s|
    ensures k <= n
    ensures forall i :: 0 <= i < k ==> Earlier(s[i], cut)
    ensures forall i :: k <= i < n ==> !Earlier(s[i], cut)
    ensures SumUpTo(s[..n], cut) == Running(s, k)
  {
    if n == 0 {
      k := 0;
    } else {
      k := Crossing(s, n - 1, cut);
      assert s[..n][..n - 1] == s[..n - 1];
      if k < n - 1 {
        assert Earlier(s[k], s[n - 1]);
      }
      if Earlier(s[n - 1], cut) {
        k := n;
      }
    }
  }

  lemma {:induction false} OnlyEnds(s: seq<Point>, k: nat, m: nat)
    requires k <= m <= |s| && forall i :: k <= i < m ==> s[i].change == -1
    ensures Running(s, m) == Running(s, k) - (m - k)
  {
    if k < m {
      OnlyEnds(s, k, m - 1);
    }
  }

  /** The sweep over the sorted points of timed jobs. */
  ghost predicate Swept(jobs: seq<Job>, s: seq<Point>) {
    Timed(jobs) && s == Sort(Earlier, Points(jobs))
  }

  lemma SweptFacts(jobs: seq<Job>, s: seq<Point>, cut: Point)
    requires Swept(jobs, s)
    ensures Ordered(Earlier, s) && UnitSteps(s)
    ensures SumUpTo(s, cut) == SumUpTo(Points(jobs), cut)
  {
    SortSorts(Earlier, Points(jobs));
    TotalPermutation(s, Points(jobs), Upto(cut));
    MultisetMembers(s, Points(jobs));
    PointsUnit(jobs);
    assert forall i :: 0 <= i < |s| ==> s[i] in s;
  }

  /** The running count is never negative. */
  lemma {:induction false} NeverNegative(jobs: seq<Job>, s: seq<Point>, k: nat)
    requires Swept(jobs, s) && k <= |s|
    ensures 0 <= Running(s, k)
  {
    hide Swept, SumUpTo, Ordered;
    if k > 0 {
      NeverNegative(jobs, s, k - 1);
      var cut := s[k - 1];
      SweptFacts(jobs, s, cut);
      if cut.change == -1 {
        SweptTimed(jobs, s);
        EndsFollowStarts(jobs, cut.at);
        var m := Crossing(s, |s|, cut);
        assert s[..|s|] == s;
        forall i | k <= i < m
          ensures s[i].change == -1
        {
          OrderedAt(s, k - 1, i);
        }
        OnlyEnds(s, k, if m < k then k else m);
        assert k <= m by {
          assert Earlier(cut, cut);
        }
      }
    }
  }

  lemma SweptTimed(jobs: seq<Job>, s: seq<Point>)
    requires Swept(jobs, s)
    ensures Timed(jobs)
  {}

  lemma OrderedAt(s: seq<Point>, i: nat, j: nat)
    requires Ordered(Earlier, s) && i < j < |s|
    ensures Earlier(s[i], s[j])
  {}

  /** At every instant the number of running jobs is some running count of the sweep. */
  lemma {:induction false} InstantIsSwept(jobs: seq<Job>, s: seq<Point>, t: int) returns (k: nat)
    requires Swept(jobs, s)
    ensures k <= |s| && Running(s, k) == ActiveAt(jobs, t)
    ensures forall i :: 0 <= i < k ==> s[i].at <= t
    ensures forall i :: k <= i < |s| ==> t < s[i].at
  {
    hide SumUpTo, Ordered, Swept;
    SweptTimed(jobs, s);
    SweptFacts(jobs, s, Point(t, 1));
    SumIsActive(jobs, t);
    k := Crossing(s, |s|, Point(t, 1));
    assert s[..|s|] == s;
  }

  /** A running count not exceeded by the next one is the number of jobs running at that instant. */
  lemma SweptIsInstant(jobs: seq<Job>, s: seq<Point>, k: nat)
    requires Swept(jobs, s) && 0 < k <= |s| && s[k - 1].change == 1
    requires k < |s| ==> Running(s, k + 1) <= Running(s, k)
    ensures ActiveAt(jobs, s[k - 1].at) == Running(s, k)
  {
    hide Swept, Ordered;
    var t := s[k - 1].at;
    SweptFacts(jobs, s, Point(t, 1));
    var m := InstantIsSwept(jobs, s, t);
    if k < |s| {
      OrderedAt(s, k - 1, k);
      assert s[k].change == -1;
    }
    assert m == k;
  }

  /** The running count ends at zero. */
  lemma EndsAtZero(jobs: seq<Job>, s: seq<Point>)
    requires Swept(jobs, s)
    ensures Running(s, |s|) == 0
  {
    hide Swept, Ordered;
    var last := Horizon(jobs);
    var k := InstantIsSwept(jobs, s, last);
    SweptBy(jobs, s, last);
  }

  lemma {:induction false} Horizon(jobs: seq<Job>) returns (t: int)
    ensures ActiveAt(jobs, t) == 0
    ensures forall p :: p in Points(jobs) ==> p.at <= t
  {
    if jobs == [] {
      t := 0;
    } else {
      var n := |jobs| - 1;
      var before := Horizon(jobs[..n]);
      t := if before < jobs[n].end then jobs[n].end else before;
      t := if t < jobs[n].start then jobs[n].start else t;
      NothingLater(jobs[..n], before, t);
    }
  }

  lemma {:induction false} NothingLater(jobs: seq<Job>, before: int, t: int)
    requires before <= t && forall p :: p in Points(jobs) ==> p.at <= before
    ensures ActiveAt(jobs, t) == 0
  {
    if jobs != [] {
      var n := |jobs| - 1;
      assert Points(jobs) == Points(jobs[..n]) + PointsOf(jobs[n]);
      NothingLater(jobs[..n], before, t);
      if Counted(jobs[n]) {
        assert PointsOf(jobs[n])[1] in Points(jobs);
      }
    }
  }

  lemma SweptBy(jobs: seq<Job>, s: seq<Point>, t: int)
    requires Swept(jobs, s) && forall p :: p in Points(jobs) ==> p.at <= t
    ensures forall i :: 0 <= i < |s| ==> s[i].at <= t
  {
    SortMembers(Earlier, Points(jobs));
    assert forall i :: 0 <= i < |s| ==> s[i] in s;
  }

  // ---- The method -----------------------------------------------------------------------

  /** Collects the points, sorts them, and sweeps: the reported peak is the greatest number of jobs at any instant. */
  method KnownPeak(jobs: seq<Job>, linuxComplete: bool) returns (peak: int, complete: bool)
    requires Timed(jobs)
    ensures Peak(jobs, peak)
    ensures complete <==> linuxComplete && forall i :: 0 <= i < |jobs| ==> !Unplaced(jobs[i])
  {
    hide ActiveAt, Sort;
    var points: seq<Point> := [];
    complete := linuxComplete;
    for k := 0 to |jobs|
      invariant points == Points(jobs[..k])
      invariant complete <==> linuxComplete && forall i :: 0 <= i < k ==> !Unplaced(jobs[i])
    {
      assert jobs[..k + 1][..k] == jobs[..k];
      var j := jobs[k];
      if j.linux && j.allocation != Unallocated {
        if j.allocation != Allocated || j.seconds.None? || !j.identified {
          complete := false;
        } else if j.seconds.value > 0 {
          points := points + [Point(j.start, 1), Point(j.end, -1)];
        }
      }
    }
    assert jobs[..|jobs|] == jobs;
    var s := Sort(Earlier, points);
    peak := SweepSorted(jobs, s);
  }

  method SweepSorted(ghost jobs: seq<Job>, s: seq<Point>) returns (peak: int)
    requires Swept(jobs, s)
    ensures Peak(jobs, peak)
  {
    hide Swept, ActiveAt, Ordered;
    var active := 0;
    peak := 0;
    ghost var best: nat := 0;
    SweptFacts(jobs, s, Point(0, 0));
    for k := 0 to |s|
      invariant active == Running(s, k)
      invariant best <= k && peak == Running(s, best) && forall i :: 0 <= i <= k ==> Running(s, i) <= peak
      invariant best > 0 ==> s[best - 1].change == 1
    {
      active := active + s[k].change;
      if active > peak {
        peak := active;
        best := k + 1;
      }
    }
    PeakReached(jobs, s, best);
  }

  lemma PeakReached(jobs: seq<Job>, s: seq<Point>, best: nat)
    requires Swept(jobs, s) && best <= |s| && (best > 0 ==> s[best - 1].change == 1)
    requires forall i :: 0 <= i <= |s| ==> Running(s, i) <= Running(s, best)
    ensures Peak(jobs, Running(s, best))
  {
    hide Swept, ActiveAt, Running;
    if best > 0 {
      SweptIsInstant(jobs, s, best);
    } else {
      var t := Horizon(jobs);
      EmptyRun(s);
    }
    forall t
      ensures ActiveAt(jobs, t) <= Running(s, best)
    {
      var k := InstantIsSwept(jobs, s, t);
    }
  }

  lemma EmptyRun(s: seq<Point>)
    ensures Running(s, 0) == 0
  {}
}
