/** `physical_jobs` (scripts/report_ci_timing.py): repeated snapshots and carried-forward aliases of one runner
    allocation become one row. */
module PhysicalJobs {
  import opened Order

  /** `run` stands for the repository and run id, `snapshot` for the fields compared between snapshots of one job, and
      `fingerprint` for the fields that identify an allocation. */
  datatype Job = Job(run: string, id: Option<int>, attempt: int, snapshot: string, fingerprint: string, evidenced: bool,
                     created: Option<int>, completed: Option<int>)

  datatype Row = Row(job: Job, ids: seq<Option<int>>)

  type Identity = (string, int)

  datatype State = State(rows: seq<Row>, found: map<Identity, Job>, allocations: map<(string, string), nat>)

  predicate SameIdentity(a: Job, b: Job) {
    a.id.Some? && a.id == b.id && a.run == b.run
  }

  predicate Carried(original: Job, j: Job) {
    && j.created.Some? && j.completed.Some?
    && j.attempt > original.attempt
    && j.created.value >= j.completed.value
  }

  /** The row this job is an alias of, if it is one. */
  function AliasOf(s: State, j: Job): (k: Option<nat>)
    ensures k.Some? ==> k.value < |s.rows|
  {
    if j.evidenced && (j.run, j.fingerprint) in s.allocations then
      var k := s.allocations[(j.run, j.fingerprint)];
      if k < |s.rows| && Carried(s.rows[k].job, j) then Some(k) else None
    else None
  }

  function Remember(s: State, j: Job): map<Identity, Job> {
    if j.id.Some? then s.found[(j.run, j.id.value) := j] else s.found
  }

  /** One job of the loop; `None` is the ValueError of conflicting snapshots. */
  function Accept(s: State, j: Job): Option<State> {
    if j.id.Some? && (j.run, j.id.value) in s.found then
      if s.found[(j.run, j.id.value)].snapshot != j.snapshot then None else Some(s)
    else
      match AliasOf(s, j)
      case Some(k) =>
        Some(State(s.rows[k := Row(s.rows[k].job, s.rows[k].ids + [j.id])], Remember(s, j), s.allocations))
      case None =>
        Some(State(s.rows + [Row(j, [j.id])], Remember(s, j),
                   if j.evidenced then s.allocations[(j.run, j.fingerprint) := |s.rows|] else s.allocations))
  }

  function Process(jobs: seq<Job>): Option<State> {
    if jobs == [] then Some(State([], map[], map[]))
    else
      var before := Process(jobs[..|jobs| - 1]);
      if before.None? then None else Accept(before.value, jobs[|jobs| - 1])
  }

  predicate ByAttempt(a: Job, b: Job) {
    a.attempt <= b.attempt
  }

  function Physical(jobs: seq<Job>): Option<seq<Row>> {
    var s := Process(Sort(ByAttempt, jobs));
    if s.None? then None else Some(s.value.rows)
  }

  method PhysicalRows(jobs: seq<Job>) returns (r: Option<seq<Row>>)
    ensures r == Physical(jobs)
  {
    var sorted := Sort(ByAttempt, jobs);
    var s := State([], map[], map[]);
    for k := 0 to |sorted|
      invariant Process(sorted[..k]) == Some(s)
    {
      assert sorted[..k + 1][..k] == sorted[..k];
      var next := Accept(s, sorted[k]);
      if next.None? {
        ProcessFails(sorted, k + 1);
        return None;
      }
      s := next.value;
    }
    assert sorted[..|sorted|] == sorted;
    return Some(s.rows);
  }

  lemma {:induction false} ProcessFails(jobs: seq<Job>, k: nat)
    requires k <= |jobs| && Process(jobs[..k]).None?
    ensures Process(jobs).None?
    decreases |jobs| - k
  {
    if k < |jobs| {
      assert jobs[..k + 1][..k] == jobs[..k];
      ProcessFails(jobs, k + 1);
    } else {
      assert jobs[..k] == jobs;
    }
  }

  // ---- Every identity in exactly one row -------------------------------------------------

  function Occurs(r: Row, i: Identity): nat {
    if r.job.run == i.0 then multiset(r.ids)[Some(i.1)] else 0
  }

  /** How often an identity is listed over all rows. */
  function Occurrences(rows: seq<Row>, i: Identity): nat {
    if rows == [] then 0 else Occurrences(rows[..|rows| - 1], i) + Occurs(rows[|rows| - 1], i)
  }

  lemma {:induction false} OccurrencesUpdate(rows: seq<Row>, k: nat, r: Row, i: Identity)
    requires k < |rows|
    ensures Occurrences(rows[k := r], i) == Occurrences(rows, i) - Occurs(rows[k], i) + Occurs(r, i)
  {
    var n := |rows| - 1;
    if k == n {
      assert rows[k := r][..n] == rows[..n];
    } else {
      assert rows[k := r][..n] == rows[..n][k := r];
      OccurrencesUpdate(rows[..n], k, r, i);
    }
  }

  ghost predicate Seen(jobs: seq<Job>, i: Identity) {
    exists k :: 0 <= k < |jobs| && jobs[k].id == Some(i.1) && jobs[k].run == i.0
  }

  /** What the loop keeps: everything seen is listed once and remembered with the snapshot of all its appearances. */
  ghost predicate Consistent(jobs: seq<Job>, s: State) {
    && (forall i :: i in s.found <==> Seen(jobs, i))
    && (forall i :: Occurrences(s.rows, i) == if i in s.found then 1 else 0)
    && (forall k :: 0 <= k < |jobs| && jobs[k].id.Some? ==>
          && (jobs[k].run, jobs[k].id.value) in s.found
          && s.found[(jobs[k].run, jobs[k].id.value)].snapshot == jobs[k].snapshot)
    && (forall p :: p in s.allocations ==> s.allocations[p] < |s.rows| && s.rows[s.allocations[p]].job.run == p.0)
  }

  lemma SeenNext(jobs: seq<Job>, j: Job, i: Identity)
    ensures Seen(jobs + [j], i) <==> Seen(jobs, i) || (j.id == Some(i.1) && j.run == i.0)
  {
    if Seen(jobs, i) {
      var k :| 0 <= k < |jobs| && jobs[k].id == Some(i.1) && jobs[k].run == i.0;
      assert (jobs + [j])[k] == jobs[k];
    }
    if j.id == Some(i.1) && j.run == i.0 {
      assert (jobs + [j])[|jobs|] == j;
    }
  }

  /** A new identity, or an identity-less job, ends up in one more place: its alias's row or its own. */
  lemma AcceptedOccurrences(s: State, j: Job, i: Identity)
    requires Accept(s, j).Some? && !(j.id.Some? && (j.run, j.id.value) in s.found)
    requires forall p :: p in s.allocations ==> s.allocations[p] < |s.rows| && s.rows[s.allocations[p]].job.run == p.0
    ensures Occurrences(Accept(s, j).value.rows, i) ==
            Occurrences(s.rows, i) + if j.id == Some(i.1) && j.run == i.0 then 1 else 0
  {
    var next := Accept(s, j).value;
    match AliasOf(s, j)
    case Some(k) => OccurrencesUpdate(s.rows, k, Row(s.rows[k].job, s.rows[k].ids + [j.id]), i);
    case None =>
      assert next.rows[..|s.rows|] == s.rows;
      assert multiset([j.id]) == multiset{j.id};
  }

  lemma AcceptConsistent(jobs: seq<Job>, s: State, j: Job)
    requires Consistent(jobs, s) && Accept(s, j).Some?
    ensures Consistent(jobs + [j], Accept(s, j).value)
  {
    hide Occurrences, Seen;
    var next := Accept(s, j).value;
    forall i
      ensures i in next.found <==> Seen(jobs + [j], i)
      ensures Occurrences(next.rows, i) == if i in next.found then 1 else 0
    {
      SeenNext(jobs, j, i);
      if !(j.id.Some? && (j.run, j.id.value) in s.found) {
        AcceptedOccurrences(s, j, i);
      }
    }
  }

  lemma {:induction false} ProcessConsistent(jobs: seq<Job>)
    ensures Process(jobs).Some? ==> Consistent(jobs, Process(jobs).value)
  {
    hide Accept;
    if jobs == [] {
      NothingSeen();
    } else {
      hide Consistent;
      var n := |jobs| - 1;
      assert jobs == jobs[..n] + [jobs[n]];
      ProcessConsistent(jobs[..n]);
      if Process(jobs).Some? {
        AcceptConsistent(jobs[..n], Process(jobs[..n]).value, jobs[n]);
      }
    }
  }

  lemma NothingSeen()
    ensures Consistent([], State([], map[], map[]))
  {}

  ghost predicate Conflicting(jobs: seq<Job>) {
    exists a, b :: a in jobs && b in jobs && SameIdentity(a, b) && a.snapshot != b.snapshot
  }

  /** Processing fails exactly on two different snapshots of one identity. */
  lemma {:induction false} FailsIffConflicting(jobs: seq<Job>)
    ensures Process(jobs).None? <==> Conflicting(jobs)
  {
    if jobs != [] {
      var n := |jobs| - 1;
      var j := jobs[n];
      assert jobs == jobs[..n] + [j];
      FailsIffConflicting(jobs[..n]);
      ProcessConsistent(jobs[..n]);
      if Process(jobs[..n]).Some? {
        LastConflicts(jobs[..n], Process(jobs[..n]).value, j);
      } else {
        var a, b :| a in jobs[..n] && b in jobs[..n] && SameIdentity(a, b) && a.snapshot != b.snapshot;
        assert a in jobs && b in jobs;
      }
    }
  }

  lemma LastConflicts(jobs: seq<Job>, s: State, j: Job)
    requires Consistent(jobs, s) && !Conflicting(jobs)
    ensures Accept(s, j).None? <==> Conflicting(jobs + [j])
  {
    hide Occurrences, AliasOf;
    if Accept(s, j).None? {
      assert Seen(jobs, (j.run, j.id.value));
      var k :| 0 <= k < |jobs| && jobs[k].id == j.id && jobs[k].run == j.run;
      assert jobs[k] in jobs + [j] && j in jobs + [j] && SameIdentity(jobs[k], j);
    }
    if Conflicting(jobs + [j]) {
      var a, b :| a in jobs + [j] && b in jobs + [j] && SameIdentity(a, b) && a.snapshot != b.snapshot;
      assert a in jobs && b in jobs ==> Conflicting(jobs);
      var other := if a == j then b else a;
      assert other in jobs;
      var k :| 0 <= k < |jobs| && jobs[k] == other;
    }
  }

  lemma {:induction false} SortPermutes(jobs: seq<Job>)
    ensures multiset(Sort(ByAttempt, jobs)) == multiset(jobs)
  {
    if jobs != [] {
      SortPermutes(jobs[1..]);
      InsertMultiset(ByAttempt, jobs[0], Sort(ByAttempt, jobs[1..]));
      HeadTail(jobs);
    }
  }

  /** The rows' job ids partition the identities of the input; the input is refused exactly for a conflict. */
  lemma RowsPartitionIdentities(jobs: seq<Job>, i: Identity)
    ensures Physical(jobs).None? <==> Conflicting(jobs)
    ensures Physical(jobs).Some? ==> Occurrences(Physical(jobs).value, i) == if Seen(jobs, i) then 1 else 0
  {
    var sorted := Sort(ByAttempt, jobs);
    SortPermutes(jobs);
    MultisetMembers(sorted, jobs);
    FailsIffConflicting(sorted);
    ProcessConsistent(sorted);
    SeenMembers(sorted, jobs, i);
  }

  lemma SeenMembers(a: seq<Job>, b: seq<Job>, i: Identity)
    requires forall j :: j in a <==> j in b
    ensures Seen(a, i) <==> Seen(b, i)
  {
    if Seen(a, i) {
      var k :| 0 <= k < |a| && a[k].id == Some(i.1) && a[k].run == i.0;
      assert a[k] in b;
    }
    if Seen(b, i) {
      var k :| 0 <= k < |b| && b[k].id == Some(i.1) && b[k].run == i.0;
      assert b[k] in a;
    }
  }

  // ---- What makes an alias ----------------------------------------------------------------

  ghost predicate CarriedFrom(jobs: seq<Job>, original: Job, id: Option<int>) {
    exists j :: j in jobs && j.id == id && j.run == original.run && j.fingerprint == original.fingerprint && j.evidenced
                && j.attempt > original.attempt
                && j.created.Some? && j.completed.Some? && j.created.value >= j.completed.value
  }

  /** The first id of a row is its own; every other belongs to fully evidenced carried-forward evidence of it. */
  ghost predicate RowEvidenced(jobs: seq<Job>, r: Row) {
    && r.ids != [] && r.ids[0] == r.job.id && r.job in jobs
    && forall m :: 1 <= m < |r.ids| ==> CarriedFrom(jobs, r.job, r.ids[m])
  }

  ghost predicate AllEvidenced(jobs: seq<Job>, s: State) {
    && (forall k :: 0 <= k < |s.rows| ==> RowEvidenced(jobs, s.rows[k]))
    && (forall p :: p in s.allocations ==>
          && s.allocations[p] < |s.rows|
          && s.rows[s.allocations[p]].job.run == p.0 && s.rows[s.allocations[p]].job.fingerprint == p.1)
  }

  lemma StillEvidenced(jobs: seq<Job>, j: Job, r: Row)
    requires RowEvidenced(jobs, r)
    ensures RowEvidenced(jobs + [j], r)
  {
    forall m | 1 <= m < |r.ids|
      ensures CarriedFrom(jobs + [j], r.job, r.ids[m])
    {
      var other :| other in jobs && other.id == r.ids[m]
                   && other.run == r.job.run && other.fingerprint == r.job.fingerprint
                   && other.evidenced && Carried(r.job, other);
      assert other in jobs + [j];
    }
  }

  lemma AcceptEvidenced(jobs: seq<Job>, s: State, j: Job)
    requires AllEvidenced(jobs, s) && Accept(s, j).Some?
    ensures AllEvidenced(jobs + [j], Accept(s, j).value)
  {
    hide RowEvidenced, Carried;
    forall k | 0 <= k < |s.rows|
      ensures RowEvidenced(jobs + [j], s.rows[k])
    {
      StillEvidenced(jobs, j, s.rows[k]);
    }
    if !(j.id.Some? && (j.run, j.id.value) in s.found) {
      match AliasOf(s, j)
      case Some(k) => AliasEvidenced(jobs, s.rows[k], j);
      case None => OwnRow(jobs, j);
    }
  }

  lemma AliasEvidenced(jobs: seq<Job>, r: Row, j: Job)
    requires RowEvidenced(jobs, r) && j.run == r.job.run && j.fingerprint == r.job.fingerprint && j.evidenced
    requires Carried(r.job, j)
    ensures RowEvidenced(jobs + [j], Row(r.job, r.ids + [j.id]))
  {
    StillEvidenced(jobs, j, r);
    assert j in jobs + [j];
    assert CarriedFrom(jobs + [j], r.job, j.id);
  }

  lemma OwnRow(jobs: seq<Job>, j: Job)
    ensures RowEvidenced(jobs + [j], Row(j, [j.id]))
  {
    assert j in jobs + [j];
  }

  lemma {:induction false} ProcessEvidenced(jobs: seq<Job>)
    ensures Process(jobs).Some? ==> AllEvidenced(jobs, Process(jobs).value)
  {
    hide Accept, RowEvidenced;
    if jobs != [] {
      var n := |jobs| - 1;
      assert jobs == jobs[..n] + [jobs[n]];
      ProcessEvidenced(jobs[..n]);
      if Process(jobs).Some? {
        AcceptEvidenced(jobs[..n], Process(jobs[..n]).value, jobs[n]);
      }
    }
  }

  /** No runner id alone makes an alias: each merged id is of the same allocation, of a later attempt, created after
      it. */
  lemma AliasesAreEvidenced(jobs: seq<Job>, k: nat)
    requires Physical(jobs).Some? && k < |Physical(jobs).value|
    ensures RowEvidenced(jobs, Physical(jobs).value[k])
  {
    hide CarriedFrom;
    var sorted := Sort(ByAttempt, jobs);
    SortPermutes(jobs);
    MultisetMembers(sorted, jobs);
    ProcessEvidenced(sorted);
    var r := Physical(jobs).value[k];
    forall m | 1 <= m < |r.ids|
      ensures CarriedFrom(jobs, r.job, r.ids[m])
    {
      CarriedMembers(sorted, jobs, r.job, r.ids[m]);
    }
  }

  lemma CarriedMembers(a: seq<Job>, b: seq<Job>, original: Job, id: Option<int>)
    requires (forall j :: j in a <==> j in b) && CarriedFrom(a, original, id)
    ensures CarriedFrom(b, original, id)
  {}

  // ---- No alias is missed ---------------------------------------------------------------

  predicate SamePair(a: Job, b: Job) {
    a.evidenced && b.evidenced && a.run == b.run && a.fingerprint == b.fingerprint
  }

  /** No row between `a` and `b` is evidence of the same allocation. */
  ghost predicate NoneBetween(rows: seq<Row>, a: nat, b: nat)
    requires a < b < |rows|
  {
    forall m :: a < m < b ==> !SamePair(rows[a].job, rows[m].job)
  }

  /** The table holds the last row evidencing each allocation, and nothing was given a row of its own that is carried
      forward from the row before it. */
  ghost predicate Merged(s: State) {
    && (forall p :: p in s.allocations ==>
          && s.allocations[p] < |s.rows| && s.rows[s.allocations[p]].job.evidenced
          && (s.rows[s.allocations[p]].job.run, s.rows[s.allocations[p]].job.fingerprint) == p)
    && (forall k :: 0 <= k < |s.rows| && s.rows[k].job.evidenced ==>
          && (s.rows[k].job.run, s.rows[k].job.fingerprint) in s.allocations
          && k <= s.allocations[(s.rows[k].job.run, s.rows[k].job.fingerprint)])
    && NoneMissed(s.rows)
  }

  ghost predicate NoneMissed(rows: seq<Row>) {
    forall a, b :: 0 <= a < b < |rows| && SamePair(rows[a].job, rows[b].job) && NoneBetween(rows, a, b) ==>
                     !Carried(rows[a].job, rows[b].job)
  }

  lemma JobsOnly(rows: seq<Row>, rows': seq<Row>)
    requires |rows| == |rows'| && forall k :: 0 <= k < |rows| ==> rows'[k].job == rows[k].job
    requires NoneMissed(rows)
    ensures NoneMissed(rows')
  {
    forall a, b | 0 <= a < b < |rows'| && SamePair(rows'[a].job, rows'[b].job) && NoneBetween(rows', a, b)
      ensures !Carried(rows'[a].job, rows'[b].job)
    {
      assert NoneBetween(rows, a, b);
    }
  }

  lemma OwnRowMisses(rows: seq<Row>, r: Row, last: Option<nat>)
    requires NoneMissed(rows) && (last.Some? ==> last.value < |rows| && !Carried(rows[last.value].job, r.job))
    requires forall k :: 0 <= k < |rows| && SamePair(rows[k].job, r.job) ==> last.Some? && k <= last.value
    requires last.Some? ==> SamePair(rows[last.value].job, r.job)
    ensures NoneMissed(rows + [r])
  {
    var next := rows + [r];
    forall a, b | 0 <= a < b < |next| && SamePair(next[a].job, next[b].job) && NoneBetween(next, a, b)
      ensures !Carried(next[a].job, next[b].job)
    {
      if b < |rows| {
        forall m | a < m < b
          ensures !SamePair(rows[a].job, rows[m].job)
        {
          assert !SamePair(next[a].job, next[m].job);
        }
      } else if a < last.value {
        assert SamePair(next[a].job, next[last.value].job);
      }
    }
  }

  lemma AcceptMerges(s: State, j: Job)
    requires Merged(s) && Accept(s, j).Some?
    ensures Merged(Accept(s, j).value)
  {
    hide NoneMissed;
    var next := Accept(s, j).value;
    if !(j.id.Some? && (j.run, j.id.value) in s.found) {
      var pair := (j.run, j.fingerprint);
      match AliasOf(s, j)
      case Some(k) => JobsOnly(s.rows, next.rows);
      case None =>
        var last := if j.evidenced && pair in s.allocations then Some(s.allocations[pair]) else None;
        OwnRowMisses(s.rows, Row(j, [j.id]), last);
    }
  }

  lemma {:induction false} ProcessMerges(jobs: seq<Job>)
    ensures Process(jobs).Some? ==> Merged(Process(jobs).value)
  {
    hide Accept;
    if jobs != [] {
      hide Merged;
      ProcessMerges(jobs[..|jobs| - 1]);
      if Process(jobs).Some? {
        AcceptMerges(Process(jobs[..|jobs| - 1]).value, jobs[|jobs| - 1]);
      }
    }
  }

  /** Of two rows evidencing one allocation, one after the other, the second was not carried forward from the first:
      whatever is carried forward from the allocation's latest row is merged into it. */
  lemma NoAliasMissed(jobs: seq<Job>, a: nat, b: nat)
    requires Physical(jobs).Some? && a < b < |Physical(jobs).value|
    requires SamePair(Physical(jobs).value[a].job, Physical(jobs).value[b].job)
    requires NoneBetween(Physical(jobs).value, a, b)
    ensures var first, second := Physical(jobs).value[a].job, Physical(jobs).value[b].job;
            || second.attempt <= first.attempt || second.created.None? || second.completed.None?
            || second.created.value < second.completed.value
  {
    ProcessMerges(Sort(ByAttempt, jobs));
  }

  /** The id of an evidenced job carried forward from row `k`, when that was the allocation's latest row. */
  ghost predicate JoinedLatest(jobs: seq<Job>, rows: seq<Row>, k: nat, id: Option<int>)
    requires k < |rows|
  {
    exists j :: j in jobs && j.id == id && Joins(rows, k, j)
  }

  ghost predicate Joins(rows: seq<Row>, k: nat, j: Job)
    requires k < |rows|
  {
    && SamePair(rows[k].job, j) && Carried(rows[k].job, j)
    && forall b :: k < b < |rows| && SamePair(rows[k].job, rows[b].job) ==> j.attempt <= rows[b].job.attempt
  }

  ghost predicate AllJoined(jobs: seq<Job>, rows: seq<Row>) {
    forall k, m :: 0 <= k < |rows| && 1 <= m < |rows[k].ids| ==> JoinedLatest(jobs, rows, k, rows[k].ids[m])
  }

  /** One more row, of no earlier attempt than any job so far, changes nothing for the others. */
  lemma StillJoined(jobs: seq<Job>, j: Job, rows: seq<Row>, rows': seq<Row>, k: nat, id: Option<int>)
    requires k < |rows| <= |rows'| && JoinedLatest(jobs, rows, k, id)
    requires forall b :: 0 <= b < |rows| ==> rows'[b].job == rows[b].job
    requires forall b :: |rows| <= b < |rows'| ==> rows'[b].job == j
    requires forall i :: i in jobs ==> i.attempt <= j.attempt
    ensures JoinedLatest(jobs + [j], rows', k, id)
  {
    var i :| i in jobs && i.id == id && Joins(rows, k, i);
    assert i in jobs + [j] && Joins(rows', k, i);
  }

  lemma AcceptJoins(jobs: seq<Job>, s: State, j: Job)
    requires AllJoined(jobs, s.rows) && Merged(s) && Accept(s, j).Some?
    requires forall i :: i in jobs ==> i.attempt <= j.attempt
    ensures AllJoined(jobs + [j], Accept(s, j).value.rows)
  {
    hide NoneMissed, JoinedLatest, Carried, Joins;
    var next := Accept(s, j).value;
    forall k, m | 0 <= k < |next.rows| && 1 <= m < |next.rows[k].ids|
      ensures JoinedLatest(jobs + [j], next.rows, k, next.rows[k].ids[m])
    {
      if k < |s.rows| && m < |s.rows[k].ids| {
        assert next.rows[k].ids[m] == s.rows[k].ids[m];
        StillJoined(jobs, j, s.rows, next.rows, k, s.rows[k].ids[m]);
      } else {
        NewAlias(jobs, s, j, k);
      }
    }
  }

  lemma NewAlias(jobs: seq<Job>, s: State, j: Job, k: nat)
    requires Merged(s) && AliasOf(s, j) == Some(k)
    ensures JoinedLatest(jobs + [j], s.rows[k := Row(s.rows[k].job, s.rows[k].ids + [j.id])], k, j.id)
  {
    hide NoneMissed;
    var rows := s.rows[k := Row(s.rows[k].job, s.rows[k].ids + [j.id])];
    assert j in jobs + [j] && Joins(rows, k, j);
  }

  lemma {:induction false} ProcessJoins(jobs: seq<Job>)
    requires Ranked(jobs)
    ensures Process(jobs).Some? ==> AllJoined(jobs, Process(jobs).value.rows)
  {
    hide Accept;
    if jobs != [] {
      hide Merged, AllJoined;
      var n := |jobs| - 1;
      assert jobs == jobs[..n] + [jobs[n]];
      ProcessJoins(jobs[..n]);
      ProcessMerges(jobs[..n]);
      if Process(jobs).Some? {
        AcceptJoins(jobs[..n], Process(jobs[..n]).value, jobs[n]);
      }
    }
  }

  /** An alias goes to the row that was its allocation's latest: no later row of the allocation is of an earlier
      attempt. */
  lemma AliasesJoinTheLatest(jobs: seq<Job>, k: nat, m: nat)
    requires Physical(jobs).Some? && k < |Physical(jobs).value| && 1 <= m < |Physical(jobs).value[k].ids|
    ensures JoinedLatest(jobs, Physical(jobs).value, k, Physical(jobs).value[k].ids[m])
  {
    hide Joins, Accept;
    var sorted := Sort(ByAttempt, jobs);
    var rows := Physical(jobs).value;
    SortPermutes(jobs);
    SortRanks(jobs);
    MultisetMembers(sorted, jobs);
    ProcessJoins(sorted);
    assert JoinedLatest(sorted, rows, k, rows[k].ids[m]);
    var j :| j in sorted && j.id == rows[k].ids[m] && Joins(rows, k, j);
    assert j in jobs;
  }

  // ---- Jobs without an id, and the order of the rows ------------------------------------

  function NamelessIds(rows: seq<Row>): nat {
    if rows == [] then 0 else NamelessIds(rows[..|rows| - 1]) + multiset(rows[|rows| - 1].ids)[None]
  }

  function Nameless(jobs: seq<Job>): nat {
    if jobs == [] then 0 else Nameless(jobs[..|jobs| - 1]) + if jobs[|jobs| - 1].id.None? then 1 else 0
  }

  lemma {:induction false} NamelessUpdate(rows: seq<Row>, k: nat, r: Row)
    requires k < |rows|
    ensures NamelessIds(rows[k := r]) ==
            NamelessIds(rows) - multiset(rows[k].ids)[None] + multiset(r.ids)[None]
  {
    var n := |rows| - 1;
    if k == n {
      assert rows[k := r][..n] == rows[..n];
    } else {
      assert rows[k := r][..n] == rows[..n][k := r];
      NamelessUpdate(rows[..n], k, r);
    }
  }

  /** Rows stand in the order of their attempts, none later than `attempt`. */
  ghost predicate InOrder(rows: seq<Row>, attempt: int) {
    && (forall a, b :: 0 <= a < b < |rows| ==> rows[a].job.attempt <= rows[b].job.attempt)
    && forall a :: 0 <= a < |rows| ==> rows[a].job.attempt <= attempt
  }

  lemma AcceptKeepsNameless(s: State, j: Job)
    requires Accept(s, j).Some?
    ensures NamelessIds(Accept(s, j).value.rows) == NamelessIds(s.rows) + if j.id.None? then 1 else 0
  {
    hide AliasOf, Remember;
    if !(j.id.Some? && (j.run, j.id.value) in s.found) {
      match AliasOf(s, j)
      case Some(k) => NamelessUpdate(s.rows, k, Row(s.rows[k].job, s.rows[k].ids + [j.id]));
      case None =>
        assert (s.rows + [Row(j, [j.id])])[..|s.rows|] == s.rows;
        assert multiset([j.id]) == multiset{j.id};
    }
  }

  lemma AcceptKeepsOrder(s: State, j: Job)
    requires Accept(s, j).Some? && InOrder(s.rows, j.attempt)
    ensures InOrder(Accept(s, j).value.rows, j.attempt)
  {
    hide AliasOf, Remember;
  }

  lemma {:induction false} ProcessKeepsNameless(jobs: seq<Job>, attempt: int)
    requires Ranked(jobs) && (jobs != [] ==> jobs[|jobs| - 1].attempt <= attempt)
    ensures Process(jobs).Some? ==>
              NamelessIds(Process(jobs).value.rows) == Nameless(jobs) && InOrder(Process(jobs).value.rows, attempt)
  {
    hide Accept;
    if jobs != [] {
      var n := |jobs| - 1;
      ProcessKeepsNameless(jobs[..n], jobs[n].attempt);
      if Process(jobs).Some? {
        AcceptKeepsNameless(Process(jobs[..n]).value, jobs[n]);
        AcceptKeepsOrder(Process(jobs[..n]).value, jobs[n]);
      }
    }
  }

  lemma NamelessSplit(a: seq<Job>, j: Job, b: seq<Job>)
    ensures Nameless(a + [j] + b) == Nameless(a + b) + if j.id.None? then 1 else 0
  {
    if b == [] {
      assert (a + [j])[..|a|] == a && a + [j] + b == a + [j] && a + b == a;
    } else {
      var n := |b| - 1;
      assert (a + [j] + b)[..|a| + 1 + n] == a + [j] + b[..n] && (a + b)[..|a| + n] == a + b[..n];
      NamelessSplit(a, j, b[..n]);
    }
  }

  lemma {:induction false} NamelessPermuted(a: seq<Job>, b: seq<Job>)
    requires multiset(a) == multiset(b)
    ensures Nameless(a) == Nameless(b)
  {
    MultisetMembers(a, b);
    if a != [] {
      var n := |a| - 1;
      var j := Locate(a, b);
      NamelessPermuted(a[..n], b[..j] + b[j + 1..]);
      NamelessSplit(b[..j], b[j], b[j + 1..]);
      assert b == b[..j] + [b[j]] + b[j + 1..];
    }
  }

  /** Every job without an id keeps its place in some row, and the rows stand in the order of their attempts. */
  lemma NamelessJobsKept(jobs: seq<Job>)
    requires Physical(jobs).Some?
    ensures NamelessIds(Physical(jobs).value) == Nameless(jobs)
    ensures forall a, b :: 0 <= a < b < |Physical(jobs).value| ==>
              Physical(jobs).value[a].job.attempt <= Physical(jobs).value[b].job.attempt
  {
    var sorted := Sort(ByAttempt, jobs);
    SortPermutes(jobs);
    SortRanks(jobs);
    NamelessPermuted(sorted, jobs);
    ProcessKeepsNameless(sorted, if sorted == [] then 0 else sorted[|sorted| - 1].attempt);
  }

  // ---- Repeats ------------------------------------------------------------------------------

  /** Where a stable sort puts a job appended last: after everything of its attempt. */
  function InsertAfter(r: Job, s: seq<Job>): seq<Job> {
    if s == [] || !ByAttempt(s[0], r) then [r] + s else [s[0]] + InsertAfter(r, s[1..])
  }

  lemma {:induction false} InsertsCommute(x: Job, r: Job, s: seq<Job>)
    ensures Insert(ByAttempt, x, InsertAfter(r, s)) == InsertAfter(r, Insert(ByAttempt, x, s))
  {
    if s != [] {
      InsertsCommute(x, r, s[1..]);
      if ByAttempt(s[0], r) {
        assert InsertAfter(r, s)[0] == s[0] && InsertAfter(r, s)[1..] == InsertAfter(r, s[1..]);
      } else {
        assert InsertAfter(r, s)[1..] == s;
      }
      if ByAttempt(x, s[0]) {
        assert Insert(ByAttempt, x, s)[1..] == s;
      } else {
        assert Insert(ByAttempt, x, s)[1..] == Insert(ByAttempt, x, s[1..]);
      }
    } else {
      assert [r][1..] == [] && [x][1..] == [];
    }
  }

  lemma {:induction false} SortAppended(jobs: seq<Job>, r: Job)
    ensures Sort(ByAttempt, jobs + [r]) == InsertAfter(r, Sort(ByAttempt, jobs))
  {
    if jobs == [] {
      assert jobs + [r] == [r] && [r][1..] == [];
    } else {
      assert (jobs + [r])[1..] == jobs[1..] + [r];
      SortAppended(jobs[1..], r);
      InsertsCommute(jobs[0], r, Sort(ByAttempt, jobs[1..]));
    }
  }

  lemma {:induction false} InsertAfterSplit(r: Job, s: seq<Job>) returns (k: nat)
    ensures k <= |s| && InsertAfter(r, s) == s[..k] + [r] + s[k..]
    ensures k < |s| ==> !ByAttempt(s[k], r)
  {
    if s == [] || !ByAttempt(s[0], r) {
      k := 0;
    } else {
      k := InsertAfterSplit(r, s[1..]);
      k := k + 1;
      assert s[..k] == [s[0]] + s[1..][..k - 1] && s[k..] == s[1..][k - 1..];
    }
  }

  ghost predicate Ranked(s: seq<Job>) {
    forall i, j :: 0 <= i < j < |s| ==> s[i].attempt <= s[j].attempt
  }

  lemma {:induction false} InsertRanks(x: Job, s: seq<Job>)
    requires Ranked(s)
    ensures Ranked(Insert(ByAttempt, x, s))
  {
    if s != [] && !ByAttempt(x, s[0]) {
      InsertRanks(x, s[1..]);
      InsertMembers(ByAttempt, x, s[1..]);
      var rest := Insert(ByAttempt, x, s[1..]);
      assert forall i :: 0 <= i < |rest| ==> rest[i] in rest;
    }
  }

  lemma {:induction false} SortRanks(jobs: seq<Job>)
    ensures Ranked(Sort(ByAttempt, jobs))
  {
    if jobs != [] {
      SortRanks(jobs[1..]);
      InsertRanks(jobs[0], Sort(ByAttempt, jobs[1..]));
    }
  }

  /** Re-reading a job already processed leaves the state as it was. */
  lemma RepeatIgnored(jobs: seq<Job>, r: Job)
    requires r in jobs && r.id.Some? && Process(jobs).Some?
    ensures Accept(Process(jobs).value, r) == Process(jobs)
  {
    hide Occurrences, AliasOf;
    ProcessConsistent(jobs);
  }

  lemma {:induction false} ProcessIgnores(front: seq<Job>, r: Job, back: seq<Job>)
    requires r in front && r.id.Some?
    ensures Process(front + [r] + back) == Process(front + back)
  {
    if back == [] {
      assert (front + [r] + back)[..|front|] == front && front + back == front;
      if Process(front).Some? {
        RepeatIgnored(front, r);
      }
    } else {
      var n := |back| - 1;
      assert (front + [r] + back)[..|front| + 1 + n] == front + [r] + back[..n];
      assert (front + back)[..|front| + n] == front + back[..n];
      ProcessIgnores(front, r, back[..n]);
    }
  }

  /** Appending exact repeats of identified jobs changes no row, however many there are. */
  lemma {:induction false} RepeatsChangeNothing(jobs: seq<Job>, repeats: seq<Job>)
    requires forall r :: r in repeats ==> r in jobs && r.id.Some?
    ensures Physical(jobs + repeats) == Physical(jobs)
  {
    if repeats == [] {
      assert jobs + repeats == jobs;
    } else {
      var n := |repeats| - 1;
      var r := repeats[n];
      assert forall q :: q in repeats[..n] ==> q in repeats;
      RepeatsChangeNothing(jobs, repeats[..n]);
      assert jobs + repeats == (jobs + repeats[..n]) + [r];
      RepeatChangesNothing(jobs + repeats[..n], r);
    }
  }

  lemma RepeatChangesNothing(jobs: seq<Job>, r: Job)
    requires r in jobs && r.id.Some?
    ensures Physical(jobs + [r]) == Physical(jobs)
  {
    hide Sort, Process, InsertAfter;
    var sorted := Sort(ByAttempt, jobs);
    SortAppended(jobs, r);
    SortPermutes(jobs);
    SortRanks(jobs);
    MultisetMembers(sorted, jobs);
    var k := InsertAfterSplit(r, sorted);
    assert r in sorted[..k] by {
      var i :| 0 <= i < |sorted| && sorted[i] == r;
      assert i < k;
      assert sorted[..k][i] == r;
    }
    ProcessIgnores(sorted[..k], r, sorted[k..]);
    assert sorted[..k] + sorted[k..] == sorted;
  }
}
