/** The charge ledger of internal/agentapi/read_budget.go as a state machine: every mutex-protected method is
    one step, so an invariant of every step holds under any interleaving of goroutines. */
module Ledgers {
  import opened Order

  const MAX_INT64: int := 0x7FFF_FFFF_FFFF_FFFF

  /** One scope's attribution. */
  datatype Scope = Scope(ceiling: int, used: int, exceeded: bool, pressured: bool)

  /** One reservation owner: the scope it was created in and the bytes it holds. */
  datatype Account<S> = Account(scope: Option<S>, used: int)

  /** The shared ledger, with every scope and every owner created so far under its identity. */
  datatype Ledger<O, S> = Ledger(limit: int, used: int, peak: int, unscoped: int, current: Option<S>,
                                 scopes: map<S, Scope>, owners: map<O, Account<S>>)

  function NewLedger<O(==), S(==)>(limit: int): Ledger<O, S> {
    Ledger(Max(limit, 0), 0, 0, 0, None, map[], map[])
  }

  // ---- Steps ------------------------------------------------------------

  datatype Op<O, S> =
    | Capture(owner: O)                       // Reservation() on the ledger itself
    | CaptureFrom(owner: O, facade: O)        // Reservation() on a facade captured from `facade`
    | Reserve(owner: O, bytes: int)
    | Release(owner: O, bytes: int)
    | RefuseFor(owner: O, bytes: int)
    | ReserveUnscoped(bytes: int)
    | MarkPressured                           // the second critical section of a refused ReserveUnscopedRequired
    | ReleaseUnscoped(bytes: int)
    | BeginScope(scope: S, ceiling: int)
    | EndScope(scope: S, previous: Option<S>)
    | RefuseCurrent(bytes: int)
    | ForgetExceeded

  function ScopeRoom<O, S>(l: Ledger<O, S>, s: S): int
    requires s in l.scopes
  {
    l.scopes[s].ceiling - l.scopes[s].used
  }

  function LedgerRoom<O, S>(l: Ledger<O, S>): int {
    l.limit - l.used
  }

  /** The identities an operation names exist, and the ones it introduces are new. */
  predicate Enabled<O(==), S(==)>(l: Ledger<O, S>, op: Op<O, S>) {
    match op
    case Capture(o) => o !in l.owners
    case CaptureFrom(o, f) => o !in l.owners && f in l.owners
    case Reserve(o, _) => o in l.owners
    case Release(o, _) => o in l.owners
    case RefuseFor(o, _) => o in l.owners
    case BeginScope(s, _) => s !in l.scopes
    case EndScope(s, previous) => s in l.scopes && (previous.Some? ==> previous.value in l.scopes)
    case _ => true
  }

  /** The flags a refusal of `bytes` leaves on scope `s`. */
  function Flagged<O, S>(l: Ledger<O, S>, s: Option<S>, bytes: int): Ledger<O, S>
    requires s.Some? ==> s.value in l.scopes
  {
    if s.None? then l
    else if bytes > ScopeRoom(l, s.value) then l.(scopes := l.scopes[s.value := l.scopes[s.value].(exceeded := true)])
    else if bytes > LedgerRoom(l) then l.(scopes := l.scopes[s.value := l.scopes[s.value].(pressured := true)])
    else l
  }

  /** Moves an owner's charge, its scope's and the ledger's together. */
  function Charged<O, S>(l: Ledger<O, S>, o: O, bytes: int): Ledger<O, S>
    requires o in l.owners && (l.owners[o].scope.Some? ==> l.owners[o].scope.value in l.scopes)
  {
    var a := l.owners[o];
    l.(used := l.used + bytes, peak := Max(l.peak, l.used + bytes),
       owners := l.owners[o := a.(used := a.used + bytes)],
       scopes := if a.scope.None? then l.scopes
                 else l.scopes[a.scope.value := l.scopes[a.scope.value].(used := l.scopes[a.scope.value].used + bytes)])
  }

  /** Whether a reservation or release is honoured: the returned bool, or the absence of a panic. */
  predicate Granted<O, S>(l: Ledger<O, S>, op: Op<O, S>)
    requires Enabled(l, op) && Linked(l)
  {
    match op
    case Reserve(o, n) =>
      && 0 <= n
      && (l.owners[o].scope.Some? ==> n <= ScopeRoom(l, l.owners[o].scope.value))
      && n <= LedgerRoom(l)
    case Release(o, n) => 0 <= n <= l.owners[o].used
    case ReserveUnscoped(n) => 0 <= n <= LedgerRoom(l)
    case ReleaseUnscoped(n) => 0 <= n <= l.unscoped
    case _ => true
  }

  /** Every scope an owner or the ledger refers to is one of the ledger's. */
  ghost predicate Linked<O, S>(l: Ledger<O, S>) {
    && (l.current.Some? ==> l.current.value in l.scopes)
    && forall o :: o in l.owners && l.owners[o].scope.Some? ==> l.owners[o].scope.value in l.scopes
  }

  ghost function Step<O, S>(l: Ledger<O, S>, op: Op<O, S>): Ledger<O, S>
    requires Enabled(l, op) && Linked(l)
  {
    match op
    case Capture(o) => l.(owners := l.owners[o := Account(l.current, 0)])
    case CaptureFrom(o, f) => l.(owners := l.owners[o := Account(l.owners[f].scope, 0)])
    case Reserve(o, n) =>
      if n < 0 then l
      else if Granted(l, op) then Charged(l, o, n)
      else Flagged(l, l.owners[o].scope, n)
    case Release(o, n) => if Granted(l, op) then Charged(l, o, -n).(peak := l.peak) else l
    case RefuseFor(o, n) => Flagged(l, l.owners[o].scope, n)
    case ReserveUnscoped(n) =>
      if Granted(l, op) then l.(used := l.used + n, unscoped := l.unscoped + n, peak := Max(l.peak, l.used + n)) else l
    case MarkPressured =>
      if l.current.None? then l
      else l.(scopes := l.scopes[l.current.value := l.scopes[l.current.value].(pressured := true)])
    case ReleaseUnscoped(n) => if Granted(l, op) then l.(used := l.used - n, unscoped := l.unscoped - n) else l
    case BeginScope(s, ceiling) =>
      l.(scopes := l.scopes[s := Scope(Max(ceiling, 0), 0, false, false)], current := Some(s))
    case EndScope(s, previous) => if l.current == Some(s) then l.(current := previous) else l
    case RefuseCurrent(n) => Flagged(l, l.current, n)
    case ForgetExceeded =>
      if l.current.None? then l
      else l.(scopes := l.scopes[l.current.value := l.scopes[l.current.value].(exceeded := false)])
  }

  // ---- Conservation -------------------------------------------------------

  /** Whose bytes are counted. */
  datatype Side<S> = Everyone | Within(scope: S)

  function Part<S(==)>(a: Account<S>, side: Side<S>): int {
    if side.Everyone? || a.scope == Some(side.scope) then a.used else 0
  }

  /** The bytes held by the owners on one side. */
  ghost function Tally<O, S>(owners: map<O, Account<S>>, side: Side<S>): int {
    if owners == map[] then 0
    else
      var o :| o in owners;
      Part(owners[o], side) + Tally(owners - {o}, side)
  }

  lemma {:induction false} TallyRemove<O, S>(owners: map<O, Account<S>>, side: Side<S>, o: O)
    requires o in owners
    ensures Tally(owners, side) == Part(owners[o], side) + Tally(owners - {o}, side)
    decreases |owners|
  {
    var j :| j in owners && Tally(owners, side) == Part(owners[j], side) + Tally(owners - {j}, side);
    if j != o {
      TallyRemove(owners - {j}, side, o);
      TallyRemove(owners - {o}, side, j);
      assert owners - {j} - {o} == owners - {o} - {j};
    }
  }

  /** Setting one account changes each side's tally by exactly that account's part. */
  lemma TallySet<O, S>(owners: map<O, Account<S>>, side: Side<S>, o: O, a: Account<S>)
    ensures Tally(owners[o := a], side) ==
            Tally(owners, side) + Part(a, side) - (if o in owners then Part(owners[o], side) else 0)
  {
    var next := owners[o := a];
    TallyRemove(next, side, o);
    if o in owners {
      TallyRemove(owners, side, o);
      assert next - {o} == owners - {o};
    } else {
      assert next - {o} == owners;
    }
  }

  /** Every byte charged is owned: by exactly one owner, attributed to that owner's scope, or by the unscoped caches. */
  ghost predicate Conserved<O, S>(l: Ledger<O, S>) {
    && Linked(l)
    && 0 <= l.unscoped && 0 <= l.used <= l.peak <= l.limit <= MAX_INT64
    && l.used == l.unscoped + Tally(l.owners, Everyone)
    && (forall o :: o in l.owners ==> 0 <= l.owners[o].used)
    && (forall s :: s in l.scopes ==> 0 <= l.scopes[s].used <= l.scopes[s].ceiling <= MAX_INT64)
    && (forall s :: s in l.scopes ==> l.scopes[s].used == Tally(l.owners, Within(s)))
  }

  ghost predicate Int64(n: int) {
    -MAX_INT64 - 1 <= n <= MAX_INT64
  }

  /** Every argument is a Go int64. */
  ghost predicate Typed<O, S>(op: Op<O, S>) {
    match op
    case Reserve(_, n) => Int64(n)
    case Release(_, n) => Int64(n)
    case RefuseFor(_, n) => Int64(n)
    case ReserveUnscoped(n) => Int64(n)
    case ReleaseUnscoped(n) => Int64(n)
    case BeginScope(_, n) => Int64(n)
    case RefuseCurrent(n) => Int64(n)
    case _ => true
  }

  lemma {:induction false} TallyBounds<O, S>(owners: map<O, Account<S>>, side: Side<S>, o: O)
    requires forall x :: x in owners ==> 0 <= owners[x].used
    ensures 0 <= Tally(owners, side)
    ensures o in owners ==> Part(owners[o], side) <= Tally(owners, side)
    decreases |owners|
  {
    if owners != map[] {
      var k := if o in owners then o else var k :| k in owners; k;
      TallyRemove(owners, side, k);
      TallyBounds(owners - {k}, side, o);
    }
  }

  lemma ChargedConserved<O, S>(l: Ledger<O, S>, o: O, bytes: int)
    requires Conserved(l) && o in l.owners
    requires -l.owners[o].used <= bytes <= LedgerRoom(l)
    requires l.owners[o].scope.Some? ==> bytes <= ScopeRoom(l, l.owners[o].scope.value)
    ensures Conserved(Charged(l, o, bytes))
  {
    var a := l.owners[o];
    var b := a.(used := a.used + bytes);
    var next := Charged(l, o, bytes);
    TallySet(l.owners, Everyone, o, b);
    TallyBounds(l.owners, Everyone, o);
    forall s | s in next.scopes
      ensures next.scopes[s].used == Tally(next.owners, Within(s))
      ensures 0 <= next.scopes[s].used <= next.scopes[s].ceiling <= MAX_INT64
    {
      TallySet(l.owners, Within(s), o, b);
      TallyBounds(next.owners, Within(s), o);
    }
  }

  lemma ScopeFlagsConserved<O, S>(l: Ledger<O, S>, s: S, exceeded: bool, pressured: bool)
    requires Conserved(l) && s in l.scopes
    ensures Conserved(l.(scopes := l.scopes[s := l.scopes[s].(exceeded := exceeded, pressured := pressured)]))
  {}

  lemma {:induction false} TallyNobody<O, S>(owners: map<O, Account<S>>, side: Side<S>)
    requires forall o :: o in owners ==> Part(owners[o], side) == 0
    ensures Tally(owners, side) == 0
    decreases |owners|
  {
    if owners != map[] {
      var o :| o in owners;
      TallyRemove(owners, side, o);
      TallyNobody(owners - {o}, side);
    }
  }

  lemma EmptyScopeConserved<O, S>(l: Ledger<O, S>, s: S, ceiling: int)
    requires Conserved(l) && s !in l.scopes && 0 <= ceiling <= MAX_INT64
    ensures Conserved(l.(scopes := l.scopes[s := Scope(ceiling, 0, false, false)], current := Some(s)))
  {
    forall o | o in l.owners
      ensures Part(l.owners[o], Within(s)) == 0
    {
      assert l.owners[o].scope != Some(s);
    }
    TallyNobody(l.owners, Within(s));
  }

  lemma CaptureConserved<O, S>(l: Ledger<O, S>, o: O, scope: Option<S>)
    requires Conserved(l) && o !in l.owners && (scope.Some? ==> scope.value in l.scopes)
    ensures Conserved(l.(owners := l.owners[o := Account(scope, 0)]))
  {
    TallySet(l.owners, Everyone, o, Account(scope, 0));
    forall s | s in l.scopes
      ensures Tally(l.owners[o := Account(scope, 0)], Within(s)) == l.scopes[s].used
    {
      TallySet(l.owners, Within(s), o, Account(scope, 0));
    }
  }

  lemma UnscopedConserved<O, S>(l: Ledger<O, S>, bytes: int)
    requires Conserved(l) && -l.unscoped <= bytes <= LedgerRoom(l)
    ensures Conserved(l.(used := l.used + bytes, unscoped := l.unscoped + bytes, peak := Max(l.peak, l.used + bytes)))
  {
    if o :| o in l.owners {
      TallyBounds(l.owners, Everyone, o);
    }
  }

  lemma OwnerStepConserves<O, S>(l: Ledger<O, S>, op: Op<O, S>)
    requires Conserved(l) && Enabled(l, op) && (op.Reserve? || op.Release?)
    ensures Conserved(Step(l, op))
  {
    if op.Reserve? {
      if Granted(l, op) {
        ChargedConserved(l, op.owner, op.bytes);
      } else {
        FlaggedConserved(l, l.owners[op.owner].scope, op.bytes);
      }
    } else if Granted(l, op) {
      ChargedConserved(l, op.owner, -op.bytes);
    }
  }

  lemma UnscopedStepConserves<O, S>(l: Ledger<O, S>, op: Op<O, S>)
    requires Conserved(l) && Enabled(l, op)
    requires op.ReserveUnscoped? || op.ReleaseUnscoped?
    ensures Conserved(Step(l, op))
  {
    if Granted(l, op) {
      UnscopedConserved(l, if op.ReleaseUnscoped? then -op.bytes else op.bytes);
    }
  }

  lemma ScopeStepConserves<O, S>(l: Ledger<O, S>, op: Op<O, S>)
    requires Conserved(l) && Enabled(l, op) && Typed(op)
    requires op.BeginScope? || op.EndScope? || op.ForgetExceeded? || op.MarkPressured?
    ensures Conserved(Step(l, op))
  {
    if op.BeginScope? {
      EmptyScopeConserved(l, op.scope, Max(op.ceiling, 0));
    } else if !op.EndScope? && l.current.Some? {
      ScopeFlagsConserved(l, l.current.value, false, l.scopes[l.current.value].pressured);
      ScopeFlagsConserved(l, l.current.value, l.scopes[l.current.value].exceeded, true);
    }
  }

  lemma ConservedLinked<O, S>(l: Ledger<O, S>)
    requires Conserved(l)
    ensures Linked(l)
  {}

  /** Every operation of every goroutine keeps every charge accounted for. */
  lemma StepConserves<O, S>(l: Ledger<O, S>, op: Op<O, S>)
    requires Conserved(l) && Enabled(l, op) && Typed(op)
    ensures Conserved(Step(l, op))
  {
    match op
    case Capture(o) => CaptureConserved(l, o, l.current);
    case CaptureFrom(o, f) => CaptureConserved(l, o, l.owners[f].scope);
    case Reserve(_, _) => OwnerStepConserves(l, op);
    case Release(_, _) => OwnerStepConserves(l, op);
    case RefuseFor(o, n) => FlaggedConserved(l, l.owners[o].scope, n);
    case RefuseCurrent(n) => FlaggedConserved(l, l.current, n);
    case ReserveUnscoped(_) => UnscopedStepConserves(l, op);
    case ReleaseUnscoped(_) => UnscopedStepConserves(l, op);
    case _ => ScopeStepConserves(l, op);
  }

  lemma FlaggedConserved<O, S>(l: Ledger<O, S>, s: Option<S>, n: int)
    requires Conserved(l) && (s.Some? ==> s.value in l.scopes)
    ensures Conserved(Flagged(l, s, n))
  {
    if s.Some? {
      ScopeFlagsConserved(l, s.value, true, l.scopes[s.value].pressured);
      ScopeFlagsConserved(l, s.value, l.scopes[s.value].exceeded, true);
    }
  }

  // ---- Runs ---------------------------------------------------------------

  /** A run from a new ledger: any interleaving of any goroutines' operations. */
  ghost predicate Runs<O, S>(limit: int, ops: seq<Op<O, S>>, states: seq<Ledger<O, S>>) {
    && Int64(limit)
    && |states| == |ops| + 1
    && states[0] == NewLedger(limit)
    && forall i :: 0 <= i < |ops| ==>
         Linked(states[i]) && Enabled(states[i], ops[i]) && Typed(ops[i]) && states[i + 1] == Step(states[i], ops[i])
  }

  /** In every reachable state every charge is owned, and the limit and every ceiling are respected. */
  lemma {:induction false} ReachableConserved<O, S>(limit: int, ops: seq<Op<O, S>>, states: seq<Ledger<O, S>>, i: nat)
    requires Runs(limit, ops, states) && i < |states|
    ensures Conserved(states[i]) && states[i].limit == Max(limit, 0)
  {
    if i == 0 {
      assert states[0] == NewLedger(limit);
    } else {
      ReachableConserved(limit, ops, states, i - 1);
      StepConserves(states[i - 1], ops[i - 1]);
      StepPeak(states[i - 1], ops[i - 1]);
    }
  }

  /** The recorded peak is the largest charge there has been. */
  lemma {:induction false} PeakIsMaximum<O, S>(limit: int, ops: seq<Op<O, S>>, states: seq<Ledger<O, S>>, i: nat)
    requires Runs(limit, ops, states) && i < |states|
    ensures forall j :: 0 <= j <= i ==> states[j].used <= states[i].peak
    ensures exists j :: 0 <= j <= i && states[j].used == states[i].peak
  {
    hide Step, Conserved, Enabled, Granted;
    if i == 0 {
      assert states[0] == NewLedger(limit);
      assert states[0].used == states[0].peak;
    } else {
      PeakIsMaximum(limit, ops, states, i - 1);
      ReachableConserved(limit, ops, states, i - 1);
      StepPeak(states[i - 1], ops[i - 1]);
      var j :| 0 <= j <= i - 1 && states[j].used == states[i - 1].peak;
      var k := if states[i].peak == states[i - 1].peak then j else i;
      assert states[k].used == states[i].peak;
    }
  }

  lemma StepPeak<O, S>(l: Ledger<O, S>, op: Op<O, S>)
    requires Conserved(l) && Enabled(l, op)
    ensures Step(l, op).peak == Max(l.peak, Step(l, op).used) && Step(l, op).limit == l.limit
  {
    if op.Release? && Granted(l, op) {
      assert Charged(l, op.owner, -op.bytes).used <= l.used;
    }
  }

  /** A refused reservation or a panicking release moves no charge anywhere; only a refusal flag can change. */
  lemma RefusalMovesNothing<O, S>(limit: int, ops: seq<Op<O, S>>, states: seq<Ledger<O, S>>, i: nat)
    requires Runs(limit, ops, states) && i < |ops| && !Granted(states[i], ops[i])
    ensures var l, next := states[i], states[i + 1];
            && next.used == l.used && next.peak == l.peak && next.unscoped == l.unscoped && next.owners == l.owners
            && next.scopes.Keys == l.scopes.Keys
            && (forall s :: s in l.scopes ==>
                  next.scopes[s].used == l.scopes[s].used && next.scopes[s].ceiling == l.scopes[s].ceiling)
            && (ops[i].Release? || ops[i].ReleaseUnscoped? || ops[i].ReserveUnscoped? ==> next == l)
  {
    ReachableConserved(limit, ops, states, i);
    assert states[i + 1] == Step(states[i], ops[i]);
  }

  /** No Go expression of a reservation overflows int64, whatever is asked for. */
  lemma NoOverflow<O, S>(limit: int, ops: seq<Op<O, S>>, states: seq<Ledger<O, S>>, i: nat, o: O)
    requires Runs(limit, ops, states) && i < |ops| && o in states[i + 1].owners
    ensures var l := states[i + 1];
            && 0 <= LedgerRoom(l) <= MAX_INT64
            && (forall s :: s in l.scopes ==> 0 <= ScopeRoom(l, s) <= MAX_INT64)
            && 0 <= l.owners[o].used <= l.used <= MAX_INT64
  {
    ReachableConserved(limit, ops, states, i + 1);
    var l := states[i + 1];
    TallyBounds(l.owners, Everyone, o);
  }

  // ---- Fit and classification ------------------------------------------------

  /** Charges not attributed to scope `s`. */
  ghost function Outside<O, S>(l: Ledger<O, S>, s: S): int
    requires s in l.scopes
  {
    l.used - l.scopes[s].used
  }

  /** With `reserve` bytes kept above a ceiling for everything outside its scope, a scoped reservation succeeds exactly
      when it fits the ceiling, and neither it nor a preflight refusal is ever blamed on pressure. */
  lemma ScopedReservationFits<O, S>(limit: int, ops: seq<Op<O, S>>, states: seq<Ledger<O, S>>, i: nat, s: S,
                                    reserve: int)
    requires Runs(limit, ops, states) && i < |ops|
    requires (ops[i].Reserve? || ops[i].RefuseFor?) && states[i].owners[ops[i].owner].scope == Some(s)
    requires s in states[i].scopes && states[i].limit - states[i].scopes[s].ceiling >= reserve
    requires Outside(states[i], s) <= reserve
    ensures ops[i].Reserve? ==> (Granted(states[i], ops[i]) <==> 0 <= ops[i].bytes <= ScopeRoom(states[i], s))
    ensures s in states[i + 1].scopes && states[i + 1].scopes[s].pressured == states[i].scopes[s].pressured
  {
    ReachableConserved(limit, ops, states, i);
    assert states[i + 1] == Step(states[i], ops[i]);
  }

  /** Pressure recorded by a reservation or a preflight refusal on a scope whose ceiling is within the limit means
      that others hold charge. */
  lemma PressureMeansOthers<O, S>(limit: int, ops: seq<Op<O, S>>, states: seq<Ledger<O, S>>, i: nat, s: S)
    requires Runs(limit, ops, states) && i < |ops|
    requires s in states[i].scopes && states[i].scopes[s].ceiling <= states[i].limit
    requires !states[i].scopes[s].pressured && s in states[i + 1].scopes && states[i + 1].scopes[s].pressured
    requires !ops[i].MarkPressured?
    ensures Outside(states[i], s) > 0
  {
    ReachableConserved(limit, ops, states, i);
    assert states[i + 1] == Step(states[i], ops[i]);
  }

  /** A required pass-lifetime charge marks pressure whenever it is refused. With nothing charged outside the current
      scope, it is refused, and so blamed on others, exactly when it is negative or larger than what that scope's own
      charges leave of the limit. */
  lemma RequiredRefusalWithNobodyElse<O, S>(limit: int, ops: seq<Op<O, S>>, states: seq<Ledger<O, S>>, i: nat, s: S,
                                            bytes: int)
    requires Runs(limit, ops, states) && i < |states|
    requires states[i].current == Some(s) && s in states[i].scopes && Outside(states[i], s) == 0
    ensures Linked(states[i])
    ensures Granted(states[i], ReserveUnscoped(bytes)) <==> 0 <= bytes <= Max(limit, 0) - states[i].scopes[s].used
    ensures Step(states[i], MarkPressured).scopes[s].pressured
  {
    ReachableConserved(limit, ops, states, i);
  }

  /** Such a refusal of a charge within the limit: the scope holds 50 of 100 bytes itself, and 60 more are required. */
  lemma RefusedForItsOwnCharges()
    ensures var run: seq<Op<int, int>> := [BeginScope(0, 100), Capture(7), Reserve(7, 50)];
            exists states: seq<Ledger<int, int>> ::
              && Runs(100, run, states) && states[3].current == Some(0) && 0 in states[3].scopes
              && Linked(states[3]) && Outside(states[3], 0) == 0
              && 60 <= states[3].limit && !Granted(states[3], ReserveUnscoped(60))
              && !states[3].scopes[0].pressured && Step(states[3], MarkPressured).scopes[0].pressured
  {
    var run: seq<Op<int, int>> := [BeginScope(0, 100), Capture(7), Reserve(7, 50)];
    var s0: Ledger<int, int> := NewLedger(100);
    var s1 := Step(s0, run[0]);
    var s2 := Step(s1, run[1]);
    var s3 := Step(s2, run[2]);
    assert s3.scopes[0] == Scope(100, 50, false, false) && s3.used == 50;
    var states := [s0, s1, s2, s3];
    assert Runs(100, run, states) && states[3] == s3;
  }

  /** A request larger than the whole limit is refused in every reachable state, whatever anybody holds. */
  lemma AboveTheLimitNeverGranted<O, S>(limit: int, ops: seq<Op<O, S>>, states: seq<Ledger<O, S>>, i: nat, bytes: int)
    requires Runs(limit, ops, states) && i < |states| && bytes > Max(limit, 0)
    ensures Linked(states[i]) && !Granted(states[i], ReserveUnscoped(bytes))
    ensures forall o :: o in states[i].owners ==> !Granted(states[i], Reserve(o, bytes))
  {
    ReachableConserved(limit, ops, states, i);
  }

  /** `Refuse` sets exactly the flag a refused `Reserve` of the same bytes sets, negative requests included. */
  lemma RefuseClassifiesAsReserve<O, S>(limit: int, ops: seq<Op<O, S>>, states: seq<Ledger<O, S>>, i: nat, o: O,
                                        bytes: int)
    requires Runs(limit, ops, states) && i < |states| && o in states[i].owners
    ensures Linked(states[i])
    ensures Step(states[i], RefuseFor(o, bytes)) ==
            if Granted(states[i], Reserve(o, bytes)) then states[i] else Step(states[i], Reserve(o, bytes))
  {
    ReachableConserved(limit, ops, states, i);
  }

  /** The scope an operation refuses `n` bytes on, if it does: a refused reservation that is not negative, or a
      preflight refusal for an owner or for the current scope. */
  ghost predicate RefusesOn<O, S>(l: Ledger<O, S>, op: Op<O, S>, s: S, n: int)
    requires Enabled(l, op) && Linked(l)
  {
    match op
    case Reserve(o, bytes) => bytes == n && 0 <= n && !Granted(l, op) && l.owners[o].scope == Some(s)
    case RefuseFor(o, bytes) => bytes == n && l.owners[o].scope == Some(s)
    case RefuseCurrent(bytes) => bytes == n && l.current == Some(s)
    case _ => false
  }

  /** A refusal marks its scope exceeded when the request is past the scope's own ceiling, else pressured when it is
      past the ledger's limit, and touches nothing else. */
  lemma RefusalIsClassified<O, S>(limit: int, ops: seq<Op<O, S>>, states: seq<Ledger<O, S>>, i: nat, s: S, n: int)
    requires Runs(limit, ops, states) && i < |ops| && RefusesOn(states[i], ops[i], s, n)
    ensures var l, next := states[i], states[i + 1];
            && s in l.scopes && next.scopes.Keys == l.scopes.Keys
            && (next.scopes[s].exceeded <==> l.scopes[s].exceeded || n > l.scopes[s].ceiling - l.scopes[s].used)
            && (next.scopes[s].pressured <==>
                l.scopes[s].pressured || (n <= l.scopes[s].ceiling - l.scopes[s].used && n > l.limit - l.used))
            && next.scopes[s].used == l.scopes[s].used && next.scopes[s].ceiling == l.scopes[s].ceiling
            && forall t :: t in l.scopes && t != s ==> next.scopes[t] == l.scopes[t]
  {
    ReachableConserved(limit, ops, states, i);
    assert states[i + 1] == Step(states[i], ops[i]);
  }

  /** No flag of a scope is set or cleared but by a refusal on it, by the mark of a refused required charge while it is
      current, and by forgetting its own refusal: that clears exactly `exceeded`. */
  lemma FlagsStand<O, S>(limit: int, ops: seq<Op<O, S>>, states: seq<Ledger<O, S>>, i: nat, s: S)
    requires Runs(limit, ops, states) && i < |ops| && s in states[i].scopes
    ensures s in states[i + 1].scopes
    ensures var before, after, here := states[i].scopes[s], states[i + 1].scopes[s], states[i].current == Some(s);
            && after.ceiling == before.ceiling
            && ((forall n :: !RefusesOn(states[i], ops[i], s, n)) ==>
                  && (after.exceeded <==> before.exceeded && !(here && ops[i].ForgetExceeded?))
                  && (after.pressured <==> before.pressured || (here && ops[i].MarkPressured?)))
  {
    ReachableConserved(limit, ops, states, i);
    assert states[i + 1] == Step(states[i], ops[i]);
    if ops[i].Reserve? && !Granted(states[i], ops[i]) && 0 <= ops[i].bytes {
      assert RefusesOn(states[i], ops[i], s, ops[i].bytes) || states[i].owners[ops[i].owner].scope != Some(s);
    } else if ops[i].RefuseFor? || ops[i].RefuseCurrent? {
      var scope := if ops[i].RefuseFor? then states[i].owners[ops[i].owner].scope else states[i].current;
      assert RefusesOn(states[i], ops[i], s, ops[i].bytes) || scope != Some(s);
    }
  }

  /** What is granted: exactly what is not negative and fits, the scope's ceiling and the limit for an owner, the limit
      for a cache, and what is held for a release. */
  lemma GrantedIffItFits<O, S>(limit: int, ops: seq<Op<O, S>>, states: seq<Ledger<O, S>>, i: nat, o: O, bytes: int)
    requires Runs(limit, ops, states) && i < |states| && o in states[i].owners
    ensures Linked(states[i])
    ensures var l := states[i];
            && (Granted(l, Reserve(o, bytes)) <==>
                && 0 <= bytes && l.used + bytes <= l.limit
                && (l.owners[o].scope.Some? ==>
                      var s := l.scopes[l.owners[o].scope.value]; s.used + bytes <= s.ceiling))
            && (Granted(l, Release(o, bytes)) <==> 0 <= bytes <= l.owners[o].used)
            && (Granted(l, ReserveUnscoped(bytes)) <==> 0 <= bytes && l.used + bytes <= l.limit)
            && (Granted(l, ReleaseUnscoped(bytes)) <==> 0 <= bytes <= l.unscoped)
  {
    ReachableConserved(limit, ops, states, i);
  }

  /** What a granted charge or release moves: the owner's account, or the unscoped charges, by exactly its bytes. */
  lemma GrantedMoves<O, S>(limit: int, ops: seq<Op<O, S>>, states: seq<Ledger<O, S>>, i: nat)
    requires Runs(limit, ops, states) && i < |ops| && Granted(states[i], ops[i])
    ensures var l, next, op := states[i], states[i + 1], ops[i];
            && (op.Reserve? || op.Release? ==>
                  var n := if op.Reserve? then op.bytes else -op.bytes;
                  && next.used == l.used + n && next.unscoped == l.unscoped && next.current == l.current
                  && next.owners.Keys == l.owners.Keys
                  && next.owners[op.owner] == Account(l.owners[op.owner].scope, l.owners[op.owner].used + n)
                  && forall o :: o in l.owners && o != op.owner ==> next.owners[o] == l.owners[o])
            && (op.ReserveUnscoped? || op.ReleaseUnscoped? ==>
                  var n := if op.ReserveUnscoped? then op.bytes else -op.bytes;
                  && next.used == l.used + n && next.unscoped == l.unscoped + n
                  && next.owners == l.owners && next.scopes == l.scopes && next.current == l.current)
  {
    ReachableConserved(limit, ops, states, i);
    assert states[i + 1] == Step(states[i], ops[i]);
  }

  /** What opening gives: an owner of the current scope, or of the captured one, that holds nothing; a current scope
      under its own ceiling, charged with nothing and never refused. */
  lemma OpenedEmpty<O, S>(limit: int, ops: seq<Op<O, S>>, states: seq<Ledger<O, S>>, i: nat)
    requires Runs(limit, ops, states) && i < |ops|
    requires ops[i].Capture? || ops[i].CaptureFrom? || ops[i].BeginScope?
    ensures var l, next, op := states[i], states[i + 1], ops[i];
            && next.used == l.used && next.unscoped == l.unscoped
            && if op.BeginScope? then
                 && op.scope !in l.scopes && op.scope in next.scopes && next.current == Some(op.scope)
                 && next.scopes[op.scope] == Scope(if op.ceiling < 0 then 0 else op.ceiling, 0, false, false)
                 && next.owners == l.owners
                 && forall s :: s in l.scopes ==> s in next.scopes && next.scopes[s] == l.scopes[s]
               else
                 && op.owner !in l.owners && op.owner in next.owners
                 && next.scopes == l.scopes && next.current == l.current
                 && next.owners[op.owner].used == 0
                 && next.owners[op.owner].scope == (if op.Capture? then l.current else l.owners[op.facade].scope)
                 && forall o :: o in l.owners ==> o in next.owners && next.owners[o] == l.owners[o]
  {
    assert states[i + 1] == Step(states[i], ops[i]);
  }

  /** When every owner and cache has released what it held, nothing is charged anywhere. */
  lemma AllReleasedMeansIdle<O, S>(limit: int, ops: seq<Op<O, S>>, states: seq<Ledger<O, S>>, i: nat)
    requires Runs(limit, ops, states) && i < |states|
    requires states[i].unscoped == 0 && forall o :: o in states[i].owners ==> states[i].owners[o].used == 0
    ensures states[i].used == 0 && forall s :: s in states[i].scopes ==> states[i].scopes[s].used == 0
  {
    var l := states[i];
    ReachableConserved(limit, ops, states, i);
    TallyNobody(l.owners, Everyone);
    forall s | s in l.scopes
      ensures Tally(l.owners, Within(s)) == 0
    {
      TallyNobody(l.owners, Within(s));
    }
  }

  /** A delayed release credits the scope the owner was created in, whatever scope is current by then. */
  lemma DelayedReleaseCreditsOriginalScope<O, S>(limit: int, ops: seq<Op<O, S>>, states: seq<Ledger<O, S>>, i: nat,
                                                 s: S)
    requires Runs(limit, ops, states) && i < |ops| && ops[i].Release? && Granted(states[i], ops[i])
    requires states[i].owners[ops[i].owner].scope == Some(s)
    ensures var l, next := states[i], states[i + 1];
            && s in l.scopes && s in next.scopes
            && next.scopes[s].used == l.scopes[s].used - ops[i].bytes
            && next.used == l.used - ops[i].bytes && next.current == l.current
            && forall t :: t in l.scopes && t != s ==> t in next.scopes && next.scopes[t] == l.scopes[t]
  {
    ReachableConserved(limit, ops, states, i);
    assert states[i + 1] == Step(states[i], ops[i]);
  }

  /** Opening a scope and closing it with nothing but charges in between restores the scope before it. */
  lemma {:induction false} ScopeBracketRestores<O, S>(limit: int, ops: seq<Op<O, S>>, states: seq<Ledger<O, S>>, i: nat,
                                                      j: nat)
    requires Runs(limit, ops, states) && i < j < |ops|
    requires ops[i].BeginScope? && forall k :: i < k < j ==> !ops[k].BeginScope? && !ops[k].EndScope?
    requires ops[j] == EndScope(ops[i].scope, states[i].current)
    ensures states[j].current == Some(ops[i].scope) && states[j + 1].current == states[i].current
  {
    CurrentUnchanged(ops, states, limit, i + 1, j);
    assert states[i + 1] == Step(states[i], ops[i]);
    assert states[j + 1] == Step(states[j], ops[j]);
  }

  /** Ending a scope restores the scope before it if it is still current, and otherwise changes nothing. */
  lemma ScopeEnds<O, S>(limit: int, ops: seq<Op<O, S>>, states: seq<Ledger<O, S>>, i: nat)
    requires Runs(limit, ops, states) && i < |ops| && ops[i].EndScope?
    ensures states[i].current == Some(ops[i].scope) ==> states[i + 1] == states[i].(current := ops[i].previous)
    ensures states[i].current != Some(ops[i].scope) ==> states[i + 1] == states[i]
  {
    assert states[i + 1] == Step(states[i], ops[i]);
  }

  lemma {:induction false} CurrentUnchanged<O, S>(ops: seq<Op<O, S>>, states: seq<Ledger<O, S>>, limit: int, i: nat,
                                                  j: nat)
    requires Runs(limit, ops, states) && i <= j < |states|
    requires forall k :: i <= k < j ==> !ops[k].BeginScope? && !ops[k].EndScope?
    ensures states[j].current == states[i].current
    decreases j - i
  {
    if i < j {
      CurrentUnchanged(ops, states, limit, i, j - 1);
      assert states[j] == Step(states[j - 1], ops[j - 1]);
    }
  }

  // ---- Slack ------------------------------------------------------------------

  /** The most that a new request charged to `scope` can be. */
  ghost function SlackIn<O, S>(l: Ledger<O, S>, scope: Option<S>): int
    requires scope.Some? ==> scope.value in l.scopes
  {
    if scope.None? then LedgerRoom(l) else Min(LedgerRoom(l), ScopeRoom(l, scope.value))
  }

  ghost function Slack<O, S>(l: Ledger<O, S>, o: O): int
    requires Linked(l) && o in l.owners
  {
    SlackIn(l, l.owners[o].scope)
  }

  /** The scope has been refused something, to its own or the ledger's lack of room. */
  ghost predicate Refused<O, S>(l: Ledger<O, S>, s: S) {
    s in l.scopes && (l.scopes[s].exceeded || l.scopes[s].pressured)
  }

  /** Nothing moved but the accounts of `ours`, no owner is new but theirs, and no scope forgets a refusal. */
  ghost predicate Only<O, S>(l: Ledger<O, S>, later: Ledger<O, S>, ours: set<O>) {
    && later.unscoped == l.unscoped && later.current == l.current && later.scopes.Keys == l.scopes.Keys
    && later.owners.Keys == l.owners.Keys + ours
    && (forall o :: o in l.owners && o !in ours ==> later.owners[o] == l.owners[o])
    && forall s :: s in l.scopes && Refused(l, s) ==> Refused(later, s)
  }

  /** The ledger and `scope` have both moved by `n` bytes, and no other scope has moved. */
  ghost predicate Moved<O, S>(l: Ledger<O, S>, later: Ledger<O, S>, scope: Option<S>, n: int) {
    && later.used == l.used + n
    && later.scopes.Keys == l.scopes.Keys
    && forall s :: s in l.scopes ==> later.scopes[s].used == l.scopes[s].used + if scope == Some(s) then n else 0
  }

  /** The charges have moved by `n` bytes, and on the way stood at most `top` above where they began. */
  ghost predicate Rose<O, S>(l: Ledger<O, S>, later: Ledger<O, S>, n: int, top: int) {
    later.used == l.used + n && later.peak == Max(l.peak, l.used + top)
  }

  lemma RoseAgain<O, S>(l: Ledger<O, S>, mid: Ledger<O, S>, later: Ledger<O, S>, n: int, top: int, m: int, more: int)
    requires Rose(l, mid, n, top) && Rose(mid, later, m, more)
    ensures Rose(l, later, n + m, Max(top, n + more))
  {}

  lemma RoseAfterNothing<O, S>(l: Ledger<O, S>, mid: Ledger<O, S>, later: Ledger<O, S>, n: int, top: int)
    requires l.used <= l.peak && Rose(l, mid, 0, 0) && Rose(mid, later, n, top)
    ensures Rose(l, later, n, top)
  {}

  lemma RoseThenReturned<O, S>(l: Ledger<O, S>, mid: Ledger<O, S>, later: Ledger<O, S>, n: int, top: int, bytes: int)
    requires mid.used <= mid.peak && Rose(l, mid, n, top) && Rose(mid, later, -bytes, 0)
    ensures Rose(l, later, n - bytes, top)
  {}

  /** A reservation is granted exactly up to the slack, and takes exactly its bytes from it. */
  lemma ReserveTakesSlack<O, S>(l: Ledger<O, S>, o: O, bytes: int)
    requires Linked(l) && o in l.owners
    ensures Granted(l, Reserve(o, bytes)) <==> 0 <= bytes <= Slack(l, o)
    ensures var next := Step(l, Reserve(o, bytes));
            && Linked(next) && Only(l, next, {o})
            && Slack(next, o) == Slack(l, o) - if Granted(l, Reserve(o, bytes)) then bytes else 0
    ensures var n := if Granted(l, Reserve(o, bytes)) then bytes else 0;
            l.used <= l.peak ==> Rose(l, Step(l, Reserve(o, bytes)), n, n)
    ensures Slack(l, o) < bytes && 0 <= bytes && l.owners[o].scope.Some? ==>
              Refused(Step(l, Reserve(o, bytes)), l.owners[o].scope.value)
  {}

  /** A release gives exactly its bytes back to the slack, the ledger and the owner's scope. */
  lemma ReleaseGivesSlack<O, S>(l: Ledger<O, S>, o: O, bytes: int)
    requires Linked(l) && o in l.owners && Granted(l, Release(o, bytes))
    ensures var next := Step(l, Release(o, bytes));
            && Linked(next) && Only(l, next, {o}) && Slack(next, o) == Slack(l, o) + bytes
            && Moved(l, next, l.owners[o].scope, -bytes)
            && (l.used <= l.peak ==> Rose(l, next, -bytes, 0))
  {}

  lemma RefuseKeepsSlack<O, S>(l: Ledger<O, S>, o: O, bytes: int)
    requires Linked(l) && o in l.owners
    ensures var next := Step(l, RefuseFor(o, bytes));
            && Linked(next) && Only(l, next, {o}) && Slack(next, o) == Slack(l, o)
            && (l.used <= l.peak ==> Rose(l, next, 0, 0))
            && (Slack(l, o) < bytes && l.owners[o].scope.Some? ==> Refused(next, l.owners[o].scope.value))
  {}

  lemma NewOwnerSlack<O, S>(l: Ledger<O, S>, o: O, facade: O)
    requires Linked(l) && o !in l.owners
    ensures var next := Step(l, Capture(o));
            && Linked(next) && Only(l, next, {o}) && next.owners[o].scope == l.current
            && Slack(next, o) == SlackIn(l, l.current)
    ensures facade in l.owners ==>
              var next := Step(l, CaptureFrom(o, facade));
              && Linked(next) && Only(l, next, {o}) && next.owners[o].scope == l.owners[facade].scope
              && Slack(next, o) == Slack(l, facade)
  {}

  lemma NothingMoved<O, S>(l: Ledger<O, S>, scope: Option<S>)
    ensures Moved(l, l, scope, 0)
  {}

  lemma OnlyAgain<O, S>(l: Ledger<O, S>, mid: Ledger<O, S>, later: Ledger<O, S>, ours: set<O>)
    requires Only(l, mid, ours) && Only(mid, later, ours)
    ensures Only(l, later, ours)
  {}

  lemma StaysRefused<O, S>(l: Ledger<O, S>, later: Ledger<O, S>, ours: set<O>, s: S)
    requires Only(l, later, ours) && Refused(l, s)
    ensures Refused(later, s)
  {}

  lemma OnlyChain<O, S>(l: Ledger<O, S>, mid: Ledger<O, S>, later: Ledger<O, S>, ours: set<O>, more: set<O>)
    requires Only(l, mid, ours) && Only(mid, later, more)
    ensures Only(l, later, ours + more)
  {}

  // ---- Balance ----------------------------------------------------------------

  lemma {:induction false} TallyGrows<O, S>(owners: map<O, Account<S>>, grown: map<O, Account<S>>, side: Side<S>)
    requires forall o :: o in owners ==> o in grown && grown[o] == owners[o]
    ensures Tally(grown, side) == Tally(owners, side) + Tally(grown - owners.Keys, side)
    decreases |grown|
  {
    var extra := grown - owners.Keys;
    if extra == map[] {
      forall o | o in grown
        ensures o in owners
      {
        assert o !in extra;
      }
      assert grown == owners;
    } else {
      var k :| k in extra;
      TallyRemove(grown, side, k);
      TallyRemove(extra, side, k);
      assert (grown - {k}) - owners.Keys == extra - {k};
      TallyGrows(owners, grown - {k}, side);
    }
  }

  /** Between two moments at which everyone else holds what they held, the ledger and every scope have moved by exactly
      what the new owners hold: nothing, if a failed call left them with nothing, and the lease if it left one. */
  lemma ChangeIsWhatNewOwnersHold<O, S>(l: Ledger<O, S>, later: Ledger<O, S>)
    requires Conserved(l) && Conserved(later) && later.unscoped == l.unscoped
    requires forall o :: o in l.owners ==> o in later.owners && later.owners[o] == l.owners[o]
    ensures later.used == l.used + Tally(later.owners - l.owners.Keys, Everyone)
    ensures forall s :: s in l.scopes && s in later.scopes ==>
              later.scopes[s].used == l.scopes[s].used + Tally(later.owners - l.owners.Keys, Within(s))
    ensures (forall o :: o in later.owners && o !in l.owners ==> later.owners[o].used == 0) ==>
              && later.used == l.used
              && forall s :: s in l.scopes && s in later.scopes ==> later.scopes[s].used == l.scopes[s].used
  {
    TallyGrows(l.owners, later.owners, Everyone);
    forall s | s in l.scopes && s in later.scopes
      ensures later.scopes[s].used == l.scopes[s].used + Tally(later.owners - l.owners.Keys, Within(s))
    {
      TallyGrows(l.owners, later.owners, Within(s));
    }
    if forall o :: o in later.owners && o !in l.owners ==> later.owners[o].used == 0 {
      TallyNobody(later.owners - l.owners.Keys, Everyone);
      forall s | s in l.scopes && s in later.scopes
        ensures Tally(later.owners - l.owners.Keys, Within(s)) == 0
      {
        TallyNobody(later.owners - l.owners.Keys, Within(s));
      }
    }
  }

  lemma TallyOne<O, S>(owners: map<O, Account<S>>, side: Side<S>, o: O)
    requires owners.Keys == {o}
    ensures Tally(owners, side) == Part(owners[o], side)
  {
    TallyRemove(owners, side, o);
    assert owners - {o} == map[];
  }

  /** One new owner moves the ledger and its own scope by what it holds. */
  lemma NewOwnerMoves<O, S>(l: Ledger<O, S>, later: Ledger<O, S>, o: O)
    requires Conserved(l) && Conserved(later) && Only(l, later, {o}) && o !in l.owners
    ensures Moved(l, later, later.owners[o].scope, later.owners[o].used)
  {
    ChangeIsWhatNewOwnersHold(l, later);
    var extra := later.owners - l.owners.Keys;
    assert extra.Keys == {o};
    TallyOne(extra, Everyone, o);
    forall s | s in l.scopes
      ensures Tally(extra, Within(s)) == Part(later.owners[o], Within(s))
    {
      TallyOne(extra, Within(s), o);
    }
  }

  /** New owners of one scope move the ledger and that scope by what they hold together. */
  lemma NewOwnersMove<O, S>(l: Ledger<O, S>, later: Ledger<O, S>, ours: set<O>, scope: Option<S>)
    requires Conserved(l) && Conserved(later) && Only(l, later, ours) && ours !! l.owners.Keys
    requires forall o :: o in ours ==> later.owners[o].scope == scope
    ensures Moved(l, later, scope, Tally(later.owners - l.owners.Keys, Everyone))
  {
    var extra := later.owners - l.owners.Keys;
    ChangeIsWhatNewOwnersHold(l, later);
    forall s | s in l.scopes
      ensures Tally(extra, Within(s)) == if scope == Some(s) then Tally(extra, Everyone) else 0
    {
      TallyOneScope(extra, scope, s);
    }
  }

  lemma {:induction false} TallyOneScope<O, S>(owners: map<O, Account<S>>, scope: Option<S>, s: S)
    requires forall o :: o in owners ==> owners[o].scope == scope
    ensures Tally(owners, Within(s)) == if scope == Some(s) then Tally(owners, Everyone) else 0
    decreases |owners|
  {
    if owners != map[] {
      var o :| o in owners;
      TallyRemove(owners, Everyone, o);
      TallyRemove(owners, Within(s), o);
      TallyOneScope(owners - {o}, scope, s);
    }
  }
}
