/** Borrowing from the shared ledger: decode, compression, envelope and refilter leases (retained_*.go of
    internal/agentapi). Every charge is one critical section, and between any two of them other goroutines may do
    whatever the ledger allows: each step below is preceded by an arbitrary change to everything but our own owners. */
module Leases {
  import opened Order
  import L = Ledgers
  import opened ReadBudget

  const TWO_63: int := 0x8000_0000_0000_0000
  const TWO_64: int := 0x1_0000_0000_0000_0000

  /** Go's int64 arithmetic. */
  function Wrap(x: int): (r: int)
    ensures L.Int64(r)
    ensures L.Int64(x) ==> r == x
  {
    (x + TWO_63) % TWO_64 - TWO_63
  }

  /** Go's division, truncating toward zero. */
  function Quotient(a: int, b: int): int
    requires b > 0
  {
    if a >= 0 then a / b else -(-a / b)
  }

  /** The owner's books are in order and, on a real ledger, it holds exactly `n` bytes. */
  ghost predicate Holds(o: Owner, n: int)
    reads o, o.budget, Footprint(o.budget)
  {
    OwnerReady(o) && (o.budget != null ==> o.used == n)
  }

  /** The ledger keeps every owner and scope it had; what is new is freshly allocated. */
  twostate predicate Grows(l: NativeReadBudget?)
    reads l
  {
    l != null ==>
      && old(l.state.owners.Keys) <= l.state.owners.Keys
      && old(l.Repr) <= l.Repr && fresh(l.Repr - old(l.Repr))
  }

  /** Every account but `ours`, the unscoped charges and the current scope are as they were, and no owner is new but
      `ours`. */
  twostate predicate Untouched(l: NativeReadBudget?, new ours: set<Owner>)
    reads l
  {
    l != null ==> L.Only(old(l.state), l.state, ours)
  }

  /** The ledger and `scope` have moved by `n` bytes, and no other scope has. */
  twostate predicate Charged(l: NativeReadBudget?, scope: Option<ReadScope>, n: int)
    reads l
  {
    l != null ==> L.Moved(old(l.state), l.state, scope, n)
  }

  /** The charges have moved by `n` bytes, and the ledger's peak shows that they stood `top` above where they began. */
  twostate predicate Rises(l: NativeReadBudget?, n: int, top: int)
    reads l
  {
    l != null ==> L.Rose(old(l.state), l.state, n, top)
  }

  /** The owner's scope, if it has one, has been refused something. */
  ghost predicate Blamed(o: Owner)
    reads o.budget
  {
    o.budget != null && o.scope != null ==> L.Refused(o.budget.state, o.scope)
  }

  /** The scope a new owner of the budget would have. */
  ghost function ScopeOf(b: NativeReadBudget): Option<ReadScope>
    requires Ready(b)
    reads Real(b), Footprint(Real(b))
  {
    if b.captured != null then Ref(b.captured.scope) else Real(b).state.current
  }

  /** The owner's scope, as the ledger has it. */
  ghost predicate Scoped(o: Owner, scope: Option<ReadScope>)
    reads o.budget, Footprint(o.budget)
  {
    OwnerReady(o) && o.budget != null && o.budget.state.owners[o].scope == scope
  }

  /** A nil ledger stands for an empty one. */
  ghost function StateOf(l: NativeReadBudget?): L.Ledger<Owner, ReadScope>
    reads l
  {
    if l == null then L.NewLedger(0) else l.state
  }

  /** Whatever other goroutines do: any valid ledger may follow, as long as our own owners are left alone. In a run
      where this call is `alone`, they do nothing. */
  method Others(l: NativeReadBudget?, ghost mine: set<Owner>, ghost alone: bool)
    requires l != null ==> l.Valid()
    modifies Footprint(l) - mine
    ensures l != null ==> l.Valid()
    ensures Grows(l)
    ensures alone && l != null ==> l.state == old(l.state)
  {}

  /** An owner's operations write only its own ledger's objects. */
  lemma WrittenWithin(o: Owner)
    requires OwnerReady(o)
    ensures Written(o) <= Footprint(o.budget)
  {
    if o.budget != null && o.scope != null {
      OwnerScope(o);
    }
  }

  lemma ReadyLinked(o: Owner)
    requires OwnerReady(o) && o.budget != null
    ensures L.Linked(o.budget.state) && o in o.budget.state.owners && o.budget.state.used <= o.budget.state.peak
    ensures o.budget.state.owners[o] == L.Account(Ref(o.scope), o.used)
  {}

  /** What the owner could still be granted. */
  ghost function Free(o: Owner): int
    requires OwnerReady(o) && o.budget != null
    reads o.budget, Footprint(o.budget)
  {
    ReadyLinked(o);
    L.Slack(o.budget.state, o)
  }

  /** What a new owner of the budget could be granted. */
  ghost function Spare(b: NativeReadBudget): int
    requires Ready(b)
    reads Real(b), Footprint(Real(b))
  {
    var l := Real(b);
    if b.captured != null then Free(b.captured) else L.SlackIn(l.state, l.state.current)
  }

  /** An owner never changes scope. */
  lemma ScopeIsFixed(o: Owner)
    requires OwnerReady(o) && o.budget != null
    ensures forall s :: Scoped(o, s) <==> s == Ref(o.scope)
  {
    hide L.Conserved;
  }

  /** Owners of one scope share its slack with the budget they were opened through. */
  lemma SpareIsFree(b: NativeReadBudget, o: Owner)
    requires Ready(b) && OwnerReady(o) && o.budget == Real(b) && Ref(o.scope) == ScopeOf(b)
    ensures Spare(b) == Free(o)
  {
    hide L.Conserved;
    ScopeIsFixed(o);
    if b.captured != null {
      ScopeIsFixed(b.captured);
    }
  }

  /** A reservation amid other goroutines' work. */
  method Take(h: NativeReadReservation, bytes: int, ghost held: int, ghost mine: set<Owner>, ghost alone: bool)
    returns (ok: bool)
    requires Holds(h.owner, held) && L.Int64(bytes) && h.owner !in mine
    modifies Footprint(h.owner.budget) - mine
    ensures Grows(h.owner.budget) && Holds(h.owner, if ok then held + bytes else held)
    ensures h.owner.budget == null ==> ok
    ensures h.owner.budget != null && ok ==> 0 <= bytes
    ensures alone && h.owner.budget != null ==>
              && (ok <==> 0 <= bytes <= old(Free(h.owner)))
              && Free(h.owner) == old(Free(h.owner)) - if ok then bytes else 0
    ensures alone ==> Untouched(h.owner.budget, {h.owner})
    ensures alone ==> Rises(h.owner.budget, if ok then bytes else 0, if ok then bytes else 0)
    ensures alone && !ok && 0 <= bytes ==> Blamed(h.owner)
  {
    hide L.Conserved, NativeReadBudget.Mirrors;
    WrittenWithin(h.owner);
    Others(h.owner.budget, mine + {h.owner}, alone);
    WrittenWithin(h.owner);
    if h.owner.budget != null {
      ReadyLinked(h.owner);
      L.ReserveTakesSlack(h.owner.budget.state, h.owner, bytes);
    }
    ok := Reserve(h, bytes);
  }

  /** A release amid other goroutines' work; it never panics when the owner holds the bytes. */
  method Give(h: NativeReadReservation, bytes: int, ghost held: int, ghost mine: set<Owner>, ghost alone: bool)
    requires Holds(h.owner, held) && L.Int64(bytes) && h.owner !in mine
    requires h.owner.budget != null ==> 0 <= bytes <= held
    modifies Footprint(h.owner.budget) - mine
    ensures Grows(h.owner.budget) && Holds(h.owner, held - bytes)
    ensures alone && h.owner.budget != null ==> Free(h.owner) == old(Free(h.owner)) + bytes
    ensures alone ==> Charged(h.owner.budget, Ref(h.owner.scope), -bytes)
    ensures alone ==> Untouched(h.owner.budget, {h.owner})
    ensures alone ==> Rises(h.owner.budget, -bytes, 0)
  {
    WrittenWithin(h.owner);
    Others(h.owner.budget, mine + {h.owner}, alone);
    if h.owner.budget != null {
      ReadyLinked(h.owner);
      L.ReleaseGivesSlack(h.owner.budget.state, h.owner, bytes);
    }
    var panicked := Release(h, bytes);
    assert !panicked;
  }

  method Room(h: NativeReadReservation, ghost held: int, ghost mine: set<Owner>, ghost alone: bool)
    returns (n: int)
    requires Holds(h.owner, held) && h.owner !in mine
    modifies Footprint(h.owner.budget) - mine
    ensures Grows(h.owner.budget) && Holds(h.owner, held)
    ensures 0 <= n <= L.MAX_INT64
    ensures h.owner.budget == null ==> n == UNBOUNDED
    ensures alone && h.owner.budget != null ==> n == Free(h.owner) == old(Free(h.owner))
    ensures alone ==> Untouched(h.owner.budget, {h.owner})
    ensures alone ==> Rises(h.owner.budget, 0, 0)
  {
    Others(h.owner.budget, mine + {h.owner}, alone);
    n := Available(h);
    if h.owner.budget != null {
      ReadyLinked(h.owner);
      AvailableIsFree(h.owner, n);
    }
  }

  lemma AvailableIsFree(o: Owner, n: int)
    requires OwnerReady(o) && o.budget != null && 0 <= n
    requires forall bytes: int {:trigger ReserveOp(o, bytes)} ::
               L.Granted(o.budget.state, ReserveOp(o, bytes)) <==> 0 <= bytes <= n
    ensures n == Free(o)
  {
    ReadyLinked(o);
    L.ReserveTakesSlack(o.budget.state, o, n);
    L.ReserveTakesSlack(o.budget.state, o, Free(o));
    assert L.Granted(o.budget.state, ReserveOp(o, n));
    assert L.Granted(o.budget.state, ReserveOp(o, Free(o)));
  }

  /** What an owner holds is not free. */
  lemma FreeBesideHeld(o: Owner, n: int)
    requires Holds(o, n) && o.budget != null
    ensures Free(o) + n <= L.MAX_INT64
  {
    L.TallyBounds(o.budget.state.owners, L.Everyone, o);
  }

  method Decline(h: NativeReadReservation, bytes: int, ghost held: int, ghost mine: set<Owner>, ghost alone: bool)
    requires Holds(h.owner, held) && h.owner !in mine
    modifies Footprint(h.owner.budget) - mine
    ensures Grows(h.owner.budget) && Holds(h.owner, held)
    ensures alone && h.owner.budget != null ==> Free(h.owner) == old(Free(h.owner))
    ensures alone ==> Untouched(h.owner.budget, {h.owner})
    ensures alone ==> Rises(h.owner.budget, 0, 0)
    ensures alone && h.owner.budget != null && old(Free(h.owner)) < Wrap(bytes) ==> Blamed(h.owner)
  {
    hide L.Conserved, L.Flagged, L.Slack, NativeReadBudget.Mirrors;
    WrittenWithin(h.owner);
    Others(h.owner.budget, mine + {h.owner}, alone);
    if h.owner.budget != null {
      ReadyLinked(h.owner);
      L.RefuseKeepsSlack(h.owner.budget.state, h.owner, Wrap(bytes));
    }
    Refuse(h, Wrap(bytes));
  }

  /** A fresh owner of the budget's ledger, holding nothing yet. */
  method Open(b: NativeReadBudget?, ghost mine: set<Owner>, ghost alone: bool) returns (h: NativeReadReservation)
    requires Ready(b)
    modifies Footprint(Real(b)) - mine
    ensures Ready(b) && Grows(Real(b))
    ensures fresh(h.owner) && h.owner.budget == Real(b) && Holds(h.owner, 0)
    ensures alone && b != null ==> Free(h.owner) == old(Spare(b)) && Ref(h.owner.scope) == old(ScopeOf(b))
    ensures alone ==> Untouched(Real(b), {h.owner})
    ensures alone ==> Rises(Real(b), 0, 0)
  {
    hide NativeReadBudget.Valid, L.SlackIn;
    RealWithin(b);
    Others(Real(b), mine, alone);
    h := OpenNow(b);
  }

  lemma RealWithin(b: NativeReadBudget?)
    requires Ready(b)
    ensures b != null ==> Real(b) in Footprint(Real(b))
  {}

  method OpenNow(b: NativeReadBudget?) returns (h: NativeReadReservation)
    requires Ready(b)
    modifies Real(b)
    ensures Ready(b) && Grows(Real(b))
    ensures fresh(h.owner) && h.owner.budget == Real(b) && Holds(h.owner, 0)
    ensures b != null ==> Free(h.owner) == old(Spare(b)) && Ref(h.owner.scope) == old(ScopeOf(b))
    ensures Untouched(Real(b), {h.owner})
    ensures Rises(Real(b), 0, 0)
  {
    hide L.Conserved, L.SlackIn, NativeReadBudget.Mirrors;
    ghost var before := if b == null then L.NewLedger(0) else Real(b).state;
    if b != null && b.captured != null {
      ScopeIsFixed(b.captured);
      assert Scoped(b.captured, Ref(b.captured.scope));
    }
    h := Reservation(b);
    if b != null {
      ScopeIsFixed(h.owner);
      assert Scoped(h.owner, Ref(h.owner.scope));
      L.NewOwnerSlack(before, h.owner, if b.captured == null then h.owner else b.captured);
      ReadyLinked(h.owner);
    }
  }

  lemma OwnAccountsStand(o: Owner)
    requires OwnerReady(o)
    ensures o.budget != null ==> L.Only(o.budget.state, o.budget.state, {o})
  {}

  /** A release closure. Most are guarded by sync.Once, and so is this one; the two that the refilter leaves unguarded,
      for its rows and for its decoded bytes, are closed at most once anyway: `CloseInReverse` closes only leases that
      are not `done`. */
  class Lease {
    const handle: NativeReadReservation
    const amount: int
    var done: bool

    constructor (handle: NativeReadReservation, amount: int)
      ensures this.handle == handle && this.amount == amount && !done
    {
      this.handle, this.amount, done := handle, amount, false;
    }

    /** Gives back exactly `amount` the first time and nothing after; it never panics, and credits the scope its
        owner was created in whatever scope is current by then. */
    method Close(ghost held: int, ghost mine: set<Owner>, ghost alone: bool)
      requires Holds(handle.owner, held) && handle.owner !in mine && L.Int64(amount)
      requires this !in Footprint(handle.owner.budget)
      requires !done && handle.owner.budget != null ==> 0 <= amount <= held
      modifies this, Footprint(handle.owner.budget) - mine
      ensures done && Grows(handle.owner.budget)
      ensures Holds(handle.owner, if old(done) then held else held - amount)
      ensures old(done) && handle.owner.budget != null ==> handle.owner.budget.state == old(handle.owner.budget.state)
      ensures alone && !old(done) && handle.owner.budget != null ==>
                Free(handle.owner) == old(Free(handle.owner)) + amount
      ensures alone ==> Untouched(handle.owner.budget, {handle.owner})
      ensures alone && !old(done) ==> Charged(handle.owner.budget, Ref(handle.owner.scope), -amount)
      ensures alone && !old(done) ==> Rises(handle.owner.budget, -amount, 0)
    {
      hide NativeReadBudget.Valid, L.Only, L.Moved;
      if done {
        OwnAccountsStand(handle.owner);
        return;
      }
      Give(handle, amount, held, mine, alone);
      done := true;
    }
  }

  /** What a finished helper leaves behind: on failure its owner holds nothing; on success exactly what the lease
      will give back. */
  ghost predicate Settled(lease: Lease?, own: Owner)
    reads lease, own, own.budget, Footprint(own.budget)
  {
    if lease == null then Holds(own, 0)
    else
      && lease.handle.owner == own && lease !in Footprint(own.budget) && !lease.done
      && L.Int64(lease.amount) && 0 <= lease.amount && Holds(own, lease.amount)
  }

  function LeaseBytes(lease: Lease?): int {
    if lease == null then 0 else lease.amount
  }

  /** A finished helper has charged the ledger, and the scope its owner was opened in, exactly what its lease will
      give back: nothing at all, if there is none. */
  twostate lemma SettledMeansCharged(b: NativeReadBudget, new lease: Lease?, new own: Owner)
    requires old(Ready(b)) && fresh(own) && own.budget == Real(b)
    requires Settled(lease, own) && Untouched(Real(b), {own})
    ensures Charged(Real(b), Ref(own.scope), LeaseBytes(lease))
  {
    hide L.Moved, L.Only;
    var before := old(Real(b).state);
    assert own !in before.owners;
    ReadyLinked(own);
    L.NewOwnerMoves(before, Real(b).state, own);
  }
}
