/** internal/agentapi/read_budget.go and captured_read_budget.go: the shared ledger, its scopes, its reservation
    owners and its captured facades, as objects. Each method is one critical section, and is proved to be one
    step of the ledger state machine. */
module ReadBudget {
  import opened Order
  import opened Ledgers

  /** Available on a nil budget. */
  const UNBOUNDED: int := 0x4000_0000_0000_0000

  class ReadScope {
    const ceiling: int
    var used: int
    var exceeded: bool
    var pressured: bool

    constructor (ceiling: int)
      ensures this.ceiling == Max(ceiling, 0) && used == 0 && !exceeded && !pressured
    {
      this.ceiling := Max(ceiling, 0);
      used, exceeded, pressured := 0, false, false;
    }
  }

  /** The mutable owner shared by copies of a reservation handle. */
  class Owner {
    const budget: NativeReadBudget?
    const scope: ReadScope?
    var used: int

    constructor (budget: NativeReadBudget?, scope: ReadScope?)
      ensures this.budget == budget && this.scope == scope && used == 0
    {
      this.budget, this.scope, used := budget, scope, 0;
    }
  }

  function Ref(s: ReadScope?): Option<ReadScope> {
    if s == null then None else Some(s)
  }

  /** A facade has `captured` set and no charges of its own; any other budget is a real ledger. */
  class NativeReadBudget {
    const captured: Owner?
    const limit: int
    var used: int
    var peak: int
    var unscopedUsed: int
    var scope: ReadScope?
    ghost var state: Ledger<Owner, ReadScope>
    ghost var Repr: set<object>

    /** The objects are exactly the ledger state, and every owner points directly at this ledger. */
    ghost predicate Mirrors()
      reads this, Repr
    {
      && this in Repr
      && state.limit == limit && state.used == used && state.peak == peak && state.unscoped == unscopedUsed
      && state.current == Ref(scope)
      && (forall o :: o in state.owners ==>
            o in Repr && o.budget == this && state.owners[o] == Account(Ref(o.scope), o.used))
      && (forall s :: s in state.scopes ==>
            s in Repr && state.scopes[s] == Scope(s.ceiling, s.used, s.exceeded, s.pressured))
    }

    /** A real ledger in a state that conserves every charge. */
    ghost predicate Valid()
      reads this, Repr
    {
      captured == null && Mirrors() && Conserved(state)
    }

    constructor (limit: int)
      requires Int64(limit)
      ensures Valid() && state == NewLedger(limit)
    {
      this.captured := null;
      this.limit := Max(limit, 0);
      used, peak, unscopedUsed, scope := 0, 0, 0, null;
      state := NewLedger(limit);
      Repr := {this};
    }

    constructor Facade(captured: Owner)
      ensures this.captured == captured
    {
      this.captured := captured;
      this.limit := 0;
      used, peak, unscopedUsed, scope := 0, 0, 0, null;
      state := NewLedger(0);
      Repr := {this};
    }
  }

  /** The real ledger behind a budget: none for nil, the captured owner's for a facade. */
  function Real(b: NativeReadBudget?): NativeReadBudget? {
    if b == null then null else if b.captured != null then b.captured.budget else b
  }

  ghost function Footprint(l: NativeReadBudget?): set<object>
    reads if l == null then {} else {l}
  {
    if l == null then {} else l.Repr
  }

  /** What callers hold: nil, a real ledger, or a facade on one of a real ledger's scoped owners. */
  ghost predicate Ready(b: NativeReadBudget?)
    reads Real(b), Footprint(Real(b))
  {
    b != null ==>
      && Real(b) != null && Real(b).Valid()
      && (b.captured != null ==> b.captured in Real(b).state.owners && b.captured.scope != null)
  }

  ghost predicate OwnerReady(o: Owner)
    reads o.budget, Footprint(o.budget)
  {
    o.budget != null ==> o.budget.Valid() && o in o.budget.state.owners
  }

  /** A handle; its copies share the owner. */
  datatype NativeReadReservation = NativeReadReservation(owner: Owner)

  /** The step that creates `o` through `b`. */
  ghost function CaptureOp(b: NativeReadBudget, o: Owner): Op<Owner, ReadScope> {
    if b.captured == null then Capture(o)
    else
      var facade: Owner := b.captured;
      CaptureFrom(o, facade)
  }

  /** Captures the current owner scope without charging any bytes. */
  method Reservation(b: NativeReadBudget?) returns (h: NativeReadReservation)
    requires Ready(b)
    modifies Real(b)
    ensures fresh(h.owner) && h.owner.used == 0 && h.owner.budget == Real(b) && OwnerReady(h.owner)
    ensures b != null ==> Real(b).Repr == old(Real(b).Repr) + {h.owner}
    ensures b == null ==> h.owner.scope == null
    ensures b != null ==>
              && Ready(b) && Linked(old(Real(b).state)) && Enabled(old(Real(b).state), CaptureOp(b, h.owner))
              && Real(b).state == Step(old(Real(b).state), CaptureOp(b, h.owner))
  {
    hide Conserved;
    if b == null {
      var o := new Owner(null, null);
      return NativeReadReservation(o);
    }
    var l := Real(b);
    var o := new Owner(l, if b.captured != null then b.captured.scope else l.scope);
    assert o !in l.state.owners;
    ConservedLinked(l.state);
    StepConserves(l.state, CaptureOp(b, o));
    l.state := Step(l.state, CaptureOp(b, o));
    l.Repr := l.Repr + {o};
    return NativeReadReservation(o);
  }

  /** The step touched only known owners and scopes. */
  twostate predicate SameObjects(l: NativeReadBudget)
    reads l
  {
    l.state.owners.Keys == old(l.state.owners.Keys) && l.Repr == old(l.Repr)
  }

  lemma OwnerScope(o: Owner)
    requires OwnerReady(o) && o.budget != null && o.scope != null
    ensures o.scope in o.budget.Repr
  {
    assert o.budget.state.owners[o] == Account(Ref(o.scope), o.used);
    assert o.scope in o.budget.state.scopes;
  }

  /** The objects one owner's operations write. */
  ghost function Written(o: Owner): set<object> {
    if o.budget == null then {}
    else
      var l: NativeReadBudget := o.budget;
      {l, o} + if o.scope == null then {} else var s: ReadScope := o.scope; {s}
  }

  ghost function ReserveOp(o: Owner, bytes: int): Op<Owner, ReadScope> {
    Ledgers.Reserve(o, bytes)
  }

  /** Grows the owner's charge before allocation; a refusal moves no charge. */
  method Reserve(h: NativeReadReservation, bytes: int) returns (ok: bool)
    requires OwnerReady(h.owner) && Int64(bytes)
    modifies Written(h.owner)
    ensures OwnerReady(h.owner)
    ensures h.owner.budget == null ==> ok
    ensures var l := h.owner.budget;
            l != null ==>
              && SameObjects(l) && Linked(old(l.state))
              && ok == Granted(old(l.state), Ledgers.Reserve(h.owner, bytes))
              && l.state == Step(old(l.state), Ledgers.Reserve(h.owner, bytes))
              && h.owner.used == old(h.owner.used) + (if ok then bytes else 0)
  {
    hide Conserved;
    var r := h.owner;
    var b := r.budget;
    if b == null {
      return true;
    }
    ConservedLinked(b.state);
    StepConserves(b.state, Ledgers.Reserve(r, bytes));
    if bytes < 0 {
      return false;
    }
    if r.scope != null && bytes > r.scope.ceiling - r.scope.used {
      SetFlags(b, r.scope, true, r.scope.pressured);
      return false;
    }
    if bytes > b.limit - b.used {
      if r.scope != null {
        SetFlags(b, r.scope, r.scope.exceeded, true);
      }
      return false;
    }
    ok := true;
    Charge(b, r, bytes);
  }

  /** The three counters move together, inside one critical section. */
  method Charge(b: NativeReadBudget, r: Owner, bytes: int)
    requires b.Mirrors() && r in b.state.owners && r.budget == b
    requires r.scope != null ==> r.scope in b.state.scopes
    modifies Written(r)
    ensures b.Mirrors() && SameObjects(b) && b.state == Charged(old(b.state), r, bytes)
    ensures r.used == old(r.used) + bytes
  {
    ghost var next := Charged(b.state, r, bytes);
    b.used := b.used + bytes;
    b.peak := Max(b.peak, b.used);
    r.used := r.used + bytes;
    if r.scope != null {
      r.scope.used := r.scope.used + bytes;
    }
    b.state := next;
  }

  /** Returns whether the release panicked; an over-release panics before touching either ledger. */
  method Release(h: NativeReadReservation, bytes: int) returns (panicked: bool)
    requires OwnerReady(h.owner) && Int64(bytes)
    modifies Written(h.owner)
    ensures OwnerReady(h.owner)
    ensures h.owner.budget == null ==> !panicked
    ensures var l := h.owner.budget;
            l != null ==>
              && SameObjects(l) && Linked(old(l.state))
              && panicked == !(0 <= bytes <= old(h.owner.used))
              && l.state == Step(old(l.state), Ledgers.Release(h.owner, bytes))
              && h.owner.used == old(h.owner.used) - (if panicked then 0 else bytes)
  {
    hide Conserved;
    var r := h.owner;
    var b := r.budget;
    if b == null {
      return false;
    }
    ghost var op := Ledgers.Release(r, bytes);
    ConservedLinked(b.state);
    StepConserves(b.state, op);
    if bytes < 0 || bytes > r.used {
      return true;
    }
    ReleaseIsCharge(b.state, r, bytes);
    Charge(b, r, -bytes);
    return false;
  }

  lemma ReleaseIsCharge(l: Ledger<Owner, ReadScope>, o: Owner, bytes: int)
    requires Conserved(l) && o in l.owners && 0 <= bytes <= l.owners[o].used && Int64(bytes)
    ensures Step(l, Ledgers.Release(o, bytes)) == Charged(l, o, -bytes)
    ensures Conserved(Charged(l, o, -bytes))
  {
    hide Conserved;
    StepConserves(l, Ledgers.Release(o, bytes));
  }

  /** The largest request that would be granted now. */
  method Available(h: NativeReadReservation) returns (n: int)
    requires OwnerReady(h.owner)
    ensures 0 <= n <= MAX_INT64
    ensures h.owner.budget == null ==> n == UNBOUNDED
    ensures h.owner.budget != null ==> forall bytes: int {:trigger ReserveOp(h.owner, bytes)} ::
              Granted(h.owner.budget.state, ReserveOp(h.owner, bytes)) <==> 0 <= bytes <= n
  {
    var r := h.owner;
    var b := r.budget;
    if b == null {
      return UNBOUNDED;
    }
    n := b.limit - b.used;
    if r.scope != null {
      n := Min(n, r.scope.ceiling - r.scope.used);
    }
  }

  ghost function Marked(l: Ledger<Owner, ReadScope>, s: ReadScope, exceeded: bool, pressured: bool)
    : Ledger<Owner, ReadScope>
    requires s in l.scopes
  {
    l.(scopes := l.scopes[s := l.scopes[s].(exceeded := exceeded, pressured := pressured)])
  }

  /** Writes one scope's refusal flags. */
  method SetFlags(b: NativeReadBudget, s: ReadScope, exceeded: bool, pressured: bool)
    requires b.Mirrors() && s in b.state.scopes
    modifies b, s
    ensures b.Mirrors() && SameObjects(b)
    ensures b.state == Marked(old(b.state), s, exceeded, pressured)
  {
    ghost var next := Marked(b.state, s, exceeded, pressured);
    s.exceeded, s.pressured := exceeded, pressured;
    b.state := next;
  }

  /** The switch both Refuse methods share. */
  method Flag(b: NativeReadBudget, s: ReadScope?, bytes: int)
    requires b.Mirrors() && (s != null ==> s in b.state.scopes)
    modifies if s == null then {b} else {b, s}
    ensures b.Mirrors() && SameObjects(b) && b.state == Flagged(old(b.state), Ref(s), bytes)
  {
    ghost var next := Flagged(b.state, Ref(s), bytes);
    if s != null {
      if bytes > s.ceiling - s.used {
        s.exceeded := true;
      } else if bytes > b.limit - b.used {
        s.pressured := true;
      }
    }
    b.state := next;
  }

  /** Attributes a preflight refusal to the same owner as Reserve would. */
  method Refuse(h: NativeReadReservation, bytes: int)
    requires OwnerReady(h.owner) && Int64(bytes)
    modifies Written(h.owner)
    ensures OwnerReady(h.owner) && h.owner.used == old(h.owner.used)
    ensures h.owner.budget != null ==>
              && SameObjects(h.owner.budget) && Linked(old(h.owner.budget.state))
              && h.owner.budget.state == Step(old(h.owner.budget.state), RefuseFor(h.owner, bytes))
  {
    hide Conserved;
    var r := h.owner;
    var b := r.budget;
    if b == null {
      return;
    }
    ConservedLinked(b.state);
    StepConserves(b.state, RefuseFor(r, bytes));
    Flag(b, r.scope, bytes);
  }

  // ---- Pass-lifetime charges and scopes -------------------------------------

  method ReserveUnscoped(b: NativeReadBudget?, bytes: int) returns (ok: bool)
    requires Ready(b) && Int64(bytes)
    modifies if b == null || b.captured != null then {} else {b}
    ensures Ready(b)
    ensures b != null ==> Real(b).Repr == old(Real(b).Repr)
    ensures b == null ==> ok
    ensures b != null && b.captured != null ==> !ok
    ensures b != null && b.captured == null ==>
              && Linked(old(b.state))
              && ok == Granted(old(b.state), Ledgers.ReserveUnscoped(bytes))
              && b.state == Step(old(b.state), Ledgers.ReserveUnscoped(bytes))
  {
    if b != null && b.captured != null {
      return false;
    }
    if b == null {
      return true;
    }
    StepConserves(b.state, Ledgers.ReserveUnscoped(bytes));
    b.state := Step(b.state, Ledgers.ReserveUnscoped(bytes));
    if bytes < 0 || bytes > b.limit - b.used {
      return false;
    }
    b.used := b.used + bytes;
    b.unscopedUsed := b.unscopedUsed + bytes;
    b.peak := Max(b.peak, b.used);
    return true;
  }

  /** Two critical sections when refused: the reservation, then the pressure mark on the scope current by then. */
  method ReserveUnscopedRequired(b: NativeReadBudget?, bytes: int) returns (ok: bool)
    requires Ready(b) && Int64(bytes)
    modifies if b == null || b.captured != null then {} else {b} + if b.scope == null then {} else {b.scope}
    ensures Ready(b)
    ensures b != null ==> Real(b).Repr == old(Real(b).Repr)
    ensures b == null ==> ok
    ensures b != null && b.captured != null ==> !ok
    ensures b != null && b.captured == null ==>
              && Linked(old(b.state))
              && ok == Granted(old(b.state), Ledgers.ReserveUnscoped(bytes))
              && b.state == Step(old(b.state), if ok then Ledgers.ReserveUnscoped(bytes) else MarkPressured)
  {
    if b != null && b.captured != null {
      return false;
    }
    ok := ReserveUnscoped(b, bytes);
    if ok {
      return;
    }
    StepConserves(b.state, MarkPressured);
    if b.scope != null {
      SetFlags(b, b.scope, b.scope.exceeded, true);
    }
  }

  method ReleaseUnscoped(b: NativeReadBudget?, bytes: int) returns (panicked: bool)
    requires Ready(b) && Int64(bytes)
    modifies if b == null || b.captured != null then {} else {b}
    ensures Ready(b)
    ensures b != null ==> Real(b).Repr == old(Real(b).Repr)
    ensures b == null ==> !panicked
    ensures b != null && b.captured != null ==> panicked == (bytes != 0)
    ensures b != null && b.captured == null ==>
              && Linked(old(b.state))
              && panicked == !Granted(old(b.state), Ledgers.ReleaseUnscoped(bytes))
              && b.state == Step(old(b.state), Ledgers.ReleaseUnscoped(bytes))
  {
    if b != null && b.captured != null {
      return bytes != 0;
    }
    if b == null {
      return false;
    }
    StepConserves(b.state, Ledgers.ReleaseUnscoped(bytes));
    b.state := Step(b.state, Ledgers.ReleaseUnscoped(bytes));
    if bytes < 0 || bytes > b.unscopedUsed {
      return true;
    }
    b.used := b.used - bytes;
    b.unscopedUsed := b.unscopedUsed - bytes;
    return false;
  }

  /** The closure BeginScope returns: it restores the previous scope if its own is still current. */
  class ScopeEnd {
    const budget: NativeReadBudget?
    const scope: ReadScope?
    const previous: ReadScope?

    constructor (budget: NativeReadBudget?, scope: ReadScope?, previous: ReadScope?)
      ensures this.budget == budget && this.scope == scope && this.previous == previous
    {
      this.budget, this.scope, this.previous := budget, scope, previous;
    }

    method End()
      requires budget != null ==>
                 && budget.Valid() && scope != null && scope in budget.state.scopes
                 && (previous != null ==> previous in budget.state.scopes)
      modifies budget
      ensures budget != null ==>
                && budget.Valid() && Linked(old(budget.state)) && scope != null && budget.Repr == old(budget.Repr)
                && Enabled(old(budget.state), EndScope(scope, Ref(previous)))
                && budget.state == Step(old(budget.state), EndScope(scope, Ref(previous)))
    {
      if budget == null {
        return;
      }
      StepConserves(budget.state, EndScope(scope, Ref(previous)));
      budget.state := Step(budget.state, EndScope(scope, Ref(previous)));
      if budget.scope == scope {
        budget.scope := previous;
      }
    }
  }

  /** `None` is the panic of opening a scope on a facade. */
  method BeginScope(b: NativeReadBudget?, ceiling: int) returns (end: Option<ScopeEnd>)
    requires Ready(b) && Int64(ceiling)
    modifies if b == null || b.captured != null then {} else {b}
    ensures Ready(b)
    ensures end.None? <==> b != null && b.captured != null
    ensures b == null ==> end.value.budget == null
    ensures b != null && b.captured == null ==>
              && end.value.budget == b && end.value.scope != null && fresh(end.value.scope)
              && end.value.previous == old(b.scope) && b.Repr == old(b.Repr) + {end.value.scope}
              && Linked(old(b.state)) && Enabled(old(b.state), Ledgers.BeginScope(end.value.scope, ceiling))
              && b.state == Step(old(b.state), Ledgers.BeginScope(end.value.scope, ceiling))
  {
    if b != null && b.captured != null {
      return None;
    }
    if b == null {
      var nothing := new ScopeEnd(null, null, null);
      return Some(nothing);
    }
    var previous := b.scope;
    var scope := new ReadScope(ceiling);
    assert scope !in b.state.scopes;
    StepConserves(b.state, Ledgers.BeginScope(scope, ceiling));
    b.state := Step(b.state, Ledgers.BeginScope(scope, ceiling));
    b.Repr := b.Repr + {scope};
    b.scope := scope;
    var closure := new ScopeEnd(b, scope, previous);
    return Some(closure);
  }

  /** What a refusal through the budget itself writes. */
  ghost function Ambient(b: NativeReadBudget?): set<object>
    requires Ready(b)
    reads Real(b), Footprint(Real(b))
  {
    if b == null then {}
    else if b.captured != null then {Real(b), b.captured.scope}
    else {b} + if b.scope == null then {} else {b.scope}
  }

  /** The two steps of a refusal through a facade. */
  ghost function CapturedRefusal(l: Ledger<Owner, ReadScope>, facade: Owner, own: Owner, bytes: int)
    : Ledger<Owner, ReadScope>
    requires Linked(l) && Enabled(l, CaptureFrom(own, facade))
  {
    NewOwnerSlack(l, own, facade);
    Step(Step(l, CaptureFrom(own, facade)), RefuseFor(own, bytes))
  }

  /** Records a refused charge against the scope current on the ledger, or through a facade against its captured scope:
      there it opens an owner of that scope and refuses on it. Nil records nothing. */
  method RefuseAmbient(b: NativeReadBudget?, bytes: int) returns (ghost own: Owner?)
    requires Ready(b) && Int64(bytes)
    modifies Ambient(b)
    ensures Ready(b)
    ensures own != null <==> b != null && b.captured != null
    ensures b != null ==> Real(b).Repr == old(Real(b).Repr) + if own == null then {} else {own}
    ensures b != null && b.captured == null ==>
              Linked(old(b.state)) && b.state == Step(old(b.state), RefuseCurrent(bytes))
    ensures own != null ==>
              && fresh(own) && own.budget == Real(b) && own.scope == b.captured.scope && own.used == 0
              && Linked(old(Real(b).state)) && Enabled(old(Real(b).state), CaptureFrom(own, b.captured))
              && Real(b).state == CapturedRefusal(old(Real(b).state), b.captured, own, bytes)
  {
    own := null;
    if b != null && b.captured != null {
      own := RefuseCaptured(b, bytes);
      return;
    }
    if b == null {
      return;
    }
    StepConserves(b.state, RefuseCurrent(bytes));
    Flag(b, b.scope, bytes);
  }

  method RefuseCaptured(b: NativeReadBudget, bytes: int) returns (ghost own: Owner)
    requires Ready(b) && Int64(bytes) && b.captured != null
    modifies Real(b), b.captured.scope
    ensures Ready(b)
    ensures fresh(own) && own.budget == Real(b) && own.scope == b.captured.scope && own.used == 0
    ensures Real(b).Repr == old(Real(b).Repr) + {own}
    ensures Linked(old(Real(b).state)) && Enabled(old(Real(b).state), CaptureFrom(own, b.captured))
    ensures Real(b).state == CapturedRefusal(old(Real(b).state), b.captured, own, bytes)
  {
    hide Conserved, Flagged;
    var h := Reservation(b);
    own := h.owner;
    CapturedScope(b, own);
    Refuse(h, bytes);
  }

  lemma CapturedScope(b: NativeReadBudget, o: Owner)
    requires Ready(b) && b.captured != null && OwnerReady(o) && o.budget == Real(b)
    requires Real(b).state.owners[o].scope == Real(b).state.owners[b.captured].scope
    ensures o.scope == b.captured.scope
  {}

  /** Clears the current scope's own-ceiling refusal; a facade cannot clear its captured scope's. */
  method ForgetScopeExceeded(b: NativeReadBudget?)
    requires Ready(b)
    modifies if b == null || b.captured != null then {} else {b} + if b.scope == null then {} else {b.scope}
    ensures Ready(b)
    ensures b != null ==> Real(b).Repr == old(Real(b).Repr)
    ensures b != null && b.captured == null ==> Linked(old(b.state)) && b.state == Step(old(b.state), ForgetExceeded)
  {
    if b == null || b.captured != null {
      return;
    }
    StepConserves(b.state, ForgetExceeded);
    if b.scope != null {
      SetFlags(b, b.scope, false, b.scope.pressured);
    }
  }

  // ---- Captured facades --------------------------------------------------------

  /** A facade points straight at a real ledger and a scope of it; anything else is refused. */
  method CapturedBudget(h: Option<NativeReadReservation>) returns (facade: NativeReadBudget?)
    requires h.Some? ==> OwnerReady(h.value.owner)
    ensures facade != null <==> h.Some? && h.value.owner.budget != null && h.value.owner.scope != null
    ensures facade != null ==> facade.captured == h.value.owner && Ready(facade) && Real(facade).captured == null
  {
    if h.None? || h.value.owner.budget == null || h.value.owner.scope == null {
      return null;
    }
    facade := new NativeReadBudget.Facade(h.value.owner);
  }

  /** Only an owner of this very ledger, and for a facade of its very scope, is captured. */
  method CaptureFromReservation(b: NativeReadBudget?, h: Option<NativeReadReservation>)
    returns (facade: NativeReadBudget?)
    requires Ready(b) && (h.Some? ==> OwnerReady(h.value.owner))
    ensures facade != null <==>
            && b != null && h.Some? && h.value.owner.budget == Real(b) && h.value.owner.scope != null
            && (b.captured != null ==> h.value.owner.scope == b.captured.scope)
    ensures facade != null ==> facade.captured == h.value.owner && Ready(facade) && Real(facade) == Real(b)
  {
    if b == null || h.None? || h.value.owner.budget == null || h.value.owner.scope == null {
      return null;
    }
    var owner := h.value.owner;
    var actual := b;
    if b.captured != null {
      actual := b.captured.budget;
      if owner.scope != b.captured.scope {
        return null;
      }
    }
    if owner.budget != actual {
      return null;
    }
    facade := CapturedBudget(h);
  }
}
