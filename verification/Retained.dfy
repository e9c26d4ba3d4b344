/** The retained-source helpers of internal/agentapi: each borrows scratch from the shared ledger, and returns either
    nothing held or one lease. `mine` names owners the caller already has, which stay untouched throughout. */
module Retained {
  import opened Order
  import L = Ledgers
  import opened ReadBudget
  import opened Leases
  import W = WireSize

  /** What the JSON preflight finds in a value: its size bound, or an unsupported value after some bytes. */
  datatype Probe = Bytes(size: nat) | Fault(before: nat)
  datatype Bounded = Within(size: nat) | OverLimit | Unsupported

  /** jsonwire.Bound: an upper bound within the limit, or the first of the two errors met. */
  function Bound(value: Probe, limit: int): (r: Bounded)
    ensures r.Within? ==> r.size <= limit
  {
    match value
    case Bytes(size) => if size <= limit then Within(size) else OverLimit
    case Fault(before) => if before <= limit then Unsupported else OverLimit
  }

  const SIZING_SCRATCH: int := 0x8000
  const PREFLIGHT_SCRATCH: int := 0x1_0000
  const COMPRESSOR_SCRATCH: int := 0x10_0000
  const OBJECT_CEILING: int := 0x200_0000

  /** A value can be sized and charged `share` times when nobody else moves. */
  predicate Fits(value: Probe, spare: int, share: int)
    requires share > 0
  {
    value.Bytes? && SIZING_SCRATCH <= spare && value.size <= (spare - SIZING_SCRATCH) / share
  }

  /** Sizes a value under scratch, against a share of what the owner could still reserve. */
  method SizeUnderScratch(h: NativeReadReservation, value: Probe, share: int, ghost mine: set<Owner>, ghost alone: bool)
    returns (bound: Bounded)
    requires Holds(h.owner, 0) && h.owner !in mine && share > 0
    modifies Footprint(h.owner.budget) - mine
    ensures Grows(h.owner.budget) && Holds(h.owner, 0)
    ensures alone ==> Untouched(h.owner.budget, {h.owner})
    ensures alone && bound.Within? ==> Rises(h.owner.budget, 0, SIZING_SCRATCH)
    ensures bound.Within? ==> value == Bytes(bound.size) && share * bound.size <= L.MAX_INT64
    ensures h.owner.budget == null ==> (bound.Within? <==> value.Bytes? && value.size <= UNBOUNDED / share)
    ensures alone && h.owner.budget != null ==>
              && (bound.Within? <==> Fits(value, old(Free(h.owner)), share))
              && (bound.Within? ==> share * bound.size <= Free(h.owner))
              && Free(h.owner) == old(Free(h.owner))
    ensures alone && h.owner.budget != null && old(Free(h.owner)) < SIZING_SCRATCH ==>
              !bound.Within? && Blamed(h.owner)
  {
    hide NativeReadBudget.Valid, Free;
    var ok := Take(h, SIZING_SCRATCH, 0, mine, alone);
    if !ok {
      return OverLimit;
    }
    var available := Room(h, SIZING_SCRATCH, mine, alone);
    bound := Bound(value, available / share);
    ShareFits(available, share);
    Give(h, SIZING_SCRATCH, SIZING_SCRATCH, mine, alone);
  }

  lemma ShareFits(available: int, share: int)
    requires 0 <= available && 0 < share
    ensures forall n: nat :: n <= available / share ==> share * n <= available
  {
    forall n: nat | n <= available / share
      ensures share * n <= available
    {
      assert share * n <= share * (available / share);
    }
  }

  /** DetachRetainedEnvelope: size, charge three times the bound for the encoding, the copy and the result. */
  method DetachRetainedEnvelope(b: NativeReadBudget?, envelope: Probe, copies: bool, ghost mine: set<Owner>,
                                ghost alone: bool)
    returns (lease: Lease?, ghost own: Owner)
    requires Ready(b)
    modifies Footprint(Real(b)) - mine
    ensures Ready(b) && Grows(Real(b)) && fresh(own) && own.budget == Real(b)
    ensures Settled(lease, own)
    ensures alone ==> Untouched(Real(b), {own})
    ensures alone && lease != null ==> Rises(Real(b), lease.amount, Max(SIZING_SCRATCH, 3 * lease.amount))
    ensures alone && b != null ==>
              Ref(own.scope) == old(ScopeOf(b)) && Charged(Real(b), old(ScopeOf(b)), LeaseBytes(lease))
    ensures lease != null ==> fresh(lease) && envelope == Bytes(lease.amount) && copies
    ensures b == null ==> (lease != null <==> copies && envelope.Bytes? && envelope.size <= UNBOUNDED / 3)
    ensures alone && b != null ==> (lease != null <==> copies && Fits(envelope, old(Spare(b)), 3))
    ensures alone && b != null && old(Spare(b)) < SIZING_SCRATCH ==> lease == null && Blamed(own)
  {
    hide NativeReadBudget.Valid, Free, Spare, L.Rose;
    ghost var s0 := StateOf(Real(b));
    var h := Open(b, mine, alone);
    own := h.owner;
    lease := null;
    ghost var s1 := StateOf(Real(b));
    var bound := SizeUnderScratch(h, envelope, 3, mine, alone);
    ghost var s2 := StateOf(Real(b));
    if bound.Within? {
      lease := ChargeCopy(h, bound.size, copies, mine, alone);
    }
    if alone && b != null {
      SettledMeansCharged(b, lease, own);
      if lease != null {
        L.RoseAgain(s0, s1, s2, 0, 0, 0, SIZING_SCRATCH);
        L.RoseAgain(s0, s2, Real(b).state, 0, SIZING_SCRATCH, lease.amount, 3 * lease.amount);
      }
    }
  }

  /** The ledger has moved by `n` bytes, and none of the earlier scopes has. */
  ghost predicate EarlierScopesStand(l: L.Ledger<Owner, ReadScope>, later: L.Ledger<Owner, ReadScope>, n: int) {
    && later.used == l.used + n
    && forall s :: s in l.scopes ==> s in later.scopes && later.scopes[s].used == l.scopes[s].used
  }

  lemma TakenAndReturned(s0: L.Ledger<Owner, ReadScope>, s1: L.Ledger<Owner, ReadScope>,
                         s2: L.Ledger<Owner, ReadScope>, s3: L.Ledger<Owner, ReadScope>, scope: Option<ReadScope>,
                         amount: int, n: int)
    requires L.Moved(s0, s1, scope, amount) && EarlierScopesStand(s1, s2, n) && L.Moved(s2, s3, scope, -amount)
    ensures EarlierScopesStand(s0, s3, n)
  {}

  lemma SameCurrent(l: L.Ledger<Owner, ReadScope>, later: L.Ledger<Owner, ReadScope>, ours: set<Owner>)
    requires L.Only(l, later, ours)
    ensures later.current == l.current
  {}

  /** A session begins: its scope becomes current, and a reservation charges it. */
  method BeginSession(b: NativeReadBudget, ceiling: int, bytes: int)
    returns (current: NativeReadReservation, ok: bool)
    requires Ready(b) && b.captured == null && L.Int64(ceiling) && L.Int64(bytes)
    modifies b
    ensures Ready(b) && Grows(b) && fresh(current.owner) && fresh(current.owner.scope) && current.owner.budget == b
    ensures Holds(current.owner, if ok then bytes else 0) && b.state.current == Ref(current.owner.scope)
    ensures forall o :: o in old(b.state.owners) ==> OwnerReady(o)
    ensures EarlierScopesStand(old(b.state), b.state, if ok then bytes else 0)
  {
    hide L.Conserved, NativeReadBudget.Mirrors;
    var end := BeginScope(b, ceiling);
    ghost var begun := b.state;
    assert Ref(end.value.scope) == begun.current;
    current := Reservation(b);
    ScopeIsFixed(current.owner);
    assert Scoped(current.owner, Ref(current.owner.scope));
    ok := Reserve(current, bytes);
    OwnersReady(b);
  }

  lemma OwnersReady(b: NativeReadBudget)
    requires b.Valid()
    ensures forall o :: o in b.state.owners ==> OwnerReady(o)
  {
    hide L.Conserved;
  }

  /** With nobody else moving, an old lease released after another session has begun, even twice, leaves that session's
      charges alone and every earlier scope where it was before the lease was taken. */
  method ReleaseInAnotherSession(b: NativeReadBudget, envelope: Probe, copies: bool, ceiling: int, bytes: int)
    returns (current: NativeReadReservation, ok: bool)
    requires Ready(b) && b.captured == null && L.Int64(ceiling) && L.Int64(bytes)
    modifies Footprint(b)
    ensures Ready(b) && Holds(current.owner, if ok then bytes else 0)
    ensures fresh(current.owner.scope) && b.state.current == Ref(current.owner.scope)
    ensures EarlierScopesStand(old(b.state), b.state, if ok then bytes else 0)
  {
    hide Fits, Free, Spare, NativeReadBudget.Valid, EarlierScopesStand, L.Only, L.Moved;
    ghost var s0 := b.state;
    var lease, own := DetachRetainedEnvelope(b, envelope, copies, {}, true);
    ghost var s1 := b.state;
    current, ok := BeginSession(b, ceiling, bytes);
    ghost var s2 := b.state;
    if lease != null {
      lease.Close(lease.amount, {current.owner}, true);
      SameCurrent(s2, b.state, {own});
      lease.Close(0, {current.owner}, true);
    } else {
      L.NothingMoved(s2, Ref(own.scope));
    }
    TakenAndReturned(s0, s1, s2, b.state, Ref(own.scope), LeaseBytes(lease), if ok then bytes else 0);
  }

  method ChargeCopy(h: NativeReadReservation, n: nat, copies: bool, ghost mine: set<Owner>, ghost alone: bool)
    returns (lease: Lease?)
    requires Holds(h.owner, 0) && h.owner !in mine && 3 * n <= L.MAX_INT64
    modifies Footprint(h.owner.budget) - mine
    ensures Grows(h.owner.budget) && Settled(lease, h.owner)
    ensures alone ==> Untouched(h.owner.budget, {h.owner})
    ensures alone && lease != null ==> Rises(h.owner.budget, n, 3 * n)
    ensures lease != null ==> fresh(lease) && lease.amount == n && copies
    ensures copies && (h.owner.budget == null || (alone && 3 * n <= old(Free(h.owner)))) ==> lease != null
  {
    hide NativeReadBudget.Valid, Free;
    var ok := Take(h, 3 * n, 0, mine, alone);
    if !ok {
      return null;
    }
    if !copies {
      Give(h, 3 * n, 3 * n, mine, alone);
      return null;
    }
    Give(h, 2 * n, 3 * n, mine, alone);
    lease := new Lease(h, n);
  }

  /** detachRefilterEnvelope: twice the bound while encoding, one share once the text is gone. */
  method DetachRefilterEnvelope(b: NativeReadBudget?, envelope: Probe, marshals: bool, unmarshals: bool,
                                ghost mine: set<Owner>, ghost alone: bool)
    returns (lease: Lease?, ghost own: Owner)
    requires Ready(b)
    modifies Footprint(Real(b)) - mine
    ensures Ready(b) && Grows(Real(b)) && fresh(own) && own.budget == Real(b)
    ensures Settled(lease, own)
    ensures alone ==> Untouched(Real(b), {own})
    ensures alone && lease != null ==> Rises(Real(b), lease.amount, Max(SIZING_SCRATCH, 2 * lease.amount))
    ensures alone && b != null ==>
              Ref(own.scope) == old(ScopeOf(b)) && Charged(Real(b), old(ScopeOf(b)), LeaseBytes(lease))
    ensures lease != null ==> fresh(lease) && envelope == Bytes(lease.amount) && marshals && unmarshals
    ensures b == null ==>
              (lease != null <==> marshals && unmarshals && envelope.Bytes? && envelope.size <= UNBOUNDED / 2)
    ensures alone && b != null ==> (lease != null <==> marshals && unmarshals && Fits(envelope, old(Spare(b)), 2))
    ensures alone && b != null && old(Spare(b)) < SIZING_SCRATCH ==> lease == null && Blamed(own)
  {
    hide NativeReadBudget.Valid, Free, Spare, L.Rose;
    ghost var s0 := StateOf(Real(b));
    var h := Open(b, mine, alone);
    own := h.owner;
    lease := null;
    ghost var s1 := StateOf(Real(b));
    var bound := SizeUnderScratch(h, envelope, 2, mine, alone);
    ghost var s2 := StateOf(Real(b));
    if bound.Within? {
      lease := ChargeRoundTrip(h, bound.size, marshals, unmarshals, mine, alone);
    }
    if alone && b != null {
      SettledMeansCharged(b, lease, own);
      if lease != null {
        L.RoseAgain(s0, s1, s2, 0, 0, 0, SIZING_SCRATCH);
        L.RoseAgain(s0, s2, Real(b).state, 0, SIZING_SCRATCH, lease.amount, 2 * lease.amount);
      }
    }
  }

  method ChargeRoundTrip(h: NativeReadReservation, n: nat, marshals: bool, unmarshals: bool, ghost mine: set<Owner>,
                         ghost alone: bool)
    returns (lease: Lease?)
    requires Holds(h.owner, 0) && h.owner !in mine && 2 * n <= L.MAX_INT64
    modifies Footprint(h.owner.budget) - mine
    ensures Grows(h.owner.budget) && Settled(lease, h.owner)
    ensures alone ==> Untouched(h.owner.budget, {h.owner})
    ensures alone && lease != null ==> Rises(h.owner.budget, n, 2 * n)
    ensures lease != null ==> fresh(lease) && lease.amount == n && marshals && unmarshals
    ensures marshals && unmarshals && (h.owner.budget == null || (alone && 2 * n <= old(Free(h.owner)))) ==>
              lease != null
  {
    hide NativeReadBudget.Valid, Free;
    var ok := Take(h, 2 * n, 0, mine, alone);
    if !ok {
      return null;
    }
    if !marshals {
      Give(h, 2 * n, 2 * n, mine, alone);
      return null;
    }
    Give(h, n, 2 * n, mine, alone);
    if !unmarshals {
      Give(h, n, n, mine, alone);
      return null;
    }
    lease := new Lease(h, n);
  }

  // ---- Decoding -------------------------------------------------------------

  /** Scanner, raw line and gzip scratch while a source is decoded. */
  function DecodeScratch(longest: nat): int {
    W.GrowTo(W.SCANNER_START, longest, W.MAX_SOURCE_LINE_BYTES + 1) + longest + PREFLIGHT_SCRATCH
  }

  /** decodeSourceLeased: measure the wire, charge wire plus scratch, decode, and keep the wire charge. */
  method DecodeSourceLeased(b: NativeReadBudget?, cancelled: bool, gzipped: bool, chunks: seq<W.Read>,
                            cancelledRead: nat, limit: nat, decodes: bool, ghost mine: set<Owner>, ghost alone: bool)
    returns (lease: Lease?, ghost own: Owner)
    requires Ready(b) && W.Stream(chunks) && limit <= L.MAX_INT64
    modifies Footprint(Real(b)) - mine
    ensures Ready(b) && Grows(Real(b)) && fresh(own) && own.budget == Real(b)
    ensures Settled(lease, own)
    ensures alone ==> Untouched(Real(b), {own})
    ensures alone && lease != null ==>
              var wire := |W.Whole(chunks)|;
              Rises(Real(b), wire, Max(PREFLIGHT_SCRATCH, wire + DecodeScratch(W.Longest(W.Whole(chunks)))))
    ensures alone && b != null ==>
              Ref(own.scope) == old(ScopeOf(b)) && Charged(Real(b), old(ScopeOf(b)), LeaseBytes(lease))
    ensures lease != null ==> fresh(lease) && lease.amount == |W.Whole(chunks)|
    ensures lease != null ==> !cancelled && W.Measurable(gzipped, chunks, cancelledRead, limit) && decodes
    ensures b == null && !cancelled && W.Measurable(gzipped, chunks, cancelledRead, limit) && decodes ==> lease != null
    ensures alone && b != null && !cancelled && W.Measurable(gzipped, chunks, cancelledRead, limit) && decodes ==>
              (lease != null <==>
               PREFLIGHT_SCRATCH <= old(Spare(b)) &&
               |W.Whole(chunks)| + DecodeScratch(W.Longest(W.Whole(chunks))) <= old(Spare(b)))
    ensures alone && !cancelled && W.Measurable(gzipped, chunks, cancelledRead, limit) && decodes && lease == null
            && |W.Whole(chunks)| + DecodeScratch(W.Longest(W.Whole(chunks))) <= L.MAX_INT64 ==>
              Blamed(own)
  {
    hide NativeReadBudget.Valid, Free, Spare, DecodeScratch, W.Exceeds, W.Whole, W.Longest, W.Stream, W.Measurable;
    var h := Open(b, mine, alone);
    own := h.owner;
    lease := null;
    if !cancelled {
      lease := MeasureAndCharge(h, gzipped, chunks, cancelledRead, limit, decodes, mine, alone);
    }
    if alone && b != null {
      SettledMeansCharged(b, lease, own);
    }
  }

  method MeasureAndCharge(h: NativeReadReservation, gzipped: bool, chunks: seq<W.Read>, cancelledRead: nat, limit: nat,
                          decodes: bool, ghost mine: set<Owner>, ghost alone: bool)
    returns (lease: Lease?)
    requires Holds(h.owner, 0) && h.owner !in mine && W.Stream(chunks) && limit <= L.MAX_INT64
    modifies Footprint(h.owner.budget) - mine
    ensures Grows(h.owner.budget) && Settled(lease, h.owner)
    ensures alone ==> Untouched(h.owner.budget, {h.owner})
    ensures alone && lease != null ==>
              var wire := |W.Whole(chunks)|;
              Rises(h.owner.budget, wire, Max(PREFLIGHT_SCRATCH, wire + DecodeScratch(W.Longest(W.Whole(chunks)))))
    ensures lease != null ==> fresh(lease) && lease.amount == |W.Whole(chunks)|
    ensures lease != null ==> W.Measurable(gzipped, chunks, cancelledRead, limit) && decodes
    ensures h.owner.budget == null && W.Measurable(gzipped, chunks, cancelledRead, limit) && decodes ==> lease != null
    ensures alone && h.owner.budget != null && W.Measurable(gzipped, chunks, cancelledRead, limit) && decodes ==>
              (lease != null <==>
               && PREFLIGHT_SCRATCH <= old(Free(h.owner))
               && |W.Whole(chunks)| + DecodeScratch(W.Longest(W.Whole(chunks))) <= old(Free(h.owner)))
    ensures alone && W.Measurable(gzipped, chunks, cancelledRead, limit) && decodes && lease == null
            && |W.Whole(chunks)| + DecodeScratch(W.Longest(W.Whole(chunks))) <= L.MAX_INT64 ==>
              Blamed(h.owner)
  {
    hide NativeReadBudget.Valid, Free, DecodeScratch, W.Exceeds, W.Whole, W.Longest, W.Stream, W.Measurable;
    var size := Preflight(h, gzipped, chunks, cancelledRead, limit, mine, alone);
    if !size.Sized? {
      return null;
    }
    SizedWithin(gzipped, chunks, cancelledRead, limit);
    lease := ChargeDecode(h, size.total, size.longest, decodes, mine, alone);
  }

  lemma SizedWithin(gzipped: bool, chunks: seq<W.Read>, cancelledRead: nat, limit: nat)
    requires W.Stream(chunks) && limit <= L.MAX_INT64 && W.Measurable(gzipped, chunks, cancelledRead, limit)
    ensures |W.Whole(chunks)| <= L.MAX_INT64 && W.Longest(W.Whole(chunks)) <= W.MAX_SOURCE_LINE_BYTES
  {
    W.SizedWithinBounds(W.Whole(chunks), limit);
  }

  method Preflight(h: NativeReadReservation, gzipped: bool, chunks: seq<W.Read>, cancelledRead: nat, limit: nat,
                   ghost mine: set<Owner>, ghost alone: bool)
    returns (size: W.Size)
    requires Holds(h.owner, 0) && h.owner !in mine && W.Stream(chunks)
    modifies Footprint(h.owner.budget) - mine
    ensures Grows(h.owner.budget) && Holds(h.owner, 0)
    ensures alone ==> Untouched(h.owner.budget, {h.owner})
    ensures alone && size.Sized? ==> Rises(h.owner.budget, 0, PREFLIGHT_SCRATCH)
    ensures size.Sized? ==> W.Measurable(gzipped, chunks, cancelledRead, limit)
    ensures size.Sized? ==> size == W.Sized(|W.Whole(chunks)|, W.Longest(W.Whole(chunks)))
    ensures h.owner.budget == null ==> (size.Sized? <==> W.Measurable(gzipped, chunks, cancelledRead, limit))
    ensures alone && h.owner.budget != null ==>
              && (size.Sized? <==>
                  && PREFLIGHT_SCRATCH <= old(Free(h.owner))
                  && W.Measurable(gzipped, chunks, cancelledRead, limit))
              && Free(h.owner) == old(Free(h.owner))
    ensures alone && W.Measurable(gzipped, chunks, cancelledRead, limit) && !size.Sized? ==> Blamed(h.owner)
  {
    hide NativeReadBudget.Valid, Free, W.Whole, W.Longest, W.Exceeds;
    var ok := Take(h, PREFLIGHT_SCRATCH, 0, mine, alone);
    if !ok {
      return W.Failed;
    }
    size := W.SourceWireSize(gzipped, chunks, cancelledRead, limit);
    Give(h, PREFLIGHT_SCRATCH, PREFLIGHT_SCRATCH, mine, alone);
  }

  method ChargeDecode(h: NativeReadReservation, wire: nat, longest: nat, decodes: bool, ghost mine: set<Owner>,
                      ghost alone: bool)
    returns (lease: Lease?)
    requires Holds(h.owner, 0) && h.owner !in mine && wire <= L.MAX_INT64 && longest <= W.MAX_SOURCE_LINE_BYTES
    modifies Footprint(h.owner.budget) - mine
    ensures Grows(h.owner.budget) && Settled(lease, h.owner)
    ensures alone ==> Untouched(h.owner.budget, {h.owner})
    ensures alone && lease != null ==> Rises(h.owner.budget, wire, wire + DecodeScratch(longest))
    ensures lease != null ==> fresh(lease) && lease.amount == wire && decodes
    ensures decodes && h.owner.budget == null ==> lease != null
    ensures decodes && alone && h.owner.budget != null ==>
              (lease != null <==> wire + DecodeScratch(longest) <= old(Free(h.owner)))
    ensures alone && decodes && lease == null && wire + DecodeScratch(longest) <= L.MAX_INT64 ==> Blamed(h.owner)
  {
    hide NativeReadBudget.Valid, Free, W.GrowTo, L.Rose;
    var lineCapacity := W.LineCapacity(longest, W.MAX_SOURCE_LINE_BYTES + 1);
    lease := ChargeWire(h, wire, lineCapacity + longest + PREFLIGHT_SCRATCH, decodes, mine, alone);
  }

  method ChargeWire(h: NativeReadReservation, wire: nat, scratch: nat, decodes: bool, ghost mine: set<Owner>,
                    ghost alone: bool)
    returns (lease: Lease?)
    requires Holds(h.owner, 0) && h.owner !in mine && wire <= L.MAX_INT64 && scratch <= L.MAX_INT64
    modifies Footprint(h.owner.budget) - mine
    ensures Grows(h.owner.budget) && Settled(lease, h.owner)
    ensures alone ==> Untouched(h.owner.budget, {h.owner})
    ensures alone && lease != null ==> Rises(h.owner.budget, wire, wire + scratch)
    ensures lease != null ==> fresh(lease) && lease.amount == wire && decodes
    ensures decodes && h.owner.budget == null ==> lease != null
    ensures decodes && alone && h.owner.budget != null ==>
              (lease != null <==> wire + scratch <= old(Free(h.owner)))
    ensures alone && decodes && lease == null && wire + scratch <= L.MAX_INT64 ==> Blamed(h.owner)
  {
    hide NativeReadBudget.Valid, Free;
    var ok := ChargeUntilDecoded(h, wire, scratch, mine, alone);
    if !ok {
      return null;
    }
    if !decodes {
      Give(h, wire, wire, mine, alone);
      return null;
    }
    lease := new Lease(h, wire);
  }

  /** Wire and scratch together, and the scratch given back once the source is decoded. */
  method ChargeUntilDecoded(h: NativeReadReservation, wire: nat, scratch: nat, ghost mine: set<Owner>,
                            ghost alone: bool)
    returns (ok: bool)
    requires Holds(h.owner, 0) && h.owner !in mine && wire <= L.MAX_INT64 && scratch <= L.MAX_INT64
    modifies Footprint(h.owner.budget) - mine
    ensures Grows(h.owner.budget) && Holds(h.owner, if ok then wire else 0)
    ensures alone ==> Untouched(h.owner.budget, {h.owner})
    ensures alone && ok ==> Rises(h.owner.budget, wire, wire + scratch)
    ensures h.owner.budget == null ==> ok
    ensures alone && h.owner.budget != null ==> (ok <==> wire + scratch <= old(Free(h.owner)))
    ensures alone && !ok && wire + scratch <= L.MAX_INT64 ==> Blamed(h.owner)
  {
    hide NativeReadBudget.Valid, Free;
    FreeInRange(h.owner);
    var charge := Wrap(wire + scratch);
    ok := Take(h, charge, 0, mine, alone);
    if !ok {
      return;
    }
    assert h.owner.budget != null ==> charge == wire + scratch;
    Give(h, scratch, wire + scratch, mine, alone);
  }

  lemma FreeInRange(o: Owner)
    requires OwnerReady(o)
    ensures o.budget != null ==> 0 <= Free(o) <= L.MAX_INT64 && o.budget.state.used <= o.budget.state.peak
  {}

  // ---- Compression ------------------------------------------------------------

  function Sum(chunks: seq<nat>): nat {
    if chunks == [] then 0 else chunks[0] + Sum(chunks[1..])
  }

  /** retainedCompressedWriter: every byte buffered is charged first. */
  class Writer {
    const handle: NativeReadReservation
    var length: int
    var charged: int

    constructor (handle: NativeReadReservation)
      ensures this.handle == handle && length == 0 && charged == 0
    {
      this.handle, length, charged := handle, 0, 0;
    }

    /** What the buffer holds is exactly what was charged for it, within the object ceiling. */
    predicate Exact()
      reads this
    {
      0 <= charged == length <= OBJECT_CEILING
    }

    method Write(raw: nat, cancelled: bool, ghost base: int, ghost mine: set<Owner>, ghost alone: bool)
      returns (ok: bool)
      requires this !in Footprint(handle.owner.budget)
      requires Exact() && raw <= L.MAX_INT64 && 0 <= base && Holds(handle.owner, base + charged)
      requires handle.owner !in mine
      modifies this, Footprint(handle.owner.budget) - mine
      ensures this !in Footprint(handle.owner.budget) && Grows(handle.owner.budget)
      ensures alone ==> Untouched(handle.owner.budget, {handle.owner})
      ensures alone && ok ==> Rises(handle.owner.budget, raw, raw)
      ensures Exact() && Holds(handle.owner, base + charged)
      ensures length == old(length) + (if ok then raw else 0)
      ensures ok ==> !cancelled
      ensures alone && handle.owner.budget != null ==>
                && (ok <==> !cancelled && raw <= OBJECT_CEILING - old(length) && raw <= old(Free(handle.owner)))
                && Free(handle.owner) == old(Free(handle.owner)) - if ok then raw else 0
      ensures alone && !ok && !cancelled && raw <= OBJECT_CEILING - old(length) ==> Blamed(handle.owner)
    {
      hide NativeReadBudget.Valid, Free;
      if cancelled || raw > OBJECT_CEILING - length {
        return false;
      }
      ok := Take(handle, raw, base + charged, mine, alone);
      if ok {
        charged := charged + raw;
        length := length + raw;
      }
    }
  }

  /** The codec writes through the writer until a write is refused, or fails on its own. */
  method Encode(writer: Writer, chunks: seq<nat>, cancelledWrite: nat, encodes: bool, ghost base: int,
                ghost mine: set<Owner>, ghost alone: bool)
    returns (ok: bool)
    requires writer !in Footprint(writer.handle.owner.budget) && writer.Exact()
    requires forall k :: 0 <= k < |chunks| ==> chunks[k] <= L.MAX_INT64
    requires 0 <= base && Holds(writer.handle.owner, base + writer.charged) && writer.handle.owner !in mine
    modifies writer, Footprint(writer.handle.owner.budget) - mine
    ensures writer !in Footprint(writer.handle.owner.budget) && Grows(writer.handle.owner.budget)
    ensures alone ==> Untouched(writer.handle.owner.budget, {writer.handle.owner})
    ensures alone && ok ==> Rises(writer.handle.owner.budget, Sum(chunks), Sum(chunks))
    ensures writer.Exact() && Holds(writer.handle.owner, base + writer.charged)
    ensures ok ==> encodes && |chunks| <= cancelledWrite && writer.length == old(writer.length) + Sum(chunks)
    ensures alone && writer.handle.owner.budget != null ==>
              (ok <==>
               && encodes && |chunks| <= cancelledWrite
               && Sum(chunks) <= OBJECT_CEILING - old(writer.length) && Sum(chunks) <= old(Free(writer.handle.owner)))
    decreases |chunks|
    ensures alone && !ok && encodes && |chunks| <= cancelledWrite
            && Sum(chunks) <= OBJECT_CEILING - old(writer.length) ==>
              Blamed(writer.handle.owner)
  {
    hide NativeReadBudget.Valid, Free;
    if writer.handle.owner.budget != null {
      FreeInRange(writer.handle.owner);
    }
    if chunks == [] {
      return encodes;
    }
    ok := writer.Write(chunks[0], cancelledWrite == 0, base, mine, alone);
    if ok {
      ok := Encode(writer, chunks[1..], if cancelledWrite == 0 then 0 else cancelledWrite - 1, encodes, base, mine,
                   alone);
    }
  }

  /** Room for sizing the largest line, for its scratch, and for the output beside it. */
  predicate CompressFits(line: nat, output: nat, spare: int) {
    && SIZING_SCRATCH <= spare && line <= spare - SIZING_SCRATCH
    && line <= Quotient(spare - COMPRESSOR_SCRATCH, 2)
    && output <= OBJECT_CEILING && 2 * line + COMPRESSOR_SCRATCH + output <= spare
  }

  /** CompressRetainedSource: size the largest line, borrow scratch for it, and keep exactly the compressed bytes. */
  method CompressRetainedSource(b: NativeReadBudget?, supported: bool, line: Probe, chunks: seq<nat>,
                                cancelledWrite: nat, encodes: bool, ghost mine: set<Owner>, ghost alone: bool)
    returns (lease: Lease?, ghost own: Owner)
    requires Ready(b) && forall k :: 0 <= k < |chunks| ==> chunks[k] <= L.MAX_INT64
    modifies Footprint(Real(b)) - mine
    ensures Ready(b) && Grows(Real(b)) && fresh(own) && own.budget == Real(b)
    ensures Settled(lease, own)
    ensures alone ==> Untouched(Real(b), {own})
    ensures alone && lease != null && line.Bytes? ==>
              Rises(Real(b), lease.amount, Max(SIZING_SCRATCH, 2 * line.size + COMPRESSOR_SCRATCH + lease.amount))
    ensures alone && b != null ==>
              Ref(own.scope) == old(ScopeOf(b)) && Charged(Real(b), old(ScopeOf(b)), LeaseBytes(lease))
    ensures lease != null ==> b != null && fresh(lease) && lease.amount == Sum(chunks) <= OBJECT_CEILING
    ensures lease != null ==> supported && line.Bytes? && encodes && |chunks| <= cancelledWrite
    ensures alone && b != null && supported && line.Bytes? && encodes && |chunks| <= cancelledWrite ==>
              (lease != null <==> CompressFits(line.size, Sum(chunks), old(Spare(b))))
    ensures alone && b != null && lease == null && supported && line.Bytes? && encodes && |chunks| <= cancelledWrite
            && Sum(chunks) <= OBJECT_CEILING && 2 * line.size + COMPRESSOR_SCRATCH <= L.MAX_INT64 ==>
              Blamed(own)
  {
    hide NativeReadBudget.Valid, Free, Spare, Sum, CompressFits;
    var h := Open(b, mine, alone);
    own := h.owner;
    lease := null;
    if b != null && supported {
      lease := SizeAndCompress(h, line, chunks, cancelledWrite, encodes, mine, alone);
    }
    if alone && b != null {
      SettledMeansCharged(b, lease, own);
    }
  }

  method SizeAndCompress(h: NativeReadReservation, line: Probe, chunks: seq<nat>, cancelledWrite: nat, encodes: bool,
                         ghost mine: set<Owner>, ghost alone: bool)
    returns (lease: Lease?)
    requires Holds(h.owner, 0) && h.owner !in mine && h.owner.budget != null
    requires forall k :: 0 <= k < |chunks| ==> chunks[k] <= L.MAX_INT64
    modifies Footprint(h.owner.budget) - mine
    ensures Grows(h.owner.budget) && Settled(lease, h.owner)
    ensures alone ==> Untouched(h.owner.budget, {h.owner})
    ensures alone && lease != null && line.Bytes? ==>
              Rises(h.owner.budget, lease.amount,
                    Max(SIZING_SCRATCH, 2 * line.size + COMPRESSOR_SCRATCH + lease.amount))
    ensures lease != null ==> fresh(lease) && lease.amount == Sum(chunks) <= OBJECT_CEILING
    ensures lease != null ==> line.Bytes? && encodes && |chunks| <= cancelledWrite
    ensures alone && line.Bytes? && encodes && |chunks| <= cancelledWrite ==>
              (lease != null <==> CompressFits(line.size, Sum(chunks), old(Free(h.owner))))
    ensures alone && lease == null && line.Bytes? && encodes && |chunks| <= cancelledWrite
            && Sum(chunks) <= OBJECT_CEILING && 2 * line.size + COMPRESSOR_SCRATCH <= L.MAX_INT64 ==>
              Blamed(h.owner)
  {
    hide NativeReadBudget.Valid, Free, Sum, Quotient;
    var largest := SizeLine(h, line, mine, alone);
    if largest.None? {
      return null;
    }
    lease := CompressWithin(h, largest.value, chunks, cancelledWrite, encodes, mine, alone);
  }

  /** A line over what is available is declined. */
  method BoundLine(h: NativeReadReservation, line: Probe, ghost mine: set<Owner>, ghost alone: bool)
    returns (largest: Option<nat>)
    requires Holds(h.owner, SIZING_SCRATCH) && h.owner !in mine
    modifies Footprint(h.owner.budget) - mine
    ensures Grows(h.owner.budget) && Holds(h.owner, SIZING_SCRATCH)
    ensures alone ==> Untouched(h.owner.budget, {h.owner}) && Rises(h.owner.budget, 0, 0)
    ensures largest.Some? ==> line == Bytes(largest.value) && largest.value <= L.MAX_INT64
    ensures alone && h.owner.budget != null ==>
              && (largest.Some? <==> line.Bytes? && line.size <= old(Free(h.owner)))
              && Free(h.owner) == old(Free(h.owner))
    ensures alone && line.Bytes? && largest.None? ==> Blamed(h.owner)
  {
    hide NativeReadBudget.Valid, Free;
    var available := Room(h, SIZING_SCRATCH, mine, alone);
    if h.owner.budget != null {
      FreeBesideHeld(h.owner, SIZING_SCRATCH);
    }
    var bound := Bound(line, available);
    if bound == OverLimit {
      Decline(h, available + 1, SIZING_SCRATCH, mine, alone);
    }
    return if bound.Within? then Some(bound.size) else None;
  }

  method SizeLine(h: NativeReadReservation, line: Probe, ghost mine: set<Owner>, ghost alone: bool)
    returns (largest: Option<nat>)
    requires Holds(h.owner, 0) && h.owner !in mine
    modifies Footprint(h.owner.budget) - mine
    ensures Grows(h.owner.budget) && Holds(h.owner, 0)
    ensures alone ==> Untouched(h.owner.budget, {h.owner})
    ensures alone && largest.Some? ==> Rises(h.owner.budget, 0, SIZING_SCRATCH)
    ensures largest.Some? ==> line == Bytes(largest.value) && largest.value <= L.MAX_INT64
    ensures alone && h.owner.budget != null ==>
              && (largest.Some? <==>
                  && line.Bytes? && SIZING_SCRATCH <= old(Free(h.owner))
                  && line.size <= old(Free(h.owner)) - SIZING_SCRATCH)
              && Free(h.owner) == old(Free(h.owner))
    ensures alone && line.Bytes? && largest.None? ==> Blamed(h.owner)
  {
    hide NativeReadBudget.Valid, Free;
    var ok := Take(h, SIZING_SCRATCH, 0, mine, alone);
    if !ok {
      return None;
    }
    largest := BoundLine(h, line, mine, alone);
    Give(h, SIZING_SCRATCH, SIZING_SCRATCH, mine, alone);
  }

  method CompressWithin(h: NativeReadReservation, largest: nat, chunks: seq<nat>, cancelledWrite: nat, encodes: bool,
                        ghost mine: set<Owner>, ghost alone: bool)
    returns (lease: Lease?)
    requires Holds(h.owner, 0) && h.owner !in mine && largest <= L.MAX_INT64
    requires forall k :: 0 <= k < |chunks| ==> chunks[k] <= L.MAX_INT64
    modifies Footprint(h.owner.budget) - mine
    ensures Grows(h.owner.budget) && Settled(lease, h.owner)
    ensures alone ==> Untouched(h.owner.budget, {h.owner})
    ensures alone && lease != null ==>
              Rises(h.owner.budget, lease.amount, 2 * largest + COMPRESSOR_SCRATCH + lease.amount)
    ensures lease != null ==> fresh(lease) && lease.amount == Sum(chunks) <= OBJECT_CEILING
    ensures lease != null ==> encodes && |chunks| <= cancelledWrite
    ensures alone && h.owner.budget != null && encodes && |chunks| <= cancelledWrite ==>
              (lease != null <==>
               && largest <= Quotient(old(Free(h.owner)) - COMPRESSOR_SCRATCH, 2)
               && Sum(chunks) <= OBJECT_CEILING && 2 * largest + COMPRESSOR_SCRATCH + Sum(chunks) <= old(Free(h.owner)))
    ensures alone && lease == null && encodes && |chunks| <= cancelledWrite && Sum(chunks) <= OBJECT_CEILING ==>
              2 * largest + COMPRESSOR_SCRATCH <= L.MAX_INT64 ==> Blamed(h.owner)
  {
    hide NativeReadBudget.Valid, Free, Sum;
    var room := Room(h, 0, mine, alone);
    if largest > Quotient(room - COMPRESSOR_SCRATCH, 2) {
      Decline(h, 2 * largest + COMPRESSOR_SCRATCH, 0, mine, alone);
      return null;
    }
    lease := CompressUnder(h, 2 * largest + COMPRESSOR_SCRATCH, chunks, cancelledWrite, encodes, mine, alone);
  }

  /** The scratch is held while the codec writes, and given back whatever came of it. */
  method CompressUnder(h: NativeReadReservation, scratch: nat, chunks: seq<nat>, cancelledWrite: nat, encodes: bool,
                       ghost mine: set<Owner>, ghost alone: bool)
    returns (lease: Lease?)
    requires Holds(h.owner, 0) && h.owner !in mine && scratch <= L.MAX_INT64
    requires forall k :: 0 <= k < |chunks| ==> chunks[k] <= L.MAX_INT64
    modifies Footprint(h.owner.budget) - mine
    ensures Grows(h.owner.budget) && Settled(lease, h.owner)
    ensures alone ==> Untouched(h.owner.budget, {h.owner})
    ensures alone && lease != null ==> Rises(h.owner.budget, lease.amount, scratch + lease.amount)
    ensures lease != null ==> fresh(lease) && lease.amount == Sum(chunks) <= OBJECT_CEILING
    ensures lease != null ==> encodes && |chunks| <= cancelledWrite
    ensures alone && h.owner.budget != null && encodes && |chunks| <= cancelledWrite ==>
              (lease != null <==>
               Sum(chunks) <= OBJECT_CEILING && scratch + Sum(chunks) <= old(Free(h.owner)))
    ensures alone && lease == null && encodes && |chunks| <= cancelledWrite && Sum(chunks) <= OBJECT_CEILING ==>
              Blamed(h.owner)
  {
    hide NativeReadBudget.Valid, Free, Sum;
    var ok := Take(h, scratch, 0, mine, alone);
    if !ok {
      return null;
    }
    lease := CompressInto(h, scratch, chunks, cancelledWrite, encodes, mine, alone);
    Give(h, scratch, scratch + (if lease == null then 0 else lease.amount), mine, alone);
  }

  /** The writer's own lease, taken while the scratch is still held. */
  method CompressInto(h: NativeReadReservation, scratch: nat, chunks: seq<nat>, cancelledWrite: nat, encodes: bool,
                      ghost mine: set<Owner>, ghost alone: bool)
    returns (lease: Lease?)
    requires Holds(h.owner, scratch) && h.owner !in mine
    requires forall k :: 0 <= k < |chunks| ==> chunks[k] <= L.MAX_INT64
    modifies Footprint(h.owner.budget) - mine
    ensures Grows(h.owner.budget)
    ensures alone ==> Untouched(h.owner.budget, {h.owner})
    ensures alone && lease != null ==> Rises(h.owner.budget, lease.amount, lease.amount)
    ensures lease == null ==> Holds(h.owner, scratch)
    ensures lease != null ==>
              && fresh(lease) && lease !in Footprint(h.owner.budget) && lease.handle == h && !lease.done
              && 0 <= lease.amount == Sum(chunks) <= OBJECT_CEILING && Holds(h.owner, scratch + lease.amount)
    ensures lease != null ==> encodes && |chunks| <= cancelledWrite
    ensures alone && h.owner.budget != null && encodes && |chunks| <= cancelledWrite ==>
              (lease != null <==> Sum(chunks) <= OBJECT_CEILING && Sum(chunks) <= old(Free(h.owner)))
    ensures alone && lease == null && encodes && |chunks| <= cancelledWrite && Sum(chunks) <= OBJECT_CEILING ==>
              Blamed(h.owner)
  {
    hide NativeReadBudget.Valid, Free, Sum;
    var writer := new Writer(h);
    var ok := Encode(writer, chunks, cancelledWrite, encodes, scratch, mine, alone);
    lease := new Lease(h, writer.charged);
    if !ok {
      lease.Close(scratch + writer.charged, mine, alone);
      lease := null;
    }
  }
}
