/** RefilterRetainedSource of internal/agentapi/retained_refilter.go: up to three leases on three owners, collected
    in one once-only closure, with every error path giving back everything taken so far. */
module Refilter {
  import opened Order
  import L = Ledgers
  import opened ReadBudget
  import opened Leases
  import opened Retained
  import W = WireSize

  const FILTER_CEILING: int := 0x200_0000
  const FILTER_SCRATCH: int := 0x1_0000

  /** How the adapter filters: charging its own output, within a ceiling, or not at all. */
  datatype Adapter = Leased(amount: int, fails: bool) | Bounded(retained: int, fails: bool) | Unfit

  /** What the environment and the codecs do in one call. */
  datatype Facts = Facts(
    refused: bool,              // context ended, identity changed or history invalid on entry
    records: seq<Probe>, texts: seq<nat>,
    adapter: Adapter, rows: seq<nat>,
    bundleFails: bool,          // NewSourceBundle or the resulting history is invalid
    ordinary: bool,             // the envelope can be detached from the encoded rows
    envelope: Probe, marshals: bool, unmarshals: bool,
    cancelledLate: bool)

  ghost predicate Sane(f: Facts) {
    && (forall k :: 0 <= k < |f.texts| ==> f.texts[k] <= L.MAX_INT64)
    && (forall k :: 0 <= k < |f.rows| ==> f.rows[k] <= L.MAX_INT64)
    && (f.adapter.Leased? ==> L.Int64(f.adapter.amount))
    && (f.adapter.Bounded? ==> L.Int64(f.adapter.retained))
  }

  // ---- When the call succeeds, if nobody else moves ------------------------------

  predicate AllSized(records: seq<Probe>, limit: int) {
    forall k :: 0 <= k < |records| ==> records[k].Bytes? && records[k].size <= limit
  }

  function MaxSize(records: seq<Probe>): nat {
    if records == [] then 0
    else
      var rest := MaxSize(records[1..]);
      if records[0].Bytes? && rest < records[0].size then records[0].size else rest
  }

  function MaxText(texts: seq<nat>, start: nat): nat {
    if texts == [] then start
    else
      var before := MaxText(texts[..|texts| - 1], start);
      if before < texts[|texts| - 1] then texts[|texts| - 1] else before
  }

  /** Scanner plus three copies of the largest record or text. */
  function Scratch(largest: nat): int {
    3 * largest + Scanner(largest)
  }

  function Scanner(largest: nat): int {
    W.GrowTo(W.SCANNER_START, largest, W.MAX_RECORD_BYTES + 1)
  }

  /** What the adapter keeps charged with `spare` bytes to be had, if it succeeds. */
  function Kept(a: Adapter, spare: int): Option<int> {
    match a
    case Leased(amount, fails) => if 0 <= amount <= spare && !fails then Some(amount) else None
    case Bounded(retained, fails) =>
      if 0 < FilterCap(spare) && !fails && 0 <= retained <= FilterCap(spare) then Some(retained) else None
    case Unfit => None
  }

  /** Half of what is available beyond scratch, within the ceiling. */
  function FilterCap(spare: int): int {
    Min(FILTER_CEILING, Max(0, Quotient(spare - FILTER_SCRATCH, 2)))
  }

  /** The part of the call done under the borrowed scratch. */
  predicate SucceedsWithin(f: Facts, spare: int) {
    var kept := Kept(f.adapter, spare);
    && kept.Some?
    && Sum(f.rows) <= spare - kept.value
    && !f.bundleFails
    && (f.ordinary ==> f.marshals && f.unmarshals && Fits(f.envelope, spare - kept.value - Sum(f.rows), 2))
    && !f.cancelledLate
  }

  /** The most that is charged at once while the adapter filters. */
  function FilterTop(a: Adapter, spare: int): int {
    match a
    case Leased(amount, _) => amount
    case Bounded(_, _) => FilterCap(spare)
    case Unfit => 0
  }

  /** What the envelope charges at once beside the rows it is detached from. */
  function EnvelopeTop(f: Facts): int {
    if f.ordinary && f.envelope.Bytes? then Max(SIZING_SCRATCH, 2 * f.envelope.size) else 0
  }

  /** The most that is charged at once above the scratch: while filtering, or with rows and envelope side by side. */
  function WithinTop(f: Facts, spare: int): int {
    var kept := match Kept(f.adapter, spare) case Some(n) => n case None => 0;
    Max(FilterTop(f.adapter, spare), kept + Sum(f.rows) + EnvelopeTop(f))
  }

  /** The most that a successful call has charged at once. */
  function HighWater(f: Facts, spare: int): int {
    var scratch := Scratch(MaxText(f.texts, MaxSize(f.records)));
    Max(SIZING_SCRATCH, scratch + WithinTop(f, spare - scratch))
  }

  /** Room for sizing every record, and for the scratch the largest record or text needs. */
  predicate ScratchFits(f: Facts, spare: int) {
    && SIZING_SCRATCH <= spare && AllSized(f.records, spare - SIZING_SCRATCH)
    && var largest := MaxText(f.texts, MaxSize(f.records));
       largest <= Quotient(spare - Scanner(largest), 3) && Scratch(largest) <= spare
  }

  predicate Succeeds(f: Facts, spare: int) {
    && !f.refused
    && ScratchFits(f, spare)
    && SucceedsWithin(f, spare - Scratch(MaxText(f.texts, MaxSize(f.records))))
  }

  // ---- When the ledger refuses it ------------------------------------------------

  predicate AllBytes(records: seq<Probe>) {
    forall k :: 0 <= k < |records| ==> records[k].Bytes?
  }

  /** The adapter cannot charge its output, or is left no ceiling. */
  predicate RoomRefuses(a: Adapter, spare: int) {
    match a
    case Leased(amount, fails) => 0 <= amount && spare < amount && !fails
    case Bounded(_, _) => FilterCap(spare) <= 0
    case Unfit => false
  }

  /** The decoded rows cannot be charged, or the envelope cannot be sized beside them. */
  predicate RowsRefused(f: Facts, spare: int) {
    && Sum(f.rows) <= L.MAX_INT64 && !f.bundleFails
    && (spare < Sum(f.rows) || (f.ordinary && spare - Sum(f.rows) < SIZING_SCRATCH))
  }

  predicate WithinRefuses(f: Facts, spare: int) {
    match Kept(f.adapter, spare)
    case None => RoomRefuses(f.adapter, spare)
    case Some(kept) => RowsRefused(f, spare - kept)
  }

  /** The ledger has no room for the call's next charge. */
  predicate Refuses(f: Facts, spare: int) {
    var scratch := Scratch(MaxText(f.texts, MaxSize(f.records)));
    && !f.refused && AllBytes(f.records) && scratch <= L.MAX_INT64
    && (!ScratchFits(f, spare) || WithinRefuses(f, spare - scratch))
  }

  /** Nothing but room can keep the call from succeeding. */
  predicate Willing(f: Facts, spare: int) {
    && !f.refused && AllBytes(f.records) && !f.bundleFails && !f.cancelledLate
    && Scratch(MaxText(f.texts, MaxSize(f.records))) <= L.MAX_INT64 && Sum(f.rows) <= L.MAX_INT64
    && (f.ordinary ==> f.marshals && f.unmarshals && f.envelope.Bytes?)
    && match f.adapter
       case Leased(amount, fails) => 0 <= amount && !fails
       case Bounded(retained, fails) =>
         var left := FilterCap(spare - Scratch(MaxText(f.texts, MaxSize(f.records))));
         !fails && 0 <= retained && (left <= 0 || retained <= left)
       case Unfit => false
  }

  /** A willing call fails only by a refusal that marks its scope, or by an envelope over its share of the room. */
  lemma WillingFailsForRoom(f: Facts, spare: int)
    requires Willing(f, spare) && !Succeeds(f, spare)
    ensures var left := spare - Scratch(MaxText(f.texts, MaxSize(f.records)));
            || Refuses(f, spare)
            || (&& Kept(f.adapter, left).Some? && f.ordinary
                && !Fits(f.envelope, left - Kept(f.adapter, left).value - Sum(f.rows), 2)
                && SIZING_SCRATCH <= left - Kept(f.adapter, left).value - Sum(f.rows))
    ensures !Refuses(f, spare) ==> f.ordinary
  {
    hide MaxText, MaxSize, Scratch, ScratchFits, FilterCap, Sum;
  }

  lemma RefusesBefore(f: Facts, spare: int)
    requires Refuses(f, spare)
    ensures var scratch := Scratch(MaxText(f.texts, MaxSize(f.records)));
            if ScratchFits(f, spare) then WithinRefuses(f, spare - scratch)
            else AllBytes(f.records) && scratch <= L.MAX_INT64
  {}

  lemma RefusesWithin(f: Facts, spare: int)
    ensures WithinRefuses(f, spare) ==>
              match Kept(f.adapter, spare)
              case None => RoomRefuses(f.adapter, spare)
              case Some(kept) => RowsRefused(f, spare - kept)
  {}

  lemma SameBlame(o: Owner, other: Owner)
    requires o.budget == other.budget && o.scope == other.scope && Blamed(o)
    ensures Blamed(other)
  {}

  // ---- Filtering ----------------------------------------------------------

  /** An adapter that charges its own retained output: all of it on success, none on failure. */
  method RefilterLeased(h: NativeReadReservation, amount: int, fails: bool, ghost mine: set<Owner>, ghost alone: bool)
    returns (lease: Lease?)
    requires Holds(h.owner, 0) && h.owner !in mine && L.Int64(amount)
    modifies Footprint(h.owner.budget) - mine
    ensures Grows(h.owner.budget) && Settled(lease, h.owner)
    ensures lease != null ==> fresh(lease) && lease.amount == amount && !fails
    ensures alone ==> Untouched(h.owner.budget, {h.owner})
    ensures alone && lease != null ==> Rises(h.owner.budget, amount, amount)
    ensures alone && h.owner.budget != null ==>
              && (lease != null <==> 0 <= amount <= old(Free(h.owner)) && !fails)
              && Free(h.owner) == old(Free(h.owner)) - if lease == null then 0 else amount
    ensures alone && lease == null && 0 <= amount && !fails ==> Blamed(h.owner)
  {
    hide NativeReadBudget.Valid, Free;
    if amount < 0 {
      return null;
    }
    var ok := Take(h, amount, 0, mine, alone);
    if !ok {
      return null;
    }
    if fails {
      Give(h, amount, amount, mine, alone);
      return null;
    }
    lease := new Lease(h, amount);
  }

  /** What the rows' lease holds on success. */
  predicate KeepsRows(lease: Lease, adapter: Adapter) {
    match adapter
    case Leased(amount, fails) => lease.amount == amount && !fails
    case Bounded(retained, fails) => 0 <= lease.amount == retained <= FILTER_CEILING && !fails
    case Unfit => false
  }

  /** refilterRetainedRows. */
  method RefilterRetainedRows(b: NativeReadBudget, adapter: Adapter, ghost mine: set<Owner>, ghost alone: bool)
    returns (lease: Lease?, ghost own: Owner)
    requires Ready(b)
    requires adapter.Leased? ==> L.Int64(adapter.amount)
    modifies Footprint(Real(b)) - mine
    ensures Ready(b) && Grows(Real(b)) && fresh(own) && own.budget == Real(b) && Settled(lease, own)
    ensures lease != null ==> fresh(lease) && KeepsRows(lease, adapter)
    ensures alone ==> Untouched(Real(b), {own}) && ScopeOf(b) == old(ScopeOf(b))
    ensures alone && lease != null ==> Rises(Real(b), lease.amount, FilterTop(adapter, old(Spare(b))))
    ensures alone ==> Ref(own.scope) == old(ScopeOf(b)) && Charged(Real(b), old(ScopeOf(b)), LeaseBytes(lease))
    ensures alone ==>
              && Kept(adapter, old(Spare(b))) == (if lease == null then None else Some(lease.amount))
              && Spare(b) == old(Spare(b)) - if lease == null then 0 else lease.amount
    ensures alone && RoomRefuses(adapter, old(Spare(b))) ==> Blamed(own)
  {
    hide NativeReadBudget.Valid, Free, Spare, FilterCap;
    var h := Open(b, mine, alone);
    own := h.owner;
    lease := null;
    if adapter.Leased? {
      lease := RefilterLeased(h, adapter.amount, adapter.fails, mine, alone);
    } else if adapter.Bounded? {
      lease := RefilterBounded(h, adapter.retained, adapter.fails, mine, alone);
    }
    if alone {
      SpareIsFree(b, own);
      SettledMeansCharged(b, lease, own);
    }
  }

  /** The ceiling is half of what is available beyond scratch; what the filter did not retain goes straight back. */
  method RefilterBounded(h: NativeReadReservation, retained: int, fails: bool, ghost mine: set<Owner>,
                         ghost alone: bool)
    returns (lease: Lease?)
    requires Holds(h.owner, 0) && h.owner !in mine
    modifies Footprint(h.owner.budget) - mine
    ensures Grows(h.owner.budget) && Settled(lease, h.owner)
    ensures lease != null ==> fresh(lease) && 0 <= lease.amount == retained <= FILTER_CEILING && !fails
    ensures alone ==> Untouched(h.owner.budget, {h.owner})
    ensures alone && h.owner.budget != null && lease != null ==>
              Rises(h.owner.budget, retained, FilterCap(old(Free(h.owner))))
    ensures alone && h.owner.budget != null ==>
              && (lease != null <==>
                  && 0 < FilterCap(old(Free(h.owner))) && !fails
                  && 0 <= retained <= FilterCap(old(Free(h.owner))))
              && Free(h.owner) == old(Free(h.owner)) - if lease == null then 0 else retained
    ensures alone && h.owner.budget != null && FilterCap(old(Free(h.owner))) <= 0 ==> Blamed(h.owner)
  {
    hide NativeReadBudget.Valid, Free;
    var room := Room(h, 0, mine, alone);
    var capBytes := FilterCap(room);
    if capBytes <= 0 {
      Decline(h, FILTER_SCRATCH + 2, 0, mine, alone);
      return null;
    }
    lease := RetainWithin(h, capBytes, retained, fails, mine, alone);
  }

  method RetainWithin(h: NativeReadReservation, capBytes: int, retained: int, fails: bool, ghost mine: set<Owner>,
                      ghost alone: bool)
    returns (lease: Lease?)
    requires Holds(h.owner, 0) && h.owner !in mine && 0 < capBytes <= FILTER_CEILING
    modifies Footprint(h.owner.budget) - mine
    ensures Grows(h.owner.budget) && Settled(lease, h.owner)
    ensures lease != null ==> fresh(lease) && 0 <= lease.amount == retained <= capBytes && !fails
    ensures alone ==> Untouched(h.owner.budget, {h.owner})
    ensures alone && lease != null ==> Rises(h.owner.budget, retained, capBytes)
    ensures alone && h.owner.budget != null ==>
              && (lease != null <==> capBytes <= old(Free(h.owner)) && !fails && 0 <= retained <= capBytes)
              && Free(h.owner) == old(Free(h.owner)) - if lease == null then 0 else retained
    ensures alone && lease == null && !fails && 0 <= retained <= capBytes ==> Blamed(h.owner)
  {
    hide NativeReadBudget.Valid, Free;
    var ok := Take(h, capBytes, 0, mine, alone);
    if !ok {
      return null;
    }
    if fails || retained < 0 || retained > capBytes {
      Give(h, capBytes, capBytes, mine, alone);
      return null;
    }
    Give(h, capBytes - retained, capBytes, mine, alone);
    lease := new Lease(h, retained);
  }

  // ---- Sizing ---------------------------------------------------------------

  /** The largest record; one over the limit is declined and ends the sizing. */
  method SizeRecords(h: NativeReadReservation, records: seq<Probe>, ghost held: int, ghost mine: set<Owner>,
                     ghost alone: bool)
    returns (largest: Option<nat>)
    requires Holds(h.owner, held) && h.owner !in mine
    modifies Footprint(h.owner.budget) - mine
    ensures Grows(h.owner.budget) && Holds(h.owner, held)
    ensures largest.Some? ==> largest.value == MaxSize(records) <= L.MAX_INT64
    ensures alone ==> Untouched(h.owner.budget, {h.owner})
    ensures alone && largest.Some? ==> Rises(h.owner.budget, 0, 0)
    ensures alone && h.owner.budget != null ==>
              (largest.Some? <==> AllSized(records, old(Free(h.owner)))) && Free(h.owner) == old(Free(h.owner))
    decreases |records|
    ensures alone && largest.None? && 0 < held && AllBytes(records) ==> Blamed(h.owner)
  {
    hide NativeReadBudget.Valid, Free;
    if records == [] {
      FreeInRange(h.owner);
      return Some(0);
    }
    var available := Room(h, held, mine, alone);
    if h.owner.budget != null {
      FreeBesideHeld(h.owner, held);
    }
    var bound := Bound(records[0], available);
    if bound == OverLimit {
      Decline(h, available + 1, held, mine, alone);
    }
    if !bound.Within? {
      return None;
    }
    assert records == [records[0]] + records[1..];
    largest := SizeRecords(h, records[1..], held, mine, alone);
    if largest.Some? && largest.value < bound.size {
      largest := Some(bound.size);
    }
  }

  /** The largest record or text. */
  method SizeAll(h: NativeReadReservation, f: Facts, ghost held: int, ghost mine: set<Owner>, ghost alone: bool)
    returns (largest: Option<nat>)
    requires Holds(h.owner, held) && h.owner !in mine && Sane(f)
    modifies Footprint(h.owner.budget) - mine
    ensures Grows(h.owner.budget) && Holds(h.owner, held)
    ensures largest.Some? ==> largest.value == MaxText(f.texts, MaxSize(f.records)) <= L.MAX_INT64
    ensures alone ==> Untouched(h.owner.budget, {h.owner})
    ensures alone && largest.Some? ==> Rises(h.owner.budget, 0, 0)
    ensures alone && h.owner.budget != null ==>
              (largest.Some? <==> AllSized(f.records, old(Free(h.owner)))) && Free(h.owner) == old(Free(h.owner))
    ensures alone && largest.None? && 0 < held && AllBytes(f.records) ==> Blamed(h.owner)
  {
    hide NativeReadBudget.Valid, Sane, AllSized, MaxSize, MaxText;
    largest := SizeRecords(h, f.records, held, mine, alone);
    if largest.Some? {
      SaneTexts(f);
      var size := LargestText(f.texts, largest.value);
      largest := Some(size);
    }
  }

  method SizeRefilter(h: NativeReadReservation, f: Facts, ghost mine: set<Owner>, ghost alone: bool)
    returns (largest: Option<nat>)
    requires Holds(h.owner, 0) && h.owner !in mine && Sane(f)
    modifies Footprint(h.owner.budget) - mine
    ensures Grows(h.owner.budget) && Holds(h.owner, 0)
    ensures largest.Some? ==> largest.value == MaxText(f.texts, MaxSize(f.records)) <= L.MAX_INT64
    ensures alone ==> Untouched(h.owner.budget, {h.owner})
    ensures alone && largest.Some? ==> Rises(h.owner.budget, 0, SIZING_SCRATCH)
    ensures alone && h.owner.budget != null ==>
              && (largest.Some? <==>
                  && SIZING_SCRATCH <= old(Free(h.owner))
                  && AllSized(f.records, old(Free(h.owner)) - SIZING_SCRATCH))
              && Free(h.owner) == old(Free(h.owner))
    ensures alone && largest.None? && AllBytes(f.records) ==> Blamed(h.owner)
  {
    hide NativeReadBudget.Valid, Free, Sane, AllSized, MaxSize, MaxText;
    var ok := Take(h, SIZING_SCRATCH, 0, mine, alone);
    if !ok {
      return None;
    }
    largest := SizeAll(h, f, SIZING_SCRATCH, mine, alone);
    Give(h, SIZING_SCRATCH, SIZING_SCRATCH, mine, alone);
  }

  lemma SaneTexts(f: Facts)
    requires Sane(f)
    ensures forall k :: 0 <= k < |f.texts| ==> f.texts[k] <= L.MAX_INT64
  {}

  method LargestText(texts: seq<nat>, start: nat) returns (largest: nat)
    ensures largest == MaxText(texts, start)
    ensures start <= largest && forall k :: 0 <= k < |texts| ==> texts[k] <= largest
    ensures largest == start || largest in texts
    ensures start <= L.MAX_INT64 && (forall k :: 0 <= k < |texts| ==> texts[k] <= L.MAX_INT64) ==>
              largest <= L.MAX_INT64
  {
    largest := start;
    for k := 0 to |texts|
      invariant largest == MaxText(texts[..k], start)
      invariant start <= largest && forall j :: 0 <= j < k ==> texts[j] <= largest
      invariant largest == start || largest in texts
    {
      assert texts[..k + 1][..k] == texts[..k];
      if largest < texts[k] {
        largest := texts[k];
      }
    }
    assert texts[..|texts|] == texts;
  }

  lemma ThirdOf(n: nat, available: int)
    ensures if n > Quotient(available, 3) then 3 * n > available else 3 * n <= Max(available, 0)
  {}

  /** Whether three copies and the scanner can be had; what cannot is declined. */
  method CheckScratch(h: NativeReadReservation, largest: nat, scanner: nat, ghost mine: set<Owner>, ghost alone: bool)
    returns (fits: bool)
    requires Holds(h.owner, 0) && h.owner !in mine && largest <= L.MAX_INT64 && scanner <= L.MAX_INT64
    modifies Footprint(h.owner.budget) - mine
    ensures Grows(h.owner.budget) && Holds(h.owner, 0)
    ensures fits ==> 3 * largest + scanner <= L.MAX_INT64
    ensures alone ==> Untouched(h.owner.budget, {h.owner}) && Rises(h.owner.budget, 0, 0)
    ensures alone && h.owner.budget != null ==>
              && (fits <==> largest <= Quotient(old(Free(h.owner)) - scanner, 3))
              && Free(h.owner) == old(Free(h.owner))
    ensures alone && !fits && 3 * largest + scanner <= L.MAX_INT64 ==> Blamed(h.owner)
  {
    hide NativeReadBudget.Valid, Free, Quotient, Wrap;
    var room := Room(h, 0, mine, alone);
    ThirdOf(largest, room - scanner);
    fits := largest <= Quotient(room - scanner, 3);
    if !fits {
      Decline(h, Wrap(3 * largest) + scanner, 0, mine, alone);
    }
  }

  /** The scratch for the largest row, or nothing. */
  method BorrowScratch(h: NativeReadReservation, largest: nat, ghost mine: set<Owner>, ghost alone: bool)
    returns (scratch: Option<nat>)
    requires Holds(h.owner, 0) && h.owner !in mine && largest <= L.MAX_INT64
    modifies Footprint(h.owner.budget) - mine
    ensures Grows(h.owner.budget) && Holds(h.owner, if scratch.Some? then scratch.value else 0)
    ensures scratch.Some? ==> scratch.value == Scratch(largest) <= L.MAX_INT64
    ensures alone ==> Untouched(h.owner.budget, {h.owner})
    ensures alone && scratch.Some? ==> Rises(h.owner.budget, scratch.value, scratch.value)
    ensures alone && h.owner.budget != null ==>
              && (scratch.Some? <==>
                  && largest <= Quotient(old(Free(h.owner)) - Scanner(largest), 3)
                  && Scratch(largest) <= old(Free(h.owner)))
              && Free(h.owner) == old(Free(h.owner)) - if scratch.Some? then scratch.value else 0
    ensures alone && scratch.None? && Scratch(largest) <= L.MAX_INT64 ==> Blamed(h.owner)
  {
    hide NativeReadBudget.Valid, Free, Quotient, W.GrowTo;
    var scanner := W.LineCapacity(largest, W.MAX_RECORD_BYTES + 1);
    var fits := CheckScratch(h, largest, scanner, mine, alone);
    if !fits {
      return None;
    }
    var bytes := 3 * largest + scanner;
    var ok := Take(h, bytes, 0, mine, alone);
    return if ok then Some(bytes) else None;
  }

  /** The decoded rows' total, declined at the first row that no longer fits. */
  method CountRows(h: NativeReadReservation, rows: seq<nat>, before: nat, ghost held: int, ghost mine: set<Owner>,
                   ghost alone: bool)
    returns (decoded: Option<nat>)
    requires Holds(h.owner, held) && h.owner !in mine && before <= L.MAX_INT64
    requires forall k :: 0 <= k < |rows| ==> rows[k] <= L.MAX_INT64
    modifies Footprint(h.owner.budget) - mine
    ensures Grows(h.owner.budget) && Holds(h.owner, held)
    ensures decoded.Some? ==> decoded.value == before + Sum(rows) <= L.MAX_INT64
    ensures alone ==> Untouched(h.owner.budget, {h.owner})
    ensures alone && decoded.Some? ==> Rises(h.owner.budget, 0, 0)
    ensures alone && h.owner.budget != null ==>
              && (before <= old(Free(h.owner)) ==> (decoded.Some? <==> before + Sum(rows) <= old(Free(h.owner))))
              && Free(h.owner) == old(Free(h.owner))
    decreases |rows|
    ensures alone && decoded.None? && before + Sum(rows) <= L.MAX_INT64 ==> Blamed(h.owner)
  {
    hide NativeReadBudget.Valid, Free;
    if rows == [] {
      FreeInRange(h.owner);
      return Some(before);
    }
    var room := Room(h, held, mine, alone);
    if rows[0] > room - before {
      Decline(h, before + rows[0], held, mine, alone);
      return None;
    }
    decoded := CountRows(h, rows[1..], before + rows[0], held, mine, alone);
  }

  // ---- The collected leases ---------------------------------------------------

  /** The first lease of a call not made has no owner. */
  ghost predicate Settles(lease: Lease?, own: Owner?, budget: NativeReadBudget?)
    reads lease, own, budget, Footprint(budget)
  {
    if own == null then lease == null else own.budget == budget && Settled(lease, own)
  }

  ghost predicate Returned(own: Owner?, budget: NativeReadBudget?)
    reads own, budget, Footprint(budget)
  {
    own != null ==> own.budget == budget && Holds(own, 0)
  }

  ghost function Just(own: Owner?): set<Owner> {
    if own == null then {} else var o: Owner := own; {o}
  }

  /** The owners one call opens. */
  ghost function Crew(main: Owner, filterOwn: Owner?, envelopeOwn: Owner?): set<Owner> {
    {main} + Just(filterOwn) + Just(envelopeOwn)
  }

  /** What two calls leave alone between them. */
  lemma CrewChain(l: L.Ledger<Owner, ReadScope>, mid: L.Ledger<Owner, ReadScope>, later: L.Ledger<Owner, ReadScope>,
                  ours: set<Owner>, more: set<Owner>, main: Owner, filterOwn: Owner?, envelopeOwn: Owner?)
    requires L.Only(l, mid, ours) && L.Only(mid, later, more)
    requires ours + more == Crew(main, filterOwn, envelopeOwn)
    ensures L.Only(l, later, Crew(main, filterOwn, envelopeOwn))
  {
    L.OnlyChain(l, mid, later, ours, more);
  }

  predicate InScope(own: Owner?, scope: Option<ReadScope>) {
    own != null ==> Ref(own.scope) == scope
  }

  predicate OneScope(main: Owner, filterOwn: Owner?, envelopeOwn: Owner?) {
    InScope(filterOwn, Ref(main.scope)) && InScope(envelopeOwn, Ref(main.scope))
  }

  /** The owner's scratch plus what its own lease will give back. */
  ghost predicate HoldsLease(handle: NativeReadReservation, lease: Lease?, base: int)
    reads handle.owner, handle.owner.budget, Footprint(handle.owner.budget), lease
  {
    && 0 <= base && Holds(handle.owner, base + LeaseBytes(lease))
    && (lease != null ==>
          && lease.handle == handle && !lease.done && lease !in Footprint(handle.owner.budget)
          && L.Int64(lease.amount) && 0 <= lease.amount)
  }

  ghost predicate Apart(main: Owner, filterOwn: Owner, envelopeOwn: Owner?, mine: set<Owner>) {
    && main != filterOwn && main != envelopeOwn && filterOwn != envelopeOwn
    && main !in mine && filterOwn !in mine && (envelopeOwn == null || envelopeOwn !in mine)
  }

  /** What one owner's release of `n` bytes gives back to scope `s`. */
  function Share(own: Owner?, s: ReadScope, n: int): int {
    if own != null && own.scope == s then n else 0
  }

  function OwnScope(own: Owner?): Option<ReadScope> {
    if own == null then None else Ref(own.scope)
  }

  /** The ledger has got every lease's bytes back, and each scope those of the owners opened in it. */
  ghost predicate GaveBack(l: L.Ledger<Owner, ReadScope>, later: L.Ledger<Owner, ReadScope>, main: Owner, decoded: int,
                           filterOwn: Owner?, filter: int, envelopeOwn: Owner?, envelope: int) {
    && later.used == l.used - filter - decoded - envelope
    && later.scopes.Keys == l.scopes.Keys
    && forall s :: s in l.scopes ==>
         later.scopes[s].used ==
         l.scopes[s].used - Share(filterOwn, s, filter) - Share(main, s, decoded) - Share(envelopeOwn, s, envelope)
  }

  twostate predicate Credited(l: NativeReadBudget?, main: Owner, decoded: int, filterOwn: Owner?, filter: int,
                              envelopeOwn: Owner?, envelope: int)
    reads l
  {
    l != null ==> GaveBack(old(l.state), l.state, main, decoded, filterOwn, filter, envelopeOwn, envelope)
  }

  method CloseLease(lease: Lease?, budget: NativeReadBudget?, ghost own: Owner?, ghost mine: set<Owner>,
                    ghost alone: bool)
    requires Settles(lease, own, budget) && (own == null || own !in mine)
    requires budget != null ==> budget.Valid()
    modifies lease, Footprint(budget) - mine
    ensures Grows(budget) && Returned(own, budget)
    ensures budget != null ==> budget.Valid()
    ensures alone ==> Untouched(budget, Just(own))
    ensures alone ==> Charged(budget, OwnScope(own), -LeaseBytes(lease))
    ensures alone && lease != null ==> Rises(budget, -lease.amount, 0)
  {
    hide NativeReadBudget.Valid;
    if lease != null {
      lease.Close(lease.amount, mine, alone);
    }
  }

  method CloseOwn(handle: NativeReadReservation, lease: Lease?, ghost base: int, ghost mine: set<Owner>,
                  ghost alone: bool)
    requires HoldsLease(handle, lease, base) && handle.owner !in mine
    modifies lease, Footprint(handle.owner.budget) - mine
    ensures Grows(handle.owner.budget) && Holds(handle.owner, base)
    ensures alone ==> Untouched(handle.owner.budget, {handle.owner})
    ensures alone ==> Charged(handle.owner.budget, OwnScope(handle.owner), -LeaseBytes(lease))
  {
    hide NativeReadBudget.Valid;
    if lease != null {
      lease.Close(base + lease.amount, mine, alone);
    } else {
      OwnAccountsStand(handle.owner);
    }
  }

  lemma RowsCredit(s1: L.Ledger<Owner, ReadScope>, s2: L.Ledger<Owner, ReadScope>, s3: L.Ledger<Owner, ReadScope>,
                   main: Owner, decoded: int, filterOwn: Owner, filter: int)
    requires L.Only(s1, s2, {main}) && L.Only(s2, s3, Just(filterOwn))
    requires L.Moved(s1, s2, OwnScope(main), -decoded) && L.Moved(s2, s3, OwnScope(filterOwn), -filter)
    ensures L.Only(s1, s3, Crew(main, filterOwn, null))
    ensures GaveBack(s1, s3, main, decoded, filterOwn, filter, null, 0)
  {}

  lemma CreditsAddUp(s0: L.Ledger<Owner, ReadScope>, s1: L.Ledger<Owner, ReadScope>, s3: L.Ledger<Owner, ReadScope>,
                     main: Owner, decoded: int, filterOwn: Owner, filter: int, envelopeOwn: Owner?, envelope: int)
    requires L.Only(s0, s1, Just(envelopeOwn)) && L.Only(s1, s3, Crew(main, filterOwn, null))
    requires L.Moved(s0, s1, OwnScope(envelopeOwn), -envelope) && (envelopeOwn == null ==> envelope == 0)
    requires GaveBack(s1, s3, main, decoded, filterOwn, filter, null, 0)
    ensures L.Only(s0, s3, Crew(main, filterOwn, envelopeOwn))
    ensures GaveBack(s0, s3, main, decoded, filterOwn, filter, envelopeOwn, envelope)
  {}

  /** The decoded rows' lease, then the encoded rows'. */
  method CloseRows(handle: NativeReadReservation, filter: Lease?, decoded: Lease?, ghost base: int,
                   ghost filterOwn: Owner, ghost mine: set<Owner>, ghost alone: bool)
    requires handle.owner != filterOwn && handle.owner !in mine && filterOwn !in mine
    requires filter != null ==> filter != decoded
    requires Settles(filter, filterOwn, handle.owner.budget) && HoldsLease(handle, decoded, base)
    modifies filter, decoded, Footprint(handle.owner.budget) - mine
    ensures Grows(handle.owner.budget)
    ensures Holds(handle.owner, base) && Returned(filterOwn, handle.owner.budget)
    ensures alone ==> Untouched(handle.owner.budget, Crew(handle.owner, filterOwn, null))
    ensures alone ==>
              Credited(handle.owner.budget, handle.owner, LeaseBytes(decoded), filterOwn, LeaseBytes(filter), null, 0)
  {
    hide NativeReadBudget.Valid, L.Only, L.Moved, Crew, GaveBack, OwnScope;
    var l := handle.owner.budget;
    ghost var s1 := StateOf(l);
    CloseOwn(handle, decoded, base, mine + {filterOwn}, alone);
    ghost var s2 := StateOf(l);
    CloseLease(filter, l, filterOwn, mine + {handle.owner}, alone);
    if alone && l != null {
      RowsCredit(s1, s2, l.state, handle.owner, LeaseBytes(decoded), filterOwn, LeaseBytes(filter));
    }
  }

  method CloseInReverse(handle: NativeReadReservation, filter: Lease?, decoded: Lease?, envelope: Lease?,
                        ghost base: int, ghost filterOwn: Owner, ghost envelopeOwn: Owner?, ghost mine: set<Owner>,
                        ghost alone: bool)
    requires Apart(handle.owner, filterOwn, envelopeOwn, mine)
    requires filter != null ==> filter != decoded && filter != envelope
    requires decoded != null ==> decoded != envelope
    requires Settles(filter, filterOwn, handle.owner.budget) && Settles(envelope, envelopeOwn, handle.owner.budget)
    requires HoldsLease(handle, decoded, base)
    modifies filter, decoded, envelope, Footprint(handle.owner.budget) - mine
    ensures Grows(handle.owner.budget)
    ensures Holds(handle.owner, base)
    ensures Returned(filterOwn, handle.owner.budget) && Returned(envelopeOwn, handle.owner.budget)
    ensures alone ==> Untouched(handle.owner.budget, Crew(handle.owner, filterOwn, envelopeOwn))
    ensures alone ==>
              Credited(handle.owner.budget, handle.owner, LeaseBytes(decoded), filterOwn, LeaseBytes(filter),
                       envelopeOwn, LeaseBytes(envelope))
  {
    hide NativeReadBudget.Valid, L.Only, L.Moved, Crew, GaveBack, OwnScope;
    var l := handle.owner.budget;
    ghost var s0 := StateOf(l);
    CloseLease(envelope, l, envelopeOwn, mine + {handle.owner, filterOwn}, alone);
    ghost var s1 := StateOf(l);
    CloseRows(handle, filter, decoded, base, filterOwn, mine + Just(envelopeOwn), alone);
    if alone && l != null {
      CreditsAddUp(s0, s1, l.state, handle.owner, LeaseBytes(decoded), filterOwn, LeaseBytes(filter), envelopeOwn,
                   LeaseBytes(envelope));
    }
  }

  /** The once-only closure over every lease taken so far, closed in reverse order. */
  class CloseAll {
    const handle: NativeReadReservation
    var filter: Lease?
    var decoded: Lease?
    var envelope: Lease?
    var done: bool

    constructor (handle: NativeReadReservation, filter: Lease)
      ensures this.handle == handle && this.filter == filter && decoded == null && envelope == null && !done
    {
      this.handle, this.filter, decoded, envelope, done := handle, filter, null, null, false;
    }

    /** Nothing released yet: different owners, each holding its lease's bytes, the main one `base` more. */
    ghost predicate Pending(base: int, filterOwn: Owner, envelopeOwn: Owner?, mine: set<Owner>)
      reads this, filter, decoded, envelope, handle.owner, filterOwn, envelopeOwn, handle.owner.budget,
            Footprint(handle.owner.budget)
    {
      && this !in Footprint(handle.owner.budget) && !done
      && Apart(handle.owner, filterOwn, envelopeOwn, mine)
      && (filter != null ==> filter != decoded && filter != envelope) && (decoded != null ==> decoded != envelope)
      && Settles(filter, filterOwn, handle.owner.budget) && Settles(envelope, envelopeOwn, handle.owner.budget)
      && HoldsLease(handle, decoded, base)
    }

    /** Idempotent: the first run gives everything back, any later one does nothing. */
    method Run(ghost base: int, ghost filterOwn: Owner, ghost envelopeOwn: Owner?, ghost mine: set<Owner>,
               ghost alone: bool)
      requires !done ==> Pending(base, filterOwn, envelopeOwn, mine)
      modifies this, filter, decoded, envelope, Footprint(handle.owner.budget) - mine
      ensures done && filter == old(filter) && decoded == old(decoded) && envelope == old(envelope)
      ensures old(done) ==> handle.owner.used == old(handle.owner.used) && filterOwn.used == old(filterOwn.used)
      ensures old(done) && envelopeOwn != null ==> envelopeOwn.used == old(envelopeOwn.used)
      ensures old(done) && handle.owner.budget != null ==> handle.owner.budget.state == old(handle.owner.budget.state)
      ensures !old(done) ==>
                && Grows(handle.owner.budget) && Holds(handle.owner, base)
                && Returned(filterOwn, handle.owner.budget) && Returned(envelopeOwn, handle.owner.budget)
      ensures alone && !old(done) ==> Untouched(handle.owner.budget, Crew(handle.owner, filterOwn, envelopeOwn))
      ensures alone && !old(done) ==>
                Credited(handle.owner.budget, handle.owner, LeaseBytes(decoded), filterOwn, LeaseBytes(filter),
                         envelopeOwn, LeaseBytes(envelope))
    {
      hide NativeReadBudget.Valid;
      if !done {
        done := true;
        CloseInReverse(handle, filter, decoded, envelope, base, filterOwn, envelopeOwn, mine, alone);
      }
    }
  }

  // ---- The whole call -----------------------------------------------------------

  /** What the call hands back or leaves behind, `base` bytes of scratch apart. */
  ghost predicate Outcome(all: CloseAll?, h: NativeReadReservation, base: int, filterOwn: Owner?, envelopeOwn: Owner?,
                          mine: set<Owner>)
    reads all, h.owner, h.owner.budget, Footprint(h.owner.budget), filterOwn, envelopeOwn,
          if all == null then {} else {all.filter, all.decoded, all.envelope}
  {
    if all == null then
      && filterOwn != h.owner && envelopeOwn != h.owner
      && Holds(h.owner, base) && Returned(filterOwn, h.owner.budget) && Returned(envelopeOwn, h.owner.budget)
    else
      all.handle == h && filterOwn != null && all.Pending(base, filterOwn, envelopeOwn, mine)
  }

  /** What a successful call keeps charged: the decoded rows, and either the detached envelope or the encoded rows. */
  ghost predicate Keeps(all: CloseAll, f: Facts)
    reads all
  {
    && all.decoded != null && all.decoded.amount == Sum(f.rows)
    && !f.bundleFails && !f.cancelledLate
    && if f.ordinary then
         f.marshals && f.unmarshals && all.filter == null && all.envelope != null
         && f.envelope.Bytes? && f.envelope.size == all.envelope.amount
       else
         all.envelope == null && all.filter != null && KeepsRows(all.filter, f.adapter)
  }

  /** What one run of the closure will give back. */
  function BytesOf(all: CloseAll?): int
    reads all
  {
    if all == null then 0 else LeaseBytes(all.filter) + LeaseBytes(all.decoded) + LeaseBytes(all.envelope)
  }

  /** Counts and charges the decoded rows; any failure runs the closure. */
  method DecodeRows(all: CloseAll, f: Facts, ghost base: int, ghost filterOwn: Owner, ghost mine: set<Owner>,
                    ghost alone: bool)
    returns (ok: bool)
    requires Sane(f) && all.Pending(base, filterOwn, null, mine) && all.decoded == null && all.envelope == null
    modifies all, all.filter, Footprint(all.handle.owner.budget) - mine
    ensures Grows(all.handle.owner.budget)
    ensures ok ==> all.Pending(base, filterOwn, null, mine) && all.envelope == null && all.filter == old(all.filter)
    ensures ok ==> all.decoded != null && fresh(all.decoded) && all.decoded.amount == Sum(f.rows)
    ensures !ok ==> Holds(all.handle.owner, base) && Returned(filterOwn, all.handle.owner.budget)
    ensures alone ==> Untouched(all.handle.owner.budget, Crew(all.handle.owner, filterOwn, null))
    ensures alone && ok ==> Rises(all.handle.owner.budget, Sum(f.rows), Sum(f.rows))
    ensures alone && all.handle.owner.budget != null ==>
              && (ok <==> Sum(f.rows) <= old(Free(all.handle.owner)))
              && (ok ==> Free(all.handle.owner) == old(Free(all.handle.owner)) - Sum(f.rows))
    ensures alone && !ok && Sum(f.rows) <= L.MAX_INT64 ==> Blamed(all.handle.owner)
  {
    hide NativeReadBudget.Valid, Free, Sum;
    var h := all.handle;
    FreeInRange(h.owner);
    var decoded := CountRows(h, f.rows, 0, base, mine + {filterOwn}, alone);
    if decoded.None? {
      all.Run(base, filterOwn, null, mine, alone);
      return false;
    }
    ok := ChargeRows(all, decoded.value, base, filterOwn, mine, alone);
  }

  method ChargeRows(all: CloseAll, bytes: nat, ghost base: int, ghost filterOwn: Owner, ghost mine: set<Owner>,
                    ghost alone: bool)
    returns (ok: bool)
    requires bytes <= L.MAX_INT64
    requires all.Pending(base, filterOwn, null, mine) && all.decoded == null && all.envelope == null
    modifies all, all.filter, Footprint(all.handle.owner.budget) - mine
    ensures Grows(all.handle.owner.budget)
    ensures ok ==> all.Pending(base, filterOwn, null, mine) && all.envelope == null && all.filter == old(all.filter)
    ensures ok ==> all.decoded != null && fresh(all.decoded) && all.decoded.amount == bytes
    ensures !ok ==> Holds(all.handle.owner, base) && Returned(filterOwn, all.handle.owner.budget)
    ensures alone ==> Untouched(all.handle.owner.budget, Crew(all.handle.owner, filterOwn, null))
    ensures alone && ok ==> Rises(all.handle.owner.budget, bytes, bytes)
    ensures alone && all.handle.owner.budget != null ==>
              && (ok <==> bytes <= old(Free(all.handle.owner)))
              && (ok ==> Free(all.handle.owner) == old(Free(all.handle.owner)) - bytes)
    ensures alone && !ok ==> Blamed(all.handle.owner)
  {
    hide NativeReadBudget.Valid, Free;
    ok := Take(all.handle, bytes, base, mine + {filterOwn}, alone);
    if !ok {
      all.Run(base, filterOwn, null, mine, alone);
      return;
    }
    all.decoded := new Lease(all.handle, bytes);
  }

  /** The bytes of the encoded rows, if their lease ends once the envelope has its own. */
  function Dropped(f: Facts, rows: Lease?): int {
    if f.ordinary then LeaseBytes(rows) else 0
  }

  /** An ordinary envelope gets its own lease, and the encoded rows' lease ends. */
  method DetachStep(b: NativeReadBudget, all: CloseAll, f: Facts, ghost base: int, ghost filterOwn: Owner,
                    ghost mine: set<Owner>, ghost alone: bool)
    returns (ok: bool, ghost envelopeOwn: Owner?)
    requires Ready(b) && Real(b) == all.handle.owner.budget && all.Pending(base, filterOwn, null, mine)
    requires all.decoded != null && all.envelope == null && all.filter != null
    modifies all, all.filter, all.decoded, Footprint(Real(b)) - mine
    ensures Ready(b) && Grows(Real(b))
    ensures envelopeOwn != null ==> fresh(envelopeOwn)
    ensures ok ==> all.Pending(base, filterOwn, envelopeOwn, mine) && all.decoded == old(all.decoded)
    ensures ok && f.ordinary ==>
              && f.marshals && f.unmarshals && all.filter == null
              && all.envelope != null && fresh(all.envelope) && f.envelope == Bytes(all.envelope.amount)
    ensures ok && !f.ordinary ==> all.filter == old(all.filter) && all.envelope == null
    ensures !ok ==> Holds(all.handle.owner, base) && Returned(filterOwn, Real(b)) && Returned(envelopeOwn, Real(b))
    ensures !f.ordinary ==> ok
    ensures alone ==>
              && Untouched(Real(b), Crew(all.handle.owner, filterOwn, envelopeOwn))
              && InScope(envelopeOwn, old(ScopeOf(b)))
    ensures alone && f.ordinary ==> (ok <==> f.marshals && f.unmarshals && Fits(f.envelope, old(Spare(b)), 2))
    ensures alone && ok ==> Rises(Real(b), LeaseBytes(all.envelope) - Dropped(f, old(all.filter)), EnvelopeTop(f))
    ensures alone && f.ordinary && old(Spare(b)) < SIZING_SCRATCH ==> envelopeOwn != null && Blamed(envelopeOwn)
    ensures envelopeOwn != null ==> envelopeOwn.budget == Real(b)
  {
    hide NativeReadBudget.Valid, Spare, Fits;
    envelopeOwn := null;
    ok := true;
    CrewStands(all, base, filterOwn, mine);
    if f.ordinary {
      ok, envelopeOwn := Detach(b, all, f, base, filterOwn, mine, alone);
    }
  }

  /** The envelope's lease replaces the rows'; without one, everything goes back. */
  method EnvelopeOrNothing(all: CloseAll, lease: Lease?, ghost base: int, ghost filterOwn: Owner, ghost own: Owner,
                           ghost mine: set<Owner>, ghost alone: bool)
    requires all.Pending(base, filterOwn, null, mine) && all.filter != null && all.envelope == null
    requires Apart(all.handle.owner, filterOwn, own, mine)
    requires lease != null ==> lease != all.filter && lease != all.decoded
    requires Settles(lease, own, all.handle.owner.budget)
    modifies all, all.filter, all.decoded, Footprint(all.handle.owner.budget) - mine
    ensures Grows(all.handle.owner.budget)
    ensures lease == null ==>
              && Holds(all.handle.owner, base)
              && Returned(filterOwn, all.handle.owner.budget) && Returned(own, all.handle.owner.budget)
    ensures lease != null ==>
              && all.Pending(base, filterOwn, own, mine)
              && all.decoded == old(all.decoded) && all.filter == null && all.envelope == lease
    ensures alone ==> Untouched(all.handle.owner.budget, Crew(all.handle.owner, filterOwn, own))
    ensures alone && lease != null ==> Rises(all.handle.owner.budget, -old(all.filter).amount, 0)
  {
    hide NativeReadBudget.Valid;
    if lease == null {
      all.Run(base, filterOwn, own, mine, alone);
    } else {
      SwapRowsForEnvelope(all, lease, base, filterOwn, own, mine, alone);
    }
  }

  lemma EnvelopeInCrew(main: Owner, filterOwn: Owner, own: Owner)
    ensures {own} + Crew(main, filterOwn, own) == Crew(main, filterOwn, own)
  {}

  lemma EnvelopeForRows(l: L.Ledger<Owner, ReadScope>, mid: L.Ledger<Owner, ReadScope>,
                        later: L.Ledger<Owner, ReadScope>, f: Facts, n: nat, rowBytes: int)
    requires f.ordinary && f.envelope == Bytes(n)
    requires L.Rose(l, mid, n, Max(SIZING_SCRATCH, 2 * n)) && L.Rose(mid, later, -rowBytes, 0)
    ensures L.Rose(l, later, n - rowBytes, EnvelopeTop(f))
  {}

  method Detach(b: NativeReadBudget, all: CloseAll, f: Facts, ghost base: int, ghost filterOwn: Owner,
                ghost mine: set<Owner>, ghost alone: bool)
    returns (ok: bool, ghost own: Owner)
    requires Ready(b) && Real(b) == all.handle.owner.budget && all.Pending(base, filterOwn, null, mine)
    requires all.decoded != null && all.envelope == null && all.filter != null && f.ordinary
    modifies all, all.filter, all.decoded, Footprint(Real(b)) - mine
    ensures Ready(b) && Grows(Real(b)) && fresh(own)
    ensures ok ==> all.Pending(base, filterOwn, own, mine) && all.decoded == old(all.decoded)
    ensures ok ==>
              && f.marshals && f.unmarshals && all.filter == null
              && all.envelope != null && fresh(all.envelope) && f.envelope == Bytes(all.envelope.amount)
    ensures !ok ==> Holds(all.handle.owner, base) && Returned(filterOwn, Real(b)) && Returned(own, Real(b))
    ensures alone ==>
              Untouched(Real(b), Crew(all.handle.owner, filterOwn, own)) && InScope(own, old(ScopeOf(b)))
    ensures alone ==> (ok <==> f.marshals && f.unmarshals && Fits(f.envelope, old(Spare(b)), 2))
    ensures alone && ok ==> Rises(Real(b), all.envelope.amount - old(all.filter.amount), EnvelopeTop(f))
    ensures alone && old(Spare(b)) < SIZING_SCRATCH ==> !ok && Blamed(own)
  {
    hide NativeReadBudget.Valid, Spare, Fits, EnvelopeTop, L.Only, L.Moved, L.Rose, Crew;
    ghost var before := Real(b).state;
    ghost var rowBytes := all.filter.amount;
    var mainOwn := all.handle.owner;
    var lease: Lease?;
    lease, own := DetachRefilterEnvelope(b, f.envelope, f.marshals, f.unmarshals, mine + {mainOwn, filterOwn}, alone);
    ghost var between := Real(b).state;
    ghost var refused := alone && own.scope != null && Blamed(own);
    EnvelopeOrNothing(all, lease, base, filterOwn, own, mine, alone);
    ok := lease != null;
    if alone {
      EnvelopeInCrew(mainOwn, filterOwn, own);
      CrewChain(before, between, Real(b).state, {own}, Crew(mainOwn, filterOwn, own), mainOwn, filterOwn, own);
      if refused {
        L.StaysRefused(between, Real(b).state, Crew(mainOwn, filterOwn, own), own.scope);
      }
      if ok {
        EnvelopeForRows(before, between, Real(b).state, f, lease.amount, rowBytes);
      }
    }
  }

  lemma CrewStands(all: CloseAll, base: int, filterOwn: Owner, mine: set<Owner>)
    requires all.handle.owner.budget != null && all.Pending(base, filterOwn, null, mine)
    ensures var l := all.handle.owner.budget.state;
            L.Only(l, l, Crew(all.handle.owner, filterOwn, null)) && L.Rose(l, l, 0, 0)
  {}

  method SwapRowsForEnvelope(all: CloseAll, lease: Lease, ghost base: int, ghost filterOwn: Owner, ghost own: Owner,
                             ghost mine: set<Owner>, ghost alone: bool)
    requires all.Pending(base, filterOwn, null, mine) && all.filter != null && all.envelope == null
    requires Apart(all.handle.owner, filterOwn, own, mine)
    requires lease != all.filter && lease != all.decoded && Settles(lease, own, all.handle.owner.budget)
    modifies all, all.filter, Footprint(all.handle.owner.budget) - mine
    ensures Grows(all.handle.owner.budget)
    ensures all.Pending(base, filterOwn, own, mine)
    ensures all.decoded == old(all.decoded) && all.filter == null && all.envelope == lease
    ensures alone ==> Untouched(all.handle.owner.budget, Crew(all.handle.owner, filterOwn, own))
    ensures alone ==> Rises(all.handle.owner.budget, -old(all.filter).amount, 0)
  {
    hide NativeReadBudget.Valid;
    all.envelope := lease;
    var mainOwn := all.handle.owner;
    CloseLease(all.filter, mainOwn.budget, filterOwn, mine + {mainOwn, own}, alone);
    all.filter := null;
  }

  /** Every lease in the closure is one this call made. */
  twostate predicate Fresh(new all: CloseAll?)
    reads all
  {
    all != null ==>
      && fresh(all) && all.decoded != null && fresh(all.decoded)
      && (all.filter != null ==> fresh(all.filter)) && (all.envelope != null ==> fresh(all.envelope))
  }

  /** The closure with its first lease. */
  method Collect(h: NativeReadReservation, rows: Lease, ghost base: int, ghost own: Owner, ghost mine: set<Owner>)
    returns (all: CloseAll)
    requires 0 <= base && Holds(h.owner, base) && Settled(rows, own) && own.budget == h.owner.budget
    requires own != h.owner && own !in mine && h.owner !in mine
    ensures fresh(all) && all.handle == h && all.filter == rows && all.decoded == null && all.envelope == null
    ensures all.Pending(base, own, null, mine)
  {
    all := new CloseAll(h, rows);
  }

  lemma RowsThenRest(l: L.Ledger<Owner, ReadScope>, mid: L.Ledger<Owner, ReadScope>,
                     later: L.Ledger<Owner, ReadScope>, f: Facts, spare: int, n: int, m: int)
    requires Kept(f.adapter, spare) == Some(n)
    requires L.Rose(l, mid, n, FilterTop(f.adapter, spare)) && L.Rose(mid, later, m, Sum(f.rows) + EnvelopeTop(f))
    ensures L.Rose(l, later, n + m, WithinTop(f, spare))
  {}

  /** Everything between borrowing and returning the scratch. */
  method RefilterWithin(b: NativeReadBudget, h: NativeReadReservation, f: Facts, ghost base: int,
                        ghost mine: set<Owner>, ghost alone: bool)
    returns (all: CloseAll?, ghost filterOwn: Owner?, ghost envelopeOwn: Owner?)
    requires Ready(b) && h.owner.budget == Real(b) && h.owner !in mine && Sane(f) && 0 <= base && Holds(h.owner, base)
    requires alone ==> Ref(h.owner.scope) == ScopeOf(b)
    modifies Footprint(Real(b)) - mine
    ensures Ready(b) && Grows(Real(b))
    ensures Outcome(all, h, base, filterOwn, envelopeOwn, mine)
    ensures all != null ==> Fresh(all) && Keeps(all, f)
    ensures (filterOwn != null ==> fresh(filterOwn)) && (envelopeOwn != null ==> fresh(envelopeOwn))
    ensures alone ==> Untouched(Real(b), Crew(h.owner, filterOwn, envelopeOwn))
    ensures alone ==> OneScope(h.owner, filterOwn, envelopeOwn)
    ensures alone ==> (all != null <==> SucceedsWithin(f, old(Free(h.owner))))
    ensures alone && all != null ==> Rises(Real(b), BytesOf(all), WithinTop(f, old(Free(h.owner))))
    ensures alone && WithinRefuses(f, old(Free(h.owner))) ==> Blamed(h.owner)
  {
    hide NativeReadBudget.Valid, Free, Spare, Fits, Sum, Kept, Keeps, KeepsRows, Outcome, EnvelopeTop, FilterTop,
         RoomRefuses, RowsRefused, WithinRefuses, WithinTop, L.Only, L.Moved, L.Rose;
    envelopeOwn := null;
    ghost var before := Real(b).state;
    ghost var spare := Free(h.owner);
    RefusesWithin(f, spare);
    if alone {
      SpareIsFree(b, h.owner);
    }
    var rows, own := RefilterRetainedRows(b, f.adapter, mine + {h.owner}, alone);
    filterOwn := own;
    ghost var between := Real(b).state;
    if rows == null {
      RowsFailed(h, base, own, mine);
      if alone {
        OwnAccountsStand(h.owner);
        CrewChain(before, between, between, {own}, {h.owner}, h.owner, own, null);
      }
      return null, filterOwn, envelopeOwn;
    }
    if alone {
      SpareIsFree(b, h.owner);
    }
    all, envelopeOwn := FinishRows(b, h, f, rows, base, own, mine, alone);
    if alone {
      CrewChain(before, between, Real(b).state, {own}, Crew(h.owner, own, envelopeOwn), h.owner, own, envelopeOwn);
      if all != null {
        RowsThenRest(before, between, Real(b).state, f, spare, rows.amount, BytesOf(all) - rows.amount);
      }
    }
  }

  /** The closure will give back the rows' bytes, the decoded rows' and the envelope's, less the rows' if dropped. */
  lemma KeptBytes(all: CloseAll, f: Facts, rows: Lease)
    requires Keeps(all, f) && (all.filter == null || all.filter == rows)
    ensures BytesOf(all) - rows.amount == Sum(f.rows) + LeaseBytes(all.envelope) - Dropped(f, rows)
  {}

  lemma PeakAbove(b: NativeReadBudget)
    requires Ready(b)
    ensures Real(b).state.used <= Real(b).state.peak
  {}

  /** From the encoded rows to the outcome. */
  method FinishRows(b: NativeReadBudget, h: NativeReadReservation, f: Facts, rows: Lease, ghost base: int,
                    ghost own: Owner, ghost mine: set<Owner>, ghost alone: bool)
    returns (all: CloseAll?, ghost envelopeOwn: Owner?)
    requires Ready(b) && h.owner.budget == Real(b) && Sane(f) && 0 <= base && Holds(h.owner, base)
    requires Settled(rows, own) && own.budget == Real(b) && KeepsRows(rows, f.adapter)
    requires own != h.owner && own !in mine && h.owner !in mine
    requires alone ==> Ref(h.owner.scope) == ScopeOf(b)
    modifies rows, Footprint(Real(b)) - mine
    ensures Ready(b) && Grows(Real(b))
    ensures Outcome(all, h, base, own, envelopeOwn, mine)
    ensures all != null ==> fresh(all) && all.decoded != null && fresh(all.decoded) && Keeps(all, f)
    ensures all != null ==>
              (all.filter == null || all.filter == rows) && (all.envelope != null ==> fresh(all.envelope))
    ensures envelopeOwn != null ==> fresh(envelopeOwn)
    ensures alone ==> Untouched(Real(b), Crew(h.owner, own, envelopeOwn)) && InScope(envelopeOwn, Ref(h.owner.scope))
    ensures alone ==>
              (all != null <==>
               && Sum(f.rows) <= old(Free(h.owner)) && !f.bundleFails && !f.cancelledLate
               && (f.ordinary ==>
                     f.marshals && f.unmarshals && Fits(f.envelope, old(Free(h.owner)) - Sum(f.rows), 2)))
    ensures alone && all != null ==> Rises(Real(b), BytesOf(all) - rows.amount, Sum(f.rows) + EnvelopeTop(f))
    ensures alone && RowsRefused(f, old(Free(h.owner))) ==> Blamed(h.owner)
  {
    hide NativeReadBudget.Valid, Free, Spare, Fits, Sum, Keeps, KeepsRows, EnvelopeTop, Dropped, BytesOf, L.Only,
         L.Moved, L.Rose;
    all := Collect(h, rows, base, own, mine);
    var ok: bool;
    ok, envelopeOwn := DecodeAndFinish(b, all, f, base, own, mine, alone);
    if !ok {
      all := null;
    } else {
      KeptBytes(all, f, rows);
    }
  }

  lemma ThenEnvelope(l: L.Ledger<Owner, ReadScope>, mid: L.Ledger<Owner, ReadScope>,
                     later: L.Ledger<Owner, ReadScope>, f: Facts, n: int, top: int, m: int)
    requires L.Rose(l, mid, n, top) && L.Rose(mid, later, m, EnvelopeTop(f)) && top <= n
    ensures L.Rose(l, later, n + m, n + EnvelopeTop(f))
  {}

  /** The decoded rows and what follows them. */
  method DecodeAndFinish(b: NativeReadBudget, all: CloseAll, f: Facts, ghost base: int, ghost filterOwn: Owner,
                         ghost mine: set<Owner>, ghost alone: bool)
    returns (ok: bool, ghost envelopeOwn: Owner?)
    requires Ready(b) && Real(b) == all.handle.owner.budget && Sane(f) && all.Pending(base, filterOwn, null, mine)
    requires all.decoded == null && all.envelope == null && all.filter != null
    requires KeepsRows(all.filter, f.adapter)
    requires alone ==> Ref(all.handle.owner.scope) == ScopeOf(b)
    modifies all, all.filter, Footprint(Real(b)) - mine
    ensures Ready(b) && Grows(Real(b))
    ensures ok ==> all.Pending(base, filterOwn, envelopeOwn, mine) && Keeps(all, f)
    ensures ok ==> all.filter == null || all.filter == old(all.filter)
    ensures ok ==> all.decoded != null && fresh(all.decoded) && (all.envelope != null ==> fresh(all.envelope))
    ensures envelopeOwn != null ==> fresh(envelopeOwn)
    ensures !ok ==> Holds(all.handle.owner, base) && Returned(filterOwn, Real(b)) && Returned(envelopeOwn, Real(b))
    ensures alone ==>
              && Untouched(Real(b), Crew(all.handle.owner, filterOwn, envelopeOwn))
              && InScope(envelopeOwn, old(ScopeOf(b)))
    ensures alone ==>
              (ok <==>
               && Sum(f.rows) <= old(Free(all.handle.owner)) && !f.bundleFails && !f.cancelledLate
               && (f.ordinary ==>
                     && f.marshals && f.unmarshals
                     && Fits(f.envelope, old(Free(all.handle.owner)) - Sum(f.rows), 2)))
    ensures alone && ok ==>
              Rises(Real(b), Sum(f.rows) + LeaseBytes(all.envelope) - Dropped(f, old(all.filter)),
                    Sum(f.rows) + EnvelopeTop(f))
    ensures alone && RowsRefused(f, old(Free(all.handle.owner))) ==> Blamed(all.handle.owner)
  {
    hide NativeReadBudget.Valid, Free, Spare, Fits, Sum, KeepsRows, Crew, L.Only, L.Moved, L.Rose, EnvelopeTop, Dropped;
    envelopeOwn := null;
    ghost var before := Real(b).state;
    ghost var rows := all.filter;
    ok := DecodeRows(all, f, base, filterOwn, mine, alone);
    if ok {
      ghost var between := Real(b).state;
      if alone {
        SameCurrent(before, between, Crew(all.handle.owner, filterOwn, null));
        SpareIsFree(b, all.handle.owner);
      }
      ok, envelopeOwn := Finish(b, all, f, base, filterOwn, mine, alone);
      if alone {
        CrewGrows(all.handle.owner, filterOwn, envelopeOwn);
        CrewChain(before, between, Real(b).state, Crew(all.handle.owner, filterOwn, null),
                  Crew(all.handle.owner, filterOwn, envelopeOwn), all.handle.owner, filterOwn, envelopeOwn);
        if ok {
          ThenEnvelope(before, between, Real(b).state, f, Sum(f.rows), Sum(f.rows),
                       LeaseBytes(all.envelope) - Dropped(f, rows));
        }
      }
    }
  }

  /** Building the bundle, detaching its envelope, and the last cancellation check. */
  method Finish(b: NativeReadBudget, all: CloseAll, f: Facts, ghost base: int, ghost filterOwn: Owner,
                ghost mine: set<Owner>, ghost alone: bool)
    returns (ok: bool, ghost envelopeOwn: Owner?)
    requires Ready(b) && Real(b) == all.handle.owner.budget && all.Pending(base, filterOwn, null, mine)
    requires all.decoded != null && all.envelope == null && all.filter != null
    modifies all, all.filter, all.decoded, Footprint(Real(b)) - mine
    ensures Ready(b) && Grows(Real(b))
    ensures ok ==> all.Pending(base, filterOwn, envelopeOwn, mine) && all.decoded == old(all.decoded)
    ensures ok ==> !f.bundleFails && !f.cancelledLate
    ensures ok && f.ordinary ==>
              && f.marshals && f.unmarshals && all.filter == null
              && all.envelope != null && fresh(all.envelope) && f.envelope == Bytes(all.envelope.amount)
    ensures ok && !f.ordinary ==> all.filter == old(all.filter) && all.envelope == null
    ensures envelopeOwn != null ==> fresh(envelopeOwn)
    ensures !ok ==> Holds(all.handle.owner, base) && Returned(filterOwn, Real(b)) && Returned(envelopeOwn, Real(b))
    ensures alone ==>
              && Untouched(Real(b), Crew(all.handle.owner, filterOwn, envelopeOwn))
              && InScope(envelopeOwn, old(ScopeOf(b)))
    ensures alone ==>
              (ok <==>
               && !f.bundleFails && !f.cancelledLate
               && (f.ordinary ==> f.marshals && f.unmarshals && Fits(f.envelope, old(Spare(b)), 2)))
    ensures alone && ok ==> Rises(Real(b), LeaseBytes(all.envelope) - Dropped(f, old(all.filter)), EnvelopeTop(f))
    ensures alone && !f.bundleFails && f.ordinary && old(Spare(b)) < SIZING_SCRATCH ==>
              envelopeOwn != null && envelopeOwn.budget == Real(b) && Blamed(envelopeOwn)
  {
    hide NativeReadBudget.Valid, Spare, Fits, EnvelopeTop, Dropped;
    envelopeOwn := null;
    if f.bundleFails {
      all.Run(base, filterOwn, null, mine, alone);
      return false, null;
    }
    ok, envelopeOwn := DetachStep(b, all, f, base, filterOwn, mine, alone);
    if ok && f.cancelledLate {
      all.Run(base, filterOwn, envelopeOwn, mine, alone);
      ok := false;
    }
  }

  lemma RefusedFails(f: Facts, spare: int)
    ensures f.refused ==> !Succeeds(f, spare) && !Refuses(f, spare)
  {}

  /** The call on a fresh owner, unless it is refused on entry. */
  method RefilterOpened(b: NativeReadBudget?, f: Facts, ghost mine: set<Owner>, ghost alone: bool)
    returns (all: CloseAll?, ghost own: Owner, ghost filterOwn: Owner?, ghost envelopeOwn: Owner?)
    requires Ready(b) && Sane(f)
    modifies Footprint(Real(b)) - mine
    ensures Ready(b) && Grows(Real(b)) && fresh(own) && own.budget == Real(b)
    ensures (filterOwn != null ==> fresh(filterOwn)) && (envelopeOwn != null ==> fresh(envelopeOwn))
    ensures Outcome(all, NativeReadReservation(own), 0, filterOwn, envelopeOwn, mine)
    ensures all != null ==> Fresh(all) && b != null && !f.refused && Keeps(all, f)
    ensures alone ==> Untouched(Real(b), Crew(own, filterOwn, envelopeOwn))
    ensures alone && b != null ==> Ref(own.scope) == old(ScopeOf(b))
    ensures alone ==> OneScope(own, filterOwn, envelopeOwn)
    ensures alone && b != null ==> (all != null <==> Succeeds(f, old(Spare(b))))
    ensures alone && all != null ==> Rises(Real(b), BytesOf(all), HighWater(f, old(Spare(b))))
    ensures alone && b != null && Refuses(f, old(Spare(b))) ==> Blamed(own)
  {
    hide NativeReadBudget.Valid, Free, Spare, Succeeds, Refuses, Keeps, HighWater, Outcome, OneScope, Crew, L.Rose,
         L.Only;
    ghost var before := StateOf(Real(b));
    ghost var spare := if b == null then 0 else Spare(b);
    if b != null {
      PeakAbove(b);
    }
    var h := Open(b, mine, alone);
    own := h.owner;
    all, filterOwn, envelopeOwn := null, null, null;
    NothingTaken(h, mine);
    ghost var between := StateOf(Real(b));
    if b != null && !f.refused {
      assert f.(refused := false) == f;
      if alone {
        SameCurrent(before, between, {own});
      }
      all, filterOwn, envelopeOwn := RefilterSized(b, h, f, mine, alone);
      if alone {
        CrewOf(own, filterOwn, envelopeOwn);
        CrewChain(before, between, Real(b).state, {own}, Crew(own, filterOwn, envelopeOwn), own, filterOwn,
                  envelopeOwn);
        if all != null {
          L.RoseAfterNothing(before, between, Real(b).state, BytesOf(all), HighWater(f, spare));
        }
      }
    } else {
      RefusedFails(f, spare);
    }
  }

  /** RefilterRetainedSource: on any error nothing stays charged to any owner this call created; on success each of
      them holds exactly the bytes that one run of the returned closure gives back. With nobody else moving, the ledger
      and the scope current at the start have moved by exactly those bytes, no other account has, and the call succeeds
      exactly when every charge fits what was spare at its start. */
  method RefilterRetainedSource(b: NativeReadBudget?, f: Facts, ghost mine: set<Owner>, ghost alone: bool)
    returns (all: CloseAll?, ghost own: Owner, ghost filterOwn: Owner?, ghost envelopeOwn: Owner?)
    requires Ready(b) && Sane(f)
    modifies Footprint(Real(b)) - mine
    ensures Ready(b) && Grows(Real(b)) && fresh(own) && own.budget == Real(b)
    ensures (filterOwn != null ==> fresh(filterOwn)) && (envelopeOwn != null ==> fresh(envelopeOwn))
    ensures Outcome(all, NativeReadReservation(own), 0, filterOwn, envelopeOwn, mine)
    ensures all != null ==> Fresh(all) && b != null && !f.refused && Keeps(all, f)
    ensures alone ==> Untouched(Real(b), Crew(own, filterOwn, envelopeOwn))
    ensures alone && b != null ==> Ref(own.scope) == old(ScopeOf(b))
    ensures alone ==> OneScope(own, filterOwn, envelopeOwn)
    ensures alone && b != null ==> Charged(Real(b), Ref(own.scope), BytesOf(all))
    ensures alone && b != null ==> (all != null <==> Succeeds(f, old(Spare(b))))
    ensures alone && all != null ==> Rises(Real(b), BytesOf(all), HighWater(f, old(Spare(b))))
    ensures alone && b != null && Refuses(f, old(Spare(b))) ==> Blamed(own)
  {
    hide NativeReadBudget.Valid, Free, Spare, Succeeds, Keeps, HighWater, Outcome, OneScope, L.Rose, L.Only, L.Moved;
    all, own, filterOwn, envelopeOwn := RefilterOpened(b, f, mine, alone);
    if alone && b != null {
      OutcomeMeansCharged(b, all, own, filterOwn, envelopeOwn, mine);
    }
  }

  lemma RowsFailed(h: NativeReadReservation, base: int, own: Owner, mine: set<Owner>)
    requires Holds(h.owner, base) && Settled(null, own) && own.budget == h.owner.budget && own != h.owner
    ensures Outcome(null, h, base, own, null, mine)
  {}

  lemma NothingTaken(h: NativeReadReservation, mine: set<Owner>)
    requires Holds(h.owner, 0)
    ensures Outcome(null, h, 0, null, null, mine) && OneScope(h.owner, null, null)
    ensures Crew(h.owner, null, null) == {h.owner}
  {}

  lemma CrewGrows(main: Owner, filterOwn: Owner?, envelopeOwn: Owner?)
    ensures Crew(main, filterOwn, null) + Crew(main, filterOwn, envelopeOwn) == Crew(main, filterOwn, envelopeOwn)
  {}

  lemma CrewOf(main: Owner, filterOwn: Owner?, envelopeOwn: Owner?)
    ensures {main} + Crew(main, filterOwn, envelopeOwn) == Crew(main, filterOwn, envelopeOwn)
  {}

  lemma ScratchThenRest(l: L.Ledger<Owner, ReadScope>, mid: L.Ledger<Owner, ReadScope>,
                        later: L.Ledger<Owner, ReadScope>, f: Facts, spare: int, n: int)
    requires var scratch := Scratch(MaxText(f.texts, MaxSize(f.records)));
             && SucceedsWithin(f, spare - scratch)
             && L.Rose(l, mid, scratch, Max(SIZING_SCRATCH, scratch))
             && L.Rose(mid, later, n - scratch, WithinTop(f, spare - scratch))
    ensures L.Rose(l, later, n, HighWater(f, spare))
  {}

  /** Sizing, borrowing the scratch, and the rest under it. */
  method RefilterSized(b: NativeReadBudget, h: NativeReadReservation, f: Facts, ghost mine: set<Owner>,
                       ghost alone: bool)
    returns (all: CloseAll?, ghost filterOwn: Owner?, ghost envelopeOwn: Owner?)
    requires Ready(b) && h.owner.budget == Real(b) && h.owner !in mine && Sane(f) && Holds(h.owner, 0)
    requires alone ==> Ref(h.owner.scope) == ScopeOf(b)
    modifies Footprint(Real(b)) - mine
    ensures Ready(b) && Grows(Real(b))
    ensures Outcome(all, h, 0, filterOwn, envelopeOwn, mine)
    ensures all != null ==> Fresh(all) && Keeps(all, f)
    ensures (filterOwn != null ==> fresh(filterOwn)) && (envelopeOwn != null ==> fresh(envelopeOwn))
    ensures alone ==> Untouched(Real(b), Crew(h.owner, filterOwn, envelopeOwn))
    ensures alone ==> OneScope(h.owner, filterOwn, envelopeOwn)
    ensures alone ==> (all != null <==> Succeeds(f.(refused := false), old(Free(h.owner))))
    ensures alone && all != null ==> Rises(Real(b), BytesOf(all), HighWater(f, old(Free(h.owner))))
    ensures alone && Refuses(f, old(Free(h.owner))) ==> Blamed(h.owner)
  {
    hide NativeReadBudget.Valid, Free, SucceedsWithin, ScratchFits, MaxSize, MaxText, Keeps, Scratch, Sum, Crew,
         Outcome, OneScope, L.Only, L.Moved, L.Rose, WithinTop, WithinRefuses, Refuses, AllBytes;
    all, filterOwn, envelopeOwn := null, null, null;
    ghost var before, spare := Real(b).state, Free(h.owner);
    var scratch := SizeAndBorrow(h, f, mine, alone);
    ghost var between := Real(b).state;
    RefusedAside(f);
    if Refuses(f, spare) {
      RefusesBefore(f, spare);
    }
    if alone {
      SameCurrent(before, between, {h.owner});
    }
    if scratch.None? {
      NothingTaken(h, mine);
      return;
    }
    all, filterOwn, envelopeOwn := RefilterBetween(b, h, f, scratch.value, mine, alone);
    if alone {
      CrewOf(h.owner, filterOwn, envelopeOwn);
      CrewChain(before, between, Real(b).state, {h.owner}, Crew(h.owner, filterOwn, envelopeOwn), h.owner, filterOwn,
                envelopeOwn);
      if all != null {
        ScratchThenRest(before, between, Real(b).state, f, spare, BytesOf(all));
      }
    }
  }

  /** The scratch for the largest record or text found, or nothing. */
  method SizeAndBorrow(h: NativeReadReservation, f: Facts, ghost mine: set<Owner>, ghost alone: bool)
    returns (scratch: Option<nat>)
    requires Holds(h.owner, 0) && h.owner !in mine && Sane(f)
    modifies Footprint(h.owner.budget) - mine
    ensures Grows(h.owner.budget) && Holds(h.owner, if scratch.Some? then scratch.value else 0)
    ensures scratch.Some? ==> scratch.value == Scratch(MaxText(f.texts, MaxSize(f.records))) <= L.MAX_INT64
    ensures alone ==> Untouched(h.owner.budget, {h.owner})
    ensures alone && h.owner.budget != null ==>
              && (scratch.Some? <==> ScratchFits(f, old(Free(h.owner))))
              && Free(h.owner) == old(Free(h.owner)) - if scratch.Some? then scratch.value else 0
    ensures alone && scratch.Some? ==> Rises(h.owner.budget, scratch.value, Max(SIZING_SCRATCH, scratch.value))
    ensures alone && scratch.None? && AllBytes(f.records)
            && Scratch(MaxText(f.texts, MaxSize(f.records))) <= L.MAX_INT64 ==>
              Blamed(h.owner)
  {
    hide NativeReadBudget.Valid, Free, AllSized, MaxSize, MaxText, Scanner, Scratch, Quotient, L.Only, L.Moved;
    ghost var s0 := StateOf(h.owner.budget);
    var largest := SizeRefilter(h, f, mine, alone);
    if largest.None? {
      return None;
    }
    ghost var s1 := StateOf(h.owner.budget);
    scratch := BorrowScratch(h, largest.value, mine, alone);
    if alone && h.owner.budget != null {
      L.OnlyAgain(s0, s1, StateOf(h.owner.budget), {h.owner});
      assert L.Only(old(h.owner.budget.state), h.owner.budget.state, {h.owner});
    }
  }

  lemma RefusedAside(f: Facts)
    ensures forall spare :: SucceedsWithin(f, spare) == SucceedsWithin(f.(refused := false), spare)
    ensures forall spare :: ScratchFits(f, spare) == ScratchFits(f.(refused := false), spare)
  {}

  /** The deferred release of the scratch, whatever happened under it. */
  method RefilterBetween(b: NativeReadBudget, h: NativeReadReservation, f: Facts, scratch: nat,
                         ghost mine: set<Owner>, ghost alone: bool)
    returns (all: CloseAll?, ghost filterOwn: Owner?, ghost envelopeOwn: Owner?)
    requires Ready(b) && h.owner.budget == Real(b) && h.owner !in mine && Sane(f)
    requires scratch <= L.MAX_INT64 && Holds(h.owner, scratch)
    requires alone ==> Ref(h.owner.scope) == ScopeOf(b)
    modifies Footprint(Real(b)) - mine
    ensures Ready(b) && Grows(Real(b))
    ensures Outcome(all, h, 0, filterOwn, envelopeOwn, mine)
    ensures all != null ==> Fresh(all) && Keeps(all, f)
    ensures (filterOwn != null ==> fresh(filterOwn)) && (envelopeOwn != null ==> fresh(envelopeOwn))
    ensures alone ==> Untouched(Real(b), Crew(h.owner, filterOwn, envelopeOwn))
    ensures alone ==> OneScope(h.owner, filterOwn, envelopeOwn)
    ensures alone ==> (all != null <==> SucceedsWithin(f, old(Free(h.owner))))
    ensures alone && all != null ==> Rises(Real(b), BytesOf(all) - scratch, WithinTop(f, old(Free(h.owner))))
    ensures alone && WithinRefuses(f, old(Free(h.owner))) ==> Blamed(h.owner)
  {
    hide NativeReadBudget.Valid, Free, SucceedsWithin, Keeps, Outcome, WithinTop, WithinRefuses, L.Rose;
    ghost var before, spare := Real(b).state, Free(h.owner);
    all, filterOwn, envelopeOwn := RefilterWithin(b, h, f, scratch, mine, alone);
    ghost var between := Real(b).state;
    PeakAbove(b);
    StillReady(b, h, all, scratch, filterOwn, envelopeOwn, mine);
    if all == null {
      ReturnAfterFailure(h, scratch, filterOwn, envelopeOwn, mine, alone);
    } else {
      ReturnAfterSuccess(h, all, scratch, filterOwn, envelopeOwn, mine, alone);
      if alone {
        L.RoseThenReturned(before, between, Real(b).state, BytesOf(all), WithinTop(f, spare), scratch);
      }
    }
  }

  lemma StillReady(b: NativeReadBudget, h: NativeReadReservation, all: CloseAll?, scratch: nat, filterOwn: Owner?,
                   envelopeOwn: Owner?, mine: set<Owner>)
    requires Ready(b) && h.owner.budget == Real(b) && Outcome(all, h, scratch, filterOwn, envelopeOwn, mine)
    ensures all != null ==> all.handle == h && all !in Footprint(Real(b))
  {
    hide NativeReadBudget.Valid;
  }

  method ReturnAfterFailure(h: NativeReadReservation, scratch: nat, ghost filterOwn: Owner?,
                            ghost envelopeOwn: Owner?, ghost mine: set<Owner>, ghost alone: bool)
    requires h.owner !in mine && scratch <= L.MAX_INT64 && Outcome(null, h, scratch, filterOwn, envelopeOwn, mine)
    modifies Footprint(h.owner.budget) - mine
    ensures Grows(h.owner.budget) && Outcome(null, h, 0, filterOwn, envelopeOwn, mine)
    ensures alone ==> Untouched(h.owner.budget, {h.owner})
    ensures h.owner.budget != null ==> h.owner.budget.Valid()
  {
    hide NativeReadBudget.Valid;
    Give(h, scratch, scratch, mine + Just(filterOwn) + Just(envelopeOwn), alone);
  }

  method ReturnAfterSuccess(h: NativeReadReservation, all: CloseAll, scratch: nat, ghost filterOwn: Owner?,
                            ghost envelopeOwn: Owner?, ghost mine: set<Owner>, ghost alone: bool)
    requires h.owner !in mine && scratch <= L.MAX_INT64 && Outcome(all, h, scratch, filterOwn, envelopeOwn, mine)
    modifies Footprint(h.owner.budget) - mine
    ensures Grows(h.owner.budget) && Outcome(all, h, 0, filterOwn, envelopeOwn, mine)
    ensures alone ==> Untouched(h.owner.budget, {h.owner})
    ensures h.owner.budget != null ==> h.owner.budget.Valid()
    ensures alone ==> Rises(h.owner.budget, 0 - scratch, 0)
  {
    hide NativeReadBudget.Valid;
    Give(h, scratch, scratch + LeaseBytes(all.decoded), mine + Just(filterOwn) + Just(envelopeOwn), alone);
  }

  // ---- Balance --------------------------------------------------------------------

  /** Three owners' holdings, one by one. */
  lemma TallyOfCrew(owners: map<Owner, L.Account<ReadScope>>, main: Owner, filterOwn: Owner, envelopeOwn: Owner?)
    requires owners.Keys == Crew(main, filterOwn, envelopeOwn)
    requires main != filterOwn && main != envelopeOwn && filterOwn != envelopeOwn
    ensures L.Tally(owners, L.Everyone) ==
            owners[main].used + owners[filterOwn].used + if envelopeOwn == null then 0 else owners[envelopeOwn].used
  {
    var rest := owners - {main};
    L.TallyRemove(owners, L.Everyone, main);
    if envelopeOwn == null {
      L.TallyOne(rest, L.Everyone, filterOwn);
    } else {
      L.TallyRemove(rest, L.Everyone, filterOwn);
      L.TallyOne(rest - {filterOwn}, L.Everyone, envelopeOwn);
    }
  }

  /** What the call's owners hold together is what the closure will give back. */
  lemma CrewHolds(all: CloseAll?, own: Owner, filterOwn: Owner?, envelopeOwn: Owner?, mine: set<Owner>,
                  extra: map<Owner, L.Account<ReadScope>>)
    requires own.budget != null && Outcome(all, NativeReadReservation(own), 0, filterOwn, envelopeOwn, mine)
    requires extra.Keys == Crew(own, filterOwn, envelopeOwn)
    requires forall o :: o in extra ==> o in own.budget.state.owners && extra[o] == own.budget.state.owners[o]
    ensures L.Tally(extra, L.Everyone) == BytesOf(all)
  {
    ReadyLinked(own);
    if filterOwn != null {
      ReadyLinked(filterOwn);
    }
    if envelopeOwn != null {
      ReadyLinked(envelopeOwn);
    }
    hide NativeReadBudget.Valid;
    if all == null {
      L.TallyNobody(extra, L.Everyone);
    } else {
      TallyOfCrew(extra, own, filterOwn, envelopeOwn);
    }
  }

  /** Whatever the call's outcome, the ledger and its scope have moved by exactly what the closure will give back. */
  twostate lemma OutcomeMeansCharged(b: NativeReadBudget, new all: CloseAll?, new own: Owner, new filterOwn: Owner?,
                                     new envelopeOwn: Owner?, new mine: set<Owner>)
    requires old(Ready(b)) && fresh(own) && own.budget == Real(b)
    requires (filterOwn != null ==> fresh(filterOwn)) && (envelopeOwn != null ==> fresh(envelopeOwn))
    requires Outcome(all, NativeReadReservation(own), 0, filterOwn, envelopeOwn, mine)
    requires Untouched(Real(b), Crew(own, filterOwn, envelopeOwn))
    requires OneScope(own, filterOwn, envelopeOwn)
    ensures Charged(Real(b), Ref(own.scope), BytesOf(all))
  {
    hide NativeReadBudget.Valid, NativeReadBudget.Mirrors, L.Only, L.Moved, L.Conserved, Outcome;
    var before := old(Real(b).state);
    var now := Real(b).state;
    var ours := Crew(own, filterOwn, envelopeOwn);
    var extra := now.owners - before.owners.Keys;
    OutcomeReady(all, own, filterOwn, envelopeOwn, mine);
    NewToLedger(b, ours);
    assert extra.Keys == ours && L.Conserved(before) by {
      OnlyTheirs(before, now, ours);
    }
    CrewHolds(all, own, filterOwn, envelopeOwn, mine, extra);
    L.NewOwnersMove(before, now, ours, Ref(own.scope));
  }

  twostate lemma NewToLedger(b: NativeReadBudget, new ours: set<Owner>)
    requires old(Ready(b)) && forall o :: o in ours ==> fresh(o)
    ensures L.Conserved(old(Real(b).state)) && ours !! old(Real(b).state).owners.Keys
  {}

  lemma OnlyTheirs(l: L.Ledger<Owner, ReadScope>, later: L.Ledger<Owner, ReadScope>, ours: set<Owner>)
    requires L.Only(l, later, ours) && ours !! l.owners.Keys
    ensures (later.owners - l.owners.Keys).Keys == ours
  {}

  lemma OutcomeReady(all: CloseAll?, own: Owner, filterOwn: Owner?, envelopeOwn: Owner?, mine: set<Owner>)
    requires own.budget != null && Outcome(all, NativeReadReservation(own), 0, filterOwn, envelopeOwn, mine)
    ensures L.Conserved(own.budget.state)
    ensures forall o :: o in Crew(own, filterOwn, envelopeOwn) ==>
              && o.budget == own.budget && o in own.budget.state.owners
              && own.budget.state.owners[o].scope == Ref(o.scope)
  {
    hide L.Conserved;
  }

  lemma StillPending(h: NativeReadReservation, all: CloseAll, filterOwn: Owner?, envelopeOwn: Owner?, mine: set<Owner>)
    requires Outcome(all, h, 0, filterOwn, envelopeOwn, mine)
    ensures all.handle == h && filterOwn != null && !all.done && all.Pending(0, filterOwn, envelopeOwn, mine)
  {}

  /** What one run gives back is what the call had charged. */
  lemma BackAgain(before: L.Ledger<Owner, ReadScope>, between: L.Ledger<Owner, ReadScope>,
                  later: L.Ledger<Owner, ReadScope>, all: CloseAll?, own: Owner, filterOwn: Owner?, envelopeOwn: Owner?)
    requires L.Moved(before, between, Ref(own.scope), BytesOf(all)) && OneScope(own, filterOwn, envelopeOwn)
    requires all == null ==> later == between
    requires all != null ==>
               && filterOwn != null && (envelopeOwn == null ==> all.envelope == null)
               && GaveBack(between, later, own, LeaseBytes(all.decoded), filterOwn, LeaseBytes(all.filter), envelopeOwn,
                           LeaseBytes(all.envelope))
    ensures L.Moved(before, later, None, 0)
  {}

  /** A call and two runs of what it returned: the second run does nothing, and with nobody else moving the ledger and
      every scope are where they were, whatever the call met. */
  method RefilterReleasedTwice(b: NativeReadBudget?, f: Facts, ghost mine: set<Owner>, ghost alone: bool)
    requires Ready(b) && Sane(f)
    modifies Footprint(Real(b)) - mine
    ensures alone && b != null ==> Charged(Real(b), None, 0)
  {
    hide NativeReadBudget.Valid, L.Only, L.Moved, GaveBack, Keeps, Outcome;
    ghost var before := StateOf(Real(b));
    var all, own, filterOwn, envelopeOwn := RefilterRetainedSource(b, f, mine, alone);
    ghost var between := StateOf(Real(b));
    if all != null {
      StillPending(NativeReadReservation(own), all, filterOwn, envelopeOwn, mine);
      all.Run(0, filterOwn, envelopeOwn, mine, alone);
      all.Run(0, filterOwn, envelopeOwn, mine, alone);
    }
    if alone && b != null {
      BackAgain(before, between, Real(b).state, all, own, filterOwn, envelopeOwn);
    }
  }
}
