/** Retained evidence comparison (internal/agentapi/retained_evidence.go) and the history validation it relies on
    (internal/archive/history.go). Adapters and the identifier grammar are arbitrary functions. */
module Evidence {
  import opened Order

  const MAX_SPANS := 64
  const MAX_RECORDS := 1_000_000
  const HISTORY_SCHEMA := 3

  datatype Span = Span(rollout: string, thread: string, first: int, end: int, startOrdinal: nat, endOrdinal: nat)
  datatype History = History(active: string, thread: string, ownStart: Option<nat>, spans: seq<Span>)

  /** A retained source; `capture` stands for its filter, adapter and format versions, `text` for native text. */
  datatype Bundle = Bundle(schema: int, harness: string, capture: string, session: string, history: Option<History>,
                           ordinals: seq<nat>, records: seq<string>, text: seq<string>)

  /** A transcript filter, and its graph evidence if it has any. */
  datatype Adapter = Adapter(evidenceExtends: (Bundle, Bundle) -> bool, meaningful: Option<(Bundle, nat) -> bool>)

  // ---- Histories -------------------------------------------------------------------------

  ghost predicate ValidSpans(spans: seq<Span>, count: int, known: string -> bool) {
    && (forall i :: 0 <= i < |spans| ==>
          && known(spans[i].rollout) && known(spans[i].thread)
          && spans[i].first <= spans[i].end <= count && spans[i].startOrdinal <= spans[i].endOrdinal)
    && (forall i, j :: 0 <= i < j < |spans| ==> spans[i].rollout != spans[j].rollout)
    && (forall i, j :: 0 <= i && j == i + 1 < |spans| ==>
          spans[j].first == spans[i].end && spans[j].startOrdinal == spans[i].endOrdinal)
    && (spans != [] ==> spans[0].first == 0)
  }

  ghost predicate ValidHistory(h: History, thread: string, count: int, known: string -> bool) {
    && h.thread == thread && known(thread) && known(h.active)
    && 0 < |h.spans| <= MAX_SPANS && 0 <= count <= MAX_RECORDS
    && ValidSpans(h.spans, count, known)
    && var last := h.spans[|h.spans| - 1];
       last.end == count && last.rollout == h.active && last.thread == thread
       && (h.ownStart.Some? ==> h.ownStart.value <= last.endOrdinal)
  }

  /** Every record's ordinal lies in its span's interval, and the ordinals of a span increase. */
  ghost predicate OrdinalsIn(spans: seq<Span>, ordinals: seq<nat>) {
    forall s :: s in spans ==> SpanOrdinals(s, ordinals)
  }

  ghost predicate SpanOrdinals(s: Span, ordinals: seq<nat>) {
    && (forall i :: 0 <= s.first <= i < s.end <= |ordinals| ==> s.startOrdinal <= ordinals[i] < s.endOrdinal)
    && forall i, j :: 0 <= s.first <= i < j < s.end <= |ordinals| ==> ordinals[i] < ordinals[j]
  }

  lemma SpansSnoc(spans: seq<Span>, s: Span, count: int, known: string -> bool)
    ensures ValidSpans(spans + [s], count, known) <==>
            && ValidSpans(spans, count, known)
            && known(s.rollout) && known(s.thread) && s.first <= s.end <= count && s.startOrdinal <= s.endOrdinal
            && (forall i :: 0 <= i < |spans| ==> spans[i].rollout != s.rollout)
            && s.first == (if spans == [] then 0 else spans[|spans| - 1].end)
            && (spans != [] ==> s.startOrdinal == spans[|spans| - 1].endOrdinal)
  {
    var all := spans + [s];
    assert all[|spans|] == s && forall i :: 0 <= i < |spans| ==> all[i] == spans[i];
    if ValidSpans(all, count, known) && spans != [] {
      assert all[|spans| - 1].end == all[|spans|].first;
    }
  }

  lemma {:induction false} SpansPrefix(spans: seq<Span>, k: nat, count: int, known: string -> bool)
    requires k <= |spans| && ValidSpans(spans, count, known)
    ensures ValidSpans(spans[..k], count, known)
    decreases |spans| - k
  {
    if k < |spans| {
      SpansPrefix(spans, k + 1, count, known);
      assert spans[..k + 1] == spans[..k] + [spans[k]];
      SpansSnoc(spans[..k], spans[k], count, known);
    } else {
      assert spans[..k] == spans;
    }
  }

  /** SourceHistory.Validate */
  method Validate(h: History, thread: string, count: int, known: string -> bool) returns (ok: bool)
    ensures ok <==> ValidHistory(h, thread, count, known)
  {
    hide ValidSpans;
    if h.thread != thread || !known(thread) || !known(h.active) || |h.spans| == 0 || |h.spans| > MAX_SPANS
       || count < 0 || count > MAX_RECORDS {
      return false;
    }
    var next, end: nat, seen: set<string> := 0, 0, {};
    NoSpans(count, known);
    for k := 0 to |h.spans|
      invariant ValidSpans(h.spans[..k], count, known)
      invariant forall r :: r in seen <==> exists i :: 0 <= i < k && h.spans[i].rollout == r
      invariant next == (if k == 0 then 0 else h.spans[k - 1].end) && (k > 0 ==> end == h.spans[k - 1].endOrdinal)
    {
      var s := h.spans[k];
      assert h.spans[..k + 1] == h.spans[..k] + [s];
      SpansSnoc(h.spans[..k], s, count, known);
      if !known(s.rollout) || !known(s.thread) || s.rollout in seen || s.first != next || s.end < s.first
         || s.end > count || s.endOrdinal < s.startOrdinal || (k > 0 && s.startOrdinal != end) {
        assert !ValidSpans(h.spans[..k + 1], count, known);
        if ValidSpans(h.spans, count, known) {
          SpansPrefix(h.spans, k + 1, count, known);
        }
        return false;
      }
      seen, next, end := seen + {s.rollout}, s.end, s.endOrdinal;
    }
    assert h.spans[..|h.spans|] == h.spans;
    var last := h.spans[|h.spans| - 1];
    return next == count && last.rollout == h.active && last.thread == thread
           && (h.ownStart.Some? ==> h.ownStart.value <= end);
  }

  lemma NoSpans(count: int, known: string -> bool)
    ensures ValidSpans([], count, known)
  {}

  /** What ValidateHistory accepts of a bundle of the history schema. */
  ghost predicate ValidOwned(b: Bundle, known: string -> bool) {
    && b.schema == HISTORY_SCHEMA && b.harness == "codex"
    && b.history.Some? && b.text == [] && |b.ordinals| == |b.records|
    && ValidHistory(b.history.value, b.session, |b.records|, known)
    && OrdinalsIn(b.history.value.spans, b.ordinals)
  }

  /** ValidateHistory: a bundle of any other schema has neither history nor ordinals. */
  method ValidateHistory(b: Bundle, known: string -> bool) returns (ok: bool)
    ensures ok <==> ValidOwned(b, known) || (b.schema != HISTORY_SCHEMA && b.history.None? && b.ordinals == [])
  {
    hide SpanOrdinals;
    if b.schema != HISTORY_SCHEMA {
      return b.history.None? && |b.ordinals| == 0;
    }
    if b.harness != "codex" || b.text != [] || |b.ordinals| != |b.records| || b.history.None? {
      return false;
    }
    var h := b.history.value;
    var valid := Validate(h, b.session, |b.records|, known);
    if !valid {
      return false;
    }
    for k := 0 to |h.spans|
      invariant forall j :: 0 <= j < k ==> SpanOrdinals(h.spans[j], b.ordinals)
    {
      SpanFits(h.spans, k, |b.records|, known);
      var inside := CheckSpan(h.spans[k], b.ordinals);
      if !inside {
        assert h.spans[k] in h.spans;
        return false;
      }
    }
    return true;
  }

  lemma {:induction false} SpanFits(spans: seq<Span>, k: nat, count: int, known: string -> bool)
    requires k < |spans| && ValidSpans(spans, count, known)
    ensures 0 <= spans[k].first <= spans[k].end <= count
  {
    if k > 0 {
      SpanFits(spans, k - 1, count, known);
      assert spans[k].first == spans[k - 1].end;
    }
  }

  /** The inner loop: each ordinal against the interval and the one before it. */
  method CheckSpan(s: Span, ordinals: seq<nat>) returns (ok: bool)
    requires 0 <= s.first <= s.end <= |ordinals|
    ensures ok <==> SpanOrdinals(s, ordinals)
  {
    var prior: nat := 0;
    for i := s.first to s.end
      invariant forall j :: s.first <= j < i ==> s.startOrdinal <= ordinals[j] < s.endOrdinal
      invariant forall j, k :: s.first <= j < k < i ==> ordinals[j] < ordinals[k]
      invariant i > s.first ==> prior == ordinals[i - 1]
    {
      var n := ordinals[i];
      if n < s.startOrdinal || n >= s.endOrdinal || (i > s.first && n <= prior) {
        return false;
      }
      prior := n;
    }
    return true;
  }

  ghost predicate Increasing(ordinals: seq<nat>) {
    forall i, j :: 0 <= i < j < |ordinals| ==> ordinals[i] < ordinals[j]
  }

  lemma {:induction false} SpanBefore(spans: seq<Span>, i: nat, j: nat, count: int, known: string -> bool)
    requires ValidSpans(spans, count, known) && i < j < |spans|
    ensures spans[i].end <= spans[j].first && spans[i].endOrdinal <= spans[j].startOrdinal
  {
    assert spans[j].first == spans[j - 1].end && spans[j].startOrdinal == spans[j - 1].endOrdinal;
    if i < j - 1 {
      SpanBefore(spans, i, j - 1, count, known);
    }
  }

  lemma {:induction false} SpanOf(spans: seq<Span>, k: nat, r: nat, count: int, known: string -> bool) returns (i: nat)
    requires ValidSpans(spans, count, known) && k < |spans| && r < spans[k].end
    ensures i <= k && spans[i].first <= r < spans[i].end
  {
    i := k;
    if r < spans[k].first {
      assert k > 0 && spans[k].first == spans[k - 1].end;
      i := SpanOf(spans, k - 1, r, count, known);
    }
  }

  /** Contiguous spans with increasing ordinals inside disjoint intervals: the ordinals of the whole bundle increase. */
  lemma ValidMeansIncreasing(b: Bundle, known: string -> bool)
    requires ValidOwned(b, known)
    ensures Increasing(b.ordinals)
  {
    hide ValidSpans, SpanOrdinals;
    var spans, count := b.history.value.spans, |b.records|;
    forall i, j | 0 <= i < j < |b.ordinals|
      ensures b.ordinals[i] < b.ordinals[j]
    {
      var s := SpanOf(spans, |spans| - 1, i, count, known);
      var t := SpanOf(spans, |spans| - 1, j, count, known);
      assert spans[s] in spans && spans[t] in spans;
      SpanFits(spans, s, count, known);
      SpanFits(spans, t, count, known);
      OrdinalBounds(spans[s], b.ordinals, i);
      OrdinalBounds(spans[t], b.ordinals, j);
      if s < t {
        SpanBefore(spans, s, t, count, known);
      } else if t < s {
        SpanBefore(spans, t, s, count, known);
        assert false;
      } else {
        OrdinalOrder(spans[s], b.ordinals, i, j);
      }
    }
  }

  lemma OrdinalBounds(s: Span, ordinals: seq<nat>, i: nat)
    requires SpanOrdinals(s, ordinals) && 0 <= s.first <= i < s.end <= |ordinals|
    ensures s.startOrdinal <= ordinals[i] < s.endOrdinal
  {}

  lemma OrdinalOrder(s: Span, ordinals: seq<nat>, i: nat, j: nat)
    requires SpanOrdinals(s, ordinals) && 0 <= s.first <= i < j < s.end <= |ordinals|
    ensures ordinals[i] < ordinals[j]
  {}

  // ---- Comparison --------------------------------------------------------------------------

  function SpanAt(spans: seq<Span>, index: int): (s: Option<Span>)
    ensures s.Some? ==> s.value in spans && s.value.first <= index < s.value.end
  {
    if spans == [] then None
    else if spans[0].first <= index < spans[0].end then Some(spans[0])
    else SpanAt(spans[1..], index)
  }

  predicate OwnRecord(b: Bundle, i: nat) {
    b.history.None? ||
    var s := SpanAt(b.history.value.spans, i);
    && s.Some? && s.value.thread == b.session && i < |b.ordinals|
    && (b.history.value.ownStart.Some? ==> b.ordinals[i] >= b.history.value.ownStart.value)
  }

  /** Owned and meaningful records are the ones compared. */
  predicate Compared(b: Bundle, i: nat, meaningful: (Bundle, nat) -> bool) {
    i < |b.records| && OwnRecord(b, i) && meaningful(b, i)
  }

  lemma {:induction false} SpanAtIs(spans: seq<Span>, k: nat, index: int, count: int, known: string -> bool)
    requires ValidSpans(spans, count, known) && k < |spans| && spans[k].first <= index < spans[k].end
    ensures SpanAt(spans, index) == Some(spans[k])
  {
    SpanAtFrom(spans, 0, k, index, count, known);
    assert spans[0..] == spans;
  }

  lemma {:induction false} SpanAtFrom(spans: seq<Span>, j: nat, k: nat, index: int, count: int, known: string -> bool)
    requires ValidSpans(spans, count, known) && j <= k < |spans| && spans[k].first <= index < spans[k].end
    ensures SpanAt(spans[j..], index) == Some(spans[k])
    decreases k - j
  {
    hide ValidSpans;
    assert spans[j..][0] == spans[j] && spans[j..][1..] == spans[j + 1..];
    if j < k {
      SpanBefore(spans, j, k, count, known);
      SpanAtFrom(spans, j + 1, k, index, count, known);
    }
  }

  /** What is compared of a valid history: a meaningful record of the session's own thread, from where its own part
      starts. Nothing of another thread's span, and nothing inherited before `ownStart`, is kept or compared. */
  lemma ComparedIffOwn(b: Bundle, k: nat, i: nat, known: string -> bool, meaningful: (Bundle, nat) -> bool)
    requires ValidOwned(b, known) && i < |b.records|
    requires k < |b.history.value.spans| && b.history.value.spans[k].first <= i < b.history.value.spans[k].end
    ensures Compared(b, i, meaningful) <==>
            && b.history.value.spans[k].thread == b.session
            && (b.history.value.ownStart.Some? ==> b.history.value.ownStart.value <= b.ordinals[i])
            && meaningful(b, i)
  {
    SpanAtIs(b.history.value.spans, k, i, |b.records|, known);
  }

  /** Without a history every meaningful record is compared. */
  lemma ComparedWithoutHistory(b: Bundle, i: nat, meaningful: (Bundle, nat) -> bool)
    requires b.history.None?
    ensures Compared(b, i, meaningful) <==> i < |b.records| && meaningful(b, i)
  {}

  function RevisionId(b: Bundle): string {
    if b.history.Some? then b.history.value.active else b.session
  }

  function Single(b: Bundle, i: nat): Bundle
    requires i < |b.records|
  {
    b.(history := None, ordinals := [], records := [b.records[i]], text := [])
  }

  function Kept(b: Bundle, k: nat, meaningful: (Bundle, nat) -> bool): seq<string>
    requires k <= |b.records|
  {
    if k == 0 then []
    else if Compared(b, k - 1, meaningful) then Kept(b, k - 1, meaningful) + [b.records[k - 1]]
    else Kept(b, k - 1, meaningful)
  }

  /** `kept` lists, in order, the records of exactly the owned meaningful positions, each once. */
  ghost predicate Selects(b: Bundle, positions: seq<nat>, kept: seq<string>, meaningful: (Bundle, nat) -> bool) {
    && Increasing(positions)
    && (forall i: nat :: i in positions <==> Compared(b, i, meaningful))
    && |kept| == |positions|
    && forall t :: 0 <= t < |kept| ==> positions[t] < |b.records| && kept[t] == b.records[positions[t]]
  }

  /** The owned meaningful positions before `k`. */
  ghost function Positions(b: Bundle, k: nat, meaningful: (Bundle, nat) -> bool): seq<nat>
    requires k <= |b.records|
  {
    if k == 0 then []
    else if Compared(b, k - 1, meaningful) then Positions(b, k - 1, meaningful) + [k - 1]
    else Positions(b, k - 1, meaningful)
  }

  lemma {:induction false} PositionsSelect(b: Bundle, k: nat, meaningful: (Bundle, nat) -> bool)
    requires k <= |b.records|
    ensures var positions, kept := Positions(b, k, meaningful), Kept(b, k, meaningful);
            && Increasing(positions)
            && (forall i: nat :: i in positions <==> i < k && Compared(b, i, meaningful))
            && |kept| == |positions|
            && forall t :: 0 <= t < |kept| ==> positions[t] < k && kept[t] == b.records[positions[t]]
  {
    hide Compared;
    if k > 0 {
      PositionsSelect(b, k - 1, meaningful);
    }
  }

  /** What a projection keeps: exactly the owned meaningful records, in order, each once. */
  lemma KeptIsSelected(b: Bundle, meaningful: (Bundle, nat) -> bool)
    ensures exists positions :: Selects(b, positions, Projected(b, meaningful).records, meaningful)
  {
    var n := |b.records|;
    PositionsSelect(b, n, meaningful);
    assert Selects(b, Positions(b, n, meaningful), Projected(b, meaningful).records, meaningful);
  }

  /** OwnedRevisionProjection */
  method Projection(b: Bundle, meaningful: (Bundle, nat) -> bool) returns (r: Bundle)
    ensures r == Projected(b, meaningful)
    ensures r.history.None? && r.ordinals == [] && r.text == [] && r.capture == b.capture && r.session == b.session
    ensures exists positions :: Selects(b, positions, r.records, meaningful)
  {
    KeptIsSelected(b, meaningful);
    var records: seq<string> := [];
    for i := 0 to |b.records|
      invariant records == Kept(b, i, meaningful)
    {
      if OwnRecord(b, i) && meaningful(b, i) {
        records := records + [b.records[i]];
      }
    }
    return b.(history := None, ordinals := [], records := records, text := []);
  }

  function Projected(b: Bundle, meaningful: (Bundle, nat) -> bool): Bundle {
    b.(history := None, ordinals := [], records := Kept(b, |b.records|, meaningful), text := [])
  }

  predicate Matches(a: Adapter, p: Bundle, i: nat, c: Bundle, j: nat)
    requires i < |p.records| == |p.ordinals| && j < |c.records| == |c.ordinals|
  {
    p.ordinals[i] == c.ordinals[j] && a.evidenceExtends(Single(p, i), Single(c, j))
  }

  ghost predicate MatchedBy(a: Adapter, p: Bundle, i: nat, c: Bundle, j: nat, meaningful: (Bundle, nat) -> bool)
    requires i < |p.records| == |p.ordinals| && |c.records| == |c.ordinals|
  {
    Compared(c, j, meaningful) && Matches(a, p, i, c, j)
  }

  /** Every owned meaningful record of `p` is extended by one of `c` with the same ordinal. */
  ghost predicate Covers(a: Adapter, p: Bundle, c: Bundle, meaningful: (Bundle, nat) -> bool)
    requires |p.records| == |p.ordinals| && |c.records| == |c.ordinals|
  {
    forall i :: 0 <= i < |p.records| && Compared(p, i, meaningful) ==>
      exists j :: 0 <= j < |c.records| && MatchedBy(a, p, i, c, j, meaningful)
  }

  /** Skipped candidates can match no remaining record. */
  ghost predicate Passed(p: Bundle, i: nat, c: Bundle, j: nat, meaningful: (Bundle, nat) -> bool)
    requires |p.records| == |p.ordinals| && |c.records| == |c.ordinals|
  {
    forall ii, jj ::
      i <= ii < |p.records| && 0 <= jj < j <= |c.records| && Compared(p, ii, meaningful) && Compared(c, jj, meaningful)
      ==> c.ordinals[jj] < p.ordinals[ii]
  }

  /** The two-index loop over both bundles' records. What it accepts is covered, whatever the ordinals; with increasing
      ordinals it accepts all that is covered. */
  method CompareOwned(a: Adapter, p: Bundle, c: Bundle, meaningful: (Bundle, nat) -> bool) returns (ok: bool)
    requires |p.records| == |p.ordinals| && |c.records| == |c.ordinals|
    ensures ok ==> Covers(a, p, c, meaningful)
    ensures Increasing(p.ordinals) && Increasing(c.ordinals) && Covers(a, p, c, meaningful) ==> ok
  {
    hide OwnRecord, Single;
    var j := 0;
    for i := 0 to |p.records|
      invariant j <= |c.records| && (Increasing(p.ordinals) ==> Passed(p, i, c, j, meaningful))
      invariant forall ii :: 0 <= ii < i && Compared(p, ii, meaningful) ==>
                  exists jj :: 0 <= jj < |c.records| && MatchedBy(a, p, ii, c, jj, meaningful)
    {
      if Compared(p, i, meaningful) {
        while j < |c.records| && (c.ordinals[j] < p.ordinals[i] || !Compared(c, j, meaningful))
          invariant j <= |c.records| && (Increasing(p.ordinals) ==> Passed(p, i, c, j, meaningful))
        {
          j := j + 1;
        }
        if j == |c.records| || c.ordinals[j] != p.ordinals[i] || !a.evidenceExtends(Single(p, i), Single(c, j)) {
          if Increasing(p.ordinals) && Increasing(c.ordinals) {
            NoMatch(a, p, i, c, j, meaningful);
          }
          return false;
        }
        assert MatchedBy(a, p, i, c, j, meaningful);
      }
    }
    return true;
  }

  lemma NoMatch(a: Adapter, p: Bundle, i: nat, c: Bundle, j: nat, meaningful: (Bundle, nat) -> bool)
    requires |p.records| == |p.ordinals| && |c.records| == |c.ordinals| && Increasing(c.ordinals)
    requires i < |p.records| && Compared(p, i, meaningful) && j <= |c.records| && Passed(p, i, c, j, meaningful)
    requires j < |c.records| ==>
               && c.ordinals[j] >= p.ordinals[i]
               && (c.ordinals[j] != p.ordinals[i] || !a.evidenceExtends(Single(p, i), Single(c, j)))
    ensures forall jj :: 0 <= jj < |c.records| ==> !MatchedBy(a, p, i, c, jj, meaningful)
  {
    hide OwnRecord, Single;
    forall jj | 0 <= jj < |c.records|
      ensures !MatchedBy(a, p, i, c, jj, meaningful)
    {
      if jj > j {
        assert c.ordinals[j] < c.ordinals[jj];
      }
    }
  }

  /** OwnedEvidenceCovered, for every kind of bundle; the native loop when both carry a history. */
  ghost predicate EvidenceCovered(a: Adapter, p: Bundle, c: Bundle)
    requires p.history.Some? ==> |p.records| == |p.ordinals|
    requires c.history.Some? ==> |c.records| == |c.ordinals|
  {
    && p.capture == c.capture
    && if a.meaningful.None? then
         p.history.None? && c.history.None? && p.session == c.session && a.evidenceExtends(p, c)
       else if p.history.None? || c.history.None? then
         && RevisionId(p) == RevisionId(c)
         && a.evidenceExtends(Projected(p, a.meaningful.value), Projected(c, a.meaningful.value))
       else Covers(a, p, c, a.meaningful.value)
  }

  method OwnedEvidenceCovered(a: Adapter, p: Bundle, c: Bundle) returns (ok: bool)
    requires p.history.Some? ==> |p.records| == |p.ordinals|
    requires c.history.Some? ==> |c.records| == |c.ordinals|
    ensures ok ==> EvidenceCovered(a, p, c)
    ensures (p.history.Some? && c.history.Some? ==> Increasing(p.ordinals) && Increasing(c.ordinals)) ==>
              EvidenceCovered(a, p, c) ==> ok
  {
    hide Covers, Increasing;
    if p.capture != c.capture {
      return false;
    }
    if p.history.None? && c.history.None? && a.meaningful.None? {
      return p.session == c.session && a.evidenceExtends(p, c);
    }
    if a.meaningful.None? {
      return false;
    }
    if p.history.None? || c.history.None? {
      if RevisionId(p) != RevisionId(c) {
        return false;
      }
      var left := Projection(p, a.meaningful.value);
      var right := Projection(c, a.meaningful.value);
      return a.evidenceExtends(left, right);
    }
    ok := CompareOwned(a, p, c, a.meaningful.value);
  }

  /** What coverage means: the same capture; for an adapter without graph evidence one session without histories that it
      finds extended; otherwise one revision whose kept records it finds extended, or, between two histories, a compared
      record of the same ordinal that it finds extended for every compared record. */
  lemma CoveredMeans(a: Adapter, p: Bundle, c: Bundle, i: nat)
    requires p.history.Some? ==> |p.records| == |p.ordinals|
    requires c.history.Some? ==> |c.records| == |c.ordinals|
    requires EvidenceCovered(a, p, c)
    ensures p.capture == c.capture
    ensures a.meaningful.None? ==>
              p.history.None? && c.history.None? && p.session == c.session && a.evidenceExtends(p, c)
    ensures a.meaningful.Some? && (p.history.None? || c.history.None?) ==>
              && (if p.history.Some? then p.history.value.active else p.session) ==
                 (if c.history.Some? then c.history.value.active else c.session)
              && a.evidenceExtends(Projected(p, a.meaningful.value), Projected(c, a.meaningful.value))
    ensures a.meaningful.Some? && p.history.Some? && c.history.Some? && Compared(p, i, a.meaningful.value) ==>
              exists j :: 0 <= j < |c.records| && Compared(c, j, a.meaningful.value) && p.ordinals[i] == c.ordinals[j]
                          && a.evidenceExtends(Single(p, i), Single(c, j))
  {
    hide OwnRecord, Single, Projected;
    if a.meaningful.Some? && p.history.Some? && c.history.Some? && Compared(p, i, a.meaningful.value) {
      var j :| 0 <= j < |c.records| && MatchedBy(a, p, i, c, j, a.meaningful.value);
      assert Compared(c, j, a.meaningful.value);
    }
  }

  // ---- A preorder ------------------------------------------------------------------------------

  ghost predicate Preorder(evidenceExtends: (Bundle, Bundle) -> bool) {
    && (forall b :: evidenceExtends(b, b))
    && forall x, y, z :: evidenceExtends(x, y) && evidenceExtends(y, z) ==> evidenceExtends(x, z)
  }

  /** Exactly two of the three carry a history. */
  predicate TwoHistories(x: Bundle, y: Bundle, z: Bundle) {
    || (x.history.Some? && y.history.Some? && z.history.None?)
    || (x.history.Some? && y.history.None? && z.history.Some?)
    || (x.history.None? && y.history.Some? && z.history.Some?)
  }

  /** Coverage compares as the adapter's own evidence does: reflexive on exactly the bundles the adapter can compare
      with themselves, and transitive unless exactly two of three bundles carry a history. */
  lemma CoverageIsPreorder(a: Adapter, x: Bundle, y: Bundle, z: Bundle)
    requires Preorder(a.evidenceExtends)
    requires x.history.Some? ==> |x.records| == |x.ordinals|
    requires y.history.Some? ==> |y.records| == |y.ordinals|
    requires z.history.Some? ==> |z.records| == |z.ordinals|
    ensures EvidenceCovered(a, x, x) <==> (x.history.Some? ==> a.meaningful.Some?)
    ensures !TwoHistories(x, y, z) && EvidenceCovered(a, x, y) && EvidenceCovered(a, y, z) ==> EvidenceCovered(a, x, z)
  {
    hide Covers, Projected;
    if a.meaningful.Some? {
      var m := a.meaningful.value;
      if x.history.Some? {
        CoversReflexive(a, x, m);
      }
      if x.history.Some? && y.history.Some? && z.history.Some? && Covers(a, x, y, m) && Covers(a, y, z, m) {
        CoversTransitive(a, x, y, z, m);
      }
    }
  }

  /** A valid bundle of `n` records of its own with the history of one rollout. */
  function OneRollout(active: string, n: nat): Bundle {
    Bundle(HISTORY_SCHEMA, "codex", "", "s", Some(History(active, "s", None, [Span(active, "s", 0, n, 0, n)])),
           seq(n, i => i), seq(n, i => "record"), [])
  }

  function Anything(): Adapter {
    Adapter((p, c) => true, Some((b, i) => true))
  }

  function NoHistory(session: string): Bundle {
    Bundle(2, "codex", "", session, None, [], [], [])
  }

  lemma RolloutValid(active: string, n: nat)
    requires n <= MAX_RECORDS
    ensures ValidOwned(OneRollout(active, n), s => true)
    ensures forall i :: 0 <= i < n ==> OwnRecord(OneRollout(active, n), i)
  {
    var b := OneRollout(active, n);
    assert forall i :: 0 <= i < n ==> b.ordinals[i] == i;
    forall i | 0 <= i < n
      ensures OwnRecord(b, i)
    {
      assert SpanAt(b.history.value.spans, i) == Some(b.history.value.spans[0]);
    }
  }

  /** Mixed pairs go by the active rollout and by all records at once, pairs of histories by ordinal. */
  lemma HistoryThroughNone()
    ensures var x, y, z := OneRollout("a", 1), NoHistory("a"), OneRollout("a", 0);
            EvidenceCovered(Anything(), x, y) && EvidenceCovered(Anything(), y, z) && !EvidenceCovered(Anything(), x, z)
  {
    hide OwnRecord, Projected;
    RolloutValid("a", 1);
    assert Compared(OneRollout("a", 1), 0, Anything().meaningful.value);
  }

  lemma ThroughTwoHistories()
    ensures var x, y, z := OneRollout("a", 0), OneRollout("b", 0), NoHistory("b");
            EvidenceCovered(Anything(), x, y) && EvidenceCovered(Anything(), y, z) && !EvidenceCovered(Anything(), x, z)
    ensures var x, y, z := NoHistory("a"), OneRollout("a", 0), OneRollout("b", 0);
            EvidenceCovered(Anything(), x, y) && EvidenceCovered(Anything(), y, z) && !EvidenceCovered(Anything(), x, z)
  {
    hide OwnRecord, Projected;
    assert RevisionId(OneRollout("a", 0)) == "a" && RevisionId(OneRollout("b", 0)) == "b";
    assert "a"[0] != "b"[0];
  }

  /** Each way of two among three carrying a history breaks transitivity, on valid bundles and for an adapter to which
      all records are alike. */
  lemma MixedKindsAreNotTransitive()
    ensures Preorder(Anything().evidenceExtends)
    ensures var x, y, z := OneRollout("a", 1), NoHistory("a"), OneRollout("a", 0);
            EvidenceCovered(Anything(), x, y) && EvidenceCovered(Anything(), y, z) && !EvidenceCovered(Anything(), x, z)
    ensures var x, y, z := OneRollout("a", 0), OneRollout("b", 0), NoHistory("b");
            EvidenceCovered(Anything(), x, y) && EvidenceCovered(Anything(), y, z) && !EvidenceCovered(Anything(), x, z)
    ensures var x, y, z := NoHistory("a"), OneRollout("a", 0), OneRollout("b", 0);
            EvidenceCovered(Anything(), x, y) && EvidenceCovered(Anything(), y, z) && !EvidenceCovered(Anything(), x, z)
    ensures forall active, n :: n <= 1 ==> ValidOwned(OneRollout(active, n), s => true)
  {
    hide EvidenceCovered, ValidOwned;
    forall active, n: nat | n <= 1
      ensures ValidOwned(OneRollout(active, n), s => true)
    {
      RolloutValid(active, n);
    }
    HistoryThroughNone();
    ThroughTwoHistories();
  }

  lemma CoversReflexive(a: Adapter, x: Bundle, meaningful: (Bundle, nat) -> bool)
    requires Preorder(a.evidenceExtends) && |x.records| == |x.ordinals|
    ensures Covers(a, x, x, meaningful)
  {
    hide OwnRecord, Single;
    forall i | 0 <= i < |x.records| && Compared(x, i, meaningful)
      ensures exists j :: 0 <= j < |x.records| && MatchedBy(a, x, i, x, j, meaningful)
    {
      assert MatchedBy(a, x, i, x, i, meaningful);
    }
  }

  lemma CoversTransitive(a: Adapter, x: Bundle, y: Bundle, z: Bundle, meaningful: (Bundle, nat) -> bool)
    requires Preorder(a.evidenceExtends) && |x.records| == |x.ordinals| && |y.records| == |y.ordinals|
    requires |z.records| == |z.ordinals|
    requires Covers(a, x, y, meaningful) && Covers(a, y, z, meaningful)
    ensures Covers(a, x, z, meaningful)
  {
    hide OwnRecord, Single;
    forall i | 0 <= i < |x.records| && Compared(x, i, meaningful)
      ensures exists k :: 0 <= k < |z.records| && MatchedBy(a, x, i, z, k, meaningful)
    {
      var j :| 0 <= j < |y.records| && MatchedBy(a, x, i, y, j, meaningful);
      var k :| 0 <= k < |z.records| && MatchedBy(a, y, j, z, k, meaningful);
      assert a.evidenceExtends(Single(x, i), Single(y, j)) && a.evidenceExtends(Single(y, j), Single(z, k));
      assert MatchedBy(a, x, i, z, k, meaningful);
    }
  }
}
