/** `sourceWireSize` and the scanner growth of internal/agentapi/retained_decode_lease.go: measuring a decompressed
    stream read chunk by chunk, before any of it is decoded. */
module WireSize {
  import opened Order

  type Byte = x: int | 0 <= x < 256

  const NEWLINE: Byte := 10
  /** archive.MaxRecordBytes, and one source line with its envelope. */
  const MAX_RECORD_BYTES: int := 64 * 1024 * 1024
  const MAX_SOURCE_LINE_BYTES: int := MAX_RECORD_BYTES + 0x10_0000
  const SCANNER_START: int := 64 * 1024

  datatype Status = More | Eof | Broken

  /** What one Read call of the decompressor returned. */
  datatype Read = Read(bytes: seq<Byte>, status: Status)

  datatype Size = Sized(total: nat, longest: nat) | TooLarge | Failed

  /** A reader that goes on until it reports its end or an error. */
  predicate Stream(chunks: seq<Read>) {
    && chunks != []
    && chunks[|chunks| - 1].status != More
    && forall i :: 0 <= i < |chunks| - 1 ==> chunks[i].status == More
  }

  function Whole(chunks: seq<Read>): seq<Byte> {
    if chunks == [] then [] else Whole(chunks[..|chunks| - 1]) + chunks[|chunks| - 1].bytes
  }

  // ---- The longest line, independently of how it is computed -----------------

  ghost predicate LineAt(bytes: seq<Byte>, i: nat, j: nat) {
    i <= j <= |bytes| && forall k :: i <= k < j ==> bytes[k] != NEWLINE
  }

  /** `n` is the length of some newline-free stretch, and none is longer. */
  ghost predicate LongestLine(bytes: seq<Byte>, n: nat) {
    && (exists i: nat, j: nat :: LineAt(bytes, i, j) && j - i == n)
    && forall i: nat, j: nat :: LineAt(bytes, i, j) ==> j - i <= n
  }

  /** Length of the unfinished last line. */
  function Tail(bytes: seq<Byte>): (n: nat)
    ensures n <= |bytes|
  {
    if bytes == [] || bytes[|bytes| - 1] == NEWLINE then 0 else Tail(bytes[..|bytes| - 1]) + 1
  }

  function Longest(bytes: seq<Byte>): nat {
    if bytes == [] then 0 else Max(Longest(bytes[..|bytes| - 1]), Tail(bytes))
  }

  lemma {:induction false} TailIsLine(bytes: seq<Byte>, i: nat)
    ensures LineAt(bytes, |bytes| - Tail(bytes), |bytes|)
    ensures LineAt(bytes, i, |bytes|) ==> |bytes| - i <= Tail(bytes)
  {
    if bytes != [] {
      var n := |bytes| - 1;
      var before := bytes[..n];
      TailIsLine(before, i);
      if bytes[n] != NEWLINE && LineAt(bytes, i, |bytes|) && i <= n {
        assert LineAt(before, i, n);
      }
    }
  }

  /** The recursive count finds the longest line. */
  lemma {:induction false} LongestIsLongestLine(bytes: seq<Byte>)
    ensures LongestLine(bytes, Longest(bytes))
  {
    if bytes == [] {
      assert LineAt(bytes, 0, 0);
    } else {
      var n := |bytes| - 1;
      var before := bytes[..n];
      LongestIsLongestLine(before);
      TailIsLine(bytes, 0);
      var a: nat, b: nat :| LineAt(before, a, b) && b - a == Longest(before);
      assert LineAt(bytes, a, b);
      forall i: nat, j: nat | LineAt(bytes, i, j)
        ensures j - i <= Longest(bytes)
      {
        if j == |bytes| {
          TailIsLine(bytes, i);
        } else {
          assert LineAt(before, i, j);
        }
      }
    }
  }

  lemma LongestMonotone(bytes: seq<Byte>, more: seq<Byte>)
    ensures Longest(bytes) <= Longest(bytes + more)
  {
    LongestIsLongestLine(bytes);
    LongestIsLongestLine(bytes + more);
    var i: nat, j: nat :| LineAt(bytes, i, j) && j - i == Longest(bytes);
    assert LineAt(bytes + more, i, j);
  }

  predicate Exceeds(bytes: seq<Byte>, limit: int) {
    Longest(bytes) > MAX_SOURCE_LINE_BYTES || |bytes| > limit
  }

  lemma {:induction false} WholePrefix(chunks: seq<Read>, k: nat)
    requires k <= |chunks|
    ensures exists more :: Whole(chunks) == Whole(chunks[..k]) + more
    decreases |chunks| - k
  {
    if k == |chunks| {
      assert chunks[..k] == chunks;
      assert Whole(chunks) == Whole(chunks[..k]) + [];
    } else {
      WholePrefix(chunks, k + 1);
      assert chunks[..k + 1][..k] == chunks[..k];
      var more :| Whole(chunks) == Whole(chunks[..k + 1]) + more;
      assert Whole(chunks) == Whole(chunks[..k]) + (chunks[k].bytes + more);
    }
  }

  lemma {:induction false} ExceedsEarly(chunks: seq<Read>, k: nat, limit: int)
    requires k <= |chunks| && Exceeds(Whole(chunks[..k]), limit)
    ensures Exceeds(Whole(chunks), limit)
  {
    hide Whole, Longest;
    WholePrefix(chunks, k);
    var more :| Whole(chunks) == Whole(chunks[..k]) + more;
    LongestMonotone(Whole(chunks[..k]), more);
  }

  lemma SizedWithinBounds(bytes: seq<Byte>, limit: int)
    requires !Exceeds(bytes, limit)
    ensures Longest(bytes) <= MAX_SOURCE_LINE_BYTES && |bytes| <= limit
  {}

  lemma Empty()
    ensures Whole([]) == [] && Tail([]) == 0 && Longest([]) == 0
  {}

  lemma WholeNext(chunks: seq<Read>, k: nat)
    requires k < |chunks|
    ensures Whole(chunks[..k + 1]) == Whole(chunks[..k]) + chunks[k].bytes
  {
    assert chunks[..k + 1][..k] == chunks[..k];
  }

  /** Scans one chunk, carrying the unfinished line. */
  method ScanChunk(ghost before: seq<Byte>, chunk: seq<Byte>, longest0: nat, line0: nat)
    returns (longest: nat, line: nat)
    requires line0 == Tail(before) && Max(longest0, line0) == Longest(before)
    ensures line == Tail(before + chunk) && Max(longest, line) == Longest(before + chunk)
  {
    longest, line := longest0, line0;
    assert before + chunk[..0] == before;
    for k := 0 to |chunk|
      invariant line == Tail(before + chunk[..k]) && Max(longest, line) == Longest(before + chunk[..k])
    {
      assert (before + chunk[..k + 1])[..|before| + k] == before + chunk[..k];
      if chunk[k] == NEWLINE {
        longest := Max(longest, line);
        line := 0;
      } else {
        line := line + 1;
      }
    }
    assert chunk[..|chunk|] == chunk;
  }

  /** Streaming equals whole: however the stream is cut into reads, the answer is that of the bytes read before
      `cancelled` (the read at which the context ends, if any): too large exactly when a bound is exceeded. */
  method SourceWireSize(gzipped: bool, chunks: seq<Read>, cancelled: nat, limit: nat) returns (r: Size)
    requires Stream(chunks)
    ensures !gzipped ==> r == Failed
    ensures gzipped ==>
              var done := if cancelled < |chunks| then chunks[..cancelled] else chunks;
              r == if Exceeds(Whole(done), limit) then TooLarge
                   else if cancelled < |chunks| || chunks[|chunks| - 1].status == Broken then Failed
                   else Sized(|Whole(chunks)|, Longest(Whole(chunks)))
  {
    hide Whole, Longest, Tail;
    if !gzipped {
      return Failed;
    }
    Empty();
    var total: nat, longest: nat, line: nat := 0, 0, 0;
    ghost var done := if cancelled < |chunks| then chunks[..cancelled] else chunks;
    for k := 0 to |chunks|
      invariant k <= cancelled
      invariant total == |Whole(chunks[..k])|
      invariant line == Tail(Whole(chunks[..k])) && Max(longest, line) == Longest(Whole(chunks[..k]))
      invariant !Exceeds(Whole(chunks[..k]), limit)
      invariant k > 0 ==> chunks[k - 1].status == More
    {
      if k == cancelled {
        return Failed;
      }
      ghost var before := Whole(chunks[..k]);
      WholeNext(chunks, k);
      assert done[..k + 1] == chunks[..k + 1];
      total := total + |chunks[k].bytes|;
      longest, line := ScanChunk(before, chunks[k].bytes, longest, line);
      if Max(longest, line) > MAX_SOURCE_LINE_BYTES || total > limit {
        ExceedsEarly(done, k + 1, limit);
        return TooLarge;
      }
      if chunks[k].status != More {
        assert chunks[..k + 1] == chunks;
        return if chunks[k].status == Eof then Sized(total, Max(longest, line)) else Failed;
      }
    }
    assert false;
  }

  /** Doubling from `capacity` until the longest line and one byte more fit, or `cap` is reached. */
  function GrowTo(capacity: int, longest: nat, cap: nat): int
    requires 0 < capacity
    decreases cap - capacity
  {
    if capacity < longest + 1 && capacity < cap then
      GrowTo(if capacity * 2 < cap then capacity * 2 else cap, longest, cap)
    else capacity
  }

  /** The scanner's buffer: doubled from 64 KiB until it holds the longest line and one byte more, up to `cap`. */
  method LineCapacity(longest: nat, cap: nat) returns (capacity: int)
    requires SCANNER_START <= cap
    ensures SCANNER_START <= capacity <= cap
    ensures longest < cap ==> longest + 1 <= capacity
    ensures capacity > SCANNER_START ==> capacity < 2 * (longest + 1)
    ensures capacity == GrowTo(SCANNER_START, longest, cap)
  {
    capacity := SCANNER_START;
    while capacity < longest + 1 && capacity < cap
      invariant SCANNER_START <= capacity <= cap
      invariant capacity > SCANNER_START ==> capacity < 2 * (longest + 1)
      invariant GrowTo(capacity, longest, cap) == GrowTo(SCANNER_START, longest, cap)
      decreases cap - capacity
    {
      capacity := if capacity * 2 < cap then capacity * 2 else cap;
    }
  }

  /** The stream is readable to its end, uncancelled, within both bounds. */
  predicate Measurable(gzipped: bool, chunks: seq<Read>, cancelled: nat, limit: int)
    requires Stream(chunks)
  {
    gzipped && |chunks| <= cancelled && chunks[|chunks| - 1].status == Eof && !Exceeds(Whole(chunks), limit)
  }
}
