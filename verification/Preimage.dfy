/** The byte recipe behind `permission_content_sha256` (scripts/muse_qualification.py). The digest is a function of the
    bytes fed to it, so the recipe is modelled by those bytes. */
module Preimage {
  import opened Order

  type Byte = x: int | 0 <= x < 256

  /** What a Python string holds: code points, lone surrogates included. */
  type CodePoint = x: int | 0 <= x < 0x11_0000

  const FILE_LIMIT: int := 32 * 1024 * 1024
  const CHUNK: int := 65536
  const MAX_CHILDREN: int := 4096
  const DOMAIN: string := "muse.session_permission_transaction.v1"

  datatype Child = Child(index: int, record: seq<CodePoint>)
  /** `transaction` is the 16-byte value of the UUID. */
  datatype Frame = Frame(ordinal: int, transaction: seq<Byte>, children: seq<Child>)

  // ---- UTF-8 (section 3 of RFC 3629) -----------------------------------------------------

  /** Strict encoding refuses surrogates. */
  predicate Scalar(c: int) {
    0 <= c < 0xD800 || 0xE000 <= c < 0x11_0000
  }

  predicate Encodable(text: seq<CodePoint>) {
    forall i :: 0 <= i < |text| ==> Scalar(text[i])
  }

  function EncodeOne(c: CodePoint): (b: seq<Byte>)
    ensures 1 <= |b| <= 4
  {
    if c < 0x80 then [c]
    else if c < 0x800 then [0xC0 + c / 64, 0x80 + c % 64]
    else if c < 0x1_0000 then [0xE0 + c / 4096, 0x80 + c / 64 % 64, 0x80 + c % 64]
    else [0xF0 + c / 26_2144, 0x80 + c / 4096 % 64, 0x80 + c / 64 % 64, 0x80 + c % 64]
  }

  function Encode(text: seq<CodePoint>): (b: seq<Byte>)
    ensures |text| <= |b|
  {
    if text == [] then [] else Encode(text[..|text| - 1]) + EncodeOne(text[|text| - 1])
  }

  /** The length a first byte announces, 0 when no character starts with it. */
  function Announced(lead: Byte): nat {
    if lead < 0x80 then 1
    else if lead < 0xC0 then 0
    else if lead < 0xE0 then 2
    else if lead < 0xF0 then 3
    else if lead < 0xF8 then 4
    else 0
  }

  /** The value the payload bits of a first character spell. */
  function Payload(b: seq<Byte>): int
    requires b != [] && Announced(b[0]) <= |b|
  {
    var lead: int := b[0];
    match Announced(b[0])
    case 1 => lead
    case 2 => (lead - 0xC0) * 64 + Continued(b, 1)
    case 3 => (lead - 0xE0) * 4096 + Continued(b, 1) * 64 + Continued(b, 2)
    case 4 => (lead - 0xF0) * 26_2144 + Continued(b, 1) * 4096 + Continued(b, 2) * 64 + Continued(b, 3)
    case _ => -1
  }

  function Continued(b: seq<Byte>, i: nat): int
    requires i < |b|
  {
    b[i] as int - 0x80
  }

  /** The first character of a byte string, if it starts with the one encoding of a scalar value. */
  function DecodeOne(b: seq<Byte>): (c: Option<CodePoint>)
    ensures c.Some? ==> Scalar(c.value) && EncodeOne(c.value) <= b
  {
    if b == [] || Announced(b[0]) > |b| then None
    else
      var c := Payload(b);
      if Scalar(c) && EncodeOne(c) <= b then Some(c) else None
  }

  function Decode(b: seq<Byte>): (text: Option<seq<CodePoint>>)
    decreases |b|
  {
    if b == [] then Some([])
    else
      var c := DecodeOne(b);
      if c.None? then None
      else
        var rest := Decode(b[|EncodeOne(c.value)|..]);
        if rest.None? then None else Some([c.value] + rest.value)
  }

  lemma DecodeOneInverts(c: CodePoint, rest: seq<Byte>)
    requires Scalar(c)
    ensures DecodeOne(EncodeOne(c) + rest) == Some(c)
  {
    var b := EncodeOne(c) + rest;
    assert forall i :: 0 <= i < |EncodeOne(c)| ==> b[i] == EncodeOne(c)[i];
    PayloadInverts(c, b);
    assert EncodeOne(c) <= b;
  }

  lemma PayloadInverts(c: CodePoint, b: seq<Byte>)
    requires |EncodeOne(c)| <= |b| && forall i :: 0 <= i < |EncodeOne(c)| ==> b[i] == EncodeOne(c)[i]
    ensures Announced(b[0]) == |EncodeOne(c)| && Payload(b) == c
  {
    assert c == c / 64 * 64 + c % 64;
    assert c / 64 == c / 64 / 64 * 64 + c / 64 % 64 && c / 64 / 64 == c / 4096;
    assert c / 4096 == c / 4096 / 64 * 64 + c / 4096 % 64 && c / 4096 / 64 == c / 26_2144;
  }

  lemma {:induction false} EncodeConcat(a: seq<CodePoint>, b: seq<CodePoint>)
    ensures Encode(a + b) == Encode(a) + Encode(b)
  {
    if b == [] {
      assert a + b == a;
    } else {
      assert (a + b)[..|a + b| - 1] == a + b[..|b| - 1];
      EncodeConcat(a, b[..|b| - 1]);
    }
  }

  lemma EncodeSingle(c: CodePoint)
    ensures Encode([c]) == EncodeOne(c)
  {
    assert [c][..0] == [];
  }

  /** Decoding inverts encoding. */
  lemma {:induction false} DecodeInverts(text: seq<CodePoint>)
    requires Encodable(text)
    ensures Decode(Encode(text)) == Some(text)
  {
    if text != [] {
      var c, rest := text[0], text[1..];
      assert text == [c] + rest;
      EncodeConcat([c], rest);
      EncodeSingle(c);
      DecodeInverts(rest);
      DecodeOneInverts(c, Encode(rest));
      assert Encode(text)[|EncodeOne(c)|..] == Encode(rest);
    }
  }

  /** And what decodes at all is the encoding of what it decodes to. */
  lemma {:induction false} DecodeIsStrict(b: seq<Byte>)
    ensures Decode(b).Some? ==> Encodable(Decode(b).value) && Encode(Decode(b).value) == b
    decreases |b|
  {
    hide Encode, EncodeOne, DecodeOne, Scalar;
    if b == [] {
      NothingEncoded();
    } else if Decode(b).Some? {
      var c := DecodeOne(b).value;
      var rest := b[|EncodeOne(c)|..];
      DecodeIsStrict(rest);
      EncodeConcat([c], Decode(rest).value);
      EncodeSingle(c);
      assert b == EncodeOne(c) + rest;
    }
  }

  // ---- Big-endian integers -------------------------------------------------------------------

  function Power(k: nat): (p: nat)
    ensures p > 0
  {
    if k == 0 then 1 else 256 * Power(k - 1)
  }

  function ToBytes(n: nat, k: nat): (b: seq<Byte>)
    ensures |b| == k
  {
    if k == 0 then [] else ToBytes(n / 256, k - 1) + [n % 256]
  }

  function FromBytes(b: seq<Byte>): nat {
    if b == [] then 0 else FromBytes(b[..|b| - 1]) * 256 + b[|b| - 1]
  }

  lemma {:induction false} FromBytesInverts(n: nat, k: nat)
    requires n < Power(k)
    ensures FromBytes(ToBytes(n, k)) == n
  {
    if k > 0 {
      FromBytesInverts(n / 256, k - 1);
    }
  }

  /** `integer` refuses what does not fit. */
  predicate Fits(n: int, k: nat) {
    0 <= n < Power(k)
  }

  // ---- The recipe, whole -----------------------------------------------------------------------

  function Ascii(s: string): seq<Byte>
    requires forall i :: 0 <= i < |s| ==> s[i] < 128 as char
  {
    seq(|s|, i requires 0 <= i < |s| => s[i] as int)
  }

  function Prefix(): seq<Byte> {
    Ascii(DOMAIN) + [0]
  }

  function ChildBytes(c: Child): seq<Byte>
    requires 0 <= c.index
  {
    ToBytes(c.index, 4) + ToBytes(|Encode(c.record)|, 8) + Encode(c.record)
  }

  predicate Indexed(children: seq<Child>) {
    forall i :: 0 <= i < |children| ==> Fits(children[i].index, 4) && Encodable(children[i].record)
  }

  function ChildrenBytes(children: seq<Child>): seq<Byte>
    requires Indexed(children)
  {
    if children == [] then [] else ChildrenBytes(children[..|children| - 1]) + ChildBytes(children[|children| - 1])
  }

  function RecordBytes(children: seq<Child>): nat {
    if children == [] then 0 else RecordBytes(children[..|children| - 1]) + |Encode(children[|children| - 1].record)|
  }

  /** The frames whose digest can be recomputed. */
  predicate Acceptable(f: Frame) {
    && |f.transaction| == 16 && Fits(f.ordinal, 8)
    && |f.children| <= MAX_CHILDREN && Indexed(f.children)
    && RecordBytes(f.children) <= FILE_LIMIT
  }

  function Bytes(f: Frame): seq<Byte>
    requires Acceptable(f)
  {
    Prefix() + ToBytes(f.ordinal, 8) + f.transaction + ToBytes(|f.children|, 4) + ChildrenBytes(f.children)
  }

  // ---- Reading it back ---------------------------------------------------------------------------

  function ParseChildren(b: seq<Byte>, n: nat): Option<seq<Child>> {
    if n == 0 then if b == [] then Some([]) else None
    else if |b| < 12 then None
    else
      var size := FromBytes(b[4..12]);
      if |b| < 12 + size then None
      else
        var record := Decode(b[12..12 + size]);
        var rest := ParseChildren(b[12 + size..], n - 1);
        if record.None? || rest.None? then None
        else Some([Child(FromBytes(b[..4]), record.value)] + rest.value)
  }

  function Parse(b: seq<Byte>): Option<Frame> {
    if |b| < |Prefix()| + 28 || !(Prefix() <= b) then None
    else
      var body := b[|Prefix()|..];
      var children := ParseChildren(body[28..], FromBytes(body[24..28]));
      if children.None? then None else Some(Frame(FromBytes(body[..8]), body[8..24], children.value))
  }

  /** The most significant byte comes first. */
  lemma {:induction false} BigEndian(n: nat, k: nat, i: nat)
    requires i < k
    ensures ToBytes(n, k)[i] == n / Power(k - 1 - i) % 256
  {
    if i < k - 1 {
      BigEndian(n / 256, k - 1, i);
      DivideTwice(n, Power(k - 2 - i));
    }
  }

  lemma DivideTwice(n: nat, d: nat)
    requires d > 0
    ensures n / 256 / d == n / (256 * d)
  {
    var q := n / (256 * d);
    var r := n - q * (256 * d);
    assert 0 <= r < 256 * d;
    assert n == (q * d) * 256 + r by {
      assert q * (256 * d) == (q * d) * 256;
    }
    assert n / 256 == q * d + r / 256;
    assert 0 <= r / 256 < d;
    Quotient(q, r / 256, d);
  }

  lemma Quotient(q: nat, r: nat, d: nat)
    requires r < d
    ensures (q * d + r) / d == q
  {
    var x := (q * d + r) / d;
    assert x * d <= q * d + r < x * d + d;
    Multiples(q - x, d);
    assert (q - x) * d == q * d - x * d;
  }

  lemma Multiples(m: int, d: nat)
    ensures m >= 1 ==> m * d >= d
    ensures m <= -1 ==> m * d + d <= 0
  {}

  /** Characters of one, two, three and four bytes (section 3 of RFC 3629). */
  lemma EncodedLengths()
    ensures EncodeOne(0x24) == [0x24] && EncodeOne(0xA2) == [0xC2, 0xA2]
    ensures EncodeOne(0x20AC) == [0xE2, 0x82, 0xAC] && EncodeOne(0x1_0348) == [0xF0, 0x90, 0x8D, 0x88]
  {}

  /** How the bytes begin: the recipe's name and a zero byte, the ordinal, the transaction, and the number of
      children. */
  lemma Header(f: Frame)
    requires Acceptable(f)
    ensures |Bytes(f)| >= 67
    ensures var name := "muse.session_permission_transaction.v1";
            |name| == 38 && Bytes(f)[38] == 0 && forall k :: 0 <= k < 38 ==> Bytes(f)[k] == name[k] as int
    ensures Bytes(f)[39..47] == ToBytes(f.ordinal, 8) && Bytes(f)[47..63] == f.transaction
    ensures Bytes(f)[63..67] == ToBytes(|f.children|, 4)
    ensures Bytes(f)[67..] == ChildrenBytes(f.children)
  {
    hide Encode, ToBytes, ChildrenBytes;
    var head := Prefix() + ToBytes(f.ordinal, 8) + f.transaction + ToBytes(|f.children|, 4);
    assert |Prefix()| == 39 && |head| == 67;
    assert Bytes(f) == head + ChildrenBytes(f.children);
    assert forall k :: 0 <= k < 67 ==> Bytes(f)[k] == head[k];
  }

  /** Child by child follow the index, the record's length and the record. */
  lemma ChildLayout(children: seq<Child>, i: nat)
    requires Indexed(children) && i < |children|
    ensures var b, at, record := ChildrenBytes(children), |ChildrenBytes(children[..i])|, Encode(children[i].record);
            && |b| >= at + 12 + |record|
            && b[at..at + 4] == ToBytes(children[i].index, 4) && b[at + 4..at + 12] == ToBytes(|record|, 8)
            && b[at + 12..at + 12 + |record|] == record
  {
    hide Encode, ToBytes, ChildrenBytes;
    ChildAt(children, i);
    var front := ChildrenBytes(children[..i]);
    var rest :| ChildrenBytes(children) == front + ChildBytes(children[i]) + rest;
    ChildFields(front, children[i], rest);
  }

  lemma ChildFields(before: seq<Byte>, c: Child, rest: seq<Byte>)
    requires 0 <= c.index
    ensures var b := before + ChildBytes(c) + rest; var at := |before|; var record := Encode(c.record);
            && |b| >= at + 12 + |record|
            && b[at..at + 4] == ToBytes(c.index, 4) && b[at + 4..at + 12] == ToBytes(|record|, 8)
            && b[at + 12..at + 12 + |record|] == record
  {
    hide Encode, ToBytes;
  }

  lemma {:induction false} ChildAt(children: seq<Child>, i: nat)
    requires Indexed(children) && i < |children|
    ensures exists rest ::
              ChildrenBytes(children) == ChildrenBytes(children[..i]) + ChildBytes(children[i]) + rest
  {
    hide ChildBytes;
    var n := |children| - 1;
    if i == n {
      assert ChildrenBytes(children) == ChildrenBytes(children[..i]) + ChildBytes(children[i]) + [];
    } else {
      ChildAt(children[..n], i);
      assert children[..n][..i] == children[..i];
      var rest :| ChildrenBytes(children[..n]) == ChildrenBytes(children[..i]) + ChildBytes(children[i]) + rest;
      assert ChildrenBytes(children) ==
             ChildrenBytes(children[..i]) + ChildBytes(children[i]) + (rest + ChildBytes(children[n]));
    }
  }

  lemma Powers()
    ensures Power(4) == 0x1_0000_0000 && Power(8) == 0x1_0000_0000_0000_0000
  {
    assert Power(1) == 256 && Power(2) == 0x1_0000 && Power(3) == 0x100_0000 && Power(4) == 0x1_0000_0000;
    assert Power(5) == 0x100_0000_0000 && Power(6) == 0x1_0000_0000_0000 && Power(7) == 0x100_0000_0000_0000;
  }

  lemma {:induction false} ChildrenBytesFirst(children: seq<Child>)
    requires children != [] && Indexed(children)
    ensures ChildrenBytes(children) == ChildBytes(children[0]) + ChildrenBytes(children[1..])
  {
    hide ChildBytes;
    var n := |children| - 1;
    if n > 0 {
      ChildrenBytesFirst(children[..n]);
      assert children[1..][..n - 1] == children[..n][1..];
      assert children[1..][n - 1] == children[n];
    } else {
      assert children[..0] == [] && children[1..] == [];
    }
  }

  lemma ChildHead(c: Child, rest: seq<Byte>)
    requires Fits(c.index, 4) && Encodable(c.record) && Fits(|Encode(c.record)|, 8)
    ensures var b := ChildBytes(c) + rest; var size := |Encode(c.record)|;
            && |b| >= 12 + size && FromBytes(b[..4]) == c.index && FromBytes(b[4..12]) == size
            && Decode(b[12..12 + size]) == Some(c.record) && b[12 + size..] == rest
  {
    hide Encode, Decode, ToBytes, FromBytes, Power;
    var b := ChildBytes(c) + rest;
    var size := |Encode(c.record)|;
    assert b[..4] == ToBytes(c.index, 4) && b[4..12] == ToBytes(size, 8);
    assert b[12..12 + size] == Encode(c.record) && b[12 + size..] == rest;
    FromBytesInverts(c.index, 4);
    FromBytesInverts(size, 8);
    DecodeInverts(c.record);
  }

  lemma {:induction false} RecordFits(children: seq<Child>, i: nat)
    requires i < |children|
    ensures |Encode(children[i].record)| <= RecordBytes(children)
  {
    hide Encode;
    var n := |children| - 1;
    if i < n {
      RecordFits(children[..n], i);
    }
  }

  lemma {:induction false} ParseChildrenInverts(children: seq<Child>)
    requires Indexed(children) && forall i :: 0 <= i < |children| ==> Fits(|Encode(children[i].record)|, 8)
    ensures ParseChildren(ChildrenBytes(children), |children|) == Some(children)
  {
    hide Encode, Decode, ToBytes, FromBytes, Fits, ChildBytes, Encodable;
    if children != [] {
      ChildrenBytesFirst(children);
      ParseChildrenInverts(children[1..]);
      ChildHead(children[0], ChildrenBytes(children[1..]));
      assert children == [children[0]] + children[1..];
    } else {
      assert ChildrenBytes([]) == [];
    }
  }

  lemma Fields(p: seq<Byte>, a: seq<Byte>, b: seq<Byte>, c: seq<Byte>, d: seq<Byte>)
    requires |a| == 8 && |b| == 16 && |c| == 4
    ensures var all := p + a + b + c + d;
            && p <= all && |all| >= |p| + 28
            && var body := all[|p|..];
               body[..8] == a && body[8..24] == b && body[24..28] == c && body[28..] == d
  {
    var body := (p + a + b + c + d)[|p|..];
    assert body == a + b + c + d;
    assert (a + b + c + d)[24..28] == c;
  }

  /** The bytes fed to the digest decode back to exactly the frame they were made from. */
  lemma ParseInverts(f: Frame)
    requires Acceptable(f)
    ensures Parse(Bytes(f)) == Some(f)
  {
    hide Encode, ToBytes, FromBytes, ParseChildren, ChildrenBytes, RecordBytes, Encodable, Power, Prefix;
    Powers();
    Fields(Prefix(), ToBytes(f.ordinal, 8), f.transaction, ToBytes(|f.children|, 4), ChildrenBytes(f.children));
    FromBytesInverts(f.ordinal, 8);
    FromBytesInverts(|f.children|, 4);
    forall i | 0 <= i < |f.children|
      ensures Fits(|Encode(f.children[i].record)|, 8)
    {
      RecordFits(f.children, i);
    }
    ParseChildrenInverts(f.children);
  }

  /** Two frames with the same bytes are the same frame. */
  lemma BytesInjective(f: Frame, g: Frame)
    requires Acceptable(f) && Acceptable(g) && Bytes(f) == Bytes(g)
    ensures f == g
  {
    hide *;
    ParseInverts(f);
    ParseInverts(g);
  }

  // ---- The recipe, streamed --------------------------------------------------------------------------

  /** First pass over a record: its encoded size, chunk by chunk; `None` is any ValueError. */
  method MeasureRecord(record: seq<CodePoint>, room: int) returns (size: Option<nat>)
    ensures size.Some? <==> Encodable(record) && |Encode(record)| <= room
    ensures size.Some? ==> size.value == |Encode(record)|
  {
    hide Encode;
    var total, offset := 0, 0;
    NothingEncoded();
    while offset < |record|
      invariant 0 <= offset <= |record| && Encodable(record[..offset])
      invariant total == |Encode(record[..offset])| && (offset > 0 ==> total <= room)
      decreases |record| - offset
    {
      var end := Min(offset + CHUNK, |record|);
      var chunk := record[offset..end];
      assert record[..end] == record[..offset] + chunk;
      EncodeConcat(record[..offset], chunk);
      if i :| 0 <= i < |chunk| && !Scalar(chunk[i]) {
        assert record[offset + i] == chunk[i];
        return None;
      }
      total := total + |Encode(chunk)|;
      if total > room {
        EncodeConcat(record[..end], record[end..]);
        assert record[..end] + record[end..] == record;
        return None;
      }
      offset := end;
    }
    assert record[..|record|] == record;
    return if total <= room then Some(total) else None;
  }

  lemma NothingEncoded()
    ensures Encode([]) == []
  {}

  /** Second pass: feeds the chunks to the digest. */
  method FeedRecord(record: seq<CodePoint>, before: seq<Byte>) returns (fed: seq<Byte>)
    requires Encodable(record)
    ensures fed == before + Encode(record)
  {
    hide Encode;
    fed := before;
    var offset := 0;
    NothingEncoded();
    while offset < |record|
      invariant 0 <= offset <= |record| && fed == before + Encode(record[..offset])
      decreases |record| - offset
    {
      var end := Min(offset + CHUNK, |record|);
      assert record[..end] == record[..offset] + record[offset..end];
      EncodeConcat(record[..offset], record[offset..end]);
      fed := fed + Encode(record[offset..end]);
      offset := end;
    }
    assert record[..|record|] == record;
  }

  lemma ChildrenNext(children: seq<Child>, k: nat)
    requires k < |children| && Indexed(children[..k])
    requires Fits(children[k].index, 4) && Encodable(children[k].record)
    ensures Indexed(children[..k + 1])
    ensures ChildrenBytes(children[..k + 1]) == ChildrenBytes(children[..k]) + ChildBytes(children[k])
    ensures RecordBytes(children[..k + 1]) == RecordBytes(children[..k]) + |Encode(children[k].record)|
  {
    hide Encode, ChildBytes, Encodable, Fits;
    assert children[..k + 1][..k] == children[..k];
  }

  lemma {:induction false} RecordBytesPrefix(children: seq<Child>, k: nat)
    requires k < |children|
    ensures RecordBytes(children[..k]) + |Encode(children[k].record)| <= RecordBytes(children)
    decreases |children| - k
  {
    hide Encode;
    assert children[..k + 1][..k] == children[..k];
    if k + 1 < |children| {
      RecordBytesPrefix(children, k + 1);
    } else {
      assert children[..k + 1] == children;
    }
  }

  /** Streaming in 65536-character chunks feeds the digest the whole recipe, and refuses exactly the frames outside
      it. */
  method PermissionPreimage(f: Frame) returns (r: Option<seq<Byte>>)
    requires |f.transaction| == 16
    ensures r.Some? <==> Acceptable(f)
    ensures r.Some? ==> r.value == Bytes(f)
  {
    hide Encode, ToBytes, ChildrenBytes, RecordBytes, Encodable, Power, Prefix, Fits;
    if !Fits(f.ordinal, 8) || |f.children| > MAX_CHILDREN {
      return None;
    }
    Natural(f.ordinal, 8);
    var head := Prefix() + ToBytes(f.ordinal, 8) + f.transaction + ToBytes(|f.children|, 4);
    var fed := head;
    var total: int := 0;
    NoChildren();
    for k := 0 to |f.children|
      invariant Indexed(f.children[..k]) && total == RecordBytes(f.children[..k]) <= FILE_LIMIT
      invariant fed == head + ChildrenBytes(f.children[..k])
    {
      var child := f.children[k];
      RecordBytesPrefix(f.children, k);
      if !Fits(child.index, 4) || |child.record| > FILE_LIMIT - total {
        return None;
      }
      Natural(child.index, 4);
      var size := MeasureRecord(child.record, FILE_LIMIT - total);
      if size.None? {
        return None;
      }
      ChildrenNext(f.children, k);
      total := total + size.value;
      fed := FeedRecord(child.record, fed + ToBytes(child.index, 4) + ToBytes(size.value, 8));
    }
    assert f.children[..|f.children|] == f.children;
    return Some(fed);
  }

  lemma Natural(n: int, k: nat)
    requires Fits(n, k)
    ensures 0 <= n
  {}

  lemma NoChildren()
    ensures ChildrenBytes([]) == [] && RecordBytes([]) == 0
  {}
}
