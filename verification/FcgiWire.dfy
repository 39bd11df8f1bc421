/**
The FastCGI 1.0 wire format.

`ParseRecord`, `DecodeSize` and `DecodePairs` are the reference: they are written from
sections 3.3 (Records) and 3.4 (Name-Value Pairs) of the FastCGI Specification 1.0 and
know nothing of the client.  `RecordBytes`, `SizeBytes` and `PairBytes` are what the client
computes, with its casts and its modular padding arithmetic.
*/
module FcgiWire {
  import opened Basics

  type Byte = b: int | 0 <= b < 256
  type Bytes = seq<Byte>

  const BEGIN_REQUEST: Byte := 1
  const END_REQUEST: Byte := 3
  const PARAMS: Byte := 4
  const STDIN: Byte := 5
  const HEADER_LEN: nat := 8
  const MAX_WRITE: nat := 65500

  datatype Header = Header(version: Byte, kind: Byte, id: nat, contentLength: nat, paddingLength: Byte, reserved: Byte)

  /** One record of section 3.3, as a receiver sees it. */
  datatype Record = Record(kind: Byte, id: nat, content: Bytes, padding: Bytes, reserved: Byte)

  datatype Pair = Pair(name: Bytes, value: Bytes)

  // ---------- reference decoders ----------

  function U16(hi: int, lo: int): int { hi * 256 + lo }

  function U32(b0: int, b1: int, b2: int, b3: int): int { b0 * 16777216 + b1 * 65536 + b2 * 256 + b3 }

  function ReadHeader(b: Bytes): Header
    requires |b| >= HEADER_LEN
  {
    Header(b[0], b[1], U16(b[2], b[3]), U16(b[4], b[5]), b[6], b[7])
  }

  /** Section 3.3: the first record of `b` and the bytes after its padding. */
  function ParseRecord(b: Bytes): (r: Option<(Record, Bytes)>)
    ensures r.Some? ==> |r.value.1| < |b|
  {
    if |b| < HEADER_LEN then None
    else
      var h := ReadHeader(b);
      var end := HEADER_LEN + h.contentLength + h.paddingLength;
      if h.version != 1 || |b| < end then None
      else
        Some((Record(h.kind, h.id, b[HEADER_LEN..HEADER_LEN + h.contentLength],
                     b[HEADER_LEN + h.contentLength..end], h.reserved), b[end..]))
  }

  function ParseRecords(b: Bytes): Option<seq<Record>>
    decreases |b|
  {
    if b == [] then Some([])
    else
      match ParseRecord(b)
      case None => None
      case Some((r, rest)) =>
        match ParseRecords(rest)
        case None => None
        case Some(rs) => Some([r] + rs)
  }

  /** Section 3.4: a length is one byte below 128, or four bytes with the top bit set. */
  function DecodeSize(b: Bytes): (r: Option<(nat, Bytes)>)
    ensures r.Some? ==> |r.value.1| < |b|
  {
    if b == [] then None
    else if b[0] < 128 then Some((b[0], b[1..]))
    else if |b| < 4 then None
    else Some((U32(b[0] - 128, b[1], b[2], b[3]), b[4..]))
  }

  function DecodePair(b: Bytes): (r: Option<(Pair, Bytes)>)
    ensures r.Some? ==> |r.value.1| < |b|
  {
    match DecodeSize(b)
    case None => None
    case Some((nameLen, b1)) =>
      match DecodeSize(b1)
      case None => None
      case Some((valueLen, b2)) =>
        if |b2| < nameLen + valueLen then None
        else Some((Pair(b2[..nameLen], b2[nameLen..nameLen + valueLen]), b2[nameLen + valueLen..]))
  }

  function DecodePairs(b: Bytes): Option<seq<Pair>>
    decreases |b|
  {
    if b == [] then Some([])
    else
      match DecodePair(b)
      case None => None
      case Some((p, rest)) =>
        match DecodePairs(rest)
        case None => None
        case Some(ps) => Some([p] + ps)
  }

  // ---------- what the client computes ----------

  function Zeros(n: nat): (z: Bytes)
    ensures |z| == n
  {
    seq(n, _ => 0)
  }

  /** `-n & 7` on a two's complement integer is the remainder of -n modulo 8. */
  function Padding(n: int): Byte { (-n) % 8 }

  /** `header.init`: the 16-bit cast wraps and the reserved byte is left as it was. */
  function InitHeader(h: Header, kind: Byte, id: nat, contentLength: nat): Header
    requires id < 65536
  {
    Header(1, kind, id, contentLength % 65536, Padding(contentLength), h.reserved)
  }

  function HeaderBytes(h: Header): (b: Bytes)
    requires h.id < 65536 && h.contentLength < 65536
    ensures |b| == HEADER_LEN
  {
    [h.version, h.kind, h.id / 256, h.id % 256]
    + [h.contentLength / 256, h.contentLength % 256, h.paddingLength, h.reserved]
  }

  const ZERO_HEADER := Header(0, 0, 0, 0, 0, 0)

  function RecordBytes(kind: Byte, id: nat, content: Bytes): Bytes
    requires id < 65536
  {
    var h := InitHeader(ZERO_HEADER, kind, id, |content|);
    HeaderBytes(h) + content + Zeros(h.paddingLength)
  }

  /** A record as any FastCGI peer may frame it: free padding, free reserved byte. */
  function Frame(r: Record): (b: Bytes)
    requires Framable(r)
    ensures |b| > 0
  {
    HeaderBytes(Header(1, r.kind, r.id, |r.content|, |r.padding|, r.reserved)) + r.content + r.padding
  }

  predicate Framable(r: Record) {
    r.id < 65536 && |r.content| < 65536 && |r.padding| < 256
  }

  /** What `RecordBytes` is meant to put on the wire. */
  function Sent(kind: Byte, id: nat, content: Bytes): Record {
    Record(kind, id, content, Zeros(Padding(|content|)), 0)
  }

  /** `encodeSize`: `size | 1 << 31` adds the top bit where it is not set already. */
  function SizeBytes(size: nat): (b: Bytes)
    requires size < 0x1_0000_0000
    ensures |b| == if size > 127 then 4 else 1
  {
    if size > 127 then
      var s := if size < 0x8000_0000 then size + 0x8000_0000 else size;
      [s / 16777216, s / 65536 % 256, s / 256 % 256, s % 256]
    else [size]
  }

  function PairBytes(p: Pair): Bytes
    requires |p.name| < 0x1_0000_0000 && |p.value| < 0x1_0000_0000
  {
    SizeBytes(|p.name|) + SizeBytes(|p.value|) + p.name + p.value
  }

  // ---------- one record, one length, one pair ----------

  lemma HeaderRoundTrip(h: Header, rest: Bytes)
    requires h.id < 65536 && h.contentLength < 65536
    ensures ReadHeader(HeaderBytes(h) + rest) == h
  {
    var b := HeaderBytes(h) + rest;
    assert forall i :: 0 <= i < HEADER_LEN ==> b[i] == HeaderBytes(h)[i];
  }

  lemma FrameParses(r: Record, rest: Bytes)
    requires Framable(r)
    ensures ParseRecord(Frame(r) + rest) == Some((r, rest))
  {
    var h := Header(1, r.kind, r.id, |r.content|, |r.padding|, r.reserved);
    var b := HeaderBytes(h) + (r.content + r.padding + rest);
    assert Frame(r) + rest == b;
    HeaderRoundTrip(h, r.content + r.padding + rest);
    hide HeaderBytes;
    hide ReadHeader;
    var mid := HEADER_LEN + |r.content|;
    var end := mid + |r.padding|;
    assert b[HEADER_LEN..mid] == r.content;
    assert b[mid..end] == r.padding;
    assert b[end..] == rest;
  }

  /** The client's framing is correct exactly while the content length fits the 16-bit field. */
  lemma RecordRoundTrip(kind: Byte, id: nat, content: Bytes, rest: Bytes)
    requires id < 65536
    ensures ParseRecord(RecordBytes(kind, id, content) + rest) == Some((Sent(kind, id, content), rest))
            <==> |content| < 65536
  {
    if |content| < 65536 {
      RecordIsFrame(kind, id, content);
      FrameParses(Sent(kind, id, content), rest);
    } else {
      LongRecordParsesShort(kind, id, content, rest);
    }
  }

  lemma RecordIsFrame(kind: Byte, id: nat, content: Bytes)
    requires id < 65536 && |content| < 65536
    ensures Framable(Sent(kind, id, content))
    ensures RecordBytes(kind, id, content) == Frame(Sent(kind, id, content))
  {
  }

  lemma LongRecordParsesShort(kind: Byte, id: nat, content: Bytes, rest: Bytes)
    requires id < 65536 <= |content|
    ensures var r := ParseRecord(RecordBytes(kind, id, content) + rest);
            r.Some? ==> |r.value.0.content| < |content|
  {
    var b := RecordBytes(kind, id, content) + rest;
    var h := InitHeader(ZERO_HEADER, kind, id, |content|);
    assert b == HeaderBytes(h) + (content + Zeros(h.paddingLength) + rest);
    HeaderRoundTrip(h, content + Zeros(h.paddingLength) + rest);
    hide HeaderBytes;
    hide ReadHeader;
  }

  /** Section 3.3, byte by byte, with the least padding that aligns the record. */
  lemma HeaderLayout(kind: Byte, id: nat, content: Bytes)
    requires id < 65536 && |content| < 65536
    ensures var b := RecordBytes(kind, id, content);
            && |b| >= 8 && b[0] == 1 && b[1] == kind
            && b[2] == id / 256 && b[3] == id % 256 && b[4] == |content| / 256 && b[5] == |content| % 256
            && b[6] < 8 && |b| == 8 + |content| + b[6] && b[7] == 0
            && b[8..8 + |content|] == content
  {
    var b := RecordBytes(kind, id, content);
    var h := InitHeader(ZERO_HEADER, kind, id, |content|);
    assert forall i :: 0 <= i < 8 ==> b[i] == HeaderBytes(h)[i];
    assert b[8..8 + |content|] == content;
  }

  lemma RecordAligned(kind: Byte, id: nat, content: Bytes)
    requires id < 65536
    ensures |RecordBytes(kind, id, content)| % 8 == 0
  {
    assert (|content| + (-|content|) % 8) % 8 == 0;
  }

  /** A length survives `encodeSize` exactly when it leaves the top bit free. */
  lemma SizeRoundTrip(size: nat, rest: Bytes)
    requires size < 0x1_0000_0000
    ensures DecodeSize(SizeBytes(size) + rest) == Some((size, rest)) <==> size < 0x8000_0000
  {
    var b := SizeBytes(size) + rest;
    if size > 127 {
      var s := if size < 0x8000_0000 then size + 0x8000_0000 else size;
      assert b[0] == s / 16777216 && b[1] == s / 65536 % 256 && b[2] == s / 256 % 256 && b[3] == s % 256;
      Base256(s);
      assert b[4..] == rest;
    } else {
      assert b[1..] == rest;
    }
  }

  lemma Base256(s: nat)
    ensures s == U32(s / 16777216, s / 65536 % 256, s / 256 % 256, s % 256)
  {
    assert s / 65536 == s / 256 / 256;
    assert s / 16777216 == s / 65536 / 256;
  }

  lemma PairRoundTrip(p: Pair, rest: Bytes)
    requires |p.name| < 0x8000_0000 && |p.value| < 0x8000_0000
    ensures DecodePair(PairBytes(p) + rest) == Some((p, rest))
  {
    var tail := p.name + p.value + rest;
    var b1 := SizeBytes(|p.value|) + tail;
    assert PairBytes(p) + rest == SizeBytes(|p.name|) + b1;
    SizeRoundTrip(|p.name|, b1);
    SizeRoundTrip(|p.value|, tail);
    assert tail[..|p.name|] == p.name;
    assert tail[|p.name|..|p.name| + |p.value|] == p.value;
    assert tail[|p.name| + |p.value|..] == rest;
  }

  // ---------- sequences ----------

  /** The bytes of a list of records of the client, in order. */
  function Encode(id: nat, rs: seq<(Byte, Bytes)>): Bytes
    requires id < 65536
  {
    if rs == [] then [] else RecordBytes(rs[0].0, id, rs[0].1) + Encode(id, rs[1..])
  }

  lemma {:induction false} EncodeAppend(id: nat, xs: seq<(Byte, Bytes)>, ys: seq<(Byte, Bytes)>)
    requires id < 65536
    ensures Encode(id, xs + ys) == Encode(id, xs) + Encode(id, ys)
  {
    if xs == [] {
      assert xs + ys == ys;
    } else {
      assert (xs + ys)[1..] == xs[1..] + ys;
      EncodeAppend(id, xs[1..], ys);
    }
  }

  function SentAll(id: nat, rs: seq<(Byte, Bytes)>): (out: seq<Record>)
    ensures |out| == |rs|
    ensures forall i :: 0 <= i < |rs| ==> out[i] == Sent(rs[i].0, id, rs[i].1)
  {
    seq(|rs|, i requires 0 <= i < |rs| => Sent(rs[i].0, id, rs[i].1))
  }

  lemma ParseRecordsCons(b: Bytes, r: Record, rest: Bytes, rs: seq<Record>)
    requires ParseRecord(b) == Some((r, rest)) && ParseRecords(rest) == Some(rs)
    ensures ParseRecords(b) == Some([r] + rs)
  {
  }

  /** Records whose contents fit are read back one by one by the reference parser. */
  lemma {:induction false} EncodeParses(id: nat, rs: seq<(Byte, Bytes)>)
    requires id < 65536
    requires forall i :: 0 <= i < |rs| ==> |rs[i].1| < 65536
    ensures ParseRecords(Encode(id, rs)) == Some(SentAll(id, rs))
    ensures |Encode(id, rs)| % 8 == 0
  {
    hide ParseRecord;
    hide RecordBytes;
    if rs != [] {
      var b, rest := Encode(id, rs), Encode(id, rs[1..]);
      RecordAligned(rs[0].0, id, rs[0].1);
      RecordRoundTrip(rs[0].0, id, rs[0].1, rest);
      EncodeParses(id, rs[1..]);
      ParseRecordsCons(b, Sent(rs[0].0, id, rs[0].1), rest, SentAll(id, rs[1..]));
      assert SentAll(id, rs) == [Sent(rs[0].0, id, rs[0].1)] + SentAll(id, rs[1..]);
    }
  }

  /** Decoding is compositional: a complete block of pairs in front is decoded by itself. */
  lemma {:induction false} DecodePairsAppend(x: Bytes, y: Bytes)
    requires DecodePairs(x).Some?
    ensures DecodePairs(y).Some? ==> DecodePairs(x + y) == Some(DecodePairs(x).value + DecodePairs(y).value)
    decreases |x|
  {
    hide DecodePair;
    if x == [] {
      assert x + y == y;
      assert DecodePairs(y).Some? ==> [] + DecodePairs(y).value == DecodePairs(y).value;
    } else {
      var (p, rest) := DecodePair(x).value;
      DecodePairExtend(x, y);
      DecodePairsAppend(rest, y);
      if DecodePairs(y).Some? {
        DecodePairsCons(x + y, p, rest + y, DecodePairs(rest).value + DecodePairs(y).value);
        assert [p] + (DecodePairs(rest).value + DecodePairs(y).value) == DecodePairs(x).value + DecodePairs(y).value;
      }
    }
  }

  lemma DecodePairsCons(b: Bytes, p: Pair, rest: Bytes, ps: seq<Pair>)
    requires DecodePair(b) == Some((p, rest)) && DecodePairs(rest) == Some(ps)
    ensures DecodePairs(b) == Some([p] + ps)
  {
  }

  lemma DecodePairExtend(x: Bytes, y: Bytes)
    requires DecodePair(x).Some?
    ensures DecodePair(x + y) == Some((DecodePair(x).value.0, DecodePair(x).value.1 + y))
  {
    hide DecodeSize;
    var (n, x1) := DecodeSize(x).value;
    var (m, x2) := DecodeSize(x1).value;
    DecodeSizeExtend(x, y);
    DecodeSizeExtend(x1, y);
    assert (x2 + y)[..n] == x2[..n];
    assert (x2 + y)[n..n + m] == x2[n..n + m];
    assert (x2 + y)[n + m..] == x2[n + m..] + y;
  }

  lemma DecodeSizeExtend(x: Bytes, y: Bytes)
    requires DecodeSize(x).Some?
    ensures DecodeSize(x + y) == Some((DecodeSize(x).value.0, DecodeSize(x).value.1 + y))
  {
    assert (x + y)[1..] == x[1..] + y;
    if |x| >= 4 { assert (x + y)[4..] == x[4..] + y; }
  }
}
