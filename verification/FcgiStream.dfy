/**
How a byte stream is cut into records by the client's buffered writer, and the request
that results.

`Put`, `ReadFrom` and `Flush` are the values of Go's `bufio.Writer` over `streamWriter`;
`AcceptResponder` is the receiving side, written from sections 5.1 to 5.3 and 6.2 of the
FastCGI Specification 1.0.
*/
module FcgiStream {
  import opened Basics
  import opened FcgiWire

  /** Contents of the records handed to the transport so far, and the bytes still buffered. */
  datatype Stream = Stream(records: seq<Bytes>, buf: Bytes)

  const EMPTY := Stream([], [])

  ghost predicate WellPacked(s: Stream) {
    |s.buf| <= MAX_WRITE && forall r :: r in s.records ==> 0 < |r| <= MAX_WRITE
  }

  function Content(s: Stream): Bytes { Flat(s.records) + s.buf }

  /** `streamWriter.Write`: at most MAX_WRITE bytes a record. */
  function Split(p: Bytes): (rs: seq<Bytes>)
    ensures forall r :: r in rs ==> 0 < |r| <= MAX_WRITE
  {
    if p == [] then [] else
    var n := if |p| > MAX_WRITE then MAX_WRITE else |p|;
    [p[..n]] + Split(p[n..])
  }

  /** `bufio.Writer.Flush`: an empty buffer writes nothing. */
  function Flush(s: Stream): Stream
    requires |s.buf| <= MAX_WRITE
  {
    Stream(s.records + Split(s.buf), [])
  }

  /** `bufio.Writer.Write`: what fits is only copied; a large write on an empty buffer
      bypasses it; otherwise the buffer is topped up and flushed. */
  function Put(s: Stream, p: Bytes): Stream
    requires |s.buf| <= MAX_WRITE
    decreases |p| + |s.buf|
  {
    if |s.buf| + |p| <= MAX_WRITE then Stream(s.records, s.buf + p)
    else if s.buf == [] then Stream(s.records + Split(p), [])
    else
      var n := MAX_WRITE - |s.buf|;
      Put(Flush(Stream(s.records, s.buf + p[..n])), p[n..])
  }

  // ---------- the stream loses nothing ----------

  lemma {:induction false} SplitFlat(p: Bytes)
    ensures Flat(Split(p)) == p
    ensures 0 < |p| <= MAX_WRITE ==> Split(p) == [p]
  {
    if p != [] {
      var n := if |p| > MAX_WRITE then MAX_WRITE else |p|;
      SplitFlat(p[n..]);
      assert p == p[..n] + p[n..];
      assert ([p[..n]] + Split(p[n..]))[1..] == Split(p[n..]);
      if |p| <= MAX_WRITE { assert p[..n] == p && Split(p[n..]) == []; }
    }
  }

  /** `t` is `s` after `p` more bytes, with no record taken back. */
  ghost predicate Extends(s: Stream, t: Stream, p: Bytes) {
    WellPacked(s) && WellPacked(t) && Content(t) == Content(s) + p && s.records <= t.records
  }

  lemma ExtendsTrans(s: Stream, t: Stream, u: Stream, p: Bytes, q: Bytes)
    requires Extends(s, t, p) && Extends(t, u, q)
    ensures Extends(s, u, p + q)
  {
    hide Content;
    assert Content(s) + (p + q) == Content(s) + p + q;
  }

  lemma CopyExtends(s: Stream, p: Bytes)
    requires WellPacked(s) && |s.buf| + |p| <= MAX_WRITE
    ensures Extends(s, Stream(s.records, s.buf + p), p)
  {
    hide Flat;
    assert Flat(s.records) + (s.buf + p) == Flat(s.records) + s.buf + p;
  }

  /** Every record of a split but the last is full. */
  lemma {:induction false} SplitFull(p: Bytes)
    ensures forall i :: 0 <= i < |Split(p)| - 1 ==> |Split(p)[i]| == 65500
  {
    if p != [] {
      var n := if |p| > MAX_WRITE then MAX_WRITE else |p|;
      SplitFull(p[n..]);
      if |p| <= MAX_WRITE { assert Split(p[n..]) == []; }
    }
  }

  lemma BypassExtends(s: Stream, p: Bytes)
    requires WellPacked(s) && s.buf == []
    ensures Extends(s, Stream(s.records + Split(p), []), p)
  {
    SplitFlat(p);
    FlatAppend(s.records, Split(p));
    hide Flat;
    hide Split;
    assert Flat(s.records) + p + [] == Flat(s.records) + [] + p;
  }

  lemma FlushExtends(s: Stream)
    requires WellPacked(s)
    ensures Extends(s, Flush(s), [])
  {
    SplitFlat(s.buf);
    FlatAppend(s.records, Split(s.buf));
    hide Flat;
    hide Split;
    assert Flat(s.records) + s.buf + [] == Flat(s.records) + s.buf;
  }

  lemma PutCopies(s: Stream, p: Bytes)
    requires |s.buf| + |p| <= MAX_WRITE
    ensures Put(s, p) == Stream(s.records, s.buf + p)
  {
  }

  lemma PutTopsUp(s: Stream, p: Bytes)
    requires 0 < |s.buf| <= MAX_WRITE && |s.buf| + |p| > MAX_WRITE
    ensures var n := MAX_WRITE - |s.buf|;
            Put(s, p) == Put(Flush(Stream(s.records, s.buf + p[..n])), p[n..])
  {
  }

  /** Whatever the size of a write, the stream grows by exactly its bytes and stays well packed. */
  lemma {:induction false} PutExtends(s: Stream, p: Bytes)
    requires WellPacked(s)
    ensures Extends(s, Put(s, p), p)
    decreases |p| + |s.buf|
  {
    hide Extends;
    if |s.buf| + |p| <= MAX_WRITE {
      CopyExtends(s, p);
    } else if s.buf == [] {
      BypassExtends(s, p);
    } else {
      var n := MAX_WRITE - |s.buf|;
      var topped := Stream(s.records, s.buf + p[..n]);
      CopyExtends(s, p[..n]);
      FlushExtends(topped);
      ExtendsTrans(s, topped, Flush(topped), p[..n], []);
      ExtendsPacked(topped, Flush(topped), []);
      PutExtends(Flush(topped), p[n..]);
      PutTopsUp(s, p);
      hide Put;
      ExtendsTrans(s, Flush(topped), Put(s, p), p[..n] + [], p[n..]);
      assert p == p[..n] + [] + p[n..];
    }
  }

  lemma ExtendsPacked(s: Stream, t: Stream, p: Bytes)
    requires Extends(s, t, p)
    ensures WellPacked(t) && |t.buf| <= MAX_WRITE
  {
  }

  /** Records from `t` on that are not in `s` are full, the last one perhaps excepted. */
  ghost predicate FullRecords(s: Stream, t: Stream, lastToo: bool) {
    && s.records <= t.records
    && forall i :: |s.records| <= i < |t.records| && (lastToo || i < |t.records| - 1) ==> |t.records[i]| == 65500
  }

  /** A buffered write sends only full records, but for the end of a write that bypasses the buffer. */
  lemma {:induction false} PutFull(s: Stream, p: Bytes)
    requires |s.buf| <= MAX_WRITE
    ensures FullRecords(s, Put(s, p), Put(s, p).buf != [])
    decreases |p| + |s.buf|
  {
    if |s.buf| + |p| > MAX_WRITE {
      if s.buf == [] {
        SplitFull(p);
      } else {
        var n := MAX_WRITE - |s.buf|;
        var topped := Stream(s.records, s.buf + p[..n]);
        SplitFlat(topped.buf);
        assert Flush(topped) == Stream(s.records + [topped.buf], []);
        PutFull(Flush(topped), p[n..]);
        PutTopsUp(s, p);
        hide Put;
        hide Flush;
      }
    }
  }

  // ---------- parameters ----------

  /** An over-long value is cut; the name is never cut. */
  function CutValue(name: Bytes, value: Bytes): (v: Bytes)
    requires |name| <= MAX_WRITE - 8
    ensures v <= value && |v| == if |value| < MAX_WRITE - 8 - |name| then |value| else MAX_WRITE - 8 - |name|
  {
    if 8 + |name| + |value| > MAX_WRITE then value[..MAX_WRITE - 8 - |name|] else value
  }

  function Cut(p: Pair): Pair
    requires |p.name| <= MAX_WRITE - 8
  {
    Pair(p.name, CutValue(p.name, p.value))
  }

  predicate ShortNames(ps: seq<Pair>) {
    forall i :: 0 <= i < |ps| ==> |ps[i].name| <= MAX_WRITE - 8
  }

  function CutAll(ps: seq<Pair>): (out: seq<Pair>)
    requires ShortNames(ps)
    ensures |out| == |ps|
    ensures forall i :: 0 <= i < |ps| ==> out[i] == Cut(ps[i])
  {
    seq(|ps|, i requires 0 <= i < |ps| => Cut(ps[i]))
  }

  /** One turn of the loop of `writePairs`. */
  function PutPair(s: Stream, p: Pair): (t: Stream)
    requires |s.buf| <= MAX_WRITE && |p.name| <= MAX_WRITE - 8
    ensures |t.buf| <= MAX_WRITE
  {
    var e := PairBytes(Cut(p));
    var room := if |s.buf| + |e| > MAX_WRITE then Flush(s) else s;
    Stream(room.records, room.buf + e)
  }

  function PutPairs(ps: seq<Pair>): (s: Stream)
    requires ShortNames(ps)
    ensures |s.buf| <= MAX_WRITE
  {
    if ps == [] then EMPTY
    else
      var last := |ps| - 1;
      PutPair(PutPairs(ps[..last]), ps[last])
  }

  lemma PutPairsNone()
    ensures PutPairs([]) == EMPTY
  {
  }

  lemma PutPairsNext(ps: seq<Pair>, p: Pair)
    requires ShortNames(ps + [p])
    ensures ShortNames(ps) && PutPairs(ps + [p]) == PutPair(PutPairs(ps), p)
  {
    assert (ps + [p])[..|ps|] == ps;
    assert forall i :: 0 <= i < |ps| ==> ps[i] == (ps + [p])[i];
  }

  /** Contents of the non-empty PARAMS records. */
  function ParamRecords(ps: seq<Pair>): seq<Bytes>
    requires ShortNames(ps)
  {
    Flush(PutPairs(ps)).records
  }

  /** Decodes every record on its own: no pair may lean on the next record. */
  function DecodeEach(rs: seq<Bytes>): Option<seq<Pair>> {
    if rs == [] then Some([])
    else
      var last := |rs| - 1;
      match (DecodeEach(rs[..last]), DecodePairs(rs[last]))
      case (Some(xs), Some(ys)) => Some(xs + ys)
      case _ => None
  }

  lemma DecodeOne(p: Pair)
    requires |p.name| < 0x8000_0000 && |p.value| < 0x8000_0000
    ensures DecodePairs(PairBytes(p)) == Some([p])
  {
    assert PairBytes(p) + [] == PairBytes(p);
    PairRoundTrip(p, []);
    hide DecodePair;
    DecodePairsCons(PairBytes(p), p, [], []);
    assert [p] + [] == [p];
  }

  /** The pairs held by a stream, each record and the buffer being decoded separately. */
  function Held(s: Stream): Option<seq<Pair>> {
    match (DecodeEach(s.records), DecodePairs(s.buf))
    case (Some(xs), Some(ys)) => Some(xs + ys)
    case _ => None
  }

  lemma HeldEmpty()
    ensures WellPacked(EMPTY) && Held(EMPTY) == Some([])
  {
    var none: seq<Pair> := [];
    assert DecodeEach([]) == Some(none) && DecodePairs([]) == Some(none) && none + none == none;
  }

  lemma {:induction false} PutPairsHolds(ps: seq<Pair>)
    requires ShortNames(ps)
    ensures WellPacked(PutPairs(ps)) && Held(PutPairs(ps)) == Some(CutAll(ps))
  {
    hide CutAll;
    hide Cut;
    hide Held;
    hide WellPacked;
    hide PutPairs;
    if ps == [] {
      PutPairsNone();
      HeldEmpty();
      assert CutAll(ps) == [];
    } else {
      var init, p := ps[..|ps| - 1], ps[|ps| - 1];
      assert ps == init + [p];
      PutPairsNext(init, p);
      hide PutPair;
      PutPairsHolds(init);
      PutPairHolds(PutPairs(init), p);
      assert CutAll(ps) == CutAll(init) + [Cut(p)];
    }
  }

  lemma PutPairHolds(s: Stream, p: Pair)
    requires WellPacked(s) && |p.name| <= MAX_WRITE - 8 && Held(s).Some?
    ensures WellPacked(PutPair(s, p)) && Held(PutPair(s, p)) == Some(Held(s).value + [Cut(p)])
    ensures s.records <= PutPair(s, p).records
  {
    var e := PairBytes(Cut(p));
    DecodeOne(Cut(p));
    FlushHolds(s);
    hide Held;
    hide DecodePairs;
    AppendHolds(if |s.buf| + |e| > MAX_WRITE then Flush(s) else s, e, Cut(p));
  }

  /** A pair goes into the current record unless it would pass 65500 bytes; then, and only then,
      that record is sent first. */
  lemma PairFlushesIff(s: Stream, p: Pair)
    requires WellPacked(s) && |p.name| <= 65492
    ensures var e := PairBytes(Cut(p));
            PutPair(s, p) == if s.buf != [] && |s.buf| + |e| > 65500 then Stream(s.records + [s.buf], e)
                             else Stream(s.records, s.buf + e)
  {
    SplitFlat(s.buf);
    SplitEmpty();
    hide Split;
    hide PairBytes;
    assert s.records + [] == s.records;
    assert [] + PairBytes(Cut(p)) == PairBytes(Cut(p));
  }

  lemma AppendHolds(s: Stream, e: Bytes, p: Pair)
    requires WellPacked(s) && Held(s).Some? && |s.buf| + |e| <= MAX_WRITE && DecodePairs(e) == Some([p])
    ensures var t := Stream(s.records, s.buf + e); WellPacked(t) && Held(t) == Some(Held(s).value + [p])
  {
    hide DecodePairs;
    hide DecodeEach;
    DecodePairsAppend(s.buf, e);
    var xs, ys := DecodeEach(s.records).value, DecodePairs(s.buf).value;
    assert xs + (ys + [p]) == xs + ys + [p];
  }

  lemma FlushHolds(s: Stream)
    requires WellPacked(s) && Held(s).Some?
    ensures WellPacked(Flush(s)) && s.records <= Flush(s).records
    ensures DecodeEach(Flush(s).records) == Held(Flush(s)) == Held(s)
  {
    FlushExtends(s);
    SplitFlat(s.buf);
    SplitEmpty();
    hide Split;
    hide DecodePairs;
    var xs := DecodeEach(s.records).value;
    assert xs + [] == xs;
    if s.buf == [] {
      assert Flush(s) == s;
    } else {
      assert Flush(s).records == s.records + [s.buf];
      assert (s.records + [s.buf])[..|s.records|] == s.records;
      var all := Held(s).value;
      assert all + [] == all;
    }
  }

  lemma SplitEmpty()
    ensures Split([]) == [] && DecodePairs([]) == Some([])
  {
  }

  /** No pair straddles two records, no record is empty, and the pairs come back in order. */
  lemma ParamsDecode(ps: seq<Pair>)
    requires ShortNames(ps)
    ensures DecodeEach(ParamRecords(ps)) == Some(CutAll(ps))
    ensures DecodePairs(Flat(ParamRecords(ps))) == Some(CutAll(ps))
    ensures forall r :: r in ParamRecords(ps) ==> 0 < |r| <= 65500
  {
    PutPairsHolds(ps);
    FlushHolds(PutPairs(ps));
    hide Flush;
    DecodeEachFlat(ParamRecords(ps));
  }

  lemma {:induction false} DecodeEachFlat(rs: seq<Bytes>)
    requires DecodeEach(rs).Some?
    ensures DecodePairs(Flat(rs)) == DecodeEach(rs)
  {
    if rs != [] {
      var init, last := rs[..|rs| - 1], rs[|rs| - 1];
      assert rs == init + [last];
      FlatAppend(init, [last]);
      assert Flat([last]) == last + Flat([]) == last;
      DecodeEachFlat(init);
      hide DecodePairs;
      DecodePairsAppend(Flat(init), last);
    }
  }

  /** `ps` visits every entry of the map once, in some order. */
  ghost predicate Enumerates(ps: seq<Pair>, m: map<Bytes, Bytes>) {
    && (forall i :: 0 <= i < |ps| ==> ps[i].name in m && m[ps[i].name] == ps[i].value)
    && (forall k :: k in m ==> exists i :: 0 <= i < |ps| && ps[i].name == k)
    && (forall i, j :: 0 <= i < j < |ps| ==> ps[i].name != ps[j].name)
  }

  /** Read back as a map, later entries winning. */
  function AsMap(ps: seq<Pair>): map<Bytes, Bytes> {
    if ps == [] then map[] else AsMap(ps[..|ps| - 1])[ps[|ps| - 1].name := ps[|ps| - 1].value]
  }

  lemma {:induction false} AsMapAt(ps: seq<Pair>, k: Bytes)
    requires forall i, j :: 0 <= i < j < |ps| ==> ps[i].name != ps[j].name
    ensures k in AsMap(ps) <==> exists i :: 0 <= i < |ps| && ps[i].name == k
    ensures forall i :: 0 <= i < |ps| && ps[i].name == k ==> AsMap(ps)[k] == ps[i].value
  {
    if ps != [] {
      var init, last := ps[..|ps| - 1], ps[|ps| - 1];
      AsMapAt(init, k);
      assert forall i :: 0 <= i < |ps| ==> ps[i] == if i < |init| then init[i] else last;
    }
  }

  /** Whatever the iteration order, the decoded parameters are the map with its over-long values cut. */
  lemma ParamsAsMap(ps: seq<Pair>, m: map<Bytes, Bytes>)
    requires ShortNames(ps) && Enumerates(ps, m)
    ensures forall k :: k in m ==> |k| <= 65492
    ensures forall k :: k in m <==> k in AsMap(CutAll(ps))
    ensures forall k :: k in m ==>
              AsMap(CutAll(ps))[k] == if |k| + |m[k]| <= 65492 then m[k] else m[k][..65492 - |k|]
    ensures AsMap(CutAll(ps)) == map k | k in m :: CutValue(k, m[k])
  {
    hide AsMap;
    forall k
      ensures k in m ==> |k| <= MAX_WRITE - 8
      ensures k in m <==> k in AsMap(CutAll(ps))
      ensures k in m ==> AsMap(CutAll(ps))[k] == CutValue(k, m[k])
    {
      ParamAt(ps, m, k);
    }
  }

  lemma ParamAt(ps: seq<Pair>, m: map<Bytes, Bytes>, k: Bytes)
    requires ShortNames(ps) && Enumerates(ps, m)
    ensures k in m <==> k in AsMap(CutAll(ps))
    ensures k in m ==> |k| <= MAX_WRITE - 8 && AsMap(CutAll(ps))[k] == CutValue(k, m[k])
  {
    var cut := CutAll(ps);
    assert forall i :: 0 <= i < |ps| ==> cut[i].name == ps[i].name;
    AsMapAt(cut, k);
    hide AsMap;
    if k in m {
      var i :| 0 <= i < |ps| && ps[i].name == k;
      assert cut[i] == Cut(ps[i]) && cut[i].name == k;
    }
  }

  // ---------- body ----------

  /** How `io.Copy` finds the body: none, a source that writes itself in chunks, or a source
      read in portions of the sizes it chooses.  A source may end by EOF or by an error; `Do`
      does not look at which. */
  datatype Body =
    | NoBody
    | WriterTo(chunks: seq<Bytes>)
    | Reader(data: Bytes, sizes: seq<nat>)

  function BodyBytes(b: Body): Bytes {
    match b
    case NoBody => []
    case WriterTo(chunks) => Flat(chunks)
    case Reader(data, _) => data
  }

  /** One `Read`: at most the room offered and at most what is left; a size of zero is an empty
      read, and once the list is used up every read takes all it can. */
  function Portion(sizes: seq<nat>, room: nat, left: nat): (n: nat)
    requires room > 0 && left > 0
    ensures n <= room && n <= left && (n == 0 <==> sizes != [] && sizes[0] == 0)
  {
    var want := if sizes == [] then room else sizes[0];
    var n := if want < room then want else room;
    if n < left then n else left
  }

  function Rest(sizes: seq<nat>): seq<nat> { if sizes == [] then [] else sizes[1..] }

  /** Empty reads in a row after which `bufio.Writer` reports that there is no progress. */
  const MAX_EMPTY_READS: nat := 100

  /** `bufio.Writer.ReadFrom`: a full buffer is flushed before every read.  `idle` counts the empty
      reads just made.  The result is the stream and what was never read. */
  function ReadFrom(s: Stream, data: Bytes, sizes: seq<nat>, idle: nat): (Stream, Bytes)
    requires |s.buf| <= MAX_WRITE && idle < MAX_EMPTY_READS
    decreases |data|, |sizes|
  {
    var s1 := Vacate(s);
    if data == [] then (s1, [])
    else
      var n := Portion(sizes, MAX_WRITE - |s1.buf|, |data|);
      if n > 0 then ReadFrom(Stream(s1.records, s1.buf + data[..n]), data[n..], Rest(sizes), 0)
      else if idle + 1 == MAX_EMPTY_READS then (s1, data)
      else ReadFrom(s1, data, Rest(sizes), idle + 1)
  }

  /** The list of read sizes holds a hundred empty reads in a row, `idle` of them already made. */
  predicate Stalls(sizes: seq<nat>, idle: nat)
    decreases |sizes|
  {
    sizes != [] &&
    if sizes[0] != 0 then Stalls(sizes[1..], 0)
    else idle + 1 == MAX_EMPTY_READS || Stalls(sizes[1..], idle + 1)
  }

  /** What of the body reaches the writer. */
  function Taken(b: Body): Bytes {
    if b.Reader? then
      var left := ReadFrom(EMPTY, b.data, b.sizes, 0).1;
      if |left| <= |b.data| then b.data[..|b.data| - |left|] else []
    else BodyBytes(b)
  }

  function PutChunks(s: Stream, chunks: seq<Bytes>): Stream
    requires WellPacked(s)
    decreases |chunks|
  {
    if chunks == [] then s else PutExtends(s, chunks[0]); PutChunks(Put(s, chunks[0]), chunks[1..])
  }

  function Feed(s: Stream, b: Body): Stream
    requires WellPacked(s)
  {
    match b
    case NoBody => s
    case WriterTo(chunks) => PutChunks(s, chunks)
    case Reader(data, sizes) => ReadFrom(s, data, sizes, 0).0
  }

  /** The buffer as a read finds it: flushed if it was full. */
  function Vacate(s: Stream): (t: Stream)
    requires |s.buf| <= MAX_WRITE
    ensures |t.buf| < MAX_WRITE
  {
    if |s.buf| == MAX_WRITE then Flush(s) else s
  }

  lemma VacateExtends(s: Stream)
    requires WellPacked(s)
    ensures Extends(s, Vacate(s), []) && WellPacked(Vacate(s))
  {
    CopyExtends(s, []);
    assert s.buf + [] == s.buf;
    FlushExtends(s);
  }

  /** `t` extends `s` by all of `data` but the end `left`. */
  ghost predicate Delivers(s: Stream, data: Bytes, t: Stream, left: Bytes) {
    && |left| <= |data|
    && data[|data| - |left|..] == left
    && Extends(s, t, data[..|data| - |left|])
  }

  lemma DeliversAfter(s: Stream, data: Bytes, n: nat, t: Stream, left: Bytes)
    requires WellPacked(s) && n <= |data| && |Vacate(s).buf| + n <= MAX_WRITE
    requires Delivers(Stream(Vacate(s).records, Vacate(s).buf + data[..n]), data[n..], t, left)
    ensures Delivers(s, data, t, left)
  {
    var s1 := Vacate(s);
    var s2 := Stream(s1.records, s1.buf + data[..n]);
    VacateExtends(s);
    ExtendsPacked(s, s1, []);
    CopyExtends(s1, data[..n]);
    hide Extends;
    hide WellPacked;
    hide Vacate;
    ExtendsTrans(s, s1, s2, [], data[..n]);
    var more := data[n..][..|data| - n - |left|];
    ExtendsTrans(s, s2, t, [] + data[..n], more);
    assert data[..|data| - |left|] == [] + data[..n] + more;
    assert data[|data| - |left|..] == data[n..][|data| - n - |left|..];
  }

  /** What is read is a prefix of the data, the whole unless a hundred reads in a row come empty. */
  lemma {:induction false} ReadFromExtends(s: Stream, data: Bytes, sizes: seq<nat>, idle: nat)
    requires WellPacked(s) && idle < MAX_EMPTY_READS
    ensures Delivers(s, data, ReadFrom(s, data, sizes, idle).0, ReadFrom(s, data, sizes, idle).1)
    ensures ReadFrom(s, data, sizes, idle).1 != [] ==> Stalls(sizes, idle)
    decreases |data|, |sizes|
  {
    VacateExtends(s);
    hide Extends;
    hide Vacate;
    hide WellPacked;
    var s1 := Vacate(s);
    if data == [] {
      assert data[..0] == [] && data[0..] == [];
    } else {
      var n := Portion(sizes, MAX_WRITE - |s1.buf|, |data|);
      if n == 0 && idle + 1 == MAX_EMPTY_READS {
        assert data[..0] == [] && data[0..] == data;
      } else {
        var s2 := Stream(s1.records, s1.buf + data[..n]);
        PackedAfter(s, data, n);
        hide Portion;
        hide Delivers;
        assert n == 0 ==> s2 == s1 && data[n..] == data;
        var idle1 := if n > 0 then 0 else idle + 1;
        ReadFromExtends(s2, data[n..], Rest(sizes), idle1);
        assert ReadFrom(s, data, sizes, idle) == ReadFrom(s2, data[n..], Rest(sizes), idle1);
        var (t, left) := ReadFrom(s2, data[n..], Rest(sizes), idle1);
        hide ReadFrom;
        DeliversAfter(s, data, n, t, left);
      }
    }
  }

  /** A hundred empty reads in a row, counting those just made, end the reading there and then. */
  lemma {:induction false} GivesUp(s: Stream, data: Bytes, sizes: seq<nat>, idle: nat)
    requires |s.buf| <= MAX_WRITE && idle < 100 && data != []
    requires |sizes| >= 100 - idle && forall i :: 0 <= i < 100 - idle ==> sizes[i] == 0
    ensures ReadFrom(s, data, sizes, idle) == (Vacate(s), data)
    decreases 100 - idle
  {
    var s1 := Vacate(s);
    if idle < 99 {
      GivesUp(s1, data, sizes[1..], idle + 1);
      hide Flush;
    }
  }

  /** Reading a source sends only full records. */
  lemma {:induction false} ReadFromFull(s: Stream, data: Bytes, sizes: seq<nat>, idle: nat)
    requires |s.buf| <= MAX_WRITE && idle < MAX_EMPTY_READS
    ensures FullRecords(s, ReadFrom(s, data, sizes, idle).0, true)
    decreases |data|, |sizes|
  {
    SplitFlat(s.buf);
    assert |s.buf| == MAX_WRITE ==> Vacate(s) == Stream(s.records + [s.buf], []);
    hide Flush;
    var s1 := Vacate(s);
    hide Vacate;
    if data != [] {
      var n := Portion(sizes, MAX_WRITE - |s1.buf|, |data|);
      hide Portion;
      if n > 0 {
        ReadFromFull(Stream(s1.records, s1.buf + data[..n]), data[n..], Rest(sizes), 0);
      } else if idle + 1 < MAX_EMPTY_READS {
        ReadFromFull(s1, data, Rest(sizes), idle + 1);
      }
    }
  }

  lemma PackedAfter(s: Stream, data: Bytes, n: nat)
    requires WellPacked(s) && n <= |data| && |Vacate(s).buf| + n <= MAX_WRITE
    ensures WellPacked(Stream(Vacate(s).records, Vacate(s).buf + data[..n]))
  {
    var s1 := Vacate(s);
    VacateExtends(s);
    ExtendsPacked(s, s1, []);
    CopyExtends(s1, data[..n]);
    ExtendsPacked(s1, Stream(s1.records, s1.buf + data[..n]), data[..n]);
  }

  lemma {:induction false} PutChunksExtends(s: Stream, chunks: seq<Bytes>)
    requires WellPacked(s)
    ensures Extends(s, PutChunks(s, chunks), Flat(chunks))
    decreases |chunks|
  {
    if chunks == [] {
      CopyExtends(s, []);
      assert s.buf + [] == s.buf;
    } else {
      var t := Put(s, chunks[0]);
      PutExtends(s, chunks[0]);
      PutChunksExtends(t, chunks[1..]);
      hide Extends;
      ExtendsTrans(s, t, PutChunks(t, chunks[1..]), chunks[0], Flat(chunks[1..]));
    }
  }

  lemma FeedExtends(s: Stream, b: Body)
    requires WellPacked(s)
    ensures s == EMPTY ==> Extends(s, Feed(s, b), Taken(b))
    ensures WellPacked(Feed(s, b))
  {
    match b
    case NoBody => CopyExtends(s, []); assert s.buf + [] == s.buf;
    case WriterTo(chunks) => PutChunksExtends(s, chunks);
    case Reader(data, sizes) => ReadFromExtends(s, data, sizes, 0);
  }

  /** Contents of the non-empty STDIN records. */
  function StdinRecords(b: Body): seq<Bytes> {
    FeedExtends(EMPTY, b);
    Flush(Feed(EMPTY, b)).records
  }

  /** However the body arrives, the STDIN records are non-empty, bounded, and concatenate to what is
      delivered of it: all of it, unless its source stalls. */
  lemma StdinIsBody(b: Body)
    ensures Flat(StdinRecords(b)) == Taken(b) <= BodyBytes(b)
    ensures (b.Reader? ==> !Stalls(b.sizes, 0)) ==> Taken(b) == BodyBytes(b)
    ensures forall r :: r in StdinRecords(b) ==> 0 < |r| <= 65500
  {
    FeedExtends(EMPTY, b);
    FlushExtends(Feed(EMPTY, b));
    var t := Flush(Feed(EMPTY, b));
    assert Content(EMPTY) == [] && [] + Taken(b) + [] == Taken(b);
    if b.Reader? { ReadFromExtends(EMPTY, b.data, b.sizes, 0); }
    assert t.buf == [] && Content(t) == Flat(t.records) + [] == Flat(t.records);
  }

  // ---------- the whole request ----------

  function Tag(kind: Byte, rs: seq<Bytes>): (out: seq<(Byte, Bytes)>)
    ensures |out| == |rs|
    ensures forall i :: 0 <= i < |rs| ==> out[i] == (kind, rs[i])
  {
    seq(|rs|, i requires 0 <= i < |rs| => (kind, rs[i]))
  }

  /** A stream of records of one type, closed by an empty record. */
  function Closed(kind: Byte, rs: seq<Bytes>): seq<(Byte, Bytes)> { Tag(kind, rs) + [(kind, [])] }

  const ROLE_RESPONDER := 1
  const BEGIN_BODY: Bytes := [0, 1, 0, 0, 0, 0, 0, 0]

  /** Everything `Do` puts on the wire for parameters visited in the order `ps`. */
  function RequestRecords(ps: seq<Pair>, b: Body): seq<(Byte, Bytes)>
    requires ShortNames(ps)
  {
    [(BEGIN_REQUEST, BEGIN_BODY)] + Closed(PARAMS, ParamRecords(ps)) + Closed(STDIN, StdinRecords(b))
  }

  function RequestBytes(id: nat, ps: seq<Pair>, b: Body): Bytes
    requires id < 65536 && ShortNames(ps)
  {
    Encode(id, RequestRecords(ps, b))
  }

  datatype Request = Request(id: nat, role: nat, flags: Byte, params: seq<Bytes>, stdin: seq<Bytes>)

  /** Section 5.3: the non-empty records of a stream up to the empty one that ends it. */
  function TakeStream(rs: seq<Record>, kind: Byte, id: nat): Option<(seq<Bytes>, seq<Record>)> {
    if rs == [] || rs[0].kind != kind || rs[0].id != id then None
    else if rs[0].content == [] then Some(([], rs[1..]))
    else
      match TakeStream(rs[1..], kind, id)
      case None => None
      case Some((cs, rest)) => Some(([rs[0].content] + cs, rest))
  }

  /** Sections 5.1, 6.2 and 8: BEGIN_REQUEST, type 1; a PARAMS stream, type 4; a STDIN stream, type 5;
      nothing more, one id. */
  function AcceptResponder(rs: seq<Record>): Option<Request> {
    if rs == [] || rs[0].kind != 1 || |rs[0].content| != 8 then None
    else
      var id, c := rs[0].id, rs[0].content;
      match TakeStream(rs[1..], 4, id)
      case None => None
      case Some((ps, rest)) =>
        match TakeStream(rest, 5, id)
        case None => None
        case Some((body, left)) =>
          if left == [] then Some(Request(id, U16(c[0], c[1]), c[2], ps, body)) else None
  }

  lemma {:induction false} TakeClosed(id: nat, kind: Byte, rs: seq<Bytes>, rest: seq<Record>)
    requires forall r :: r in rs ==> r != []
    ensures TakeStream(SentAll(id, Closed(kind, rs)) + rest, kind, id) == Some((rs, rest))
  {
    var all := SentAll(id, Closed(kind, rs)) + rest;
    var first := Closed(kind, rs)[0];
    assert all[0] == Sent(first.0, id, first.1);
    if rs == [] {
      assert first == (kind, []);
      assert all[1..] == rest;
    } else {
      assert forall r :: r in rs[1..] ==> r in rs;
      assert all[1..] == SentAll(id, Closed(kind, rs[1..])) + rest;
      assert all[0].content == rs[0] && rs[0] in rs;
      TakeClosed(id, kind, rs[1..], rest);
      assert rs == [rs[0]] + rs[1..];
    }
  }

  /**
  Every request is one well-formed Responder request, for every order of the parameters and
  every way the body arrives: a receiver that parses the bytes and follows the specification
  gets this id, the Responder role, the parameters (over-long values cut, none across two
  records) and the body, and nothing is left over.
  */
  lemma RequestAccepted(id: nat, ps: seq<Pair>, b: Body)
    requires id < 65536 && ShortNames(ps)
    ensures var rs := ParseRecords(RequestBytes(id, ps, b));
            rs.Some? && AcceptResponder(rs.value)
                        == Some(Request(id, 1, 0, ParamRecords(ps), StdinRecords(b)))
    ensures |RequestBytes(id, ps, b)| % 8 == 0
    ensures DecodeEach(ParamRecords(ps)) == DecodePairs(Flat(ParamRecords(ps))) == Some(CutAll(ps))
    ensures Flat(StdinRecords(b)) == Taken(b)
  {
    ParamsDecode(ps);
    StdinIsBody(b);
    RequestParses(id, ParamRecords(ps), StdinRecords(b));
  }

  lemma RequestParses(id: nat, params: seq<Bytes>, stdin: seq<Bytes>)
    requires id < 65536
    requires forall r :: r in params ==> 0 < |r| <= MAX_WRITE
    requires forall r :: r in stdin ==> 0 < |r| <= MAX_WRITE
    ensures var bytes := Encode(id, [(BEGIN_REQUEST, BEGIN_BODY)] + Closed(PARAMS, params) + Closed(STDIN, stdin));
            var rs := ParseRecords(bytes);
            && |bytes| % 8 == 0
            && rs.Some?
            && AcceptResponder(rs.value) == Some(Request(id, ROLE_RESPONDER, 0, params, stdin))
  {
    var recs := [(BEGIN_REQUEST, BEGIN_BODY)] + Closed(PARAMS, params) + Closed(STDIN, stdin);
    BoundedRecords(params, stdin);
    EncodeParses(id, recs);
    hide ParseRecords;
    hide Encode;
    hide AcceptResponder;
    RequestTaken(id, params, stdin);
  }

  lemma BoundedRecords(params: seq<Bytes>, stdin: seq<Bytes>)
    requires forall r :: r in params ==> 0 < |r| <= MAX_WRITE
    requires forall r :: r in stdin ==> 0 < |r| <= MAX_WRITE
    ensures var recs := [(BEGIN_REQUEST, BEGIN_BODY)] + Closed(PARAMS, params) + Closed(STDIN, stdin);
            forall i :: 0 <= i < |recs| ==> |recs[i].1| < 65536
  {
  }

  lemma RequestTaken(id: nat, params: seq<Bytes>, stdin: seq<Bytes>)
    requires forall r :: r in params ==> r != []
    requires forall r :: r in stdin ==> r != []
    ensures AcceptResponder(SentAll(id, [(BEGIN_REQUEST, BEGIN_BODY)] + Closed(PARAMS, params) + Closed(STDIN, stdin)))
            == Some(Request(id, ROLE_RESPONDER, 0, params, stdin))
  {
    hide Sent;
    hide TakeStream;
    var rs := SentAll(id, [(BEGIN_REQUEST, BEGIN_BODY)] + Closed(PARAMS, params) + Closed(STDIN, stdin));
    var tail := SentAll(id, Closed(STDIN, stdin));
    assert rs[1..] == SentAll(id, Closed(PARAMS, params)) + tail;
    TakeClosed(id, PARAMS, params, tail);
    assert tail + [] == tail;
    TakeClosed(id, STDIN, stdin, []);
    assert rs[0] == Sent(BEGIN_REQUEST, id, BEGIN_BODY);
    BeginRecord(id);
  }

  lemma BeginRecord(id: nat)
    ensures var r := Sent(BEGIN_REQUEST, id, BEGIN_BODY);
            r.kind == BEGIN_REQUEST && r.id == id && r.content == BEGIN_BODY
  {
  }
}
