/**
The reading half of the FastCGI client: `record.read` and `streamReader.Read`.

The transport is the sequence of bytes not yet read; the peer may frame records with any
padding and any reserved byte, may send garbage, and may stop anywhere.
*/
module FcgiReader {
  import opened FcgiWire

  datatype ReadError = NoError | Eof | BadVersion | Truncated

  /** What the next record is worth to the reader. */
  datatype Next = More(content: Bytes, rest: Bytes) | End(err: ReadError, rest: Bytes)

  /** The transport is over, or its next record has the END_REQUEST type. */
  predicate AtEnd(b: Bytes) {
    b == [] || (|b| >= HEADER_LEN && ReadHeader(b).version == 1 && ReadHeader(b).kind == END_REQUEST)
  }

  function NextRecord(b: Bytes): (n: Next)
    ensures n.More? ==> |n.content| + |n.rest| < |b|
  {
    if AtEnd(b) then End(Eof, if b == [] then [] else b[HEADER_LEN..])
    else if |b| >= HEADER_LEN && ReadHeader(b).version != 1 then End(BadVersion, b[HEADER_LEN..])
    else
      match ParseRecord(b)
      case Some((r, rest)) => More(r.content, rest)
      case None => End(Truncated, [])
  }

  /** All the content the transport holds up to the first end or fault, and what that is. */
  function Contents(b: Bytes): (Bytes, ReadError)
    decreases |b|
  {
    match NextRecord(b)
    case End(err, _) => ([], err)
    case More(content, rest) => (content + Contents(rest).0, Contents(rest).1)
  }

  lemma EofIsTheEnd(b: Bytes)
    ensures NextRecord(b).End? && NextRecord(b).err == Eof <==> AtEnd(b)
    ensures NextRecord(b).End? ==> NextRecord(b).err != NoError && Contents(b) == ([], NextRecord(b).err)
    ensures NextRecord(b).More? ==>
              var rest := NextRecord(b).rest;
              Contents(b) == (NextRecord(b).content + Contents(rest).0, Contents(rest).1)
  {
  }

  function FrameAll(rs: seq<Record>): Bytes
    requires forall i :: 0 <= i < |rs| ==> Framable(rs[i])
  {
    if rs == [] then [] else Frame(rs[0]) + FrameAll(rs[1..])
  }

  function ContentsOf(rs: seq<Record>): Bytes {
    if rs == [] then [] else rs[0].content + ContentsOf(rs[1..])
  }

  /** A record gives its content; END_REQUEST ends the stream at its header, its body staying unread. */
  lemma FrameNext(r: Record, tail: Bytes)
    requires Framable(r)
    ensures r.kind != 3 ==> NextRecord(Frame(r) + tail) == More(r.content, tail)
    ensures r.kind == 3 ==> NextRecord(Frame(r) + tail) == End(Eof, r.content + r.padding + tail)
  {
    FrameParses(r, tail);
    var h := Header(1, r.kind, r.id, |r.content|, |r.padding|, r.reserved);
    assert Frame(r) + tail == HeaderBytes(h) + (r.content + r.padding + tail);
    HeaderRoundTrip(h, r.content + r.padding + tail);
    assert (HeaderBytes(h) + (r.content + r.padding + tail))[HEADER_LEN..] == r.content + r.padding + tail;
    hide HeaderBytes;
    hide ReadHeader;
    hide ParseRecord;
  }

  /** Records that are not END_REQUEST contribute their contents and nothing else. */
  lemma {:induction false} FramedContents(rs: seq<Record>, tail: Bytes)
    requires forall i :: 0 <= i < |rs| ==> Framable(rs[i]) && rs[i].kind != 3
    ensures Contents(FrameAll(rs) + tail) == (ContentsOf(rs) + Contents(tail).0, Contents(tail).1)
  {
    hide NextRecord;
    hide Contents;
    hide Frame;
    if rs == [] {
      assert [] + tail == tail;
      assert [] + Contents(tail).0 == Contents(tail).0;
    } else {
      var rest := FrameAll(rs[1..]) + tail;
      assert FrameAll(rs) + tail == Frame(rs[0]) + rest;
      FrameNext(rs[0], rest);
      EofIsTheEnd(FrameAll(rs) + tail);
      FramedContents(rs[1..], tail);
      assert rs[0].content + (ContentsOf(rs[1..]) + Contents(tail).0) == ContentsOf(rs) + Contents(tail).0;
    }
  }

  /** A response ended by END_REQUEST is worth exactly its contents, whatever follows it. */
  lemma ResponseContents(rs: seq<Record>, last: Record, junk: Bytes)
    requires forall i :: 0 <= i < |rs| ==> Framable(rs[i]) && rs[i].kind != 3
    requires Framable(last) && last.kind == 3
    ensures Contents(FrameAll(rs) + (Frame(last) + junk)) == (ContentsOf(rs), Eof)
    ensures Contents(FrameAll(rs)) == (ContentsOf(rs), Eof)
  {
    FrameNext(last, junk);
    FramedContents(rs, Frame(last) + junk);
    FramedContents(rs, []);
    assert FrameAll(rs) + [] == FrameAll(rs);
    assert ContentsOf(rs) + [] == ContentsOf(rs);
  }

  // ---------- responses that go wrong ----------

  /** A record the transport cuts off anywhere is an error, be it in its header or in what follows,
      and nothing of it is delivered; only END_REQUEST is whole with its header. */
  lemma CutRecord(r: Record, x: Bytes)
    requires Framable(r) && x < Frame(r) && x != []
    ensures r.kind != 3 || |x| < 8 ==> NextRecord(x) == End(Truncated, [])
    ensures r.kind == 3 && |x| >= 8 ==> NextRecord(x) == End(Eof, x[8..])
  {
    if |x| >= 8 {
      var h := Header(1, r.kind, r.id, |r.content|, |r.padding|, r.reserved);
      assert Frame(r) == HeaderBytes(h) + (r.content + r.padding);
      assert x == HeaderBytes(h) + x[8..];
      HeaderRoundTrip(h, x[8..]);
      hide HeaderBytes;
      hide ReadHeader;
    }
  }

  /** Fewer bytes than a header are an error, whatever they are. */
  lemma ShortHeader(b: Bytes)
    requires 0 < |b| < 8
    ensures NextRecord(b) == End(Truncated, [])
  {
  }

  /** A header of another version is an error, whatever follows. */
  lemma OtherVersion(b: Bytes)
    requires |b| >= 8 && b[0] != 1
    ensures NextRecord(b) == End(BadVersion, b[8..])
  {
  }

  /** What `Contents` gives for whole records and a faulty end: their contents, and the fault. */
  lemma FaultyContents(rs: seq<Record>, tail: Bytes, err: ReadError)
    requires forall i :: 0 <= i < |rs| ==> Framable(rs[i]) && rs[i].kind != 3
    requires Faulty(tail, err)
    ensures Contents(FrameAll(rs) + tail) == (ContentsOf(rs), err)
  {
    if err == Truncated && |tail| < 8 {
      ShortHeader(tail);
    } else if err == Truncated {
      var r :| Framable(r) && r.kind != 3 && tail < Frame(r);
      CutRecord(r, tail);
    } else {
      OtherVersion(tail);
    }
    FramedContents(rs, tail);
    assert ContentsOf(rs) + [] == ContentsOf(rs);
  }

  /** A header or a record cut off by the end of the transport, or a header of another version. */
  ghost predicate Faulty(tail: Bytes, err: ReadError) {
    match err
    case Truncated => 0 < |tail| < 8 || (tail != [] && exists r :: Framable(r) && r.kind != 3 && tail < Frame(r))
    case BadVersion => |tail| >= 8 && tail[0] != 1
    case _ => false
  }

  class StreamReader {
    var incoming: Bytes
    var buf: Bytes

    constructor (incoming: Bytes)
      ensures this.incoming == incoming && buf == []
    {
      this.incoming, buf := incoming, [];
    }

    /** Everything the reader can still deliver. */
    ghost function Pending(): Bytes
      reads this
    {
      buf + Contents(incoming).0
    }

    /** `record.read` on a fresh record. */
    method ReadRecord() returns (content: Bytes, err: ReadError)
      modifies this`incoming
      ensures var next := NextRecord(old(incoming));
              && incoming == next.rest
              && if next.More? then err == NoError && content == next.content else err == next.err && content == []
    {
      content := [];
      if |incoming| == 0 {
        return content, Eof;
      }
      if |incoming| < HEADER_LEN {
        incoming := [];
        return content, Truncated;
      }
      var h := ReadHeader(incoming);
      incoming := incoming[HEADER_LEN..];
      if h.version != 1 {
        return content, BadVersion;
      }
      if h.kind == END_REQUEST {
        return content, Eof;
      }
      var n := h.contentLength + h.paddingLength;
      if |incoming| < n {
        incoming := [];
        return content, Truncated;
      }
      content := incoming[..h.contentLength];
      incoming := incoming[n..];
      return content, NoError;
    }

    /** Each call takes its bytes off the front of what is pending: none is lost, none repeated,
        and the end is reported only when nothing is left before it. */
    method Read(p: array<Byte>) returns (n: nat, err: ReadError)
      modifies this, p
      ensures n <= p.Length && p[n..] == old(p[n..])
      ensures p.Length == 0 ==> n == 0 && err == NoError && unchanged(this)
      ensures err == NoError ==>
                old(Pending()) == p[..n] + Pending() && Contents(incoming).1 == Contents(old(incoming)).1
      ensures err == NoError && p.Length > 0 ==> |buf| + |incoming| < old(|buf| + |incoming|)
      ensures err != NoError ==> n == 0 && old(Pending()) == [] && err == Contents(old(incoming)).1
      ensures err == Eof <==> p.Length > 0 && old(buf) == [] && AtEnd(old(incoming))
    {
      EofIsTheEnd(incoming);
      hide Contents;
      hide NextRecord;
      hide AtEnd;
      n, err := 0, NoError;
      if p.Length > 0 {
        if |buf| == 0 {
          assert Pending() == Contents(incoming).0;
          buf, err := ReadRecord();
          if err != NoError {
            return;
          }
        }
        n := p.Length;
        if n > |buf| {
          n := |buf|;
        }
        forall i | 0 <= i < n { p[i] := buf[i]; }
        assert p[..n] == buf[..n];
        assert buf == buf[..n] + buf[n..];
        assert buf[..n] + buf[n..] + Contents(incoming).0 == p[..n] + (buf[n..] + Contents(incoming).0);
        buf := buf[n..];
      }
    }

    /** Successive reads with buffers of the given sizes, until an error or the end of the list. */
    method ReadWith(sizes: seq<nat>) returns (out: Bytes, err: ReadError)
      modifies this
      ensures err == NoError ==> old(Pending()) == out + Pending()
      ensures err != NoError ==> out == old(Pending()) && err == Contents(old(incoming)).1
      ensures (forall i :: 0 <= i < |sizes| ==> sizes[i] > 0) && |sizes| > old(|buf| + |incoming|) ==> err != NoError
    {
      hide Contents;
      hide AtEnd;
      out, err := [], NoError;
      ghost var all := Pending();
      assert all == [] + all;
      var k := 0;
      while k < |sizes|
        invariant 0 <= k <= |sizes| && err == NoError
        invariant all == out + Pending()
        invariant Contents(incoming).1 == Contents(old(incoming)).1
        invariant (forall i :: 0 <= i < |sizes| ==> sizes[i] > 0) ==> |buf| + |incoming| + k <= old(|buf| + |incoming|)
      {
        ghost var before := Pending();
        var p := new Byte[sizes[k]];
        var n;
        n, err := Read(p);
        if err != NoError {
          assert out + [] == out;
          return;
        }
        assert out + (p[..n] + Pending()) == (out + p[..n]) + Pending();
        out := out + p[..n];
        k := k + 1;
      }
    }
  }

  /** A response framed by any peer, read with buffers of any sizes, enough of them: exactly its
      contents come out, and then the end, whatever follows END_REQUEST on the transport. */
  method ReadResponse(rs: seq<Record>, last: Record, junk: Bytes, sizes: seq<nat>) returns (out: Bytes, err: ReadError)
    requires forall i :: 0 <= i < |rs| ==> Framable(rs[i]) && rs[i].kind != 3
    requires Framable(last) && last.kind == 3
    requires forall i :: 0 <= i < |sizes| ==> sizes[i] > 0
    requires |sizes| > |FrameAll(rs) + (Frame(last) + junk)|
    ensures out == ContentsOf(rs) && err == Eof
  {
    hide Contents;
    hide Frame;
    var r := new StreamReader(FrameAll(rs) + (Frame(last) + junk));
    ResponseContents(rs, last, junk);
    assert [] + ContentsOf(rs) == ContentsOf(rs);
    out, err := r.ReadWith(sizes);
  }

  /** A response that goes wrong after whole records: their contents come out, and then the error,
      never the end. */
  method ReadFaulty(rs: seq<Record>, tail: Bytes, ghost fault: ReadError, sizes: seq<nat>)
    returns (out: Bytes, err: ReadError)
    requires forall i :: 0 <= i < |rs| ==> Framable(rs[i]) && rs[i].kind != 3
    requires Faulty(tail, fault)
    requires forall i :: 0 <= i < |sizes| ==> sizes[i] > 0
    requires |sizes| > |FrameAll(rs) + tail|
    ensures out == ContentsOf(rs) && err == fault && (err == Truncated || err == BadVersion)
  {
    hide Contents;
    hide Frame;
    var r := new StreamReader(FrameAll(rs) + tail);
    FaultyContents(rs, tail, fault);
    assert [] + ContentsOf(rs) == ContentsOf(rs);
    out, err := r.ReadWith(sizes);
  }
}
