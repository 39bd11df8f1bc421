/**
The writing half of the FastCGI client: `writeRecord`, the buffered stream writer,
`writePairs` and `Do`, as they update their fields.

The transport takes `capacity` bytes in all; a write that would pass that point is cut there
and fails, and so does every later write.  Each method is proved to leave on the wire what the
stream functions say, cut at that point, so the failing paths need no separate specification.
*/
module FcgiClient {
  import opened Basics
  import opened FcgiWire
  import opened FcgiStream

  function Upto(b: Bytes, n: nat): Bytes { if |b| <= n then b else b[..n] }

  lemma UptoAgain(x: Bytes, y: Bytes, n: nat)
    ensures Upto(Upto(x, n) + y, n) == Upto(x + y, n)
    ensures |x| > n ==> Upto(x + y, n) == Upto(x, n)
  {
  }

  /** The records of one stream on the wire. */
  function Wire(id: nat, kind: Byte, rs: seq<Bytes>): Bytes
    requires id < 65536
  {
    Encode(id, Tag(kind, rs))
  }

  lemma WireAppend(id: nat, kind: Byte, xs: seq<Bytes>, ys: seq<Bytes>)
    requires id < 65536
    ensures Wire(id, kind, xs + ys) == Wire(id, kind, xs) + Wire(id, kind, ys)
  {
    assert Tag(kind, xs + ys) == Tag(kind, xs) + Tag(kind, ys);
    EncodeAppend(id, Tag(kind, xs), Tag(kind, ys));
  }

  lemma WireOne(id: nat, kind: Byte, r: Bytes)
    requires id < 65536
    ensures Wire(id, kind, [r]) == RecordBytes(kind, id, r)
    ensures Wire(id, kind, []) == []
  {
    hide RecordBytes;
    assert Tag(kind, [r]) == [(kind, r)] && Tag(kind, [r])[1..] == [];
    assert Encode(id, []) == [];
    assert RecordBytes(kind, id, r) + [] == RecordBytes(kind, id, r);
  }

  lemma WireClosed(id: nat, kind: Byte, rs: seq<Bytes>)
    requires id < 65536
    ensures Encode(id, Closed(kind, rs)) == Wire(id, kind, rs) + RecordBytes(kind, id, [])
  {
    EncodeAppend(id, Tag(kind, rs), [(kind, [])]);
    WireOne(id, kind, []);
    assert Tag(kind, [[]]) == [(kind, [])];
  }

  lemma WireMore(id: nat, kind: Byte, base: Bytes, xs: seq<Bytes>, ys: seq<Bytes>)
    requires id < 65536
    ensures base + Wire(id, kind, xs + ys) == (base + Wire(id, kind, xs)) + Wire(id, kind, ys)
  {
    WireAppend(id, kind, xs, ys);
    hide Wire;
    assert base + (Wire(id, kind, xs) + Wire(id, kind, ys)) == (base + Wire(id, kind, xs)) + Wire(id, kind, ys);
  }

  lemma FlatNone()
    ensures Flat<Byte>([]) == []
  {
  }

  lemma SplitNext(p: Bytes, n: nat)
    requires p != [] && n == if |p| > MAX_WRITE then MAX_WRITE else |p|
    ensures Split(p) == [p[..n]] + Split(p[n..])
  {
  }

  /** Once the transport has refused bytes, more records change nothing. */
  lemma Refused(id: nat, kind: Byte, base: Bytes, xs: seq<Bytes>, ys: seq<Bytes>, n: nat)
    requires id < 65536 && xs <= ys
    requires |base + Wire(id, kind, xs)| > n
    ensures Upto(base + Wire(id, kind, ys), n) == Upto(base + Wire(id, kind, xs), n)
    ensures |base + Wire(id, kind, ys)| > n
  {
    var more := ys[|xs|..];
    assert ys == xs + more;
    WireAppend(id, kind, xs, more);
    hide Wire;
    assert base + (Wire(id, kind, xs) + Wire(id, kind, more)) == (base + Wire(id, kind, xs)) + Wire(id, kind, more);
    UptoAgain(base + Wire(id, kind, xs), Wire(id, kind, more), n);
  }

  datatype Outcome = Completed | WriteFailed | Panicked

  /** `encodeSize`, writing into the scratch buffer from index `at`. */
  method EncodeSize(b: array<Byte>, at: nat, size: nat) returns (n: nat)
    requires size < 0x1_0000_0000
    requires at + |SizeBytes(size)| <= b.Length
    modifies b
    ensures n == |SizeBytes(size)| && b[at..at + n] == SizeBytes(size)
    ensures b[..at] == old(b[..at])
  {
    if size > 127 {
      var s := if size < 0x8000_0000 then size + 0x8000_0000 else size;
      b[at], b[at + 1], b[at + 2], b[at + 3] := s / 16777216, s / 65536 % 256, s / 256 % 256, s % 256;
      n := 4;
    } else {
      b[at] := size;
      n := 1;
    }
  }

  class Client {
    const reqId: nat
    const capacity: nat
    var h: Header
    var buf: Bytes
    var sent: Bytes

    constructor (reqId: nat, capacity: nat)
      requires reqId < 65536
      ensures Valid() && sent == [] && this.reqId == reqId && this.capacity == capacity
    {
      this.reqId, this.capacity := reqId, capacity;
      h, buf, sent := ZERO_HEADER, [], [];
    }

    ghost predicate Valid()
      reads this
    {
      reqId < 65536 && |sent| <= capacity && h.reserved == 0
    }

    /** The transport's `Write`. */
    method Transmit(p: Bytes) returns (ok: bool)
      requires Valid()
      modifies this`sent
      ensures Valid() && sent == Upto(old(sent) + p, capacity)
      ensures ok <==> |old(sent) + p| <= capacity
    {
      ok := |sent + p| <= capacity;
      sent := if ok then sent + p else (sent + p)[..capacity];
    }

    method WriteRecord(kind: Byte, content: Bytes) returns (ok: bool)
      requires Valid()
      modifies this
      ensures Valid() && sent == Upto(old(sent) + RecordBytes(kind, reqId, content), capacity)
      ensures ok <==> |old(sent) + RecordBytes(kind, reqId, content)| <= capacity
    {
      buf := [];
      h := InitHeader(h, kind, reqId, |content|);
      buf := buf + HeaderBytes(h);
      buf := buf + content;
      buf := buf + Zeros(h.paddingLength);
      assert h == InitHeader(ZERO_HEADER, kind, reqId, |content|);
      ok := Transmit(buf);
    }

    method WriteBeginRequest(role: nat, flags: Byte) returns (ok: bool)
      requires Valid() && role < 65536
      modifies this
      ensures Valid()
      ensures var b: Bytes := [role / 256, role % 256, flags, 0, 0, 0, 0, 0];
              && sent == Upto(old(sent) + RecordBytes(BEGIN_REQUEST, reqId, b), capacity)
              && (ok <==> |old(sent) + RecordBytes(BEGIN_REQUEST, reqId, b)| <= capacity)
    {
      var b: Bytes := [role / 256, role % 256, flags, 0, 0, 0, 0, 0];
      ok := WriteRecord(BEGIN_REQUEST, b);
    }
  }

  class StreamWriter {
    const c: Client
    const kind: Byte

    constructor (c: Client, kind: Byte)
      ensures this.c == c && this.kind == kind
    {
      this.c, this.kind := c, kind;
    }

    /** `whole` records are accepted whole, and `nn` counts their bytes. */
    method Write(p: Bytes) returns (nn: nat, ok: bool, ghost whole: nat)
      requires c.Valid()
      modifies c
      ensures c.Valid() && c.sent == Upto(old(c.sent) + Wire(c.reqId, kind, Split(p)), c.capacity)
      ensures ok <==> |old(c.sent) + Wire(c.reqId, kind, Split(p))| <= c.capacity
      ensures whole <= |Split(p)| && nn == |Flat(Split(p)[..whole])| && nn <= |p|
      ensures ok ==> whole == |Split(p)| && nn == |p|
      ensures !ok ==>
                && whole < |Split(p)|
                && |old(c.sent) + Wire(c.reqId, kind, Split(p)[..whole])| <= c.capacity
                && |old(c.sent) + Wire(c.reqId, kind, Split(p)[..whole + 1])| > c.capacity
    {
      hide Wire;
      hide RecordBytes;
      hide Split;
      hide Flat;
      ghost var base := c.sent;
      ghost var done: seq<Bytes> := [];
      var rest := p;
      nn, whole := 0, 0;
      WireOne(c.reqId, kind, []);
      assert base + [] == base && done + Split(p) == Split(p);
      FlatNone();
      while |rest| > 0
        invariant c.Valid() && nn + |rest| == |p|
        invariant whole == |done| && nn == |Flat(done)|
        invariant Split(p) == done + Split(rest)
        invariant c.sent == base + Wire(c.reqId, kind, done)
        decreases |rest|
      {
        var n := |rest|;
        if n > MAX_WRITE { n := MAX_WRITE; }
        ghost var more := done + [rest[..n]];
        WireMore(c.reqId, kind, base, done, [rest[..n]]);
        WireOne(c.reqId, kind, rest[..n]);
        SplitNext(rest, n);
        assert Split(p) == more + Split(rest[n..]);
        assert Split(p)[..whole] == done && Split(p)[..whole + 1] == more;
        ok := c.WriteRecord(kind, rest[..n]);
        if !ok {
          Refused(c.reqId, kind, base, more, Split(p), c.capacity);
          return nn, false, whole;
        }
        FlatNext(more, whole);
        assert more[..whole] == done && more[..whole + 1] == more;
        done, whole := more, whole + 1;
        nn := nn + n;
        rest := rest[n..];
      }
      SplitEmpty();
      assert done == Split(p) && Split(p)[..whole] == Split(p);
      return nn, true, whole;
    }

    method Close() returns (ok: bool)
      requires c.Valid()
      modifies c
      ensures c.Valid() && c.sent == Upto(old(c.sent) + RecordBytes(kind, c.reqId, []), c.capacity)
      ensures ok <==> |old(c.sent) + RecordBytes(kind, c.reqId, [])| <= c.capacity
    {
      ok := c.WriteRecord(kind, []);
    }
  }

  /** `bufWriter` with the `bufio.Writer` of size MAX_WRITE it wraps.  `view` is what a transport
      without limit would have been given; `err` is the writer's sticky error. */
  class BufWriter {
    const w: StreamWriter
    var buf: Bytes
    var err: bool
    ghost var view: Stream
    ghost const base: Bytes

    constructor (c: Client, kind: Byte)
      requires c.Valid()
      ensures Valid() && w.c == c && w.kind == kind && view == EMPTY && base == c.sent && !err && fresh(w)
    {
      w := new StreamWriter(c, kind);
      buf, err := [], false;
      view, base := EMPTY, c.sent;
      new;
      WireOne(c.reqId, kind, []);
      assert base + [] == base;
    }

    ghost function Ideal(): Bytes
      requires w.c.reqId < 65536
      reads this
    {
      base + Wire(w.c.reqId, w.kind, view.records)
    }

    ghost predicate Valid()
      reads this, w.c
    {
      && w.c.Valid() && WellPacked(view) && |buf| <= MAX_WRITE
      && w.c.sent == Upto(Ideal(), w.c.capacity)
      && (err <==> |Ideal()| > w.c.capacity)
      && (!err ==> buf == view.buf)
    }

    /** With the error set, the view may run ahead of the wire. */
    ghost method RunAhead(next: Stream)
      requires Valid() && err && WellPacked(next) && view.records <= next.records
      modifies this`view
      ensures Valid() && view == next
    {
      Refused(w.c.reqId, w.kind, base, view.records, next.records, w.c.capacity);
      view := next;
    }

    /** Copies what fits into the buffer. */
    method Copy(p: Bytes)
      requires Valid() && !err && |buf| + |p| <= MAX_WRITE
      modifies this`buf, this`view
      ensures Valid() && buf == old(buf) + p && view == Stream(old(view).records, old(view).buf + p)
    {
      buf := buf + p;
      view := Stream(view.records, view.buf + p);
    }

    method Flush() returns (ok: bool)
      requires Valid()
      modifies this, w.c
      ensures Valid() && view == FcgiStream.Flush(old(view)) && ok == !err
      ensures !err ==> buf == []
    {
      FlushExtends(view);
      ghost var next := FcgiStream.Flush(view);
      if err {
        RunAhead(next);
        return false;
      }
      if |buf| == 0 {
        assert next == view;
        return true;
      }
      var n, good := HandOver(buf, next);
      if !good {
        buf := buf[n..];
        return false;
      }
      buf := [];
      return true;
    }

    /** Gives `p` to the stream writer, recording its error. */
    method HandOver(p: Bytes, ghost next: Stream) returns (n: nat, ok: bool)
      requires Valid() && !err
      requires WellPacked(next) && next == Stream(view.records + Split(p), [])
      modifies this, w.c
      ensures w.c.Valid() && n <= |p| && (ok ==> n == |p|) && ok == !err && buf == old(buf)
      ensures view == next && w.c.sent == Upto(Ideal(), w.c.capacity) && (err <==> |Ideal()| > w.c.capacity)
    {
      hide Wire;
      hide Split;
      WireMore(w.c.reqId, w.kind, base, view.records, Split(p));
      ghost var whole;
      n, ok, whole := w.Write(p);
      err := !ok;
      view := next;
    }

    method Write(p: Bytes) returns (ok: bool)
      requires Valid()
      modifies this, w.c
      ensures Valid() && view == Put(old(view), p) && ok == !err
      ensures old(!err) && |old(buf)| + |p| <= MAX_WRITE ==> ok && buf == old(buf) + p
    {
      ghost var goal := Put(view, p);
      PutExtends(view, p);
      if err {
        RunAhead(goal);
        return false;
      }
      hide Wire;
      hide Split;
      hide Content;
      var rest := p;
      while |rest| > MAX_WRITE - |buf| && !err
        invariant Valid()
        invariant if err then view == goal else Put(view, rest) == goal
        invariant |old(buf)| + |p| <= MAX_WRITE ==> !err && buf == old(buf) && rest == p
        decreases |rest| + |buf|, !err
      {
        if |buf| == 0 {
          BypassExtends(view, rest);
          var n, good := HandOver(rest, Stream(view.records + Split(rest), []));
          rest := rest[n..];
        } else {
          rest := TopUp(rest, goal);
        }
      }
      if err {
        return false;
      }
      Copy(rest);
      return true;
    }

    /** One turn of the loop of `Write` with bytes in the buffer: fill it up and flush. */
    method TopUp(p: Bytes, ghost goal: Stream) returns (rest: Bytes)
      requires Valid() && !err && 0 < |buf| && |buf| + |p| > MAX_WRITE && goal == Put(view, p)
      modifies this, w.c
      ensures Valid() && |rest| <= |p| && (!err ==> buf == [])
      ensures if err then view == goal && |buf| <= MAX_WRITE else Put(view, rest) == goal
      ensures |rest| + |buf| < |p| + |old(buf)| || err
      ensures |rest| + |buf| <= |p| + |old(buf)|
    {
      PutTopsUp(view, p);
      hide Put;
      hide Wire;
      var n := MAX_WRITE - |buf|;
      Copy(p[..n]);
      var good := Flush();
      rest := p[n..];
      if !good {
        PutExtends(view, rest);
        RunAhead(goal);
      }
    }

    /** `ReadFrom`, taken by `io.Copy` when the source cannot write itself.  It gives up after a
        hundred empty reads in a row. */
    method ReadAll(data: Bytes, sizes: seq<nat>) returns (ok: bool)
      requires Valid()
      modifies this, w.c
      ensures Valid() && view == ReadFrom(old(view), data, sizes, 0).0
      ensures ok <==> !err && ReadFrom(old(view), data, sizes, 0).1 == []
    {
      if err {
        ReadFromExtends(view, data, sizes, 0);
        RunAhead(ReadFrom(view, data, sizes, 0).0);
        return false;
      }
      ok := ReadOn(data, sizes, ReadFrom(view, data, sizes, 0));
    }

    method ReadOn(data: Bytes, sizes: seq<nat>, ghost goal: (Stream, Bytes)) returns (ok: bool)
      requires Valid() && !err && ReadFrom(view, data, sizes, 0) == goal
      modifies this, w.c
      ensures Valid() && view == goal.0 && (ok <==> !err && goal.1 == [])
    {
      hide Wire;
      hide Content;
      hide ReadFrom;
      hide Portion;
      hide Vacate;
      hide Upto;
      hide WellPacked;
      var rest, left, idle := data, sizes, 0;
      while true
        invariant Valid() && !err && idle < MAX_EMPTY_READS
        invariant ReadFrom(view, rest, left, idle) == goal
        decreases |rest|, |left|
      {
        ok := MakeRoom(rest, left, idle, goal);
        if !ok {
          return false;
        }
        ReadFromNext(view, rest, left, idle);
        if |rest| == 0 {
          return true;
        }
        var n := Portion(left, MAX_WRITE - |buf|, |rest|);
        if n > 0 {
          idle := 0;
        } else {
          idle := idle + 1;
          if idle == MAX_EMPTY_READS {
            return false;
          }
        }
        Copy(rest[..n]);
        rest, left := rest[n..], Rest(left);
      }
    }

    /** Flushes a full buffer before a read. */
    method MakeRoom(ghost rest: Bytes, ghost left: seq<nat>, ghost idle: nat, ghost goal: (Stream, Bytes))
      returns (ok: bool)
      requires Valid() && !err && idle < MAX_EMPTY_READS && ReadFrom(view, rest, left, idle) == goal
      modifies this, w.c
      ensures Valid() && ok == !err
      ensures if err then view == goal.0
              else |buf| < MAX_WRITE && view == Vacate(old(view)) && ReadFrom(view, rest, left, idle) == goal
    {
      hide Wire;
      hide Content;
      ok := true;
      if |buf| == MAX_WRITE {
        ReadFromVacated(view, rest, left, idle);
        ok := Flush();
        if !ok {
          ReadFromExtends(view, rest, left, idle);
          RunAhead(goal.0);
        }
      }
    }

    method Close() returns (ok: bool)
      requires Valid()
      modifies this, w.c
      ensures w.c.Valid()
      ensures var all := base + Encode(w.c.reqId, Closed(w.kind, FcgiStream.Flush(old(view)).records));
              w.c.sent == Upto(all, w.c.capacity) && (ok <==> |all| <= w.c.capacity)
    {
      hide Wire;
      hide RecordBytes;
      hide Encode;
      hide FcgiStream.Flush;
      hide WellPacked;
      var good := Flush();
      WireClosed(w.c.reqId, w.kind, view.records);
      ghost var body, last := Wire(w.c.reqId, w.kind, view.records), RecordBytes(w.kind, w.c.reqId, []);
      assert base + (body + last) == (base + body) + last;
      UptoAgain(base + body, last, w.c.capacity);
      ok := w.Close();
      ok := good && ok;
    }
  }

  /** One read, with room in the buffer. */
  lemma ReadFromNext(s: Stream, data: Bytes, sizes: seq<nat>, idle: nat)
    requires |s.buf| < MAX_WRITE && idle < MAX_EMPTY_READS
    ensures ReadFrom(s, data, sizes, idle) ==
            if data == [] then (s, [])
            else
              var n := Portion(sizes, MAX_WRITE - |s.buf|, |data|);
              if n == 0 && idle + 1 == MAX_EMPTY_READS then (s, data)
              else ReadFrom(Stream(s.records, s.buf + data[..n]), data[n..], Rest(sizes), if n > 0 then 0 else idle + 1)
  {
    hide Portion;
    if data != [] && Portion(sizes, MAX_WRITE - |s.buf|, |data|) == 0 {
      assert s.buf + data[..0] == s.buf && data[0..] == data;
    }
  }

  lemma ReadFromVacated(s: Stream, data: Bytes, sizes: seq<nat>, idle: nat)
    requires |s.buf| == MAX_WRITE && idle < MAX_EMPTY_READS
    ensures ReadFrom(FcgiStream.Flush(s), data, sizes, idle) == ReadFrom(s, data, sizes, idle)
  {
    assert Vacate(Vacate(s)) == Vacate(s);
  }
}
