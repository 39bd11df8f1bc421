/**
`writePairs` and `Do`: the parameter map and the body become one Responder request.
*/
module FcgiRequest {
  import opened Basics
  import opened FcgiWire
  import opened FcgiStream
  import opened FcgiClient

  /** The entries of `m` outside `todo`, each once, in the order visited. */
  ghost predicate Visited(ps: seq<Pair>, m: map<Bytes, Bytes>, todo: set<Bytes>) {
    && todo <= m.Keys
    && (forall i :: 0 <= i < |ps| ==> ps[i].name in m && ps[i].name !in todo && m[ps[i].name] == ps[i].value)
    && (forall k :: k in m && k !in todo ==> exists i :: 0 <= i < |ps| && ps[i].name == k)
    && (forall i, j :: 0 <= i < j < |ps| ==> ps[i].name != ps[j].name)
  }

  /** Some entries of `m`, each at most once. */
  ghost predicate PartOf(ps: seq<Pair>, m: map<Bytes, Bytes>) {
    && (forall i :: 0 <= i < |ps| ==> ps[i].name in m && m[ps[i].name] == ps[i].value)
    && (forall i, j :: 0 <= i < j < |ps| ==> ps[i].name != ps[j].name)
  }

  lemma VisitedPart(ps: seq<Pair>, m: map<Bytes, Bytes>, todo: set<Bytes>)
    requires Visited(ps, m, todo)
    ensures PartOf(ps, m)
  {
  }

  lemma VisitedNext(ps: seq<Pair>, m: map<Bytes, Bytes>, todo: set<Bytes>, k: Bytes)
    requires Visited(ps, m, todo) && k in todo
    ensures Visited(ps + [Pair(k, m[k])], m, todo - {k})
  {
    var qs := ps + [Pair(k, m[k])];
    assert qs[|ps|].name == k;
    forall x | x in m && x !in todo - {k}
      ensures exists i :: 0 <= i < |qs| && qs[i].name == x
    {
      if x != k {
        var i :| 0 <= i < |ps| && ps[i].name == x;
        assert qs[i].name == x;
      }
    }
  }

  /** Some way to finish an iteration that was cut short. */
  lemma {:induction false} Finish(ps: seq<Pair>, m: map<Bytes, Bytes>, todo: set<Bytes>) returns (all: seq<Pair>)
    requires Visited(ps, m, todo)
    ensures ps <= all && Enumerates(all, m)
    decreases todo
  {
    if todo == {} {
      all := ps;
    } else {
      var k :| k in todo;
      VisitedNext(ps, m, todo, k);
      all := Finish(ps + [Pair(k, m[k])], m, todo - {k});
    }
  }

  ghost predicate AllShort(m: map<Bytes, Bytes>) {
    forall k :: k in m ==> |k| <= MAX_WRITE - 8
  }

  lemma {:induction false} PutPairsGrows(ps: seq<Pair>, all: seq<Pair>)
    requires ShortNames(all) && ps <= all
    ensures ShortNames(ps) && PutPairs(ps).records <= PutPairs(all).records <= ParamRecords(all)
    decreases |all|
  {
    hide PutPair;
    PutPairsHolds(all);
    FlushHolds(PutPairs(all));
    if ps != all {
      var init := all[..|all| - 1];
      PutPairsGrows(ps, init);
      PutPairsHolds(init);
      PutPairHolds(PutPairs(init), all[|all| - 1]);
    } else {
      assert PutPairs(ps) == PutPairs(all);
    }
  }

  /** What the wire holds once PARAMS is closed, or once the transport has refused bytes. */
  ghost predicate ParamsOnWire(f: Client, base: Bytes, kind: Byte, ps: seq<Pair>)
    requires f.reqId < 65536 && ShortNames(ps)
    reads f
  {
    f.sent == Upto(base + Encode(f.reqId, Closed(kind, ParamRecords(ps))), f.capacity)
  }

  lemma CutShort(f: Client, base: Bytes, kind: Byte, rs: seq<Bytes>, all: seq<Pair>)
    requires f.reqId < 65536 && ShortNames(all) && rs <= ParamRecords(all)
    requires |base + Wire(f.reqId, kind, rs)| > f.capacity
    requires f.sent == Upto(base + Wire(f.reqId, kind, rs), f.capacity)
    ensures ParamsOnWire(f, base, kind, all)
    ensures |base + Encode(f.reqId, Closed(kind, ParamRecords(all)))| > f.capacity
  {
    hide Wire;
    hide RecordBytes;
    hide ParamRecords;
    var ps := ParamRecords(all);
    Refused(f.reqId, kind, base, rs, ps, f.capacity);
    WireClosed(f.reqId, kind, ps);
    var body, last := Wire(f.reqId, kind, ps), RecordBytes(kind, f.reqId, []);
    assert base + (body + last) == (base + body) + last;
    UptoAgain(base + body, last, f.capacity);
  }

  /**
  `writePairs`.  A name longer than MAX_WRITE - 8 makes the slice bound of its value negative:
  the program panics there, unless the transport fails first, and what is on the wire are the
  records flushed for the entries visited until then.  Otherwise every entry is on the wire, in
  some order, as far as the transport let it.
  */
  method WritePairs(f: Client, kind: Byte, pairs: map<Bytes, Bytes>) returns (res: Outcome, ghost order: seq<Pair>)
    requires f.Valid()
    modifies f
    ensures f.Valid()
    ensures AllShort(pairs) ==>
              && res != Panicked
              && Enumerates(order, pairs) && ShortNames(order)
              && ParamsOnWire(f, old(f.sent), kind, order)
    ensures AllShort(pairs) ==>
              (res == WriteFailed <==> |old(f.sent) + Wire(f.reqId, kind, PutPairs(order).records)| > f.capacity)
    ensures !AllShort(pairs) ==>
              && PartOf(order, pairs) && ShortNames(order)
              && f.sent == Upto(old(f.sent) + Wire(f.reqId, kind, PutPairs(order).records), f.capacity)
              && res == (if |old(f.sent) + Wire(f.reqId, kind, PutPairs(order).records)| > f.capacity
                         then WriteFailed else Panicked)
  {
    hide PutPair;
    hide PutPairs;
    hide Wire;
    hide PartOf;
    ghost var base := f.sent;
    var w := new BufWriter(f, kind);
    var b := new Byte[8];
    var nn := 0;
    order := [];
    var todo := pairs.Keys;
    PutPairsNone();
    while todo != {}
      invariant Visited(order, pairs, todo) && ShortNames(order)
      invariant w.Valid() && w.w.c == f && w.w.kind == kind && w.base == base && fresh(w) && fresh(w.w)
      invariant !w.err && w.view == PutPairs(order)
      // the running count is the number of buffered bytes, and never passes the bound
      invariant nn == |w.buf| <= MAX_WRITE
      decreases todo
    {
      var k :| k in todo;
      if |k| > MAX_WRITE - 8 {
        // the value would be cut at a negative index
        VisitedPart(order, pairs, todo);
        res := Panicked;
        return;
      }
      VisitedNext(order, pairs, todo, k);
      PutPairsNext(order, Pair(k, pairs[k]));
      var ok;
      nn, ok := PutNext(w, b, nn, k, pairs[k]);
      order, todo := order + [Pair(k, pairs[k])], todo - {k};
      if !ok {
        res := WriteFailed;
        VisitedPart(order, pairs, todo);
        if AllShort(pairs) {
          ghost var next := order;
          order := Finish(order, pairs, todo);
          PutPairsGrows(next, order);
          Refused(f.reqId, kind, base, w.view.records, PutPairs(order).records, f.capacity);
          CutShort(f, base, kind, w.view.records, order);
        }
        return;
      }
    }
    assert Enumerates(order, pairs);
    var _ := w.Close();
    res := Completed;
  }

  /** One turn of the loop of `writePairs`, for a name that fits. */
  method PutNext(w: BufWriter, b: array<Byte>, nn0: nat, k: Bytes, v0: Bytes) returns (nn: nat, ok: bool)
    requires w.Valid() && !w.err && nn0 == |w.buf| && b.Length == 8 && |k| <= MAX_WRITE - 8
    modifies w, w.w.c, b
    ensures w.Valid() && ok == !w.err
    ensures w.view.records == PutPair(old(w.view), Pair(k, v0)).records
    ensures ok ==> w.view == PutPair(old(w.view), Pair(k, v0)) && nn == |w.buf|
  {
    var v := v0;
    if 8 + |k| + |v| > MAX_WRITE {
      v := v[..MAX_WRITE - 8 - |k|];
    }
    assert Cut(Pair(k, v0)) == Pair(k, v);
    var n := EncodeSize(b, 0, |k|);
    assert b[..n] == b[0..n] == SizeBytes(|k|);
    var n2 := EncodeSize(b, n, |v|);
    n := n + n2;
    assert b[..n] == SizeBytes(|k|) + SizeBytes(|v|);
    PairBytesSplit(b[..n], k, v);
    ghost var e := PairBytes(Pair(k, v));
    hide PairBytes;
    hide SizeBytes;
    nn := nn0;
    var m := n + |k| + |v|;
    if nn + m > MAX_WRITE {
      var _ := w.Flush();
      nn := 0;
    }
    nn := nn + m;
    ok := PutThree(w, b[..n], k, v, e);
  }

  lemma PairBytesSplit(head: Bytes, k: Bytes, v: Bytes)
    requires |k| < 0x1_0000_0000 && |v| < 0x1_0000_0000 && head == SizeBytes(|k|) + SizeBytes(|v|)
    ensures PairBytes(Pair(k, v)) == head + k + v
  {
  }

  /** The three writes of one pair, which only copy; the first one to fail ends them. */
  method PutThree(w: BufWriter, head: Bytes, k: Bytes, v: Bytes, ghost e: Bytes) returns (ok: bool)
    requires w.Valid() && e == head + k + v && |w.view.buf| + |e| <= MAX_WRITE
    modifies w, w.w.c
    ensures w.Valid() && ok == !w.err
    ensures w.view.records == old(w.view.records)
    ensures ok ==> w.view.buf == old(w.view.buf) + e && |w.buf| == |w.view.buf|
  {
    hide Wire;
    hide Put;
    hide WellPacked;
    hide Upto;
    PutCopies(w.view, head);
    ok := w.Write(head);
    if !ok { return; }
    PutCopies(w.view, k);
    ok := w.Write(k);
    if !ok { return; }
    PutCopies(w.view, v);
    ok := w.Write(v);
    assert old(w.view).buf + head + k + v == old(w.view).buf + e;
  }

  // ---------- Do ----------

  /** A receiver of `bytes` gets request `id` with the parameters of `m`, over-long values cut,
      no pair across two records, and what its source delivers of the body. */
  ghost predicate Carries(bytes: Bytes, id: nat, m: map<Bytes, Bytes>, body: Body)
    requires AllShort(m)
  {
    var rs := ParseRecords(bytes);
    rs.Some? &&
    var q := AcceptResponder(rs.value);
    q.Some? &&
    var ps := DecodeEach(q.value.params);
    && q.value.id == id && q.value.role == 1 && q.value.flags == 0
    && ps.Some? && DecodePairs(Flat(q.value.params)) == ps
    && AsMap(ps.value) == (map k | k in m :: CutValue(k, m[k]))
    && Flat(q.value.stdin) == Taken(body)
  }

  lemma RequestCarries(id: nat, ps: seq<Pair>, m: map<Bytes, Bytes>, body: Body)
    requires id < 65536 && ShortNames(ps) && Enumerates(ps, m)
    ensures AllShort(m) && Carries(RequestBytes(id, ps, body), id, m, body)
  {
    RequestAccepted(id, ps, body);
    ParamsAsMap(ps, m);
  }

  function ParamBytes(id: nat, ps: seq<Pair>): Bytes
    requires id < 65536 && ShortNames(ps)
  {
    Encode(id, Closed(PARAMS, ParamRecords(ps)))
  }

  function StdinBytes(id: nat, body: Body): Bytes
    requires id < 65536
  {
    Encode(id, Closed(STDIN, StdinRecords(body)))
  }

  function BeginBytes(id: nat): Bytes
    requires id < 65536
  {
    RecordBytes(BEGIN_REQUEST, id, BEGIN_BODY)
  }

  lemma EncodeThree(id: nat, xs: seq<(Byte, Bytes)>, ys: seq<(Byte, Bytes)>, zs: seq<(Byte, Bytes)>)
    requires id < 65536
    ensures Encode(id, xs + ys + zs) == Encode(id, xs) + Encode(id, ys) + Encode(id, zs)
  {
    EncodeAppend(id, xs + ys, zs);
    EncodeAppend(id, xs, ys);
  }

  lemma RequestSplit(id: nat, ps: seq<Pair>, body: Body)
    requires id < 65536 && ShortNames(ps)
    ensures RequestBytes(id, ps, body) == BeginBytes(id) + ParamBytes(id, ps) + StdinBytes(id, body)
  {
    hide ParamRecords;
    hide StdinRecords;
    hide Closed;
    EncodeThree(id, [(BEGIN_REQUEST, BEGIN_BODY)], Closed(PARAMS, ParamRecords(ps)), Closed(STDIN, StdinRecords(body)));
    assert Tag(BEGIN_REQUEST, [BEGIN_BODY]) == [(BEGIN_REQUEST, BEGIN_BODY)];
    WireOne(id, BEGIN_REQUEST, BEGIN_BODY);
  }

  /** The three parts go through the transport one after the other; a refusal in one is final. */
  lemma Delivered(id: nat, base: Bytes, ps: seq<Pair>, body: Body, n: nat)
    requires id < 65536 && ShortNames(ps)
    ensures var x, y, z := base + BeginBytes(id), ParamBytes(id, ps), StdinBytes(id, body);
            var whole := Upto(base + RequestBytes(id, ps, body), n);
            && Upto(Upto(Upto(x, n) + y, n) + z, n) == whole
            && (|x| > n ==> whole == Upto(x, n))
            && (|x + y| > n ==> whole == Upto(x + y, n))
            && Upto(x + y, n) == Upto(Upto(x, n) + y, n)
            && (|whole| < n ==> |base| <= |whole| && whole[|base|..] == RequestBytes(id, ps, body))
  {
    RequestSplit(id, ps, body);
    hide RequestBytes;
    hide BeginBytes;
    hide ParamBytes;
    hide StdinBytes;
    hide Upto;
    ThreeParts(base, BeginBytes(id), ParamBytes(id, ps), StdinBytes(id, body), n);
  }

  lemma ThreeParts(base: Bytes, b: Bytes, y: Bytes, z: Bytes, n: nat)
    ensures var x, whole := base + b, Upto(base + (b + y + z), n);
            && Upto(Upto(Upto(x, n) + y, n) + z, n) == whole
            && (|x| > n ==> whole == Upto(x, n))
            && (|x + y| > n ==> whole == Upto(x + y, n))
            && Upto(x + y, n) == Upto(Upto(x, n) + y, n)
            && (|whole| < n ==> |base| <= |whole| && whole[|base|..] == b + y + z)
  {
    var x := base + b;
    assert base + (b + y + z) == x + y + z == x + (y + z);
    UptoAgain(x, y, n);
    UptoAgain(x, y + z, n);
    UptoAgain(x + y, z, n);
    if |Upto(x + y + z, n)| < n {
      assert (base + (b + y + z))[|base|..] == b + y + z;
    }
  }

  /**
  `Do`, up to the reader it returns.  The wire always holds a prefix of one well-formed
  request, the whole of it when the transport took every byte.  An error is reported exactly
  when BEGIN_REQUEST or a PARAMS record flushed before the last pair was refused: a loss of the
  last PARAMS record, of an end-of-stream record or of the body goes unreported.  With a name too
  long for a record it panics, or reports a refusal before that name, and the wire holds
  BEGIN_REQUEST and the records flushed for the entries visited.
  */
  method Do(f: Client, p: map<Bytes, Bytes>, req: Body) returns (res: Outcome, ghost order: seq<Pair>)
    requires f.Valid()
    modifies f
    ensures f.Valid()
    ensures AllShort(p) ==>
              && res != Panicked
              && Enumerates(order, p) && ShortNames(order)
              && f.sent == Upto(old(f.sent) + RequestBytes(f.reqId, order, req), f.capacity)
              && Carries(RequestBytes(f.reqId, order, req), f.reqId, p, req)
    ensures AllShort(p) && |f.sent| < f.capacity ==> Carries(f.sent[|old(f.sent)|..], f.reqId, p, req)
    ensures AllShort(p) ==>
              (res == WriteFailed <==> |(old(f.sent) + BeginBytes(f.reqId))
                                        + Wire(f.reqId, PARAMS, PutPairs(order).records)| > f.capacity)
    ensures !AllShort(p) ==>
              && PartOf(order, p) && ShortNames(order)
              && var flushed := old(f.sent) + BeginBytes(f.reqId) + Wire(f.reqId, PARAMS, PutPairs(order).records);
                 f.sent == Upto(flushed, f.capacity) && res == if |flushed| > f.capacity then WriteFailed else Panicked
  {
    hide Wire;
    hide RequestBytes;
    hide BeginBytes;
    hide ParamBytes;
    hide Carries;
    hide Enumerates;
    ghost var base := f.sent;
    var ok := SendBegin(f);
    if !ok {
      res, order := WriteFailed, [];
      if !AllShort(p) {
        PutPairsNone();
        WireOne(f.reqId, PARAMS, []);
        assert base + BeginBytes(f.reqId) + [] == base + BeginBytes(f.reqId);
      } else {
        order := AnyOrder(p);
        RequestCarries(f.reqId, order, p, req);
        Delivered(f.reqId, base, order, req, f.capacity);
      }
      return;
    }
    res, order := SendParams(f, p);
    if res != Panicked && AllShort(p) {
      RequestCarries(f.reqId, order, p, req);
      Delivered(f.reqId, base, order, req, f.capacity);
    }
    if res != Completed {
      return;
    }
    SendBody(f, req);
  }

  method SendBegin(f: Client) returns (ok: bool)
    requires f.Valid()
    modifies f
    ensures f.Valid() && f.sent == Upto(old(f.sent) + BeginBytes(f.reqId), f.capacity)
    ensures ok <==> |old(f.sent) + BeginBytes(f.reqId)| <= f.capacity
  {
    ok := f.WriteBeginRequest(ROLE_RESPONDER, 0);
  }

  method SendParams(f: Client, p: map<Bytes, Bytes>) returns (res: Outcome, ghost order: seq<Pair>)
    requires f.Valid()
    modifies f
    ensures f.Valid()
    ensures AllShort(p) ==>
              && res != Panicked
              && Enumerates(order, p) && ShortNames(order)
              && f.sent == Upto(old(f.sent) + ParamBytes(f.reqId, order), f.capacity)
              && (res == WriteFailed <==> |old(f.sent) + Wire(f.reqId, PARAMS, PutPairs(order).records)| > f.capacity)
              && (res == WriteFailed ==> |old(f.sent) + ParamBytes(f.reqId, order)| > f.capacity)
    ensures !AllShort(p) ==>
              && PartOf(order, p) && ShortNames(order)
              && var flushed := old(f.sent) + Wire(f.reqId, PARAMS, PutPairs(order).records);
                 f.sent == Upto(flushed, f.capacity) && res == if |flushed| > f.capacity then WriteFailed else Panicked
  {
    ghost var base := f.sent;
    res, order := WritePairs(f, PARAMS, p);
    if AllShort(p) {
      PutPairsFit(f.reqId, base, order, f.capacity);
    }
  }

  method SendBody(f: Client, req: Body)
    requires f.Valid()
    modifies f
    ensures f.Valid() && f.sent == Upto(old(f.sent) + StdinBytes(f.reqId, req), f.capacity)
  {
    hide Encode;
    var body := new BufWriter(f, STDIN);
    CopyBody(body, req);
    var _ := body.Close();
  }

  lemma AnyOrder(m: map<Bytes, Bytes>) returns (ps: seq<Pair>)
    requires AllShort(m)
    ensures Enumerates(ps, m) && ShortNames(ps)
  {
    ps := Finish([], m, m.Keys);
  }

  /** If the records flushed while the pairs were put are refused, so is the closed stream. */
  lemma PutPairsFit(id: nat, base: Bytes, ps: seq<Pair>, n: nat)
    requires id < 65536 && ShortNames(ps)
    ensures |base + Wire(id, PARAMS, PutPairs(ps).records)| > n ==>
              |base + Encode(id, Closed(PARAMS, ParamRecords(ps)))| > n
  {
    PutPairsGrows(ps, ps);
    if |base + Wire(id, PARAMS, PutPairs(ps).records)| > n {
      Refused(id, PARAMS, base, PutPairs(ps).records, ParamRecords(ps), n);
      WireClosed(id, PARAMS, ParamRecords(ps));
    }
  }

  /** `io.Copy` of the body; its error is not looked at. */
  method CopyBody(w: BufWriter, req: Body)
    requires w.Valid()
    modifies w, w.w.c
    ensures w.Valid() && w.view == Feed(old(w.view), req)
  {
    match req
    case NoBody =>
    case WriterTo(chunks) =>
      var i := 0;
      assert chunks[0..] == chunks;
      while i < |chunks|
        invariant 0 <= i <= |chunks| && w.Valid()
        invariant PutChunks(w.view, chunks[i..]) == PutChunks(old(w.view), chunks)
      {
        PutExtends(w.view, chunks[i]);
        assert chunks[i..][1..] == chunks[i + 1..];
        var _ := w.Write(chunks[i]);
        i := i + 1;
      }
    case Reader(data, sizes) =>
      var _ := w.ReadAll(data, sizes);
  }
}
