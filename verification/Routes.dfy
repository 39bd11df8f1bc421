/**
Routes of a deployed project: decoding the JSON object of routes in document order, and
choosing the default route of the project and of the application.

The JSON text is taken as its tree and its token stream; decoding one route and parsing one
URL are parameters.
*/
module Routes {
  import opened Basics

  // ---------- JSON ----------

  datatype Scalar = Str(text: string) | Other(text: string)

  datatype Json = Atom(v: Scalar) | Arr(items: seq<Json>) | Obj(members: seq<Member>)

  datatype Member = Member(key: string, value: Json)

  datatype Token = OpenArray | CloseArray | OpenObject | CloseObject | Value(v: Scalar)

  predicate Closes(t: Token) { t == CloseArray || t == CloseObject }

  /** What the decoder's `Token` yields for a document. */
  function Tokens(j: Json): (ts: seq<Token>)
    ensures |ts| > 0 && !Closes(ts[0])
    decreases j, 1
  {
    match j
    case Atom(v) => [Value(v)]
    case Arr(items) => [OpenArray] + ItemTokens(items) + [CloseArray]
    case Obj(members) => [OpenObject] + MemberTokens(members) + [CloseObject]
  }

  function ItemTokens(items: seq<Json>): seq<Token>
    decreases items, 0
  {
    if items == [] then [] else Tokens(items[0]) + ItemTokens(items[1..])
  }

  function MemberTokens(members: seq<Member>): seq<Token>
    decreases members, 0
  {
    if members == [] then []
    else [Value(Str(members[0].key))] + Tokens(members[0].value) + MemberTokens(members[1..])
  }

  datatype Skipped = Done | SawEnd | Failed

  /** `skipValue` on the tokens left, and what it leaves. */
  function Skip(ts: seq<Token>): (r: (Skipped, seq<Token>))
    ensures r.0 != Failed ==> |r.1| < |ts|
    ensures |r.1| <= |ts|
    decreases |ts|, 0
  {
    if ts == [] then (Failed, ts)
    else if ts[0].Value? then (Done, ts[1..])
    else if Closes(ts[0]) then (SawEnd, ts[1..])
    else SkipRest(ts[1..])
  }

  /** Its inner loop, after an opening delimiter. */
  function SkipRest(ts: seq<Token>): (r: (Skipped, seq<Token>))
    ensures r.0 != SawEnd
    ensures r.0 != Failed ==> |r.1| < |ts|
    ensures |r.1| <= |ts|
    decreases |ts|, 1
  {
    var (r, rest) := Skip(ts);
    match r
    case SawEnd => (Done, rest)
    case Failed => (Failed, rest)
    case Done => SkipRest(rest)
  }

  /** Whatever the value and however deep, exactly its tokens are consumed. */
  lemma {:induction false} SkipExact(j: Json, rest: seq<Token>)
    ensures Skip(Tokens(j) + rest) == (Done, rest)
    decreases j, 1
  {
    var ts := Tokens(j) + rest;
    match j
    case Atom(v) =>
      assert ts[1..] == rest;
    case Arr(items) =>
      assert ts[1..] == ItemTokens(items) + [CloseArray] + rest;
      SkipItems(items, CloseArray, rest);
    case Obj(members) =>
      assert ts[1..] == MemberTokens(members) + [CloseObject] + rest;
      SkipMembers(members, rest);
  }

  lemma SkipClose(close: Token, rest: seq<Token>)
    requires Closes(close)
    ensures SkipRest([close] + rest) == (Done, rest)
  {
    assert ([close] + rest)[1..] == rest;
  }

  lemma SkipThenRest(ts: seq<Token>, rest: seq<Token>)
    requires Skip(ts) == (Done, rest)
    ensures SkipRest(ts) == SkipRest(rest)
  {
  }

  lemma {:induction false} SkipItems(items: seq<Json>, close: Token, rest: seq<Token>)
    requires Closes(close)
    ensures SkipRest(ItemTokens(items) + [close] + rest) == (Done, rest)
    decreases items, 0
  {
    hide Skip;
    hide SkipRest;
    if items == [] {
      SkipClose(close, rest);
      assert [] + [close] + rest == [close] + rest;
    } else {
      var more := ItemTokens(items[1..]) + [close] + rest;
      assert ItemTokens(items) + [close] + rest == Tokens(items[0]) + more;
      SkipExact(items[0], more);
      SkipThenRest(Tokens(items[0]) + more, more);
      SkipItems(items[1..], close, rest);
    }
  }

  lemma {:induction false} SkipMembers(members: seq<Member>, rest: seq<Token>)
    ensures SkipRest(MemberTokens(members) + [CloseObject] + rest) == (Done, rest)
    decreases members, 0
  {
    hide Skip;
    hide SkipRest;
    if members == [] {
      SkipClose(CloseObject, rest);
      assert [] + [CloseObject] + rest == [CloseObject] + rest;
    } else {
      var m := members[0];
      var more := MemberTokens(members[1..]) + [CloseObject] + rest;
      var value := Tokens(m.value) + more;
      assert MemberTokens(members) + [CloseObject] + rest == [Value(Str(m.key))] + value;
      SkipKey(m.key, value);
      SkipThenRest([Value(Str(m.key))] + value, value);
      SkipExact(m.value, more);
      SkipThenRest(value, more);
      SkipMembers(members[1..], rest);
    }
  }

  lemma SkipKey(key: string, rest: seq<Token>)
    ensures Skip([Value(Str(key))] + rest) == (Done, rest)
  {
    assert ([Value(Str(key))] + rest)[1..] == rest;
  }

  // ---------- the ordered slice ----------

  datatype Url = Url(key: string, kind: string, to: string, upstream: string, originalUrl: string)

  /** `json.Unmarshal` into a map: every value must decode, and the last of equal keys wins. */
  function DecodeMap(members: seq<Member>, decode: Json -> Option<Url>): Option<map<string, Url>> {
    if members == [] then Some(map[])
    else
      var last := members[|members| - 1];
      match (DecodeMap(members[..|members| - 1], decode), decode(last.value))
      case (Some(m), Some(u)) => Some(m[last.key := u])
      case _ => None
  }

  /** Member `j` is the last one with its key. */
  ghost predicate LastOf(members: seq<Member>, key: string, j: nat) {
    && j < |members| && members[j].key == key
    && forall k :: j < k < |members| ==> members[k].key != key
  }

  lemma {:induction false} DecodeMapTotal(members: seq<Member>, decode: Json -> Option<Url>)
    ensures DecodeMap(members, decode).Some? <==>
              forall i :: 0 <= i < |members| ==> decode(members[i].value).Some?
    ensures DecodeMap(members, decode).Some? ==>
              forall i :: 0 <= i < |members| ==> members[i].key in DecodeMap(members, decode).value
  {
    if members != [] {
      var init := members[..|members| - 1];
      DecodeMapTotal(init, decode);
      assert forall i :: 0 <= i < |init| ==> init[i] == members[i];
    }
  }

  /** Each key has the value of its last member. */
  lemma {:induction false} DecodeMapAt(members: seq<Member>, decode: Json -> Option<Url>, key: string, j: nat)
    requires DecodeMap(members, decode).Some? && LastOf(members, key, j)
    ensures decode(members[j].value).Some? && key in DecodeMap(members, decode).value
    ensures DecodeMap(members, decode).value[key] == decode(members[j].value).value
  {
    var init, last := members[..|members| - 1], members[|members| - 1];
    if j < |init| {
      assert init[j] == members[j] && members[|members| - 1].key != key;
      assert forall k :: j < k < |init| ==> init[k] == members[k];
      DecodeMapAt(init, decode, key, j);
    }
  }

  lemma {:induction false} HasLast(members: seq<Member>, i: nat) returns (j: nat)
    requires i < |members|
    ensures i <= j && LastOf(members, members[i].key, j)
    decreases |members| - i
  {
    if k :| i < k < |members| && members[k].key == members[i].key {
      j := HasLast(members, k);
    } else {
      j := i;
    }
  }

  /** The decoded value of the last member with this key, carrying the key. */
  ghost predicate EntryOf(members: seq<Member>, decode: Json -> Option<Url>, key: string, u: Url) {
    exists j: nat :: LastOf(members, key, j) && decode(members[j].value).Some?
                     && u == decode(members[j].value).value.(key := key)
  }

  lemma ValueIsEntry(members: seq<Member>, decode: Json -> Option<Url>, i: nat)
    requires DecodeMap(members, decode).Some? && i < |members|
    ensures members[i].key in DecodeMap(members, decode).value
    ensures EntryOf(members, decode, members[i].key,
                    DecodeMap(members, decode).value[members[i].key].(key := members[i].key))
  {
    var j := HasLast(members, i);
    DecodeMapAt(members, decode, members[i].key, j);
  }

  class Decoder {
    var left: seq<Token>

    constructor (ts: seq<Token>)
      ensures left == ts
    {
      left := ts;
    }

    method Token() returns (t: Option<Token>)
      modifies this
      ensures t == if old(left) == [] then None else Some(old(left)[0])
      ensures left == if old(left) == [] then [] else old(left)[1..]
    {
      if left == [] {
        return None;
      }
      t, left := Some(left[0]), left[1..];
    }

    method SkipValue() returns (r: Skipped)
      modifies this
      ensures (r, left) == Skip(old(left))
      decreases |left|
    {
      var t := Token();
      if t.None? {
        return Failed;
      }
      if t.value == OpenArray || t.value == OpenObject {
        ghost var inner := left;
        while true
          invariant SkipRest(left) == SkipRest(inner) && |left| <= |inner|
          decreases |left|
        {
          r := SkipValue();
          if r == SawEnd {
            break;
          }
          if r == Failed {
            return;
          }
        }
        return Done;
      }
      if t.value == CloseArray || t.value == CloseObject {
        return SawEnd;
      }
      return Done;
    }
  }

  /** `URLSlice.UnmarshalJSON`: one entry per top-level member, in document order, each carrying
      the decoded value of its own key, that of the last member where a key is repeated. */
  method Unmarshal(doc: Json, decode: Json -> Option<Url>) returns (res: Option<seq<Url>>)
    ensures res.Some? <==>
              doc.Obj? && forall i :: 0 <= i < |doc.members| ==> decode(doc.members[i].value).Some?
    ensures res.Some? ==> |res.value| == |doc.members|
    ensures res.Some? ==>
              forall i :: 0 <= i < |doc.members| ==> EntryOf(doc.members, decode, doc.members[i].key, res.value[i])
  {
    hide EntryOf;
    hide DecodeMap;
    hide MemberTokens;
    if doc.Obj? {
      DecodeMapTotal(doc.members, decode);
      if DecodeMap(doc.members, decode).None? {
        return None;
      }
    }
    var d := new Decoder(Tokens(doc));
    var t := d.Token();
    if t != Some(OpenObject) {
      return None;
    }
    var keys := CollectKeys(d, doc.members);
    var slice := Values(keys, DecodeMap(doc.members, decode).value);
    forall i | 0 <= i < |doc.members|
      ensures EntryOf(doc.members, decode, doc.members[i].key, slice[i])
    {
      ValueIsEntry(doc.members, decode, i);
    }
    return Some(slice);
  }

  /** The last loop: the value of each key, carrying the key. */
  method Values(keys: seq<string>, v: map<string, Url>) returns (slice: seq<Url>)
    requires forall i :: 0 <= i < |keys| ==> keys[i] in v
    ensures |slice| == |keys| && forall i :: 0 <= i < |keys| ==> slice[i] == v[keys[i]].(key := keys[i])
  {
    slice := [];
    for i := 0 to |keys|
      invariant |slice| == i
      invariant forall k :: 0 <= k < i ==> slice[k] == v[keys[k]].(key := keys[k])
    {
      slice := slice + [v[keys[i]].(key := keys[i])];
    }
  }

  /** The loop over the members: a key token, then one value skipped. */
  method CollectKeys(d: Decoder, members: seq<Member>) returns (keys: seq<string>)
    requires d.left == MemberTokens(members) + [CloseObject]
    modifies d
    ensures |keys| == |members| && forall i :: 0 <= i < |members| ==> keys[i] == members[i].key
    ensures d.left == []
  {
    hide Skip;
    hide Tokens;
    keys := [];
    ghost var n := 0;
    while true
      invariant 0 <= n <= |members| && |keys| == n
      invariant forall i :: 0 <= i < n ==> keys[i] == members[i].key
      invariant d.left == MemberTokens(members[n..]) + [CloseObject]
      decreases |members| - n
    {
      MembersNext(members[n..]);
      var t := d.Token();
      if t == Some(CloseObject) {
        return;
      }
      keys := keys + [t.value.v.text];
      SkipExact(members[n].value, MemberTokens(members[n..][1..]) + [CloseObject]);
      var r := d.SkipValue();
      assert members[n..][1..] == members[n + 1..];
      n := n + 1;
    }
  }

  lemma Regroup(a: seq<Token>, b: seq<Token>, c: seq<Token>, d: seq<Token>)
    requires |a| == 1
    ensures (a + b + c + d)[0] == a[0] && (a + b + c + d)[1..] == b + (c + d)
  {
    assert a + b + c + d == a + (b + (c + d));
  }

  lemma MembersNext(members: seq<Member>)
    ensures var ts := MemberTokens(members) + [CloseObject];
            && ts != []
            && (members == [] ==> ts[0] == CloseObject && ts[1..] == [])
            && (members != [] ==>
                  && ts[0] == Value(Str(members[0].key))
                  && ts[1..] == Tokens(members[0].value) + (MemberTokens(members[1..]) + [CloseObject]))
  {
    hide Tokens;
    if members != [] {
      var key, value, rest := [Value(Str(members[0].key))], Tokens(members[0].value), MemberTokens(members[1..]);
      assert MemberTokens(members) == key + value + rest;
      hide MemberTokens;
      Regroup(key, value, rest, [CloseObject]);
    }
  }

  // ---------- the default route ----------

  predicate OccursAt(s: string, t: string, i: nat) { i + |t| <= |s| && s[i..i + |t|] == t }

  predicate Contains(s: string, t: string) { exists i :: 0 <= i <= |s| && OccursAt(s, t, i) }

  const PATTERNS: seq<string> := ["://{default}/", "://{all}/", "://www.{default}/", "://www.{all}/"]

  /** Index of the first pattern the original URL ends with, or 4. */
  function EndsWith(u: Url): (c: nat)
    ensures c <= 4 && (c < 4 ==> HasSuffix(u.originalUrl, PATTERNS[c]))
    ensures forall i :: 0 <= i < c ==> !HasSuffix(u.originalUrl, PATTERNS[i])
  {
    if HasSuffix(u.originalUrl, PATTERNS[0]) then 0
    else if HasSuffix(u.originalUrl, PATTERNS[1]) then 1
    else if HasSuffix(u.originalUrl, PATTERNS[2]) then 2
    else if HasSuffix(u.originalUrl, PATTERNS[3]) then 3
    else 4
  }

  function Holds(u: Url): (c: nat)
    ensures c <= 4 && (c < 4 ==> Contains(u.originalUrl, PATTERNS[c]))
    ensures forall i :: 0 <= i < c ==> !Contains(u.originalUrl, PATTERNS[i])
  {
    if Contains(u.originalUrl, PATTERNS[0]) then 0
    else if Contains(u.originalUrl, PATTERNS[1]) then 1
    else if Contains(u.originalUrl, PATTERNS[2]) then 2
    else if Contains(u.originalUrl, PATTERNS[3]) then 3
    else 4
  }

  /** Priority of a route: a main or www route of any application, then a path under one for this
      application, then any route of this application, then anything. */
  function Class(u: Url, app: string): nat {
    if EndsWith(u) < 4 then EndsWith(u) else if u.upstream == app then 4 + Holds(u) else 9
  }

  predicate Eligible(u: Url, app: Option<string>, valid: string -> bool) {
    u.kind == "upstream" && (app.Some? ==> u.upstream == app.value) && valid(u.key)
  }

  /** Route `k` of the document is eligible and comes first by class, then by position. */
  ghost predicate Best(us: seq<Url>, who: Option<string>, app: string, valid: string -> bool, k: nat) {
    && k < |us| && Eligible(us[k], who, valid)
    && forall j :: 0 <= j < |us| && Eligible(us[j], who, valid) ==> Precedes(us, app, k, j)
  }

  predicate Precedes(us: seq<Url>, app: string, k: nat, j: nat)
    requires k < |us| && j < |us|
  {
    Class(us[k], app) < Class(us[j], app) || (Class(us[k], app) == Class(us[j], app) && k <= j)
  }

  ghost predicate NoneEligible(us: seq<Url>, who: Option<string>, valid: string -> bool) {
    forall j :: 0 <= j < |us| ==> !Eligible(us[j], who, valid)
  }

  /** `cs` are the eligible routes in document order; `at` says where they come from. */
  ghost predicate Selects(cs: seq<Url>, at: seq<nat>, us: seq<Url>, who: Option<string>, valid: string -> bool) {
    && |cs| == |at|
    && (forall i :: 0 <= i < |at| ==> at[i] < |us| && cs[i] == us[at[i]] && Eligible(cs[i], who, valid))
    && (forall i, j :: 0 <= i < j < |at| ==> at[i] < at[j])
    && (forall j :: 0 <= j < |us| && Eligible(us[j], who, valid) ==> j in at)
  }

  /** The filtering pass. */
  method Filter(us: seq<Url>, who: Option<string>, valid: string -> bool) returns (cs: seq<Url>, ghost at: seq<nat>)
    ensures Selects(cs, at, us, who, valid)
  {
    cs, at := [], [];
    for i := 0 to |us|
      invariant Selects(cs, at, us[..i], who, valid)
    {
      assert forall j :: 0 <= j < i ==> us[..i][j] == us[..i + 1][j];
      if us[i].kind != "upstream" { continue; }
      if who.Some? && us[i].upstream != who.value { continue; }
      if !valid(us[i].key) { continue; }
      cs, at := cs + [us[i]], at + [i];
    }
    assert us[..|us|] == us;
  }

  /** The best of the selected routes is the best of the document. */
  lemma BestSelected(cs: seq<Url>, at: seq<nat>, us: seq<Url>,
                     who: Option<string>, app: string, valid: string -> bool, k: nat)
    requires Selects(cs, at, us, who, valid) && k < |cs|
    requires forall i :: 0 <= i < |cs| ==> Class(cs[k], app) <= Class(cs[i], app)
    requires forall i :: 0 <= i < k ==> Class(cs[k], app) < Class(cs[i], app)
    ensures Best(us, who, app, valid, at[k])
  {
    hide Class;
    hide Eligible;
    forall j | 0 <= j < |us| && Eligible(us[j], who, valid)
      ensures Precedes(us, app, at[k], j)
    {
      var i :| 0 <= i < |at| && at[i] == j;
      assert cs[i] == us[j];
    }
  }

  /** First pass: patterns in order, routes in order. */
  method FindSuffix(cs: seq<Url>) returns (r: Option<nat>)
    ensures r.None? ==> forall j :: 0 <= j < |cs| ==> EndsWith(cs[j]) == 4
    ensures r.Some? ==>
              && r.value < |cs| && EndsWith(cs[r.value]) < 4
              && (forall j :: 0 <= j < |cs| ==> EndsWith(cs[r.value]) <= EndsWith(cs[j]))
              && (forall j :: 0 <= j < r.value ==> EndsWith(cs[r.value]) < EndsWith(cs[j]))
  {
    hide EndsWith;
    hide HasSuffix;
    for m := 0 to 4
      invariant forall j :: 0 <= j < |cs| ==> EndsWith(cs[j]) >= m
    {
      for k := 0 to |cs|
        invariant forall j :: 0 <= j < k ==> EndsWith(cs[j]) > m
      {
        if HasSuffix(cs[k].originalUrl, PATTERNS[m]) {
          return Some(k);
        }
      }
    }
    return None;
  }

  /** Second pass; the project's search looks at the routes of the application only. */
  method FindContained(cs: seq<Url>, app: string, checkApp: bool) returns (r: Option<nat>)
    requires checkApp || forall j :: 0 <= j < |cs| ==> cs[j].upstream == app
    ensures r.None? ==> forall j :: 0 <= j < |cs| && cs[j].upstream == app ==> Holds(cs[j]) == 4
    ensures r.Some? ==>
              && r.value < |cs| && cs[r.value].upstream == app && Holds(cs[r.value]) < 4
              && (forall j :: 0 <= j < |cs| && cs[j].upstream == app ==> Holds(cs[r.value]) <= Holds(cs[j]))
              && (forall j :: 0 <= j < r.value && cs[j].upstream == app ==> Holds(cs[r.value]) < Holds(cs[j]))
  {
    hide Holds;
    hide Contains;
    for m := 0 to 4
      invariant forall j :: 0 <= j < |cs| && cs[j].upstream == app ==> Holds(cs[j]) >= m
    {
      for k := 0 to |cs|
        invariant forall j :: 0 <= j < k && cs[j].upstream == app ==> Holds(cs[j]) > m
      {
        if (!checkApp || cs[k].upstream == app) && Contains(cs[k].originalUrl, PATTERNS[m]) {
          return Some(k);
        }
      }
    }
    return None;
  }

  /** `extractProjectDefaultUrl`, from the decoded routes on. */
  method ProjectDefault(us: seq<Url>, app: string, valid: string -> bool) returns (r: Option<Url>, ghost k: nat)
    ensures r.None? <==> NoneEligible(us, None, valid)
    ensures r.Some? ==> Best(us, None, app, valid, k) && r.value == us[k]
  {
    var cs;
    ghost var at;
    cs, at := Filter(us, None, valid);
    if |cs| == 0 {
      return None, 0;
    }
    var i := PickProject(cs, app);
    BestSelected(cs, at, us, None, app, valid, i);
    return Some(cs[i]), at[i];
  }

  method PickProject(cs: seq<Url>, app: string) returns (k: nat)
    requires |cs| > 0
    ensures k < |cs|
    ensures forall i :: 0 <= i < |cs| ==> Class(cs[k], app) <= Class(cs[i], app)
    ensures forall i :: 0 <= i < k ==> Class(cs[k], app) < Class(cs[i], app)
  {
    hide EndsWith;
    hide Holds;
    var found := FindSuffix(cs);
    if found.Some? {
      return found.value;
    }
    found := FindContained(cs, app, true);
    if found.Some? {
      return found.value;
    }
    for i := 0 to |cs|
      invariant forall j :: 0 <= j < i ==> cs[j].upstream != app
    {
      if cs[i].upstream == app {
        return i;
      }
    }
    return 0;
  }

  /** `extractApplicationDefaultUrl`, from the decoded routes on. */
  method ApplicationDefault(us: seq<Url>, app: string, valid: string -> bool) returns (r: Option<Url>, ghost k: nat)
    ensures r.None? <==> NoneEligible(us, Some(app), valid)
    ensures r.Some? ==> Best(us, Some(app), app, valid, k) && r.value == us[k]
  {
    var cs;
    ghost var at;
    cs, at := Filter(us, Some(app), valid);
    if |cs| == 0 {
      return None, 0;
    }
    var i := PickOwn(cs, app);
    BestSelected(cs, at, us, Some(app), app, valid, i);
    return Some(cs[i]), at[i];
  }

  method PickOwn(cs: seq<Url>, app: string) returns (k: nat)
    requires |cs| > 0 && forall j :: 0 <= j < |cs| ==> cs[j].upstream == app
    ensures k < |cs|
    ensures forall i :: 0 <= i < |cs| ==> Class(cs[k], app) <= Class(cs[i], app)
    ensures forall i :: 0 <= i < k ==> Class(cs[k], app) < Class(cs[i], app)
  {
    hide EndsWith;
    hide Holds;
    var found := FindSuffix(cs);
    if found.Some? {
      return found.value;
    }
    found := FindContained(cs, app, false);
    if found.Some? {
      return found.value;
    }
    return 0;
  }

  // ---------- the priorities spelt out ----------

  ghost predicate EndsIn(u: Url, pattern: string) { exists a :: u.originalUrl == a + pattern }

  ghost predicate Has(u: Url, pattern: string) { exists a, b :: u.originalUrl == a + pattern + b }

  /** The wishes of the searches, the dearest first. */
  ghost predicate Wish(n: nat, u: Url, app: string) {
    match n
    case 0 => EndsIn(u, "://{default}/")
    case 1 => EndsIn(u, "://{all}/")
    case 2 => EndsIn(u, "://www.{default}/")
    case 3 => EndsIn(u, "://www.{all}/")
    case 4 => u.upstream == app && Has(u, "://{default}/")
    case 5 => u.upstream == app && Has(u, "://{all}/")
    case 6 => u.upstream == app && Has(u, "://www.{default}/")
    case 7 => u.upstream == app && Has(u, "://www.{all}/")
    case 8 => u.upstream == app
    case _ => true
  }

  lemma EndsInIff(u: Url, pattern: string)
    ensures EndsIn(u, pattern) <==> HasSuffix(u.originalUrl, pattern)
  {
    var s := u.originalUrl;
    if HasSuffix(s, pattern) {
      assert s == s[..|s| - |pattern|] + pattern;
    }
    forall a | s == a + pattern
      ensures s[|s| - |pattern|..] == pattern
    {
    }
  }

  lemma HasIff(u: Url, pattern: string)
    ensures Has(u, pattern) <==> Contains(u.originalUrl, pattern)
  {
    var s := u.originalUrl;
    if Contains(s, pattern) {
      var i :| 0 <= i <= |s| && OccursAt(s, pattern, i);
      assert s == s[..i] + pattern + s[i + |pattern|..];
    }
    forall a, b | s == a + pattern + b
      ensures Contains(s, pattern)
    {
      assert s[|a|..|a| + |pattern|] == pattern;
      assert OccursAt(s, pattern, |a|);
    }
  }

  lemma WishIff(n: nat, u: Url, app: string)
    requires n < 4
    ensures Wish(n, u, app) <==> HasSuffix(u.originalUrl, PATTERNS[n])
    ensures Wish(4 + n, u, app) <==> u.upstream == app && Contains(u.originalUrl, PATTERNS[n])
  {
    EndsInIff(u, PATTERNS[n]);
    HasIff(u, PATTERNS[n]);
    hide EndsIn;
    hide Has;
    hide Contains;
    hide HasSuffix;
  }

  lemma LastWishes(u: Url, app: string)
    ensures Wish(8, u, app) <==> u.upstream == app
    ensures Wish(9, u, app)
  {
  }

  /** The class of a route is the dearest wish it meets. */
  lemma ClassIsDearest(u: Url, app: string)
    ensures Class(u, app) <= 9 && Wish(Class(u, app), u, app)
    ensures forall n: nat :: n < Class(u, app) ==> !Wish(n, u, app)
  {
    LastWishes(u, app);
    hide Wish;
    hide EndsWith;
    hide Holds;
    hide Contains;
    hide HasSuffix;
    var c := Class(u, app);
    if c < 8 { WishIff(if c < 4 then c else c - 4, u, app); }
    forall n: nat | n < c
      ensures !Wish(n, u, app)
    {
      if n < 8 { WishIff(if n < 4 then n else n - 4, u, app); }
    }
  }

  /** An upstream route with a valid URL, of the application if one is asked for. */
  ghost predicate Candidate(u: Url, who: Option<string>, valid: string -> bool) {
    && u.kind == "upstream" && valid(u.key)
    && (who == None || who == Some(u.upstream))
  }

  /** The chosen route is the first candidate in the document that meets the dearest wish any
      candidate meets. */
  lemma BestByWish(us: seq<Url>, who: Option<string>, app: string, valid: string -> bool, k: nat) returns (n: nat)
    requires Best(us, who, app, valid, k)
    ensures k < |us| && Candidate(us[k], who, valid) && n <= 9 && Wish(n, us[k], app)
    ensures forall j :: 0 <= j < k && Candidate(us[j], who, valid) ==> !Wish(n, us[j], app)
    ensures forall j, m: nat :: 0 <= j < |us| && m < n && Candidate(us[j], who, valid) ==> !Wish(m, us[j], app)
  {
    hide Wish;
    hide Class;
    n := Class(us[k], app);
    ClassIsDearest(us[k], app);
    forall j | 0 <= j < |us| && Candidate(us[j], who, valid)
      ensures j < k ==> !Wish(n, us[j], app)
      ensures forall m: nat :: m < n ==> !Wish(m, us[j], app)
    {
      ClassIsDearest(us[j], app);
      assert Eligible(us[j], who, valid) && Precedes(us, app, k, j);
    }
  }

  // ---------- the two searches together ----------

  /** There is only one best route, so the contracts above determine the answers. */
  lemma BestIsUnique(us: seq<Url>, who: Option<string>, app: string, valid: string -> bool, k: nat, k': nat)
    requires Best(us, who, app, valid, k) && Best(us, who, app, valid, k')
    ensures k == k'
  {
    assert Precedes(us, app, k, k') && Precedes(us, app, k', k);
  }

  /** Every eligible route of another application is preceded by one of this application. */
  ghost predicate OwnFirst(us: seq<Url>, app: string, valid: string -> bool) {
    forall f :: 0 <= f < |us| && Eligible(us[f], None, valid) && us[f].upstream != app ==>
      exists a :: 0 <= a < |us| && Eligible(us[a], Some(app), valid) && Precedes(us, app, a, f)
  }

  /** The project's default is the application's default exactly when no route of another
      application comes before all of its own; in particular when there is no such route. */
  lemma DefaultsAgreeIff(us: seq<Url>, app: string, valid: string -> bool, k: nat)
    requires Best(us, None, app, valid, k)
    ensures Best(us, Some(app), app, valid, k) <==> OwnFirst(us, app, valid)
    ensures (forall f :: 0 <= f < |us| && Eligible(us[f], None, valid) ==> us[f].upstream == app) ==>
              OwnFirst(us, app, valid)
  {
    hide Class;
    if OwnFirst(us, app, valid) {
      assert Eligible(us[k], Some(app), valid);
      forall j | 0 <= j < |us| && Eligible(us[j], Some(app), valid)
        ensures Precedes(us, app, k, j)
      {
        assert Eligible(us[j], None, valid);
      }
    }
  }
}
