/**
The proxy's configuration object: lookups, edits of the domain table, reloading, and the
certificate cache that is keyed by normalised names.
*/
module ProxyConfig {
  import opened Basics
  import opened ProxyRouting

  /** What is in proxy.json. */
  datatype File = File(tld: string, domains: Table)

  datatype Edit = Saved | BadDomain(name: string) | SaveFailed | Panicked

  // ---------- edits as functions of the table ----------

  function Owned(t: Table, dir: string): set<string> { set k | k in t && t[k] == dir }

  function WithoutDir(t: Table, dir: string): Table { map k | k in t && t[k] != dir :: t[k] }

  function Names(ds: seq<string>): set<string> { set d | d in ds }

  function Assign(t: Table, ds: seq<string>, dir: string): Table { t + map d | d in ds :: dir }

  lemma AssignNext(t: Table, ds: seq<string>, i: nat, dir: string)
    requires i < |ds|
    ensures Assign(t, ds[..i + 1], dir) == Assign(t, ds[..i], dir)[ds[i] := dir]
  {
    assert ds[..i + 1] == ds[..i] + [ds[i]];
  }

  lemma AssignNone(t: Table, dir: string)
    ensures Assign(t, [], dir) == t
  {
  }

  /** How many names come before the first that ends with the TLD, with or without a dot. */
  function Accepted(ds: seq<string>, tld: string): (n: nat)
    ensures n <= |ds|
    ensures forall i :: 0 <= i < n ==> !HasSuffix(ds[i], tld)
    ensures n < |ds| ==> HasSuffix(ds[n], tld)
  {
    if ds == [] || HasSuffix(ds[0], tld) then 0 else 1 + Accepted(ds[1..], tld)
  }

  /** After a replacement the directory owns exactly the names given, and every other directory
      keeps all it had but those names. */
  lemma ReplaceOwns(t: Table, dir: string, ds: seq<string>, other: string)
    ensures var t' := Assign(WithoutDir(t, dir), ds, dir);
            && Owned(t', dir) == Names(ds)
            && (other != dir ==> Owned(t', other) == Owned(t, other) - Names(ds))
  {
    var t' := Assign(WithoutDir(t, dir), ds, dir);
    assert forall k :: k in t' <==> k in ds || (k in t && t[k] != dir);
    assert forall k :: k in t' ==> t'[k] == if k in ds then dir else t[k];
  }

  /** Adding takes names from whoever had them; removing gives them to nobody. */
  lemma AddRemoveOwn(t: Table, dir: string, ds: seq<string>, other: string)
    ensures Owned(Assign(t, ds, dir), dir) == Owned(t, dir) + Names(ds)
    ensures other != dir ==> Owned(Assign(t, ds, dir), other) == Owned(t, other) - Names(ds)
    ensures Owned(t - Names(ds), other) == Owned(t, other) - Names(ds)
  {
    var t' := Assign(t, ds, dir);
    assert forall k :: k in t' <==> k in ds || k in t;
    assert forall k :: k in t' ==> t'[k] == if k in ds then dir else t[k];
  }

  // ---------- the object ----------

  class Config {
    var tld: string
    var domains: Table
    var isNil: bool
    var disk: File

    constructor (tld: string, domains: Table)
      ensures Valid() && this.tld == tld && this.domains == domains && disk == File(tld, domains) && !isNil
    {
      this.tld, this.domains, isNil, disk := tld, domains, false, File(tld, domains);
    }

    /** A nil map reads as empty. */
    ghost predicate Valid()
      reads this
    {
      isNil ==> domains == map[]
    }

    /** `doNormalizeDomain`. */
    method NormalizeDomain(domain: string) returns (r: string, ghost order: seq<string>)
      ensures Lists(order, domains) && r == Normalize(order, domains, tld, domain)
    {
      hide Unstar;
      hide HasSuffix;
      hide WithoutTld;
      var host := WithoutTld(domain, tld);
      var fqdn := host + "." + tld;
      order := [];
      if host in domains {
        order := KeysOf(domains, domains.Keys);
        return fqdn, order;
      }
      var best := "";
      var todo := domains.Keys;
      assert Scan([], host, tld) == "";
      hide Scan;
      while todo != {}
        invariant todo <= domains.Keys
        invariant forall k :: k in order <==> k in domains && k !in todo
        invariant forall i, j :: 0 <= i < j < |order| ==> order[i] != order[j]
        invariant best == Scan(order, host, tld)
        decreases todo
      {
        var d :| d in todo;
        todo := todo - {d};
        ScanNext(order, d, host, tld);
        if '*' in d {
          if HasSuffix(host, Unstar(d)) {
            var m := d + "." + tld;
            if |m| > |best| {
              best := m;
            }
          }
        }
        order := order + [d];
      }
      r := if best != "" then best else fqdn;
    }

    method GetDir(domain: string) returns (dir: string, ghost order: seq<string>)
      ensures Lists(order, domains) && dir == Route(order, domains, tld, domain)
      ensures Routes(domains, WithoutTld(domain, tld), dir)
      ensures ProperTable(domains) ==> Serves(domains, WithoutTld(domain, tld), dir)
    {
      var name;
      name, order := NormalizeDomain(domain);
      var key := WithoutTld(name, tld);
      dir := if key in domains then domains[key] else "";
      RouteMeetsSpec(order, domains, tld, domain);
      if ProperTable(domains) { ProperServes(order, domains, tld, domain); }
    }

    /** Lists each domain of the directory once, and each routes back to it. */
    method GetDomains(dir: string) returns (names: seq<string>)
      ensures forall k :: k in Owned(domains, dir) ==> Fqdn(k, tld) in names
      ensures forall n :: n in names ==> exists k :: k in Owned(domains, dir) && n == Fqdn(k, tld)
      ensures |names| == |Owned(domains, dir)|
      ensures forall n, o :: n in names && Lists(o, domains) ==> Route(o, domains, tld, n) == dir
    {
      hide Route;
      hide Fqdn;
      names := [];
      var todo := domains.Keys;
      ghost var done: set<string> := {};
      while todo != {}
        invariant todo <= domains.Keys && done == Owned(domains, dir) - todo
        invariant forall k :: k in done ==> Fqdn(k, tld) in names
        invariant forall n :: n in names ==> exists k :: k in done && n == Fqdn(k, tld)
        invariant |names| == |done|
        decreases todo
      {
        var d :| d in todo;
        todo := todo - {d};
        if domains[d] == dir {
          ghost var before := names;
          names := names + [Fqdn(d, tld)];
          done := done + {d};
          assert forall n :: n in names <==> n in before || n == Fqdn(d, tld);
        }
      }
      assert done == Owned(domains, dir);
      forall n, o | n in names && Lists(o, domains)
        ensures Route(o, domains, tld, n) == dir
      {
        var k :| k in Owned(domains, dir) && n == Fqdn(k, tld);
        ListedRoutesBack(o, domains, tld, k);
      }
    }

    method Save(writable: bool) returns (res: Edit)
      modifies this`disk
      ensures if writable then res == Saved && disk == File(tld, domains) else res == SaveFailed && disk == old(disk)
    {
      if writable {
        disk := File(tld, domains);
        return Saved;
      }
      return SaveFailed;
    }

    /** Sets each name up to the first that ends with the TLD; a nil map cannot be written. */
    method PutAll(dir: string, ds: seq<string>) returns (stop: Edit)
      requires Valid()
      modifies this`domains
      ensures Valid()
      ensures isNil && Accepted(ds, tld) > 0 ==> stop == Panicked && domains == old(domains)
      ensures !isNil || Accepted(ds, tld) == 0 ==>
                && domains == Assign(old(domains), ds[..Accepted(ds, tld)], dir)
                && stop == if Accepted(ds, tld) < |ds| then BadDomain(ds[Accepted(ds, tld)]) else Saved
    {
      var n := PutGood(dir, ds);
      if n == |ds| {
        return Saved;
      } else if HasSuffix(ds[n], tld) {
        return BadDomain(ds[n]);
      } else {
        return Panicked;
      }
    }

    /** The loop, up to the name it stops at. */
    method PutGood(dir: string, ds: seq<string>) returns (i: nat)
      requires Valid()
      modifies this`domains
      ensures i == if isNil then 0 else Accepted(ds, tld)
      ensures domains == Assign(old(domains), ds[..i], dir) && Valid()
    {
      hide Accepted;
      hide HasSuffix;
      ghost var t := domains;
      i := 0;
      AssignNone(t, dir);
      assert ds[..0] == [];
      if isNil {
        return;
      }
      while i < |ds| && !HasSuffix(ds[i], tld)
        invariant 0 <= i <= Accepted(ds, tld)
        invariant domains == Assign(t, ds[..i], dir)
      {
        AssignNext(t, ds, i, dir);
        hide Assign;
        domains := domains[ds[i] := dir];
        i := i + 1;
      }
    }

    /** On a bad name the edits made so far stay in memory, but the file is not rewritten. */
    method ReplaceDirDomains(dir: string, ds: seq<string>, writable: bool) returns (res: Edit)
      requires Valid()
      modifies this`domains, this`disk
      ensures Valid()
      ensures var n := Accepted(ds, tld);
              && (res == Panicked <==> isNil && n > 0)
              && (res != Panicked ==> domains == Assign(WithoutDir(old(domains), dir), ds[..n], dir))
              && (res != Panicked && n < |ds| ==> res == BadDomain(ds[n]))
              && (res != Panicked && n == |ds| ==> res == if writable then Saved else SaveFailed)
      ensures disk == if res == Saved then File(tld, domains) else old(disk)
      ensures res == Saved ==> Owned(domains, dir) == Names(ds)
      ensures res == Saved ==> forall other ::
                other != dir ==> Owned(domains, other) == Owned(old(domains), other) - Names(ds)
    {
      var todo := domains.Keys;
      while todo != {}
        invariant todo <= old(domains).Keys && Valid() && disk == old(disk)
        invariant domains == map k | k in old(domains) && (k in todo || old(domains)[k] != dir) :: old(domains)[k]
        decreases todo
      {
        var d :| d in todo;
        todo := todo - {d};
        if domains[d] == dir {
          domains := domains - {d};
        }
      }
      assert domains == WithoutDir(old(domains), dir);
      res := PutAll(dir, ds);
      if res != Saved {
        return;
      }
      assert ds[..|ds|] == ds;
      ReplaceOwns(old(domains), dir, ds, "");
      forall other | other != dir
        ensures Owned(domains, other) == Owned(old(domains), other) - Names(ds)
      {
        ReplaceOwns(old(domains), dir, ds, other);
      }
      res := Save(writable);
    }

    method AddDirDomains(dir: string, ds: seq<string>, writable: bool) returns (res: Edit)
      requires Valid()
      modifies this`domains, this`disk
      ensures Valid()
      ensures var n := Accepted(ds, tld);
              && (res == Panicked <==> isNil && n > 0)
              && domains == (if res == Panicked then old(domains) else Assign(old(domains), ds[..n], dir))
              && (res != Panicked && n < |ds| ==> res == BadDomain(ds[n]))
              && (res != Panicked && n == |ds| ==> res == if writable then Saved else SaveFailed)
      ensures disk == if res == Saved then File(tld, domains) else old(disk)
      ensures res == Saved ==> Owned(domains, dir) == Owned(old(domains), dir) + Names(ds)
      ensures res == Saved ==> forall other ::
                other != dir ==> Owned(domains, other) == Owned(old(domains), other) - Names(ds)
    {
      res := PutAll(dir, ds);
      if res == Saved {
        assert ds[..|ds|] == ds;
        forall other
          ensures Owned(domains, dir) == Owned(old(domains), dir) + Names(ds)
          ensures other != dir ==> Owned(domains, other) == Owned(old(domains), other) - Names(ds)
        {
          AddRemoveOwn(old(domains), dir, ds, other);
        }
        res := Save(writable);
      }
    }

    method RemoveDirDomains(ds: seq<string>, writable: bool) returns (res: Edit)
      requires Valid()
      modifies this`domains, this`disk
      ensures Valid()
      ensures var n := Accepted(ds, tld);
              && domains == old(domains) - Names(ds[..n])
              && res == if n < |ds| then BadDomain(ds[n]) else if writable then Saved else SaveFailed
      ensures disk == if res == Saved then File(tld, domains) else old(disk)
      ensures res == Saved ==> forall dir :: Owned(domains, dir) == Owned(old(domains), dir) - Names(ds)
    {
      ghost var n := Accepted(ds, tld);
      var i := 0;
      assert domains - Names(ds[..0]) == domains;
      while i < |ds|
        invariant 0 <= i <= n && Valid() && disk == old(disk) && domains == old(domains) - Names(ds[..i])
        decreases |ds| - i
      {
        if HasSuffix(ds[i], tld) {
          return BadDomain(ds[i]);
        }
        assert i < n;
        domains := domains - {ds[i]};
        assert Names(ds[..i + 1]) == Names(ds[..i]) + {ds[i]};
        assert domains == old(domains) - Names(ds[..i + 1]);
        i := i + 1;
      }
      assert ds[..|ds|] == ds;
      forall dir
        ensures Owned(domains, dir) == Owned(old(domains), dir) - Names(ds)
      {
        AddRemoveOwn(old(domains), dir, ds, dir);
      }
      res := Save(writable);
    }

    /** The two halves of `reload`, each under its own lock.  A file without domains leaves the
        map nil, unlike the first load. */
    method SetDomains(parsed: Option<Table>)
      modifies this`domains, this`isNil
      ensures Valid() && isNil == parsed.None? && (parsed.Some? ==> domains == parsed.value)
    {
      isNil := parsed.None?;
      domains := if parsed.Some? then parsed.value else map[];
    }

    method SetTld(tld: string)
      requires Valid()
      modifies this`tld
      ensures Valid() && this.tld == tld
    {
      this.tld := tld;
    }
  }

  // ---------- certificates ----------

  datatype Cert = Cert(names: seq<string>, serial: nat)

  /** `name` is what `domain` normalises to, for some order of the keys. */
  ghost predicate NormalizesTo(t: Table, tld: string, domain: string, name: string) {
    exists order :: Lists(order, t) && name == Normalize(order, t, tld, domain)
  }

  datatype Op =
    | Hello(server: string, created: bool, evicted: set<string>)
    | Evict(names: set<string>)
    | ReloadDomains(parsed: Option<Table>)
    | ReloadTld(tld: string)

  /** What is returned for one operation: nothing but for a lookup. */
  datatype Reply = NotAsked | Refused | Given(cert: Cert)

  datatype Setting = Setting(tld: string, domains: Table)

  /** The configuration in force when operation `i` comes. */
  function SettingAt(s: Setting, ops: seq<Op>, i: nat): Setting
    requires i <= |ops|
  {
    if i == 0 then s
    else
      var before := SettingAt(s, ops, i - 1);
      match ops[i - 1]
      case ReloadDomains(parsed) => before.(domains := if parsed.Some? then parsed.value else map[])
      case ReloadTld(tld) => before.(tld := tld)
      case _ => before
  }

  /** The TLD in force is that of the last reload of it. */
  lemma {:induction false} TldInForce(s: Setting, ops: seq<Op>, j: nat, i: nat)
    requires j <= i <= |ops| && forall k :: j <= k < i ==> !ops[k].ReloadTld?
    ensures SettingAt(s, ops, i).tld
            == if j == 0 then s.tld else if ops[j - 1].ReloadTld? then ops[j - 1].tld else SettingAt(s, ops, j - 1).tld
    decreases i
  {
    if j < i {
      TldInForce(s, ops, j, i - 1);
    }
  }

  /** The table in force is that of the last reload of it, empty if the file had no domains. */
  lemma {:induction false} DomainsInForce(s: Setting, ops: seq<Op>, j: nat, i: nat)
    requires j <= i <= |ops| && forall k :: j <= k < i ==> !ops[k].ReloadDomains?
    ensures SettingAt(s, ops, i).domains
            == if j == 0 then s.domains
               else if ops[j - 1].ReloadDomains? then
                 if ops[j - 1].parsed.Some? then ops[j - 1].parsed.value else map[]
               else SettingAt(s, ops, j - 1).domains
    decreases i
  {
    if j < i {
      DomainsInForce(s, ops, j, i - 1);
    }
  }

  /** How one operation is answered and what it does to the cache, `name` being what the server
      name of a lookup normalises to under the configuration `now`. */
  ghost predicate Answered(op: Op, now: Setting, cache: map<string, Cert>, cache': map<string, Cert>,
                           name: string, reply: Reply) {
    match op
    case Hello(server, created, evicted) =>
      && NormalizesTo(now.domains, now.tld, server, name)
      && (reply == Refused <==> name !in cache && !created)
      && (reply != Refused ==> reply.Given? && reply.cert.names == [name])
      && (name in cache ==> reply == Given(cache[name]))
      && cache' == if name in cache || !created then cache else (cache - evicted)[name := reply.cert]
    case Evict(names) => reply == NotAsked && cache' == cache - names
    case _ => reply == NotAsked && cache' == cache
  }

  class CertStore {
    const cfg: Config
    var cache: map<string, Cert>
    var issued: nat

    constructor (cfg: Config)
      ensures this.cfg == cfg && Valid()
    {
      this.cfg := cfg;
      cache, issued := map[], 0;
    }

    /** Every cached certificate was made for the name it is stored under. */
    ghost predicate Valid()
      reads this
    {
      forall n :: n in cache ==> cache[n].names == [n] && cache[n].serial < issued
    }

    /** `getCertificate`.  Adding to the cache may evict any other names. */
    method GetCertificate(server: string, created: bool, evicted: set<string>)
      returns (res: Option<Cert>, ghost name: string)
      requires Valid()
      modifies this`cache, this`issued
      ensures Valid() && NormalizesTo(cfg.domains, cfg.tld, server, name)
      ensures res.Some? ==> res.value.names == [name]
      ensures res.None? <==> name !in old(cache) && !created
      ensures name in old(cache) ==> res == Some(old(cache)[name])
      ensures name in old(cache) || !created ==> issued == old(issued) && cache == old(cache)
      ensures name !in old(cache) && created ==>
                && res == Some(Cert([name], old(issued))) && issued == old(issued) + 1
                && cache == (old(cache) - evicted)[name := res.value]
    {
      var n;
      ghost var order;
      n, order := cfg.NormalizeDomain(server);
      name := n;
      if n in cache {
        return Some(cache[n]), name;
      }
      if !created {
        return None, name;
      }
      var cert := Cert([n], issued);
      issued := issued + 1;
      cache := (cache - evicted)[n := cert];
      return Some(cert), name;
    }

    /** Any sequence of lookups, evictions and half-done reloads: one reply per operation, and for
        each lookup a certificate for the server name as normalised by the configuration in force
        at that operation, absent only when none is cached for that name and creation fails. */
    method Session(ops: seq<Op>)
      returns (replies: seq<Reply>, ghost names: seq<string>, ghost caches: seq<map<string, Cert>>)
      requires Valid() && cfg.Valid()
      modifies this`cache, this`issued, cfg
      ensures Valid() && |replies| == |names| == |ops| && |caches| == |ops| + 1
      ensures caches[0] == old(cache) && caches[|ops|] == cache
      ensures Setting(cfg.tld, cfg.domains) == SettingAt(Setting(old(cfg.tld), old(cfg.domains)), ops, |ops|)
      ensures forall i :: 0 <= i < |ops| ==>
                Answered(ops[i], SettingAt(Setting(old(cfg.tld), old(cfg.domains)), ops, i),
                         caches[i], caches[i + 1], names[i], replies[i])
    {
      ghost var start := Setting(cfg.tld, cfg.domains);
      replies, names, caches := [], [], [cache];
      for i := 0 to |ops|
        invariant Valid() && cfg.Valid() && |replies| == |names| == i && |caches| == i + 1
        invariant caches[0] == old(cache) && caches[i] == cache
        invariant Setting(cfg.tld, cfg.domains) == SettingAt(start, ops, i)
        invariant forall k :: 0 <= k < i ==>
                    Answered(ops[k], SettingAt(start, ops, k), caches[k], caches[k + 1], names[k], replies[k])
      {
        var reply, name := Serve(ops[i]);
        replies, names, caches := replies + [reply], names + [name], caches + [cache];
      }
    }

    method Serve(op: Op) returns (reply: Reply, ghost name: string)
      requires Valid() && cfg.Valid()
      modifies this`cache, this`issued, cfg
      ensures Valid() && cfg.Valid()
      ensures Answered(op, Setting(old(cfg.tld), old(cfg.domains)), old(cache), cache, name, reply)
      ensures Setting(cfg.tld, cfg.domains) == SettingAt(Setting(old(cfg.tld), old(cfg.domains)), [op], 1)
    {
      reply, name := NotAsked, "";
      match op
      case Hello(server, created, evicted) =>
        var res;
        res, name := GetCertificate(server, created, evicted);
        reply := if res.Some? then Given(res.value) else Refused;
      case Evict(names) => cache := cache - names;
      case ReloadDomains(parsed) => cfg.SetDomains(parsed);
      case ReloadTld(tld) => cfg.SetTld(tld);
    }
  }
}
