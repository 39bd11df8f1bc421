/**
Routing of host names by the local proxy: TLD stripping, exact match, longest wildcard.

The Go code ranges over a map, so the order in which the keys come is a parameter here:
`order` lists the keys of the table, each once.
*/
module ProxyRouting {
  import opened Basics

  type Table = map<string, string>

  /** `strings.ReplaceAll(d, "*.", ".")`. */
  function Unstar(d: string): string {
    if |d| < 2 then d
    else if d[0] == '*' && d[1] == '.' then ['.'] + Unstar(d[2..])
    else [d[0]] + Unstar(d[1..])
  }

  function Fqdn(d: string, tld: string): string { d + "." + tld }

  function WithoutTld(d: string, tld: string): string {
    if HasSuffix(d, "." + tld) then d[..|d| - |tld| - 1] else d
  }

  predicate Matches(key: string, host: string) { '*' in key && HasSuffix(host, Unstar(key)) }

  /** The matching loop: a longer candidate replaces the match, an equal one does not. */
  function Scan(order: seq<string>, host: string, tld: string): string {
    if order == [] then ""
    else
      var best, d := Scan(order[..|order| - 1], host, tld), order[|order| - 1];
      if Matches(d, host) && |Fqdn(d, tld)| > |best| then Fqdn(d, tld) else best
  }

  lemma ScanNext(order: seq<string>, d: string, host: string, tld: string)
    ensures var best := Scan(order, host, tld);
            Scan(order + [d], host, tld)
            == if Matches(d, host) && |Fqdn(d, tld)| > |best| then Fqdn(d, tld) else best
  {
    assert (order + [d])[..|order|] == order;
  }

  function Normalize(order: seq<string>, t: Table, tld: string, domain: string): string {
    var host := WithoutTld(domain, tld);
    if host in t then Fqdn(host, tld)
    else
      var m := Scan(order, host, tld);
      if m != "" then m else Fqdn(host, tld)
  }

  /** A missing key reads as the empty string. */
  function Lookup(t: Table, key: string): string { if key in t then t[key] else "" }

  function Route(order: seq<string>, t: Table, tld: string, domain: string): string {
    Lookup(t, WithoutTld(Normalize(order, t, tld, domain), tld))
  }

  ghost predicate Lists(order: seq<string>, t: Table) {
    && (forall k :: k in t <==> k in order)
    && forall i, j :: 0 <= i < j < |order| ==> order[i] != order[j]
  }

  // ---------- the simple specification ----------

  ghost predicate Longest(t: Table, host: string, w: string) {
    w in t && Matches(w, host) && forall x :: x in t && Matches(x, host) ==> |x| <= |w|
  }

  /** `dir` is the exact key's directory, else that of a longest matching wildcard, else none. */
  ghost predicate Routes(t: Table, host: string, dir: string) {
    if host in t then dir == t[host]
    else if exists w :: Longest(t, host, w) then exists w :: Longest(t, host, w) && dir == t[w]
    else dir == ""
  }

  // ---------- TLD ----------

  lemma TldRoundTrip(d: string, tld: string)
    ensures HasSuffix(Fqdn(d, tld), "." + tld)
    ensures WithoutTld(Fqdn(d, tld), tld) == d
  {
    var f := Fqdn(d, tld);
    assert f == d + ("." + tld);
    assert f[|f| - |"." + tld|..] == "." + tld;
    assert f[..|f| - |tld| - 1] == d;
  }

  /** A name without the TLD is left alone, and one with it is cut before the dot. */
  lemma TldStripped(d: string, tld: string)
    ensures (forall h :: d != h + "." + tld) ==> WithoutTld(d, tld) == d
    ensures forall h :: d == h + "." + tld ==> WithoutTld(d, tld) == h
  {
    if HasSuffix(d, "." + tld) {
      var h := d[..|d| - |tld| - 1];
      assert d == h + ("." + tld) == h + "." + tld;
    }
    forall h | d == h + "." + tld
      ensures WithoutTld(d, tld) == h
    {
      TldRoundTrip(h, tld);
    }
  }

  // ---------- what a wildcard matches ----------

  /** A key without a star is never a wildcard. */
  lemma PlainNeverMatches(key: string, host: string)
    requires '*' !in key
    ensures !Matches(key, host)
  {
  }

  ghost predicate EndsWith(host: string, end: string) { exists p :: host == p + end }

  lemma EndsWithIff(host: string, end: string)
    ensures EndsWith(host, end) <==> HasSuffix(host, end)
  {
    if HasSuffix(host, end) {
      assert host == host[..|host| - |end|] + end;
    }
    forall p | host == p + end
      ensures HasSuffix(host, end)
    {
      assert host[|host| - |end|..] == end;
    }
  }

  lemma MatchesIff(key: string, host: string)
    ensures Matches(key, host) <==> '*' in key && EndsWith(host, Unstar(key))
  {
    EndsWithIff(host, Unstar(key));
    hide Unstar;
  }

  /** Every "*." of a key stands for ".", wherever it is; the rest stands for itself. */
  lemma {:induction false} UnstarEach(a: string, b: string)
    ensures Unstar(a + "*." + b) == Unstar(a) + "." + Unstar(b)
    decreases |a|
  {
    var d := a + "*." + b;
    if a == "" {
      UnstarStar(b);
      assert d == "*." + b;
    } else if |a| == 1 {
      assert d == [a[0]] + ("*." + b) && d[1] == '*' && d[1..] == "*." + b;
      UnstarStar(b);
    } else if a[0] == '*' && a[1] == '.' {
      assert d[2..] == a[2..] + "*." + b;
      UnstarEach(a[2..], b);
    } else {
      assert d[1..] == a[1..] + "*." + b && d[0] == a[0] && d[1] == a[1];
      UnstarEach(a[1..], b);
    }
  }

  predicate StarDotAt(d: string, i: nat) { i + 1 < |d| && d[i] == '*' && d[i + 1] == '.' }

  lemma {:induction false} UnstarRest(d: string)
    requires forall i: nat :: !StarDotAt(d, i)
    ensures Unstar(d) == d
  {
    if |d| >= 2 {
      assert !StarDotAt(d, 0);
      assert forall i: nat :: StarDotAt(d[1..], i) ==> StarDotAt(d, i + 1);
      UnstarRest(d[1..]);
      assert d == [d[0]] + d[1..];
    }
  }

  lemma {:induction false} ScanBest(order: seq<string>, host: string, tld: string)
    ensures Scan(order, host, tld) == "" ==> forall x :: x in order ==> !Matches(x, host)
    ensures Scan(order, host, tld) != "" ==>
              exists w :: w in order && Matches(w, host) && Scan(order, host, tld) == Fqdn(w, tld)
                          && forall x :: x in order && Matches(x, host) ==> |x| <= |w|
  {
    hide Matches;
    if order != [] {
      var init, d := order[..|order| - 1], order[|order| - 1];
      assert order == init + [d];
      assert forall x :: x in order <==> x in init || x == d;
      ScanBest(init, host, tld);
      var best := Scan(init, host, tld);
      if best != "" {
        var w :| w in init && Matches(w, host) && best == Fqdn(w, tld)
                 && forall x :: x in init && Matches(x, host) ==> |x| <= |w|;
        assert w in order;
      }
    }
  }

  /** What the scan finds in a table is a longest match, if there is any match. */
  lemma ScanTable(order: seq<string>, t: Table, host: string, tld: string)
    requires Lists(order, t)
    ensures Scan(order, host, tld) == "" <==> forall x :: x in t ==> !Matches(x, host)
    ensures Scan(order, host, tld) != "" <==> exists w :: Longest(t, host, w)
    ensures Scan(order, host, tld) != "" ==> exists w :: Longest(t, host, w) && Scan(order, host, tld) == Fqdn(w, tld)
  {
    ScanBest(order, host, tld);
    hide Matches;
    hide Scan;
    if Scan(order, host, tld) != "" {
      var w :| w in order && Matches(w, host) && Scan(order, host, tld) == Fqdn(w, tld)
               && forall x :: x in order && Matches(x, host) ==> |x| <= |w|;
      assert Longest(t, host, w);
    }
  }

  /** The normal form carries the TLD, and its stripped form is the host or a key of the table. */
  lemma NormalForm(order: seq<string>, t: Table, tld: string, domain: string)
    requires Lists(order, t)
    ensures var n := Normalize(order, t, tld, domain);
            && HasSuffix(n, "." + tld)
            && n == Fqdn(WithoutTld(n, tld), tld)
            && (WithoutTld(n, tld) in t
                || (WithoutTld(n, tld) == WithoutTld(domain, tld) && Scan(order, WithoutTld(domain, tld), tld) == ""))
  {
    var host := WithoutTld(domain, tld);
    ScanTable(order, t, host, tld);
    hide Scan;
    hide Matches;
    TldRoundTrip(host, tld);
    if host !in t && Scan(order, host, tld) != "" {
      var w :| Longest(t, host, w) && Scan(order, host, tld) == Fqdn(w, tld);
      TldRoundTrip(w, tld);
    }
  }

  /** The name is the exact key's, else that of a longest matching wildcard, else the host's own. */
  ghost predicate NormalName(t: Table, tld: string, host: string, name: string) {
    if host in t then name == host + "." + tld
    else if exists w :: Longest(t, host, w) then exists w :: Longest(t, host, w) && name == w + "." + tld
    else name == host + "." + tld
  }

  /** These and no other names are what a domain can be normalised to. */
  lemma NormalizesIff(t: Table, tld: string, domain: string, name: string)
    ensures (exists order :: Lists(order, t) && name == Normalize(order, t, tld, domain))
            <==> NormalName(t, tld, WithoutTld(domain, tld), name)
  {
    var host := WithoutTld(domain, tld);
    forall order | Lists(order, t)
      ensures NormalName(t, tld, host, Normalize(order, t, tld, domain))
    {
      NormalNamed(order, t, tld, domain);
    }
    if NormalName(t, tld, host, name) {
      var o;
      if host !in t && exists w :: Longest(t, host, w) {
        var w :| Longest(t, host, w) && name == w + "." + tld;
        o := LongestCanWin(t, tld, domain, w);
      } else {
        o := KeysOf(t, t.Keys);
        NormalNamed(o, t, tld, domain);
      }
      assert Lists(o, t) && name == Normalize(o, t, tld, domain);
    }
  }

  lemma NormalNamed(order: seq<string>, t: Table, tld: string, domain: string)
    requires Lists(order, t)
    ensures NormalName(t, tld, WithoutTld(domain, tld), Normalize(order, t, tld, domain))
  {
    ScanTable(order, t, WithoutTld(domain, tld), tld);
    hide Scan;
    hide Longest;
    hide WithoutTld;
  }

  /** Normalising again changes nothing, even if the keys come in another order the second time. */
  lemma NormalizeIdempotent(order: seq<string>, order': seq<string>, t: Table, tld: string, domain: string)
    requires Lists(order, t) && Lists(order', t)
    ensures Normalize(order', t, tld, Normalize(order, t, tld, domain)) == Normalize(order, t, tld, domain)
  {
    var n := Normalize(order, t, tld, domain);
    NormalForm(order, t, tld, domain);
    ScanTable(order, t, WithoutTld(domain, tld), tld);
    ScanTable(order', t, WithoutTld(domain, tld), tld);
    hide Scan;
    hide Matches;
  }

  // ---------- which directory ----------

  /** For any table, the lookup answers with the specification. */
  lemma RouteMeetsSpec(order: seq<string>, t: Table, tld: string, domain: string)
    requires Lists(order, t)
    ensures Routes(t, WithoutTld(domain, tld), Route(order, t, tld, domain))
  {
    var host := WithoutTld(domain, tld);
    ScanTable(order, t, host, tld);
    TldRoundTrip(host, tld);
    hide Scan;
    hide Longest;
    hide WithoutTld;
    if host !in t && Scan(order, host, tld) != "" {
      var w :| Longest(t, host, w) && Scan(order, host, tld) == Fqdn(w, tld);
      TldRoundTrip(w, tld);
      LongestIsKey(t, host, w);
    }
  }

  lemma LongestIsKey(t: Table, host: string, w: string)
    requires Longest(t, host, w)
    ensures w in t
  {
  }

  /** Every longest match wins for some order of the keys. */
  lemma LongestCanWin(t: Table, tld: string, domain: string, w: string) returns (order: seq<string>)
    requires WithoutTld(domain, tld) !in t && Longest(t, WithoutTld(domain, tld), w)
    ensures Lists(order, t) && Route(order, t, tld, domain) == t[w]
    ensures Normalize(order, t, tld, domain) == w + "." + tld
  {
    var host := WithoutTld(domain, tld);
    var rest := KeysOf(t, t.Keys - {w});
    order := [w] + rest;
    assert forall k :: k in order <==> k == w || k in rest;
    FirstLongestWins(rest, t, host, tld, w);
    TldRoundTrip(w, tld);
  }

  lemma {:induction false} KeysOf(t: Table, keys: set<string>) returns (order: seq<string>)
    requires keys <= t.Keys
    ensures forall k :: k in order <==> k in keys
    ensures forall i, j :: 0 <= i < j < |order| ==> order[i] != order[j]
    decreases keys
  {
    if keys == {} {
      order := [];
    } else {
      var k :| k in keys;
      var rest := KeysOf(t, keys - {k});
      order := [k] + rest;
    }
  }

  lemma {:induction false} FirstLongestWins(rest: seq<string>, t: Table, host: string, tld: string, w: string)
    requires Longest(t, host, w) && forall k :: k in rest ==> k in t
    ensures Scan([w] + rest, host, tld) == Fqdn(w, tld)
  {
    hide Matches;
    if rest == [] {
      ScanNext([], w, host, tld);
      assert [] + [w] == [w] + rest;
    } else {
      var init, d := rest[..|rest| - 1], rest[|rest| - 1];
      assert [w] + rest == ([w] + init) + [d];
      assert forall k :: k in init ==> k in rest;
      FirstLongestWins(init, t, host, tld, w);
      ScanNext([w] + init, d, host, tld);
      assert d in rest;
    }
  }

  /** The directory does not depend on the iteration order exactly when the host is a key or the
      longest matching wildcards all lead to one directory. */
  lemma OrderIrrelevantIff(t: Table, tld: string, domain: string)
    ensures (forall o, o' :: Lists(o, t) && Lists(o', t) ==> Route(o, t, tld, domain) == Route(o', t, tld, domain))
            <==>
            (WithoutTld(domain, tld) in t
             || forall w, w' ::
                  Longest(t, WithoutTld(domain, tld), w) && Longest(t, WithoutTld(domain, tld), w') ==> t[w] == t[w'])
  {
    var host := WithoutTld(domain, tld);
    if host in t || forall w, w' :: Longest(t, host, w) && Longest(t, host, w') ==> t[w] == t[w'] {
      forall o, o' | Lists(o, t) && Lists(o', t)
        ensures Route(o, t, tld, domain) == Route(o', t, tld, domain)
      {
        RouteMeetsSpec(o, t, tld, domain);
        RouteMeetsSpec(o', t, tld, domain);
      }
    } else {
      var w, w' :| Longest(t, host, w) && Longest(t, host, w') && t[w] != t[w'];
      var o := LongestCanWin(t, tld, domain, w);
      var o' := LongestCanWin(t, tld, domain, w');
    }
  }

  // ---------- wildcards as the program writes them ----------

  /** "*." followed by a suffix without stars. */
  ghost predicate ProperWildcard(key: string) {
    |key| >= 2 && key[..2] == "*." && '*' !in key[2..]
  }

  ghost predicate ProperTable(t: Table) {
    forall k :: k in t && '*' in k ==> ProperWildcard(k)
  }

  lemma {:induction false} UnstarPlain(d: string)
    requires '*' !in d
    ensures Unstar(d) == d
  {
    if |d| >= 2 {
      assert d[0] in d && d == [d[0]] + d[1..];
      UnstarPlain(d[1..]);
    }
  }

  lemma ProperMatch(key: string, host: string)
    requires ProperWildcard(key)
    ensures Unstar(key) == key[1..]
    ensures Matches(key, host) <==> HasSuffix(host, key[1..])
  {
    assert key[0] == key[..2][0] == '*' && key[1] == key[..2][1] == '.';
    UnstarPlain(key[2..]);
    assert key[1..] == ['.'] + key[2..];
    assert key[0] in key;
  }

  /** Two matching wildcards of equal length are the same key. */
  lemma SameLengthSameKey(key: string, key': string, host: string)
    requires ProperWildcard(key) && ProperWildcard(key') && Matches(key, host) && Matches(key', host) && |key| == |key'|
    ensures key == key'
  {
    ProperMatch(key, host);
    ProperMatch(key', host);
    assert key[1..] == key'[1..];
    assert key == key[..2][..1] + key[1..] && key' == key'[..2][..1] + key'[1..];
  }

  /** The wildcard for `suffix` is in the table and the host ends with a dot and that suffix. */
  ghost predicate Covers(t: Table, host: string, suffix: string) {
    "*." + suffix in t && EndsWith(host, "." + suffix)
  }

  /** The directory of the host itself, else of the wildcard with the longest suffix that the host
      ends with after a dot, else none. */
  ghost predicate Serves(t: Table, host: string, dir: string) {
    if host in t then dir == t[host]
    else if exists s :: Covers(t, host, s) then
      exists s :: Covers(t, host, s) && dir == t["*." + s] && forall x :: Covers(t, host, x) ==> |x| <= |s|
    else dir == ""
  }

  /** In a proper table the matching keys are the covering wildcards. */
  lemma ProperCovers(t: Table, host: string, key: string)
    requires ProperTable(t)
    ensures key in t && Matches(key, host) ==> |key| >= 2 && key == "*." + key[2..] && Covers(t, host, key[2..])
    ensures |key| >= 2 && key == "*." + key[2..] && Covers(t, host, key[2..]) ==> key in t && Matches(key, host)
  {
    MatchesIff(key, host);
    if '*' in key && key in t {
      ProperMatch(key, host);
      assert key == "*." + key[2..] && key[1..] == "." + key[2..];
    } else if |key| >= 2 && key == "*." + key[2..] {
      assert key[0] == '*';
    }
  }

  lemma CoversKey(t: Table, host: string, s: string)
    requires ProperTable(t) && Covers(t, host, s)
    ensures "*." + s in t && Matches("*." + s, host)
  {
    var key := "*." + s;
    assert key[2..] == s;
    ProperCovers(t, host, key);
  }

  lemma LongestCovers(t: Table, host: string, w: string)
    requires ProperTable(t) && Longest(t, host, w)
    ensures |w| >= 2 && w == "*." + w[2..] && Covers(t, host, w[2..])
    ensures forall x :: Covers(t, host, x) ==> |x| <= |w[2..]|
  {
    ProperCovers(t, host, w);
    forall x | Covers(t, host, x)
      ensures |x| <= |w[2..]|
    {
      CoversKey(t, host, x);
    }
  }

  /** The lookup answers with the directory served, in any order of the keys. */
  lemma ProperServes(order: seq<string>, t: Table, tld: string, domain: string)
    requires Lists(order, t) && ProperTable(t)
    ensures Serves(t, WithoutTld(domain, tld), Route(order, t, tld, domain))
  {
    var host := WithoutTld(domain, tld);
    RouteMeetsSpec(order, t, tld, domain);
    ScanTable(order, t, host, tld);
    hide Route;
    hide WithoutTld;
    hide Scan;
    if host !in t {
      if exists w :: Longest(t, host, w) {
        var w :| Longest(t, host, w) && Route(order, t, tld, domain) == t[w];
        LongestCovers(t, host, w);
      } else {
        forall s
          ensures !Covers(t, host, s)
        {
          if Covers(t, host, s) { CoversKey(t, host, s); }
        }
      }
    }
  }

  lemma ServesOnce(t: Table, host: string, dir: string, dir': string)
    requires Serves(t, host, dir) && Serves(t, host, dir')
    ensures dir == dir'
  {
    if host !in t && exists s :: Covers(t, host, s) {
      var s :| Covers(t, host, s) && dir == t["*." + s] && forall x :: Covers(t, host, x) ==> |x| <= |s|;
      var s' :| Covers(t, host, s') && dir' == t["*." + s'] && forall x :: Covers(t, host, x) ==> |x| <= |s'|;
      EndsWithIff(host, "." + s);
      EndsWithIff(host, "." + s');
      assert |s| == |s'| && ("." + s)[1..] == s && ("." + s')[1..] == s';
    }
  }

  /** With proper wildcards the route is the one directory served, and the general specification
      has no other answer either. */
  lemma ProperRoutes(order: seq<string>, t: Table, tld: string, domain: string, dir: string)
    requires Lists(order, t) && ProperTable(t)
    ensures Serves(t, WithoutTld(domain, tld), dir) <==> dir == Route(order, t, tld, domain)
    ensures Routes(t, WithoutTld(domain, tld), dir) <==> dir == Route(order, t, tld, domain)
  {
    ProperServes(order, t, tld, domain);
    if Serves(t, WithoutTld(domain, tld), dir) {
      ServesOnce(t, WithoutTld(domain, tld), dir, Route(order, t, tld, domain));
    }
    RoutesOnce(order, t, tld, domain, dir);
  }

  lemma RoutesOnce(order: seq<string>, t: Table, tld: string, domain: string, dir: string)
    requires Lists(order, t) && ProperTable(t)
    ensures Routes(t, WithoutTld(domain, tld), dir) <==> dir == Route(order, t, tld, domain)
  {
    var host := WithoutTld(domain, tld);
    RouteMeetsSpec(order, t, tld, domain);
    forall w, w' | Longest(t, host, w) && Longest(t, host, w')
      ensures w == w'
    {
      assert |w| <= |w'| && |w'| <= |w|;
      SameLengthSameKey(w, w', host);
    }
    hide Longest;
    hide Route;
  }

  lemma UnstarTied()
    ensures Unstar("x*.a.b") == "x.a.b" == Unstar("x.a*.b")
  {
    UnstarPlain("b");
    UnstarPlain("a.b");
    UnstarStar("a.b");
    UnstarStar("b");
    UnstarCons('x', "*.a.b");
    UnstarCons('a', "*.b");
    UnstarCons('.', "a*.b");
    UnstarCons('x', ".a*.b");
  }

  lemma UnstarStar(d: string)
    ensures Unstar("*." + d) == "." + Unstar(d)
  {
    assert ("*." + d)[2..] == d;
  }

  lemma UnstarCons(c: char, d: string)
    requires c != '*' && |d| > 0
    ensures Unstar([c] + d) == [c] + Unstar(d)
  {
    assert ([c] + d)[1..] == d;
  }

  /** Without that form the order can matter. */
  lemma TiedWildcards() returns (t: Table, o: seq<string>, o': seq<string>)
    ensures Lists(o, t) && Lists(o', t)
    ensures Route(o, t, "wip", "x.a.b") != Route(o', t, "wip", "x.a.b")
  {
    var p, q, host := "x*.a.b", "x.a*.b", "x.a.b";
    t := map[p := "p", q := "q"];
    UnstarTied();
    hide Unstar;
    assert p[1] == '*' && q[3] == '*' && p[1] != q[1];
    assert Longest(t, host, p) && Longest(t, host, q);
    assert host[4] == 'b' && ("." + "wip")[3] == 'p';
    assert WithoutTld(host, "wip") == host;
    o := LongestCanWin(t, "wip", host, p);
    o' := LongestCanWin(t, "wip", host, q);
  }

  /** Every listed name, wildcard names included, routes back to its directory. */
  lemma ListedRoutesBack(order: seq<string>, t: Table, tld: string, key: string)
    requires Lists(order, t) && key in t
    ensures Route(order, t, tld, Fqdn(key, tld)) == t[key]
  {
    TldRoundTrip(key, tld);
  }
}
