/**
The PHP file that hands the environment to the built-in server: one assignment to `$_ENV` per
variable, both sides as single-quoted strings.  The reader below follows PHP's rules for
single-quoted strings: a backslash escapes a backslash or a quote and stands for itself
anywhere else.
*/
module PhpEnv {
  import opened Basics

  datatype Entry = Entry(name: string, value: string)

  // ---------- printing ----------

  /** The `addslashes` replacer. */
  function Escape(s: string): string {
    if s == "" then ""
    else if s[0] == '\\' then "\\\\" + Escape(s[1..])
    else if s[0] == '\'' then "\\'" + Escape(s[1..])
    else [s[0]] + Escape(s[1..])
  }

  const BEFORE_NAME := "$_ENV['"
  const BEFORE_VALUE := "] = '"
  const AFTER_VALUE := ";\n"
  const PROLOGUE := "<?php "

  function Statement(e: Entry): string {
    BEFORE_NAME + Escape(e.name) + "'" + BEFORE_VALUE + Escape(e.value) + "'" + AFTER_VALUE
  }

  function Statements(es: seq<Entry>): string {
    if es == [] then "" else Statements(es[..|es| - 1]) + Statement(es[|es| - 1])
  }

  // ---------- reading ----------

  /** The rest of a single-quoted string, after its opening quote. */
  function ReadQuoted(s: string): (r: Option<(string, string)>)
    ensures r.Some? ==> |r.value.1| < |s|
  {
    if s == "" then None
    else if s[0] == '\'' then Some(("", s[1..]))
    else
      var escaped := s[0] == '\\' && |s| >= 2 && (s[1] == '\\' || s[1] == '\'');
      var c, rest := if escaped then s[1] else s[0], if escaped then s[2..] else s[1..];
      match ReadQuoted(rest)
      case None => None
      case Some((text, left)) => Some(([c] + text, left))
  }

  function Expect(s: string, t: string): (r: Option<string>)
    ensures r.Some? ==> |r.value| == |s| - |t|
  {
    if t <= s then Some(s[|t|..]) else None
  }

  function ReadStatement(s: string): (r: Option<(Entry, string)>)
    ensures r.Some? ==> |r.value.1| < |s|
  {
    match Expect(s, BEFORE_NAME)
    case None => None
    case Some(s1) =>
      match ReadQuoted(s1)
      case None => None
      case Some((name, s2)) =>
        match Expect(s2, BEFORE_VALUE)
        case None => None
        case Some(s3) =>
          match ReadQuoted(s3)
          case None => None
          case Some((value, s4)) =>
            match Expect(s4, AFTER_VALUE)
            case None => None
            case Some(s5) => Some((Entry(name, value), s5))
  }

  /** Runs the assignments on top of `env`. */
  function ReadStatements(s: string, env: map<string, string>): Option<map<string, string>>
    decreases |s|
  {
    if s == "" then Some(env)
    else
      match ReadStatement(s)
      case None => None
      case Some((e, rest)) => ReadStatements(rest, env[e.name := e.value])
  }

  function ReadFile(s: string): Option<map<string, string>> {
    match Expect(s, PROLOGUE)
    case None => None
    case Some(rest) => ReadStatements(rest, map[])
  }

  // ---------- round trip ----------

  lemma {:induction false} QuotedRoundTrip(s: string, rest: string)
    ensures ReadQuoted(Escape(s) + "'" + rest) == Some((s, rest))
  {
    var b := Escape(s) + "'" + rest;
    if s == "" {
      assert b == "'" + rest && b[1..] == rest;
    } else {
      var more := Escape(s[1..]) + "'" + rest;
      QuotedRoundTrip(s[1..], rest);
      assert s == [s[0]] + s[1..];
      if s[0] == '\\' || s[0] == '\'' {
        assert b == ['\\', s[0]] + more;
        assert b[2..] == more && b[0] == '\\' && b[1] == s[0];
      } else {
        assert b == [s[0]] + more;
        assert b[1..] == more && b[0] == s[0];
      }
    }
  }

  /** Backslashes and single quotes get a backslash in front; every other character stays. */
  lemma {:induction false} EscapeMeans(a: string, c: char, b: string)
    ensures Escape(a + [c] + b) == Escape(a) + (if c == '\\' || c == '\'' then ['\\', c] else [c]) + Escape(b)
    ensures Escape("") == ""
  {
    var s := a + [c] + b;
    if a == "" {
      assert s == [c] + b && s[1..] == b;
    } else {
      assert s[1..] == a[1..] + [c] + b && s[0] == a[0];
      EscapeMeans(a[1..], c, b);
    }
  }

  lemma ExpectRoundTrip(t: string, rest: string)
    ensures Expect(t + rest, t) == Some(rest)
  {
    assert (t + rest)[|t|..] == rest;
  }

  lemma StatementRoundTrip(e: Entry, rest: string)
    ensures ReadStatement(Statement(e) + rest) == Some((e, rest))
  {
    hide ReadQuoted;
    hide Escape;
    hide Expect;
    var s4 := AFTER_VALUE + rest;
    var s3 := Escape(e.value) + "'" + s4;
    var s2 := BEFORE_VALUE + s3;
    var s1 := Escape(e.name) + "'" + s2;
    assert Statement(e) + rest == BEFORE_NAME + s1;
    ExpectRoundTrip(BEFORE_NAME, s1);
    QuotedRoundTrip(e.name, s2);
    ExpectRoundTrip(BEFORE_VALUE, s3);
    QuotedRoundTrip(e.value, s4);
    ExpectRoundTrip(AFTER_VALUE, rest);
  }

  function AsMap(es: seq<Entry>): map<string, string> {
    if es == [] then map[] else AsMap(es[..|es| - 1])[es[|es| - 1].name := es[|es| - 1].value]
  }

  lemma {:induction false} StatementsRoundTrip(es: seq<Entry>, rest: string)
    ensures ReadStatements(Statements(es) + rest, map[]) == ReadStatements(rest, AsMap(es))
  {
    if es == [] {
      assert "" + rest == rest;
    } else {
      var init, e := es[..|es| - 1], es[|es| - 1];
      assert Statements(es) + rest == Statements(init) + (Statement(e) + rest);
      StatementsRoundTrip(init, Statement(e) + rest);
      StatementRoundTrip(e, rest);
      assert Statement(e)[0] == '$';
      hide ReadStatement;
      hide Statement;
    }
  }

  /** The file reads back as the entries printed, whatever quotes and backslashes they hold. */
  lemma FileRoundTrip(es: seq<Entry>)
    ensures ReadFile(PROLOGUE + Statements(es)) == Some(AsMap(es))
  {
    ExpectRoundTrip(PROLOGUE, Statements(es));
    StatementsRoundTrip(es, "");
    assert Statements(es) + "" == Statements(es);
  }

  // ---------- the code ----------

  /** The env-file part of `Serve`: the generated variables override, and the file is built by
      appending, in whatever order the map yields its entries. */
  method EnvFile(env: map<string, string>, generated: map<string, string>)
    returns (content: string, merged: map<string, string>, ghost order: seq<Entry>)
    ensures merged == env + generated && AsMap(order) == merged
    ensures content == "<?php " + Flat(Lines(order))
    ensures ReadFile(content) == Some(env + generated)
  {
    merged := Merge(env, generated);
    hide ReadFile;
    hide Statement;
    content := PROLOGUE;
    order := [];
    var todo := merged.Keys;
    assert content == PROLOGUE + Statements(order);
    while todo != {}
      invariant todo <= merged.Keys
      invariant content == PROLOGUE + Statements(order)
      invariant AsMap(order) == map k | k in merged && k !in todo :: merged[k]
      decreases todo
    {
      var k :| k in todo;
      todo := todo - {k};
      PrintedNext(order, Entry(k, merged[k]));
      content := content + ("$_ENV['" + Escape(k) + "'] = '" + Escape(merged[k]) + "';\n");
      order := order + [Entry(k, merged[k])];
    }
    assert AsMap(order) == merged;
    FileRoundTrip(order);
    StatementLines(order);
  }

  /** One assignment to `$_ENV` per entry, each on its own line. */
  function Lines(es: seq<Entry>): seq<string> {
    seq(|es|, i requires 0 <= i < |es| =>
      "$_ENV['" + Escape(es[i].name) + "'] = '" + Escape(es[i].value) + "';\n")
  }

  lemma {:induction false} StatementLines(es: seq<Entry>)
    ensures Statements(es) == Flat(Lines(es))
  {
    hide Escape;
    if es != [] {
      var init, e := es[..|es| - 1], es[|es| - 1];
      StatementLines(init);
      var line := "$_ENV['" + Escape(e.name) + "'] = '" + Escape(e.value) + "';\n";
      assert Lines(es) == Lines(init) + [line];
      FlatAppend(Lines(init), [line]);
      assert Flat([line]) == line + Flat<char>([]) == line;
      assert line == Statement(e);
    }
  }

  lemma PrintedNext(es: seq<Entry>, e: Entry)
    ensures PROLOGUE + Statements(es + [e])
            == PROLOGUE + Statements(es) + ("$_ENV['" + Escape(e.name) + "'] = '" + Escape(e.value) + "';\n")
    ensures AsMap(es + [e]) == AsMap(es)[e.name := e.value]
  {
    hide Escape;
    assert (es + [e])[..|es|] == es;
    assert "$_ENV['" + Escape(e.name) + "'] = '" + Escape(e.value) + "';\n" == Statement(e);
  }

  method Merge(env: map<string, string>, generated: map<string, string>) returns (merged: map<string, string>)
    ensures merged == env + generated
  {
    merged := env;
    var keys := generated.Keys;
    while keys != {}
      invariant keys <= generated.Keys
      invariant merged == env + map k | k in generated && k !in keys :: generated[k]
      decreases keys
    {
      var k :| k in keys;
      keys := keys - {k};
      merged := merged[k := generated[k]];
    }
  }
}
