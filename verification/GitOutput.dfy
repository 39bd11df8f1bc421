/**
`gitOutputWriter`: indents each line of git's output as it arrives, keeping back the part of
the last line that has not ended yet.
*/
module GitOutput {
  import opened Basics

  predicate IsBreak(c: char) { c == '\r' || c == '\n' }

  /** `bytes.IndexAny(b, "\r\n")`, or the length if there is none. */
  function FirstBreak(b: string): (n: nat)
    ensures n <= |b|
    ensures forall i :: 0 <= i < n ==> !IsBreak(b[i])
    ensures n < |b| ==> IsBreak(b[n])
  {
    if b == "" || IsBreak(b[0]) then 0 else 1 + FirstBreak(b[1..])
  }

  /** A line with its break; an empty line is not indented. */
  function Indented(line: string): string { if |line| > 1 then "  " + line else line }

  /** What complete lines in `b` print. */
  function Printed(b: string): string
    decreases |b|
  {
    var n := FirstBreak(b);
    if n == |b| then "" else Indented(b[..n + 1]) + Printed(b[n + 1..])
  }

  /** What follows the last break. */
  function Kept(b: string): string
    decreases |b|
  {
    var n := FirstBreak(b);
    if n == |b| then b else Kept(b[n + 1..])
  }

  function Outdented(line: string): string { if |line| > 1 then line[2..] else line }

  /** The inverse on what was printed: two characters off every line longer than its break. */
  function Unindented(o: string): string
    decreases |o|
  {
    var n := FirstBreak(o);
    if n == |o| then "" else Outdented(o[..n + 1]) + Unindented(o[n + 1..])
  }

  /** One complete line in front of anything. */
  ghost predicate IsLine(line: string) {
    |line| > 0 && IsBreak(line[|line| - 1]) && forall i :: 0 <= i < |line| - 1 ==> !IsBreak(line[i])
  }

  lemma {:induction false} LineFirst(line: string, rest: string)
    requires IsLine(line)
    ensures Printed(line + rest) == Indented(line) + Printed(rest)
    ensures Kept(line + rest) == Kept(rest)
    ensures Unindented(line + rest) == Outdented(line) + Unindented(rest)
  {
    var b := line + rest;
    FirstBreakAt(b, |line| - 1);
    hide FirstBreak;
    assert b[..|line|] == line && b[|line|..] == rest;
  }

  lemma {:induction false} FirstLine(b: string)
    requires FirstBreak(b) < |b|
    ensures var n := FirstBreak(b) + 1; IsLine(b[..n]) && b == b[..n] + b[n..]
  {
    hide IsBreak;
    hide FirstBreak;
    var n := FirstBreak(b);
    var line := b[..n + 1];
    assert line[n] == b[n];
    assert forall i :: 0 <= i < n ==> line[i] == b[i];
  }

  lemma {:induction false} NoLine(b: string)
    requires FirstBreak(b) == |b|
    ensures Printed(b) == "" && Kept(b) == b && Unindented(b) == ""
  {
    hide FirstBreak;
  }

  lemma FirstBreakAt(a: string, n: nat)
    requires n < |a| && IsBreak(a[n]) && forall i :: 0 <= i < n ==> !IsBreak(a[i])
    ensures FirstBreak(a) == n
  {
  }

  /** Cutting the input anywhere changes neither what is printed nor what is kept. */
  lemma {:induction false} CutAnywhere(a: string, b: string)
    ensures Printed(a + b) == Printed(a) + Printed(Kept(a) + b)
    ensures Kept(a + b) == Kept(Kept(a) + b)
    decreases |a|
  {
    hide FirstBreak;
    hide Printed;
    hide Kept;
    if FirstBreak(a) == |a| {
      NoLine(a);
    } else {
      FirstLine(a);
      var line, rest := a[..FirstBreak(a) + 1], a[FirstBreak(a) + 1..];
      assert a + b == line + (rest + b);
      LineFirst(line, rest);
      LineFirst(line, rest + b);
      CutAnywhere(rest, b);
    }
  }

  /** What is kept is the input after its last CR or LF. */
  lemma {:induction false} KeptIsTail(b: string)
    ensures '\r' !in Kept(b) && '\n' !in Kept(b)
    ensures |Kept(b)| <= |b| && b[|b| - |Kept(b)|..] == Kept(b)
    ensures |Kept(b)| < |b| ==> b[|b| - |Kept(b)| - 1] == '\r' || b[|b| - |Kept(b)| - 1] == '\n'
    ensures Printed(Kept(b)) == "" && Kept(Kept(b)) == Kept(b)
    decreases |b|
  {
    var n := FirstBreak(b);
    if n < |b| {
      KeptIsTail(b[n + 1..]);
    }
  }

  /** A line is printed behind two spaces, an empty one as it is, its own CR or LF ending it. */
  lemma LinePrinted(text: string, end: char, rest: string)
    requires '\r' !in text && '\n' !in text && (end == '\r' || end == '\n')
    ensures Printed(text + [end] + rest) == (if text == "" then "" else "  " + text) + [end] + Printed(rest)
  {
    var line := text + [end];
    assert forall i :: 0 <= i < |text| ==> line[i] in text;
    assert IsLine(line);
    LineFirst(line, rest);
    hide Printed;
    assert "  " + (text + [end]) == "  " + text + [end];
  }

  /** What has no CR or LF prints nothing yet. */
  lemma PartPrinted(text: string)
    requires '\r' !in text && '\n' !in text
    ensures Printed(text) == "" && Kept(text) == text
  {
    assert forall i :: 0 <= i < |text| ==> text[i] in text;
    NoLine(text);
  }

  /** Nothing is lost: taking the indents off and appending what is kept gives the input back. */
  lemma {:induction false} NothingLost(b: string)
    ensures Unindented(Printed(b)) + Kept(b) == b
    decreases |b|
  {
    hide FirstBreak;
    hide Printed;
    hide Kept;
    hide Unindented;
    if FirstBreak(b) == |b| {
      NoLine(b);
      NoLineEmpty();
    } else {
      FirstLine(b);
      var line, rest := b[..FirstBreak(b) + 1], b[FirstBreak(b) + 1..];
      NothingLost(rest);
      LineFirst(line, rest);
      IndentedLine(line);
      LineFirst(Indented(line), Printed(rest));
    }
  }

  lemma NoLineEmpty()
    ensures Unindented("") == ""
  {
  }

  lemma {:induction false} IndentedLine(line: string)
    requires IsLine(line)
    ensures IsLine(Indented(line)) && Outdented(Indented(line)) == line
  {
  }

  lemma Regroup(o: string, line: string, rest: string)
    ensures o + (Indented(line) + rest) == (if |line| > 1 then o + "  " + line else o + line) + rest
  {
  }

  class Writer {
    var buf: string
    var output: string

    constructor ()
      ensures buf == "" && output == "" && Valid()
    {
      buf, output := "", "";
    }

    /** No complete line is ever held back. */
    ghost predicate Valid()
      reads this
    {
      Kept(buf) == buf
    }

    method Scan()
      modifies this
      ensures output == old(output) + Printed(old(buf)) && buf == Kept(old(buf))
    {
      hide FirstBreak;
      hide Printed;
      hide Kept;
      ghost var goal := output + Printed(buf);
      while true
        invariant output + Printed(buf) == goal
        invariant Kept(buf) == Kept(old(buf))
        decreases |buf|
      {
        if |buf| == 0 {
          NoLine(buf);
          return;
        }
        var pos := FirstBreak(buf);
        if pos == |buf| {
          NoLine(buf);
          return;
        }
        FirstLine(buf);
        LineFirst(buf[..pos + 1], buf[pos + 1..]);
        var b := buf[..pos + 1];
        Regroup(output, b, Printed(buf[pos + 1..]));
        hide Indented;
        buf := buf[pos + 1..];
        if |b| > 1 {
          output := output + "  ";
        }
        output := output + b;
      }
    }

    method Write(p: string)
      modifies this
      ensures output == old(output) + Printed(old(buf) + p) && buf == Kept(old(buf) + p) && Valid()
    {
      KeptIsTail(buf + p);
      buf := buf + p;
      Scan();
    }

    /** However the input is cut into writes, the result is that of one write of the whole. */
    method WriteChunks(chunks: seq<string>)
      requires Valid()
      modifies this
      ensures Valid()
      ensures output == old(output) + Printed(old(buf) + Flat(chunks))
      ensures buf == Kept(old(buf) + Flat(chunks))
    {
      ghost var b0, o0 := buf, output;
      KeptIsTail(b0);
      hide Printed;
      hide Kept;
      assert b0 + "" == b0 && Flat(chunks[..0]) == "";
      for i := 0 to |chunks|
        invariant Valid()
        invariant output == o0 + Printed(b0 + Flat(chunks[..i]))
        invariant buf == Kept(b0 + Flat(chunks[..i]))
      {
        CutAnywhere(b0 + Flat(chunks[..i]), chunks[i]);
        FlatNext(chunks, i);
        assert b0 + Flat(chunks[..i]) + chunks[i] == b0 + Flat(chunks[..i + 1]);
        Write(chunks[i]);
      }
      assert chunks[..|chunks|] == chunks;
    }
  }
}
