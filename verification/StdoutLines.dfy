/**
 How a child process's standard output is cut into lines: buffered reads of at most 4095 bytes that stop
 after a newline, cut at an embedded NUL, with trailing newlines and carriage returns removed.
 */
module StdoutLines {
  const BUFFER := 4096

  /** How many bytes one buffered read takes from a non-empty output. */
  function ReadLength(s: string, n: nat): (r: nat)
    requires n < |s| && n < 4095
    ensures n < r <= |s| && r <= 4095
    ensures forall i :: n <= i < r - 1 ==> s[i] != '\n'
    ensures s[r - 1] == '\n' || r == |s| || r == 4095
    decreases |s| - n
  {
    if s[n] == '\n' || n + 1 == |s| || n + 1 == BUFFER - 1 then n + 1 else ReadLength(s, n + 1)
  }

  /** The text of a buffer up to its first NUL. */
  function CString(s: string): (r: string)
    ensures r <= s && '\0' !in r && (r == s || s[|r|] == '\0')
  {
    if s == "" || s[0] == '\0' then "" else [s[0]] + CString(s[1..])
  }

  predicate LineEnd(c: char) {
    c == '\n' || c == '\r'
  }

  /** All trailing newlines and carriage returns are gone, and nothing else is. */
  function Stripped(s: string): (r: string)
    ensures r <= s && (r == "" || (r[|r| - 1] != '\n' && r[|r| - 1] != '\r'))
    ensures forall i :: |r| <= i < |s| ==> s[i] == '\n' || s[i] == '\r'
  {
    if s != "" && LineEnd(s[|s| - 1]) then Stripped(s[..|s| - 1]) else s
  }

  method StripLine(buf: string) returns (line: string)
    ensures line == Stripped(CString(buf))
  {
    line := CString(buf);
    ghost var whole := line;
    while line != "" && LineEnd(line[|line| - 1])
      invariant Stripped(line) == Stripped(whole)
      decreases |line|
    {
      line := line[..|line| - 1];
    }
  }

  function LineOf(chunk: string): string {
    Stripped(CString(chunk))
  }

  /** The lines an output is read as. */
  function Lines(s: string): seq<string> {
    if s == "" then []
    else
      var n := ReadLength(s, 0);
      [LineOf(s[..n])] + Lines(s[n..])
  }

  /** Printed lines end in a newline, or, from some children, in a carriage return and a newline. */
  function EndOf(crlf: bool): string {
    if crlf then "\r\n" else "\n"
  }

  /** A line that survives the trip: short enough for the buffer, no newline or NUL, not ending in a line ending. */
  predicate Carried(l: string, crlf: bool) {
    && |l| + |EndOf(crlf)| <= 4095 && (forall i :: 0 <= i < |l| ==> l[i] != '\n' && l[i] != '\0')
    && (l == "" || l[|l| - 1] != '\r')
  }

  function Joined(lines: seq<string>, crlf: bool): string {
    if lines == [] then "" else lines[0] + EndOf(crlf) + Joined(lines[1..], crlf)
  }

  lemma {:induction false} CStringWhole(s: string)
    requires forall i :: 0 <= i < |s| ==> s[i] != '\0'
    ensures CString(s) == s
  {
    if s != "" {
      CStringWhole(s[1..]);
    }
  }

  lemma {:induction false} ReadStopsAtNewline(s: string, e: nat, n: nat)
    requires n <= e < |s| && e < 4095 && s[e] == '\n'
    requires forall i :: 0 <= i < e ==> s[i] != '\n'
    ensures ReadLength(s, n) == e + 1
    decreases e - n
  {
    if n < e {
      ReadStopsAtNewline(s, e, n + 1);
    }
  }

  lemma {:induction false} StripsTo(s: string, l: string)
    requires l <= s && (l == "" || (l[|l| - 1] != '\n' && l[|l| - 1] != '\r'))
    requires forall i :: |l| <= i < |s| ==> s[i] == '\n' || s[i] == '\r'
    ensures Stripped(s) == l
  {
    if |s| > |l| {
      StripsTo(s[..|s| - 1], l);
    }
  }

  lemma LineOfCarried(l: string, crlf: bool)
    requires Carried(l, crlf)
    ensures LineOf(l + EndOf(crlf)) == l
  {
    var s := l + EndOf(crlf);
    forall i | 0 <= i < |s| ensures s[i] != '\0' {
      assert i < |l| ==> s[i] == l[i];
    }
    CStringWhole(s);
    StripsTo(s, l);
  }

  lemma FirstLine(l: string, crlf: bool, rest: string)
    requires Carried(l, crlf)
    ensures Lines(l + EndOf(crlf) + rest) == [l] + Lines(rest)
  {
    var eol := EndOf(crlf);
    var n := |l| + |eol|;
    var s := l + eol + rest;
    LineOfCarried(l, crlf);
    assert forall i :: 0 <= i < n ==> s[i] == (l + eol)[i];
    assert s[n - 1] == '\n';
    ReadStopsAtNewline(s, n - 1, 0);
    hide ReadLength, LineOf;
    assert s[..n] == l + eol && s[n..] == rest;
  }

  /** Lines printed one by one, with either line ending, are read back as the same lines. */
  lemma {:induction false} LinesRoundTrip(lines: seq<string>, crlf: bool)
    requires forall i :: 0 <= i < |lines| ==> Carried(lines[i], crlf)
    ensures Lines(Joined(lines, crlf)) == lines
  {
    hide Lines, EndOf, Carried;
    if lines != [] {
      FirstLine(lines[0], crlf, Joined(lines[1..], crlf));
      LinesRoundTrip(lines[1..], crlf);
    } else {
      NoLines();
    }
  }

  lemma NoLines()
    ensures Lines("") == []
  {
  }
}
