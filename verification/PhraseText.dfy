/**
 The text side of matching a spoken transcript: normalising it to space-separated words, finding whole
 phrases in it, and masking the words a phrase has claimed.
 */
module PhraseText {

  predicate Alnum(c: char) {
    '0' <= c <= '9' || 'A' <= c <= 'Z' || 'a' <= c <= 'z'
  }

  /** A character that survives normalisation as it is. */
  predicate Plain(c: char) {
    '0' <= c <= '9' || 'a' <= c <= 'z'
  }

  function Lower(c: char): char {
    if 'A' <= c <= 'Z' then c - 'A' + 'a' else c
  }

  /** The transcript read so far: a leading space, then words separated by single spaces. */
  function Scan(s: string): (o: string)
    ensures o != ""
  {
    if s == "" then " "
    else
      var o, c := Scan(s[..|s| - 1]), s[|s| - 1];
      if Alnum(c) then o + [Lower(c)] else if o[|o| - 1] != ' ' then o + [' '] else o
  }

  function Normalised(s: string): string {
    var o := Scan(s);
    if o[|o| - 1] != ' ' then o + [' '] else if |o| == 1 then "" else o
  }

  method Normalise(s: string) returns (out: string)
    ensures out == Normalised(s)
  {
    out := [' '];
    var lastWasSpace := true;
    var i := 0;
    while i < |s|
      invariant 0 <= i <= |s| && out == Scan(s[..i])
      invariant lastWasSpace <==> out[|out| - 1] == ' '
    {
      assert s[..i + 1][..i] == s[..i];
      if Alnum(s[i]) {
        out := out + [Lower(s[i])];
        lastWasSpace := false;
      } else if !lastWasSpace {
        out := out + [' '];
        lastWasSpace := true;
      }
      i := i + 1;
    }
    assert s[..i] == s;
    if !lastWasSpace {
      out := out + [' '];
    } else if |out| == 1 {
      return "";
    }
  }

  /** Words of plain characters, one space before each, none doubled. */
  ghost predicate Spaced(o: string) {
    && o != "" && o[0] == ' '
    && (forall i :: 0 <= i < |o| ==> o[i] == ' ' || Plain(o[i]))
    && (forall i :: 0 < i < |o| && o[i] == ' ' ==> o[i - 1] != ' ')
  }

  lemma {:induction false} ScanSpaced(s: string)
    ensures Spaced(Scan(s))
  {
    if s != "" {
      ScanSpaced(s[..|s| - 1]);
    }
  }

  /** Normalised text is empty, or words separated and surrounded by exactly one space. */
  lemma NormalisedShape(s: string)
    ensures Normalised(s) == "" || (Spaced(Normalised(s)) && |Normalised(s)| > 2 && Normalised(s)[|Normalised(s)| - 1] == ' ')
  {
    ScanSpaced(s);
  }

  lemma {:induction false} ScanFixed(o: string)
    requires Spaced(o)
    ensures Scan(o) == o
  {
    var n := |o| - 1;
    if n == 0 {
      assert o[..0] == "" && o == " ";
    } else {
      ScanFixed(o[..n]);
      assert o == o[..n] + [o[n]];
    }
  }

  /** Normalising twice is normalising once. */
  lemma NormalisedOnce(s: string)
    ensures Normalised(Normalised(s)) == Normalised(s)
  {
    NormalisedShape(s);
    if Normalised(s) != "" {
      ScanFixed(Normalised(s));
    }
  }

  function Letters(s: string): string {
    if s == "" then ""
    else Letters(s[..|s| - 1]) + (if Alnum(s[|s| - 1]) then [Lower(s[|s| - 1])] else [])
  }

  lemma LettersSnoc(s: string, c: char)
    ensures Letters(s + [c]) == Letters(s) + (if Alnum(c) then [Lower(c)] else [])
  {
    assert (s + [c])[..|s|] == s;
  }

  lemma {:induction false} ScanLetters(s: string)
    ensures Letters(Scan(s)) == Letters(s)
  {
    if s == "" {
      LettersSnoc("", ' ');
      assert "" + [' '] == " ";
    } else {
      var o, c := Scan(s[..|s| - 1]), s[|s| - 1];
      ScanLetters(s[..|s| - 1]);
      LettersSnoc(o, if Alnum(c) then Lower(c) else ' ');
    }
  }

  /** Every letter and digit is kept, in order and lower-cased, and nothing else is. */
  lemma NormalisedKeepsLetters(s: string)
    ensures Letters(Normalised(s)) == Letters(s)
  {
    ScanLetters(s);
    LettersSnoc(Scan(s), ' ');
    if |Scan(s)| == 1 && Scan(s)[0] == ' ' {
      assert Scan(s) == "" + [' '];
      LettersSnoc("", ' ');
    }
  }

  // Whole phrases.

  /** A phrase of words with single spaces between them. */
  predicate Phrase(c: string) {
    && c != "" && c[0] != ' ' && c[|c| - 1] != ' '
    && forall i :: 0 < i < |c| && c[i] == ' ' ==> c[i - 1] != ' '
  }

  /** The phrase stands at `at` as whole words: a space, the phrase, a space. */
  predicate Occurs(h: string, c: string, at: int) {
    && 0 <= at && at + |c| + 2 <= |h| && h[at] == ' ' && h[at + |c| + 1] == ' '
    && h[at + 1..at + 1 + |c|] == c
  }

  /** The first occurrence at or after `from`, or -1. */
  function FindFrom(h: string, c: string, from: nat): (p: int)
    ensures p == -1 || (from <= p < |h| - |c| - 1 && Occurs(h, c, p))
    ensures forall q :: from <= q && (p == -1 || q < p) ==> !Occurs(h, c, q)
    decreases |h| - from
  {
    if from >= |h| then -1 else if Occurs(h, c, from) then from else FindFrom(h, c, from + 1)
  }

  method FindPhrase(h: string, c: string, from: nat) returns (p: int)
    ensures p == FindFrom(h, c, from)
  {
    var padded := [' '] + c + [' '];
    p := from;
    while p + |padded| <= |h|
      invariant p >= from && FindFrom(h, c, from) == FindFrom(h, c, p)
    {
      PaddedOccurs(h, c, p);
      if h[p..p + |padded|] == padded {
        return;
      }
      p := p + 1;
    }
    var q := FindFrom(h, c, p);
    assert q == -1;
    p := -1;
  }

  lemma PaddedOccurs(h: string, c: string, p: nat)
    requires p + |c| + 2 <= |h|
    ensures h[p..p + |c| + 2] == [' '] + c + [' '] <==> Occurs(h, c, p)
  {
    var w := h[p..p + |c| + 2];
    var padded := [' '] + c + [' '];
    var x, y := w[1..1 + |c|], h[p + 1..p + 1 + |c|];
    forall i | 0 <= i < |c| ensures x[i] == y[i] {
      assert x[i] == w[1 + i] == h[p + (1 + i)];
    }
    assert x == y;
    var front := [' '] + c;
    assert front[1..] == c && padded[..1 + |c|] == front;
    assert padded[1..1 + |c|] == padded[..1 + |c|][1..];
    assert forall i :: 0 <= i < |c| + 2 ==> w[i] == h[p + i];
    var last := |c| + 1;
    assert w[0] == h[p] && w[last] == h[p + last];
    assert w == [w[0]] + w[1..1 + |c|] + [w[|c| + 1]];
  }

  /** Blank n characters from `at`. */
  function Mask(h: string, at: nat, n: nat): (r: string)
    requires at + n <= |h|
    ensures |r| == |h| && forall k :: 0 <= k < |h| ==> r[k] == if at <= k < at + n then ' ' else h[k]
  {
    h[..at] + seq(n, _ => ' ') + h[at + n..]
  }

  method BlankOut(h: string, at: nat, n: nat) returns (r: string)
    requires at + n <= |h|
    ensures r == Mask(h, at, n)
  {
    r := h;
    var k := at;
    while k < at + n
      invariant at <= k <= at + n && |r| == |h|
      invariant forall i :: 0 <= i < |h| ==> r[i] == if at <= i < k then ' ' else h[i]
    {
      r := r[k := ' '];
      k := k + 1;
    }
  }

  /** Two placed phrases share no character of their words. */
  predicate Apart(p: int, n: int, q: int, m: int) {
    p + n <= q || q + m <= p
  }

  lemma OccursChars(h: string, c: string, p: int)
    requires Occurs(h, c, p)
    ensures forall k :: p + 1 <= k < p + 1 + |c| ==> h[k] == c[k - (p + 1)]
  {
    var w := h[p + 1..p + 1 + |c|];
    assert forall k :: p + 1 <= k < p + 1 + |c| ==> h[k] == w[k - (p + 1)];
  }

  /** Inside a placed phrase no two neighbouring characters are blank, and its first one is not. */
  lemma OccursBlanks(h: string, c: string, p: int, k: int)
    requires Occurs(h, c, p) && Phrase(c)
    ensures p + 1 < k < p + 1 + |c| && h[k] == ' ' ==> h[k - 1] != ' '
    ensures h[p + 1] != ' '
  {
    OccursChars(h, c, p);
    assert h[p + 1] == c[0];
  }

  /** An occurrence cannot reach into blanked words. */
  lemma MaskedApart(h: string, d: string, q: int, c: string, p: int)
    requires Occurs(h, d, q) && Phrase(c) && d != ""
    requires Occurs(Mask(h, q + 1, |d|), c, p)
    ensures Apart(p, |c|, q, |d|)
  {
    var r := Mask(h, q + 1, |d|);
    assert r[q] == ' ' && r[q + 1] == ' ';
    OccursBlanks(r, c, p, q + 1);
  }

  /**
   Masking an occurrence leaves exactly the occurrences that share no character with it: blanks never
   make a new occurrence, because whatever is blanked has blanks on both sides.
   */
  lemma MaskLeavesTheRest(h: string, d: string, q: int, c: string, p: int)
    requires Occurs(h, d, q) && Phrase(c) && d != ""
    ensures Occurs(Mask(h, q + 1, |d|), c, p) <==> Occurs(h, c, p) && Apart(p, |c|, q, |d|)
  {
    var r := Mask(h, q + 1, |d|);
    if Occurs(r, c, p) {
      OccursChars(r, c, p);
      MaskedApart(h, d, q, c, p);
      assert r[p + 1] == c[0] && r[p + |c|] == c[|c| - 1];
      assert h[p + 1..p + 1 + |c|] == r[p + 1..p + 1 + |c|];
    }
  }
}
