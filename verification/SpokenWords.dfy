/**
 What normalising does to the words of a transcript: where a word ends, how its letters come out, and
 which stretch of the transcript a phrase found in the normalised text was spoken as.
 */
module SpokenWords {
  import opened PhraseText

  /** No word runs across position i of s. */
  predicate Boundary(s: string, i: nat)
    requires i <= |s|
  {
    i == 0 || i == |s| || !Alnum(s[i - 1]) || !Alnum(s[i])
  }

  /** Two normalised texts side by side share the space between them. */
  function Together(x: string, y: string): string {
    if x == "" then y else if y == "" then x else x + y[1..]
  }

  lemma ScanEnds(s: string)
    ensures Scan(s)[0] == ' '
    ensures Scan(s)[|Scan(s)| - 1] == ' ' <==> s == "" || !Alnum(s[|s| - 1])
  {
    ScanSpaced(s);
  }

  /** What one more character does to the text read so far. */
  function Push(o: string, c: char): string
    requires o != ""
  {
    if Alnum(c) then o + [Lower(c)] else if o[|o| - 1] != ' ' then o + [' '] else o
  }

  /** The text read so far, brought to an end. */
  function Closed(o: string): string
    requires o != ""
  {
    if o[|o| - 1] != ' ' then o + [' '] else if |o| == 1 then "" else o
  }

  lemma ScanPushes(s: string, c: char)
    ensures Scan(s + [c]) == Push(Scan(s), c)
  {
    assert (s + [c])[..|s|] == s;
  }

  lemma Closes(s: string)
    ensures Normalised(s) == Closed(Scan(s))
  {
  }

  lemma PushTail(x: string, y: string, c: char)
    requires x != "" && x[|x| - 1] == ' ' && y != "" && y[0] == ' '
    ensures Push(y, c)[0] == ' ' && Push(x + y[1..], c) == x + Push(y, c)[1..]
  {
    hide Alnum, Lower;
    assert x + y[1..] + [' '] == x + (y + [' '])[1..];
    assert x + y[1..] + [Lower(c)] == x + (y + [Lower(c)])[1..];
  }

  lemma ClosedTogether(x: string, y: string)
    requires x != "" && x[|x| - 1] == ' ' && y != "" && y[0] == ' '
    ensures Closed(x + y[1..]) == Together(Closed(x), Closed(y))
  {
    assert x + y[1..] + [' '] == x + (y + [' '])[1..];
  }

  lemma {:induction false} ScanAfterGap(a: string, b: string)
    requires a == "" || !Alnum(a[|a| - 1])
    ensures Scan(a + b) == Scan(a) + Scan(b)[1..]
  {
    assert Scan("") == " ";
    hide Scan, Push, Alnum;
    ScanEnds(a);
    if b == "" {
      assert a + b == a;
    } else {
      var b', c := b[..|b| - 1], b[|b| - 1];
      ScanAfterGap(a, b');
      ScanEnds(b');
      assert a + b == a + b' + [c] && b == b' + [c];
      ScanPushes(a + b', c);
      ScanPushes(b', c);
      PushTail(Scan(a), Scan(b'), c);
    }
  }

  lemma JoinAfterGap(a: string, b: string)
    requires a == "" || !Alnum(a[|a| - 1])
    ensures Normalised(a + b) == Together(Normalised(a), Normalised(b))
  {
    ScanEnds(a);
    ScanEnds(b);
    ScanAfterGap(a, b);
    hide Scan, Together, Alnum;
    ClosedTogether(Scan(a), Scan(b));
  }

  lemma GapAddsNothing(a: string, c: char)
    requires !Alnum(c)
    ensures Normalised(a + [c]) == Normalised(a)
  {
    assert (a + [c])[..|a|] == a;
    ScanEnds(a);
  }

  /** Where no word runs across, a transcript may be cut and its parts normalised on their own. */
  lemma PartsJoin(a: string, b: string)
    requires Boundary(a + b, |a|)
    ensures Normalised(a + b) == Together(Normalised(a), Normalised(b))
  {
    if b == "" {
      assert a + b == a;
    } else if a == "" || !Alnum(a[|a| - 1]) {
      JoinAfterGap(a, b);
    } else {
      var c, rest := b[0], b[1..];
      assert (a + b)[|a|] == c;
      assert a + b == a + [c] + rest && b == [c] + rest;
      JoinAfterGap(a + [c], rest);
      JoinAfterGap([c], rest);
      GapAddsNothing(a, c);
      GapAddsNothing("", c);
      assert "" + [c] == [c];
    }
  }

  /** Whatever is not a letter or a digit separates words, and does nothing else: "cease-fire" is two words. */
  lemma SeparatorsSeparate(a: string, c: char, b: string)
    requires !('0' <= c <= '9') && !('A' <= c <= 'Z') && !('a' <= c <= 'z')
    ensures Normalised(a + [c] + b) == Together(Normalised(a), Normalised(b))
  {
    GapAddsNothing(a, c);
    JoinAfterGap(a + [c], b);
  }

  /** Letters and digits alone are one word, kept letter by letter, capitals made small, between two spaces. */
  lemma {:induction false} WordsStayWhole(s: string)
    requires s != "" && forall i :: 0 <= i < |s| ==> '0' <= s[i] <= '9' || 'A' <= s[i] <= 'Z' || 'a' <= s[i] <= 'z'
    ensures var o := Normalised(s);
            && |o| == |s| + 2 && o[0] == ' ' && o[|s| + 1] == ' '
            && forall i :: 0 <= i < |s| ==> o[i + 1] == if 'A' <= s[i] <= 'Z' then (s[i] as int + 32) as char else s[i]
  {
    ScanWord(s);
    ScanEnds(s);
  }

  lemma {:induction false} ScanWord(s: string)
    requires forall i :: 0 <= i < |s| ==> '0' <= s[i] <= '9' || 'A' <= s[i] <= 'Z' || 'a' <= s[i] <= 'z'
    ensures |Scan(s)| == |s| + 1 && Scan(s)[0] == ' '
    ensures forall i :: 0 <= i < |s| ==> Scan(s)[i + 1] == Lower(s[i])
  {
    if s != "" {
      var front := s[..|s| - 1];
      ScanWord(front);
      assert Scan(s) == Scan(front) + [Lower(s[|s| - 1])];
    }
  }

  /** Each space of a normalised text is a place where the transcript itself may be cut. */
  lemma {:induction false} CutAt(s: string, p: nat) returns (i: nat)
    requires 0 < p < |Normalised(s)| - 1 && Normalised(s)[p] == ' '
    ensures 0 < i < |s| && Boundary(s, i)
    ensures Normalised(s[..i]) == Normalised(s)[..p + 1]
    ensures Normalised(s[i..]) == Normalised(s)[p..]
    decreases |s|, 1
  {
    hide Normalised, Scan;
    assert s != "" by {
      EmptySays();
    }
    var s', x := s[..|s| - 1], s[|s| - 1];
    assert s == s' + [x];
    if !Alnum(x) {
      GapAddsNothing(s', x);
      i := CutAt(s', p);
      CutPastGap(s', x, p, i);
    } else {
      LetterEnds(s', x);
      i := CutBeforeLetter(s', x, p);
    }
  }

  lemma EmptySays()
    ensures Normalised("") == ""
  {
  }

  /** A separator at the end moves no cut. */
  lemma CutPastGap(s: string, x: char, p: nat, i: nat)
    requires !Alnum(x) && 0 < i < |s| && Boundary(s, i)
    ensures Boundary(s + [x], i)
    ensures Normalised((s + [x])[..i]) == Normalised(s[..i]) && Normalised((s + [x])[i..]) == Normalised(s[i..])
    ensures Normalised(s + [x]) == Normalised(s)
  {
    hide Normalised, Alnum;
    assert (s + [x])[i..] == s[i..] + [x] && (s + [x])[..i] == s[..i];
    GapAddsNothing(s, x);
    GapAddsNothing(s[i..], x);
  }

  lemma {:induction false} CutBeforeLetter(s: string, x: char, p: nat) returns (i: nat)
    requires Alnum(x) && 0 < p < |Scan(s)| && Scan(s)[p] == ' '
    ensures 0 < i <= |s| && Boundary(s + [x], i)
    ensures Normalised((s + [x])[..i]) == Normalised(s + [x])[..p + 1]
    ensures Normalised((s + [x])[i..]) == Normalised(s + [x])[p..]
    decreases |s| + 1, 0
  {
    ScanEnds(s);
    LetterEnds(s, x);
    Closes(s);
    hide Scan, Normalised, Alnum, Lower, Closed;
    if p == |Scan(s)| - 1 {
      i := |s|;
      CutHere(s, x, p);
    } else {
      i := CutAt(s, p);
      assert (s + [x])[i..] == s[i..] + [x] && (s + [x])[..i] == s[..i];
      SamePrefix(Scan(s), [Lower(x), ' '], p);
      LongerLastWord(s, i, p, x);
    }
  }

  lemma SamePrefix(o: string, tail: string, p: nat)
    requires p < |o| - 1
    ensures p < |Closed(o)| && (o + tail)[..p + 1] == Closed(o)[..p + 1]
  {
  }

  lemma CutHere(s: string, x: char, p: nat)
    requires Alnum(x) && 0 < p == |Scan(s)| - 1 && Scan(s)[p] == ' '
    ensures Normalised((s + [x])[..|s|]) == Normalised(s + [x])[..p + 1]
    ensures Normalised((s + [x])[|s|..]) == Normalised(s + [x])[p..]
  {
    LetterEnds(s, x);
    Closes(s);
    LastWord(x);
    hide Scan, Normalised, Alnum, Lower;
    assert (s + [x])[..|s|] == s && (s + [x])[|s|..] == [x];
    assert (Scan(s) + [Lower(x), ' '])[p..] == [' ', Lower(x), ' '];
    assert (Scan(s) + [Lower(x), ' '])[..p + 1] == Scan(s);
  }

  lemma LongerLastWord(s: string, i: nat, p: nat, x: char)
    requires 0 < i < |s| && 0 < p < |Scan(s)| - 1 && Alnum(x)
    requires Normalised(s[i..]) == Normalised(s)[p..]
    ensures Normalised(s[i..] + [x]) == Normalised(s + [x])[p..]
  {
    hide Scan, Lower, Push, Normalised, Closed;
    var r := s[i..];
    ScanEnds(s);
    ScanEnds(r);
    LetterEnds(r, x);
    LetterEnds(s, x);
    Closes(s);
    Closes(r);
    var tail := [Lower(x), ' '];
    Reopened(Scan(r), Scan(s), p);
    assert (Scan(s) + tail)[p..] == Scan(s)[p..] + tail;
  }

  lemma LetterEnds(s: string, x: char)
    requires Alnum(x)
    ensures Normalised(s + [x]) == Scan(s) + [Lower(x), ' ']
  {
    assert (s + [x])[..|s|] == s;
    ScanEnds(s + [x]);
  }

  lemma Reopened(x: string, y: string, p: nat)
    requires x != "" && 0 < p < |y| - 1 && Closed(x) == Closed(y)[p..]
    requires x[|x| - 1] == ' ' <==> y[|y| - 1] == ' '
    ensures x == y[p..]
  {
    assert (y + [' '])[p..] == y[p..] + [' '];
    if y[|y| - 1] != ' ' {
      assert x == Closed(x)[..|x|];
    }
  }

  lemma LastWord(x: char)
    requires Alnum(x)
    ensures Normalised([x]) == [' ', Lower(x), ' ']
  {
    assert [x][..0] == "";
    assert Scan([x]) == [' ', Lower(x)];
    ScanEnds([x]);
  }

  /** The words from i to j of the transcript, cut at word boundaries, are the phrase c and nothing else. */
  ghost predicate SpokenAt(s: string, c: string, i: nat, j: nat) {
    && i <= j <= |s| && Boundary(s, i) && Boundary(s, j)
    && Normalised(s[i..j]) == [' '] + c + [' ']
  }

  lemma SpokenIsFound(s: string, c: string, i: nat, j: nat)
    requires SpokenAt(s, c, i, j)
    ensures exists p :: Occurs(Normalised(s), c, p)
  {
    var x, m, y := s[..i], s[i..j], s[j..];
    assert s[i..] == m + y && s == x + s[i..];
    PartsJoin(x, s[i..]);
    if 0 < |m| {
      assert Boundary(m + y, |m|) by {
        assert j < |s| ==> (m + y)[|m|] == s[j] && (m + y)[|m| - 1] == s[j - 1];
      }
    }
    PartsJoin(m, y);
    var p := if Normalised(x) == "" then 0 else |Normalised(x)| - 1;
    FoundIn(Normalised(x), c, Normalised(y), Normalised(s), p);
  }

  lemma FoundIn(x: string, c: string, y: string, h: string, p: nat)
    requires h == Together(x, Together([' '] + c + [' '], y))
    requires x == "" || x[|x| - 1] == ' '
    requires p == if x == "" then 0 else |x| - 1
    ensures Occurs(h, c, p)
  {
    var m := [' '] + c + [' '];
    var t := Together(m, y);
    assert t[..|m|] == m;
    assert h[p..p + |m|] == m by {
      if x == "" {
        assert h == t;
      } else {
        assert h == x + t[1..] && h[p..] == [' '] + t[1..] && t == [' '] + t[1..];
        assert h[p..p + |m|] == h[p..][..|m|];
      }
    }
    PaddedOccurs(h, c, p);
  }

  lemma CutFrom(s: string, p: nat) returns (i: nat)
    requires p < |Normalised(s)| - 1 && Normalised(s)[p] == ' '
    ensures i <= |s| && Boundary(s, i) && Normalised(s[i..]) == Normalised(s)[p..]
  {
    hide Normalised;
    i := 0;
    if p == 0 {
      assert s[0..] == s && Normalised(s)[0..] == Normalised(s);
    } else {
      i := CutAt(s, p);
    }
  }

  lemma CutTo(s: string, q: nat) returns (j: nat)
    requires 0 < q < |Normalised(s)| && Normalised(s)[q] == ' '
    ensures j <= |s| && Boundary(s, j) && Normalised(s[..j]) == Normalised(s)[..q + 1]
  {
    hide Normalised;
    j := |s|;
    if q == |Normalised(s)| - 1 {
      assert s[..j] == s && Normalised(s)[..q + 1] == Normalised(s);
    } else {
      j := CutAt(s, q);
    }
  }

  lemma FoundWasSpoken(s: string, c: string, p: int) returns (i: nat, j: nat)
    requires Occurs(Normalised(s), c, p)
    ensures SpokenAt(s, c, i, j)
  {
    hide Normalised, Alnum;
    var h, q := Normalised(s), |c| + 1;
    i := CutFrom(s, p);
    var k := CutTo(s[i..], q);
    j := i + k;
    assert s[i..j] == s[i..][..k];
    assert h[p..][..q + 1] == h[p..p + q + 1] == [' '] + c + [' '] by {
      PaddedOccurs(h, c, p);
      assert h[p..][..q + 1] == h[p..p + q + 1];
    }
    assert Boundary(s, j) by {
      assert 0 < k < |s| - i ==> s[i..][k] == s[j] && s[i..][k - 1] == s[j - 1];
    }
  }

  /**
   A phrase is found in the normalised transcript exactly when some stretch of the transcript, cut at
   word boundaries, normalises to it: never inside a longer word, and whatever stands between the words.
   */
  lemma FoundIffSpoken(s: string, c: string)
    ensures (exists p :: Occurs(Normalised(s), c, p)) <==> (exists i, j :: SpokenAt(s, c, i, j))
  {
    hide Normalised, Occurs, SpokenAt;
    if p :| Occurs(Normalised(s), c, p) {
      var i, j := FoundWasSpoken(s, c, p);
    }
    if i, j :| SpokenAt(s, c, i, j) {
      SpokenIsFound(s, c, i, j);
    }
  }
}
