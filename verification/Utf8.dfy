/** UTF-8 decoding for the HUD, against the encoding of section 3 of RFC 3629. */
module Utf8 {

  newtype byte = b: int | 0 <= b < 0x100

  const REPLACEMENT := 0xFFFD

  /** The octets of one code point (RFC 3629, section 3, whose scalar values are those outside the surrogates). */
  function Encode(c: nat): (r: seq<byte>)
    requires c < 0x110000
    ensures 1 <= |r| <= 4
  {
    if c < 0x80 then [c as byte]
    else if c < 0x800 then [(0xC0 + c / 0x40) as byte, (0x80 + c % 0x40) as byte]
    else if c < 0x10000 then [(0xE0 + c / 0x1000) as byte, (0x80 + c / 0x40 % 0x40) as byte, (0x80 + c % 0x40) as byte]
    else [(0xF0 + c / 0x40000) as byte, (0x80 + c / 0x1000 % 0x40) as byte, (0x80 + c / 0x40 % 0x40) as byte,
          (0x80 + c % 0x40) as byte]
  }

  function EncodeAll(cs: seq<nat>): seq<byte>
    requires forall i :: 0 <= i < |cs| ==> cs[i] < 0x110000
  {
    if cs == [] then [] else Encode(cs[0]) + EncodeAll(cs[1..])
  }

  /** 10xxxxxx: (b & 0xC0) == 0x80. */
  predicate Continuation(b: byte) {
    0x80 <= b < 0xC0
  }

  /** (b & 0x3F) of a continuation byte. */
  function Low6(b: byte): nat
    requires Continuation(b)
  {
    b as int - 0x80
  }

  /** The byte ranges used here are what the source's masks select. */
  lemma MasksAreRanges(b: bv8)
    ensures b & 0xC0 == 0x80 <==> 0x80 <= b < 0xC0
    ensures b & 0xE0 == 0xC0 <==> 0xC0 <= b < 0xE0
    ensures b & 0xF0 == 0xE0 <==> 0xE0 <= b < 0xF0
    ensures 0x80 <= b < 0xC0 ==> b & 0x3F == b - 0x80
    ensures 0xC0 <= b < 0xE0 ==> b & 0x1F == b - 0xC0
    ensures 0xE0 <= b < 0xF0 ==> b & 0x0F == b - 0xE0
  {
  }

  function SkipContinuations(s: seq<byte>, p: nat): (q: nat)
    requires p <= |s|
    ensures p <= q <= |s| && forall i :: p <= i < q ==> Continuation(s[i])
    ensures q < |s| ==> !Continuation(s[q])
    decreases |s| - p
  {
    if p < |s| && Continuation(s[p]) then SkipContinuations(s, p + 1) else p
  }

  /** What the decoder returns at p, and where it leaves the cursor. */
  function Decoded(s: seq<byte>, p: nat): (r: (nat, nat))
    requires p < |s|
    ensures p < r.1 <= |s|
  {
    var b0 := s[p];
    if b0 < 0x80 then (b0 as nat, p + 1)
    else if 0xC0 <= b0 < 0xE0 && p + 1 < |s| && Continuation(s[p + 1]) then
      ((b0 as int - 0xC0) * 0x40 + Low6(s[p + 1]), p + 2)
    else if 0xE0 <= b0 < 0xF0 && p + 2 < |s| && Continuation(s[p + 1]) && Continuation(s[p + 2]) then
      ((b0 as int - 0xE0) * 0x1000 + Low6(s[p + 1]) * 0x40 + Low6(s[p + 2]), p + 3)
    else (REPLACEMENT, SkipContinuations(s, p + 1))
  }

  /** The source's masks and shifts, on the byte at the cursor. */
  method NextUtf8Codepoint(s: seq<byte>, p: nat) returns (cp: nat, q: nat)
    requires p < |s|
    ensures (cp, q) == Decoded(s, p)
  {
    var b0 := s[p];
    q := p + 1;
    if b0 < 0x80 {
      return b0 as nat, q;
    }
    if 0xC0 <= b0 < 0xE0 && q < |s| && Continuation(s[q]) {
      cp := (b0 as int - 0xC0) * 0x40 + Low6(s[q]);
      q := q + 1;
      return;
    }
    if 0xE0 <= b0 < 0xF0 && q + 1 < |s| && Continuation(s[q]) && Continuation(s[q + 1]) {
      cp := (b0 as int - 0xE0) * 0x1000 + Low6(s[q]) * 0x40 + Low6(s[q + 1]);
      q := q + 2;
      return;
    }
    while q < |s| && Continuation(s[q])
      invariant p + 1 <= q <= |s| && SkipContinuations(s, p + 1) == SkipContinuations(s, q)
    {
      q := q + 1;
    }
    cp := REPLACEMENT;
  }

  function DecodedFrom(s: seq<byte>, p: nat): seq<nat>
    requires p <= |s|
    decreases |s| - p
  {
    if p == |s| then [] else [Decoded(s, p).0] + DecodedFrom(s, Decoded(s, p).1)
  }

  /** How many glyphs the HUD draws: one per decoded code point. */
  method CountUtf8Codepoints(s: seq<byte>) returns (n: nat)
    ensures n == |DecodedFrom(s, 0)|
  {
    var p := 0;
    n := 0;
    while p < |s|
      invariant 0 <= p <= |s| && n + |DecodedFrom(s, p)| == |DecodedFrom(s, 0)|
      decreases |s| - p
    {
      var cp;
      cp, p := NextUtf8Codepoint(s, p);
      n := n + 1;
    }
  }

  /** A value beyond the basic multilingual plane is drawn as one replacement character. */
  function Drawn(c: nat): nat {
    if c < 0x10000 then c else REPLACEMENT
  }

  function AllDrawn(cs: seq<nat>): (r: seq<nat>)
    ensures |r| == |cs| && forall i :: 0 <= i < |cs| ==> r[i] == Drawn(cs[i])
  {
    seq(|cs|, i requires 0 <= i < |cs| => Drawn(cs[i]))
  }

  lemma EncodeLead(c: nat)
    requires c < 0x110000
    ensures !Continuation(Encode(c)[0])
    ensures forall i :: 1 <= i < |Encode(c)| ==> Continuation(Encode(c)[i])
  {
  }

  /** Digits base 64 put back together. */
  lemma Recompose(c: nat)
    ensures c == c / 0x40 * 0x40 + c % 0x40
    ensures c / 0x40 == c / 0x1000 * 0x40 + c / 0x40 % 0x40
  {
    var d := c / 0x40;
    assert d == d / 0x40 * 0x40 + d % 0x40;
    assert d / 0x40 == c / 0x1000;
  }

  ghost predicate Values(cs: seq<nat>) {
    forall i :: 0 <= i < |cs| ==> cs[i] < 0x110000
  }

  lemma {:induction false} NoLeadingContinuation(cs: seq<nat>)
    requires Values(cs)
    ensures EncodeAll(cs) == [] || !Continuation(EncodeAll(cs)[0])
  {
    if cs != [] {
      EncodeLead(cs[0]);
    }
  }

  /** Decoding where one value's octets stand returns what is drawn for it and moves just past them. */
  lemma DecodeOne(s: seq<byte>, p: nat, c: nat)
    requires c < 0x110000 && p + |Encode(c)| <= |s| && s[p..p + |Encode(c)|] == Encode(c)
    requires p + |Encode(c)| < |s| ==> !Continuation(s[p + |Encode(c)|])
    ensures Decoded(s, p) == (Drawn(c), p + |Encode(c)|)
  {
    var e := Encode(c);
    assert forall i :: 0 <= i < |e| ==> s[p..p + |e|][i] == s[p + i] == e[i];
    Recompose(c);
    if |e| == 4 {
      assert s[p + 0] == e[0] && s[p + 1] == e[1] && s[p + 2] == e[2] && s[p + 3] == e[3];
      FourBytesSkip(s, p);
    } else if |e| == 3 {
      assert s[p + 0] == e[0] && s[p + 1] == e[1] && s[p + 2] == e[2];
    } else if |e| == 2 {
      assert s[p + 0] == e[0] && s[p + 1] == e[1];
    } else {
      assert s[p + 0] == e[0];
    }
  }

  lemma FourBytesSkip(s: seq<byte>, p: nat)
    requires p + 4 <= |s| && s[p] >= 0xF0 && Continuation(s[p + 1]) && Continuation(s[p + 2]) && Continuation(s[p + 3])
    requires p + 4 < |s| ==> !Continuation(s[p + 4])
    ensures Decoded(s, p) == (REPLACEMENT, p + 4)
  {
    var q := SkipContinuations(s, p + 1);
    assert q == p + 4;
  }

  lemma SplitTail(s: seq<byte>, p: nat, e: seq<byte>, rest: seq<byte>)
    requires p <= |s| && s[p..] == e + rest
    ensures var q := p + |e|;
            && q <= |s| && s[p..q] == e && s[q..] == rest
            && (q < |s| ==> rest != [] && s[q] == rest[0])
  {
    var q := p + |e|;
    assert s[p..][..|e|] == e && s[p..][|e|..] == rest;
    assert s[p..q] == s[p..][..|e|] && s[q..] == s[p..][|e|..];
    assert q < |s| ==> s[q] == s[q..][0];
  }

  lemma AllDrawnCons(cs: seq<nat>)
    requires cs != []
    ensures AllDrawn(cs) == [Drawn(cs[0])] + AllDrawn(cs[1..])
  {
  }

  lemma {:induction false} DecodeFrom(s: seq<byte>, p: nat, cs: seq<nat>)
    requires Values(cs) && p <= |s| && s[p..] == EncodeAll(cs)
    ensures DecodedFrom(s, p) == AllDrawn(cs)
    decreases |cs|
  {
    hide Encode, Decoded, Drawn, Continuation, AllDrawn;
    if cs == [] {
      assert p == |s|;
    } else {
      var e, rest := Encode(cs[0]), EncodeAll(cs[1..]);
      hide EncodeAll;
      SplitTail(s, p, e, rest);
      NoLeadingContinuation(cs[1..]);
      DecodeOne(s, p, cs[0]);
      DecodeFrom(s, p + |e|, cs[1..]);
      AllDrawnCons(cs);
    }
  }

  /**
   Decoding the encoding of any scalar values gives one code point per value: basic-plane values come back
   unchanged, each larger one as a single replacement character.
   */
  lemma DecodeInvertsEncode(cs: seq<nat>)
    requires Values(cs)
    ensures DecodedFrom(EncodeAll(cs), 0) == AllDrawn(cs)
    ensures |DecodedFrom(EncodeAll(cs), 0)| == |cs|
  {
    var s := EncodeAll(cs);
    assert s[0..] == s;
    DecodeFrom(s, 0, cs);
  }

  /**
   Bytes that start no sequence of one to three octets become one replacement character together with the
   continuation bytes after them, so decoding picks up again at the next byte that can start a character.
   */
  lemma BadBytesBecomeOne(s: seq<byte>, p: nat)
    requires p < |s| && s[p] >= 0x80
    requires !(0xC0 <= s[p] < 0xE0 && p + 1 < |s| && 0x80 <= s[p + 1] < 0xC0)
    requires !(0xE0 <= s[p] < 0xF0 && p + 2 < |s| && 0x80 <= s[p + 1] < 0xC0 && 0x80 <= s[p + 2] < 0xC0)
    ensures var (cp, q) := Decoded(s, p);
            && cp == 0xFFFD && p < q <= |s|
            && (forall i :: p < i < q ==> 0x80 <= s[i] < 0xC0)
            && (q < |s| ==> s[q] < 0x80 || s[q] >= 0xC0)
  {
  }
}
