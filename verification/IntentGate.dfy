/**
 The gate a model's answer passes: it is searched for a command name, and only a name in the grammar
 becomes a command.
 */
module IntentGate {
  import opened Wrappers
  import opened WingmanPhrase
  import PhraseText

  const MAX_RESPONSE_BYTES := 512
  const DECLINE := "unknown"
  const KEY := "\"command\""

  datatype Rejection = Accepted | NotJson | MissingField | NotInGrammar | Declined | TooLong

  datatype IntentResult = IntentResult(command: Option<Command>, rejection: Rejection)

  datatype Candidate = Text(text: string) | Refused(why: Rejection)

  predicate Ws(c: char) {
    c == ' ' || c == '\t' || c == '\n' || c == '\r'
  }

  function SkipWs(s: string): string {
    if s != "" && Ws(s[0]) then SkipWs(s[1..]) else s
  }

  function DropWs(s: string): string {
    if s != "" && Ws(s[|s| - 1]) then DropWs(s[..|s| - 1]) else s
  }

  function Trimmed(s: string): string {
    DropWs(SkipWs(s))
  }

  lemma SkipOne(s: string, b: nat)
    requires b <= |s|
    ensures SkipWs(s[b..]) == if b < |s| && Ws(s[b]) then SkipWs(s[b + 1..]) else s[b..]
  {
    if b < |s| {
      assert s[b..][1..] == s[b + 1..];
    }
  }

  lemma DropOne(s: string, b: nat, e: nat)
    requires b <= e <= |s|
    ensures DropWs(s[b..e]) == if b < e && Ws(s[e - 1]) then DropWs(s[b..e - 1]) else s[b..e]
  {
    if b < e {
      assert s[b..e][..e - b - 1] == s[b..e - 1];
    }
  }

  method Trim(s: string) returns (r: string)
    ensures r == Trimmed(s)
  {
    hide SkipWs, DropWs;
    var b, e := 0, |s|;
    assert s[0..] == s;
    while b < e && Ws(s[b])
      invariant 0 <= b <= e && SkipWs(s[b..]) == SkipWs(s)
    {
      SkipOne(s, b);
      b := b + 1;
    }
    SkipOne(s, b);
    assert s[b..e] == s[b..];
    while e > b && Ws(s[e - 1])
      invariant b <= e <= |s| && DropWs(s[b..e]) == DropWs(s[b..])
    {
      DropOne(s, b, e);
      e := e - 1;
    }
    DropOne(s, b, e);
    r := s[b..e];
  }

  function Lowered(s: string): (r: string)
    ensures |r| == |s| && forall i :: 0 <= i < |s| ==> r[i] == PhraseText.Lower(s[i])
  {
    seq(|s|, i requires 0 <= i < |s| => PhraseText.Lower(s[i]))
  }

  method AsciiLower(s: string) returns (r: string)
    ensures r == Lowered(s)
  {
    r := s;
    var i := 0;
    while i < |s|
      invariant 0 <= i <= |s| == |r|
      invariant forall k :: 0 <= k < i ==> r[k] == PhraseText.Lower(s[k])
      invariant forall k :: i <= k < |s| ==> r[k] == s[k]
    {
      r := r[i := PhraseText.Lower(r[i])];
      i := i + 1;
    }
  }

  predicate At(s: string, needle: string, p: int) {
    0 <= p && p + |needle| <= |s| && s[p..p + |needle|] == needle
  }

  /** The first place at or after `from` where the needle stands, or -1. */
  function FindSub(s: string, needle: string, from: nat): (p: int)
    ensures p == -1 || (p >= from && At(s, needle, p))
    ensures forall q :: from <= q && (p == -1 || q < p) ==> !At(s, needle, q)
    decreases |s| - from
  {
    if At(s, needle, from) then from else if from >= |s| then -1 else FindSub(s, needle, from + 1)
  }

  function SkipSeparators(s: string, p: nat): (r: nat)
    requires p <= |s|
    ensures p <= r <= |s|
    decreases |s| - p
  {
    if p < |s| && (Ws(s[p]) || s[p] == ':') then SkipSeparators(s, p + 1) else p
  }

  /** The name the answer offers: the value of its "command" member, or the whole of a bare answer. */
  function Extracted(trimmed: string): Candidate {
    if trimmed == "" then Refused(NotJson)
    else
      var k := FindSub(trimmed, KEY, 0);
      if k != -1 then
        var p := SkipSeparators(trimmed, k + |KEY|);
        if p >= |trimmed| || trimmed[p] != '"' then Refused(MissingField)
        else
          var end := FindSub(trimmed, "\"", p + 1);
          if end == -1 then Refused(MissingField) else Text(trimmed[p + 1..end])
      else if trimmed[0] == '{' then Refused(MissingField)
      else Text(trimmed)
  }

  function Judged(name: string): IntentResult {
    if name == "" then IntentResult(None, NotJson)
    else if name == DECLINE then IntentResult(None, Declined)
    else
      var c := ParsedFrom(name, 0);
      if c == None then IntentResult(None, NotInGrammar) else IntentResult(c, Accepted)
  }

  function Validated(response: string): IntentResult {
    if |response| > MAX_RESPONSE_BYTES then IntentResult(None, TooLong)
    else
      match Extracted(Trimmed(response))
      case Refused(why) => IntentResult(None, why)
      case Text(text) => Judged(Lowered(Trimmed(text)))
  }

  method Find(s: string, needle: string, from: nat) returns (p: int)
    ensures p == FindSub(s, needle, from)
  {
    p := from;
    while p + |needle| <= |s|
      invariant p >= from && FindSub(s, needle, from) == FindSub(s, needle, p)
    {
      if s[p..p + |needle|] == needle {
        return;
      }
      p := p + 1;
    }
    assert FindSub(s, needle, p) == -1;
    p := -1;
  }

  method Extract(trimmed: string) returns (c: Candidate)
    ensures c == Extracted(trimmed)
  {
    hide FindSub;
    if trimmed == "" {
      return Refused(NotJson);
    }
    var k := Find(trimmed, KEY, 0);
    if k != -1 {
      var p := k + 9;
      while p < |trimmed| && (Ws(trimmed[p]) || trimmed[p] == ':')
        invariant k + 9 <= p <= |trimmed|
        invariant SkipSeparators(trimmed, k + 9) == SkipSeparators(trimmed, p)
      {
        p := p + 1;
      }
      if p >= |trimmed| || trimmed[p] != '"' {
        return Refused(MissingField);
      }
      p := p + 1;
      var end := Find(trimmed, "\"", p);
      if end == -1 {
        return Refused(MissingField);
      }
      return Text(trimmed[p..end]);
    } else if trimmed[0] == '{' {
      return Refused(MissingField);
    }
    c := Text(trimmed);
  }

  method ValidateIntentResponse(response: string) returns (r: IntentResult)
    ensures r == Validated(response)
  {
    hide Trimmed, Lowered, ParsedFrom;
    if |response| > MAX_RESPONSE_BYTES {
      return IntentResult(None, TooLong);
    }
    var trimmed := Trim(response);
    var c := Extract(trimmed);
    if c.Refused? {
      return IntentResult(None, c.why);
    }
    var candidate := Trim(c.text);
    candidate := AsciiLower(candidate);
    if candidate == "" {
      return IntentResult(None, NotJson);
    }
    if candidate == DECLINE {
      return IntentResult(None, Declined);
    }
    var cmd := ParseCommand(candidate);
    if cmd == None {
      return IntentResult(None, NotInGrammar);
    }
    r := IntentResult(cmd, Accepted);
  }

  // The gate fails closed.

  /** The response spells the command's name, up to letter case, somewhere in its text. */
  ghost predicate Spells(s: string, c: Command) {
    exists a, b :: 0 <= a <= b <= |s| && Lowered(s[a..b]) == CommandName(c)
  }

  lemma {:induction false} SkipWsSuffix(s: string) returns (a: nat)
    ensures a <= |s| && SkipWs(s) == s[a..]
  {
    a := 0;
    if s != "" && Ws(s[0]) {
      a := SkipWsSuffix(s[1..]);
      assert s[1..][a..] == s[a + 1..];
      a := a + 1;
    }
  }

  lemma {:induction false} DropWsPrefix(s: string) returns (b: nat)
    ensures b <= |s| && DropWs(s) == s[..b]
  {
    b := |s|;
    if s != "" && Ws(s[|s| - 1]) {
      b := DropWsPrefix(s[..|s| - 1]);
      assert s[..|s| - 1][..b] == s[..b];
    }
  }

  lemma TrimmedIsSlice(s: string) returns (a: nat, b: nat)
    ensures a <= b <= |s| && Trimmed(s) == s[a..b]
  {
    a := SkipWsSuffix(s);
    b := DropWsPrefix(s[a..]);
    assert s[a..][..b] == s[a..a + b];
    b := a + b;
  }

  lemma SliceOfSlice(s: string, a: nat, b: nat, c: nat, d: nat)
    requires a <= b <= |s| && c <= d <= b - a
    ensures s[a..b][c..d] == s[a + c..a + d]
  {
    var x, y, m := s[a..b][c..d], s[a + c..a + d], s[a..b];
    forall i | 0 <= i < d - c ensures x[i] == y[i] {
      assert x[i] == m[c + i] == s[a + (c + i)];
    }
  }

  /** A command comes out only of a short enough answer that spells its name, and then with no rejection. */
  lemma GateFailsClosed(response: string)
    ensures Validated(response).command.Some? <==> Validated(response).rejection == Accepted
    ensures forall c :: Validated(response).command == Some(c) ==> |response| <= 512 && Spells(response, c)
  {
    hide Trimmed, Lowered, ParsedFrom, FindSub, CommandName;
    forall c | Validated(response).command == Some(c) ensures Spells(response, c) {
      var lo, hi := TextIsSlice(Trimmed(response));
      ParseInvertsName(Lowered(Trimmed(Extracted(Trimmed(response)).text)), c);
      NameIsSpelled(response, lo, hi, Extracted(Trimmed(response)).text, c);
    }
  }

  lemma NameIsSpelled(response: string, lo: nat, hi: nat, text: string, c: Command)
    requires lo <= hi <= |Trimmed(response)| && text == Trimmed(response)[lo..hi]
    requires Lowered(Trimmed(text)) == CommandName(c)
    ensures Spells(response, c)
  {
    hide Trimmed, Lowered, CommandName;
    var a, b := TrimmedIsSlice(response);
    var l, h := TrimmedIsSlice(text);
    SliceOfSlice(Trimmed(response), lo, hi, l, h);
    SliceOfSlice(response, a, b, lo + l, lo + h);
    assert Lowered(response[a + (lo + l)..a + (lo + h)]) == CommandName(c);
  }

  lemma TextIsSlice(t: string) returns (lo: nat, hi: nat)
    requires Extracted(t).Text?
    ensures lo <= hi <= |t| && Extracted(t).text == t[lo..hi]
  {
    hide FindSub;
    lo, hi := 0, |t|;
    var k := FindSub(t, KEY, 0);
    if k != -1 {
      lo := SkipSeparators(t, k + |KEY|) + 1;
      hi := FindSub(t, "\"", lo);
    } else {
      assert t[0..|t|] == t;
    }
  }

  /** Declining is not a command: the sentinel is in no command's name. */
  lemma DeclineIsNotACommand(c: Command)
    ensures CommandName(c) != DECLINE && Judged(DECLINE) == IntentResult(None, Declined)
  {
    assert |DECLINE| == 7 && DECLINE[0] == 'u';
    assert CommandName(c)[0] != 'u';
  }

  // Answers that name a command are understood.

  /** Spaces, tabs, newlines and carriage returns only. */
  ghost predicate AllWs(s: string) {
    forall i :: 0 <= i < |s| ==> s[i] == ' ' || s[i] == '\t' || s[i] == '\n' || s[i] == '\r'
  }

  ghost predicate Wordy(s: string) {
    s != "" && forall i :: 0 <= i < |s| ==> PhraseText.Alnum(s[i]) || s[i] == '_'
  }

  lemma NamesAreWordy(c: Command)
    ensures Wordy(CommandName(c))
  {
  }

  /** Any casing of a name is made of word characters. */
  lemma CasedNamesAreWordy(name: string, c: Command)
    requires Lowered(name) == CommandName(c)
    ensures Wordy(name)
  {
    hide CommandName;
    NamesAreWordy(c);
    forall i | 0 <= i < |name| ensures PhraseText.Alnum(name[i]) || name[i] == '_' {
      assert Lowered(name)[i] == PhraseText.Lower(name[i]);
    }
  }

  lemma {:induction false} SkipPadding(pre: string, s: string)
    requires AllWs(pre) && (s == "" || !Ws(s[0]))
    ensures SkipWs(pre + s) == s
  {
    if pre == "" {
      assert pre + s == s;
    } else {
      assert (pre + s)[1..] == pre[1..] + s;
      SkipPadding(pre[1..], s);
    }
  }

  lemma {:induction false} DropPadding(s: string, post: string)
    requires AllWs(post) && (s == "" || !Ws(s[|s| - 1]))
    ensures DropWs(s + post) == s
  {
    if post == "" {
      assert s + post == s;
    } else {
      assert (s + post)[..|s + post| - 1] == s + post[..|post| - 1];
      DropPadding(s, post[..|post| - 1]);
    }
  }

  lemma TrimPadding(pre: string, s: string, post: string)
    requires AllWs(pre) && AllWs(post) && s != "" && !Ws(s[0]) && !Ws(s[|s| - 1])
    ensures Trimmed(pre + s + post) == s
  {
    hide SkipWs, DropWs;
    assert pre + s + post == pre + (s + post);
    SkipPadding(pre, s + post);
    DropPadding(s, post);
  }

  lemma TrimNothing(s: string)
    requires s != "" && !Ws(s[0]) && !Ws(s[|s| - 1])
    ensures Trimmed(s) == s
  {
    TrimPadding("", s, "");
    assert "" + s + "" == s;
  }

  lemma NameIsJudged(name: string, c: Command)
    requires Lowered(name) == CommandName(c)
    ensures Judged(Lowered(Trimmed(name))) == IntentResult(Some(c), Accepted)
  {
    hide Trimmed, CommandName;
    CasedNamesAreWordy(name, c);
    TrimNothing(name);
    NamesAreWordy(c);
    ParseInvertsName(CommandName(c), c);
    DeclineIsNotACommand(c);
  }

  lemma AtFirst(s: string, needle: string, p: int)
    requires needle != ""
    ensures At(s, needle, p) ==> p < |s| && s[p] == needle[0]
  {
    if At(s, needle, p) {
      assert s[p..p + |needle|][0] == s[p];
    }
  }

  lemma NoKeyInName(name: string)
    requires Wordy(name)
    ensures FindSub(name, KEY, 0) == -1
  {
    forall p ensures !At(name, KEY, p) {
      AtFirst(name, KEY, p);
    }
  }

  /** A bare command name, in any casing and with any white space around it, is that command. */
  lemma BareNameAccepted(pre: string, name: string, post: string, c: Command)
    requires AllWs(pre) && AllWs(post) && Lowered(name) == CommandName(c) && |pre + name + post| <= 512
    ensures Validated(pre + name + post) == IntentResult(Some(c), Accepted)
  {
    hide Trimmed, CommandName, Judged, FindSub, Lowered;
    CasedNamesAreWordy(name, c);
    TrimPadding(pre, name, post);
    NoKeyInName(name);
    NameIsJudged(name, c);
  }

  ghost predicate Separators(s: string) {
    forall i :: 0 <= i < |s| ==> s[i] == ' ' || s[i] == '\t' || s[i] == '\n' || s[i] == '\r' || s[i] == ':'
  }

  lemma {:induction false} SkipAll(s: string, p: nat, q: nat)
    requires p <= q <= |s| && (q < |s| ==> !Ws(s[q]) && s[q] != ':')
    requires forall i :: p <= i < q ==> Ws(s[i]) || s[i] == ':'
    ensures SkipSeparators(s, p) == q
    decreases q - p
  {
    if p < q {
      SkipAll(s, p + 1, q);
    }
  }

  /** An answer with a "command" member: what precedes it, its separators, its quoted value, and the rest. */
  function Member(open: string, seps: string, value: string, rest: string): string {
    open + KEY + seps + "\"" + value + "\"" + rest
  }

  predicate NoQuote(s: string) {
    forall i :: 0 <= i < |s| ==> s[i] != '"'
  }

  /** The key stands in what precedes it plus itself only at the end: it is the first in the answer. */
  predicate FirstKey(open: string) {
    FindSub(open + KEY, KEY, 0) == |open|
  }

  lemma MemberLayout(open: string, seps: string, value: string, rest: string)
    ensures |KEY| == 9
    ensures var s, k := Member(open, seps, value, rest), |open|;
            var q := k + 9 + |seps|;
            && |s| == q + 2 + |value| + |rest| && s[..k + 9] == open + KEY && s[q] == '"'
            && (forall i :: k + 9 <= i < q ==> s[i] == seps[i - (k + 9)])
            && s[q + 1..q + 1 + |value|] == value && s[q + 1 + |value|] == '"'
  {
    var a := open + KEY;
    var b := a + seps + "\"";
    var s := Member(open, seps, value, rest);
    assert |KEY| == 9 && s == b + value + "\"" + rest;
    assert s[..|a|] == a;
  }

  lemma KeyIsFirst(s: string, open: string)
    requires FirstKey(open) && |open| + 9 <= |s| && s[..|open| + 9] == open + KEY
    ensures |KEY| == 9
    ensures FindSub(s, KEY, 0) == |open|
  {
    var a := open + KEY;
    assert |KEY| == 9 && a[|open|..] == KEY;
    assert At(s, KEY, |open|) by {
      assert s[|open|..|open| + 9] == s[..|open| + 9][|open|..];
    }
    forall p | 0 <= p < |open| ensures !At(s, KEY, p) {
      assert s[p..p + 9] == s[..|open| + 9][p..p + 9];
      assert !At(a, KEY, p);
    }
  }

  lemma ExtractMember(open: string, seps: string, value: string, rest: string)
    requires FirstKey(open) && Separators(seps) && NoQuote(value)
    ensures Extracted(Member(open, seps, value, rest)) == Text(value)
  {
    hide Member, FirstKey, FindSub, SkipSeparators, NoQuote, KEY;
    var s, q := Member(open, seps, value, rest), |open| + 9 + |seps|;
    MemberLayout(open, seps, value, rest);
    KeyIsFirst(s, open);
    SkipAll(s, |open| + 9, q);
    QuoteEnds(s, q + 1, value);
  }

  lemma QuoteEnds(s: string, from: nat, value: string)
    requires NoQuote(value) && from + |value| < |s| && s[from..from + |value|] == value && s[from + |value|] == '"'
    ensures FindSub(s, "\"", from) == from + |value|
  {
    var end := from + |value|;
    assert At(s, "\"", end);
    forall p | from <= p < end ensures !At(s, "\"", p) {
      assert s[p] == value[p - from];
    }
  }

  /** Trimming stops at a character that is not white space. */
  lemma {:induction false} SkipStops(open: string, x: string) returns (a: nat)
    requires x != "" && !Ws(x[0])
    ensures a <= |open| && SkipWs(open + x) == open[a..] + x
  {
    a := 0;
    var s := open + x;
    if open == "" {
      assert s == x;
    } else if Ws(open[0]) {
      assert s[1..] == open[1..] + x;
      a := SkipStops(open[1..], x);
      assert open[1..][a..] == open[a + 1..];
      a := a + 1;
    } else {
      assert s[0] == open[0];
    }
  }

  lemma {:induction false} DropStops(x: string, rest: string) returns (b: nat)
    requires x != "" && !Ws(x[|x| - 1])
    ensures b <= |rest| && DropWs(x + rest) == x + rest[..b]
  {
    b := |rest|;
    var s := x + rest;
    if rest == "" {
      assert s == x;
    } else if Ws(rest[|rest| - 1]) {
      assert s[..|s| - 1] == x + rest[..|rest| - 1];
      b := DropStops(x, rest[..|rest| - 1]);
      assert rest[..|rest| - 1][..b] == rest[..b];
    } else {
      assert s[|s| - 1] == rest[|rest| - 1];
    }
  }

  /** Trimming takes white space off what precedes and what follows the member, and nothing else. */
  lemma TrimMember(open: string, seps: string, value: string, rest: string) returns (a: nat, b: nat)
    ensures a <= |open| && b <= |rest|
    ensures Trimmed(Member(open, seps, value, rest)) == Member(open[a..], seps, value, rest[..b])
  {
    hide SkipWs, DropWs;
    var middle := KEY + seps + "\"" + value + "\"";
    assert middle[0] == '"' && middle[|middle| - 1] == '"';
    assert Member(open, seps, value, rest) == open + (middle + rest);
    a := SkipStops(open, middle + rest);
    assert open[a..] + (middle + rest) == (open[a..] + middle) + rest;
    b := DropStops(open[a..] + middle, rest);
    assert Member(open[a..], seps, value, rest[..b]) == open[a..] + middle + rest[..b];
  }

  lemma FirstKeySuffix(open: string, a: nat)
    requires FirstKey(open) && a <= |open|
    ensures FirstKey(open[a..])
  {
    var s, t := open + KEY, open[a..] + KEY;
    assert t == s[a..] && t[|open| - a..] == KEY;
    assert At(t, KEY, |open| - a);
    forall p | 0 <= p < |open| - a ensures !At(t, KEY, p) {
      assert t[p..p + 9] == s[a + p..a + p + 9];
      assert !At(s, KEY, a + p);
    }
  }

  /**
   So is any answer whose first "command" key is followed by separators and a quoted value that is the
   name, in any casing and with any white space around it: whatever comes before the key or after the
   value, white space around the object included.
   */
  lemma JsonMemberAccepted(open: string, seps: string, value: string, rest: string, c: Command)
    requires FirstKey(open) && Separators(seps) && NoQuote(value) && Lowered(Trimmed(value)) == CommandName(c)
    requires |Member(open, seps, value, rest)| <= 512
    ensures Validated(Member(open, seps, value, rest)) == IntentResult(Some(c), Accepted)
  {
    hide Trimmed, CommandName, Judged, Extracted, Lowered, Member, FirstKey, Wordy;
    var a, b := TrimMember(open, seps, value, rest);
    FirstKeySuffix(open, a);
    ExtractMember(open[a..], seps, value, rest[..b]);
    NameIsJudged(Trimmed(value), c);
    TrimmedName(value, c);
  }

  lemma TrimmedName(value: string, c: Command)
    requires Lowered(Trimmed(value)) == CommandName(c)
    ensures Trimmed(Trimmed(value)) == Trimmed(value)
  {
    hide Trimmed, CommandName;
    CasedNamesAreWordy(Trimmed(value), c);
    TrimNothing(Trimmed(value));
  }

  /** The plain object form starts with the first key. */
  lemma BraceBeforeKey()
    ensures FirstKey("{") && FirstKey("")
  {
    var a := "{" + KEY;
    assert |KEY| == 9 && a[1..10] == KEY && a[0..9][0] == '{';
    assert "" + KEY == KEY && KEY[0..9] == KEY;
  }

  // Answers that name none are turned away, each for its own reason.

  /** Too long is the reason exactly when the answer is longer than 512 bytes. */
  lemma TooLongIffOver(response: string)
    ensures Validated(response).rejection == TooLong <==> |response| > 512
  {
    hide Trimmed, Lowered, ParsedFrom, FindSub;
  }

  lemma {:induction false} SkipBlank(s: string)
    requires AllWs(s)
    ensures Trimmed(s) == ""
  {
    if s != "" {
      SkipBlank(s[1..]);
    }
  }

  /** A blank answer is not JSON. */
  lemma BlankIsNotJson(response: string)
    requires AllWs(response) && |response| <= 512
    ensures Validated(response) == IntentResult(None, NotJson)
  {
    SkipBlank(response);
    hide Trimmed;
  }

  lemma WordyIsItsText(pre: string, name: string, post: string)
    requires AllWs(pre) && AllWs(post) && Wordy(name) && |pre + name + post| <= 512
    ensures Validated(pre + name + post) == Judged(Lowered(name))
  {
    hide Trimmed, Judged, FindSub, Lowered;
    TrimPadding(pre, name, post);
    NoKeyInName(name);
    TrimNothing(name);
  }

  /** A bare word is judged as it stands: a decline declines, and a word that is no command is outside the grammar. */
  lemma BareWordIsJudged(pre: string, name: string, post: string)
    requires AllWs(pre) && AllWs(post) && Wordy(name) && |pre + name + post| <= 512
    ensures Lowered(name) == "unknown" ==> Validated(pre + name + post) == IntentResult(None, Declined)
    ensures Lowered(name) != "unknown" && (forall c :: CommandName(c) != Lowered(name)) ==>
              Validated(pre + name + post) == IntentResult(None, NotInGrammar)
  {
    assert |Lowered(name)| == |name| > 0;
    hide Trimmed, Lowered, Wordy, CommandName, ParsedFrom, Validated;
    WordyIsItsText(pre, name, post);
    forall c ensures ParsedFrom(Lowered(name), 0) == Some(c) ==> CommandName(c) == Lowered(name) {
      ParseInvertsName(Lowered(name), c);
    }
  }

  lemma BraceTrims(rest: string, post: string)
    requires AllWs(post) && (rest == "" || !Ws(rest[|rest| - 1]))
    ensures Trimmed("{" + rest + post) == "{" + rest
  {
    TrimPadding("", "{" + rest, post);
    assert "" + ("{" + rest) + post == "{" + rest + post;
  }

  /** An object without a "command" key is missing the field. */
  lemma ObjectWithoutFieldIsMissing(rest: string, post: string)
    requires AllWs(post) && (rest == "" || !Ws(rest[|rest| - 1])) && |"{" + rest + post| <= 512
    requires forall p :: !At("{" + rest, "\"command\"", p)
    ensures Validated("{" + rest + post) == IntentResult(None, MissingField)
  {
    hide Trimmed;
    BraceTrims(rest, post);
    assert FindSub("{" + rest, KEY, 0) == -1;
  }

  /** And so is an answer whose first "command" key is not followed by a quoted value. */
  lemma KeyWithoutValueIsMissing(response: string, open: string, seps: string, tail: string)
    requires |response| <= 512 && Trimmed(response) == open + KEY + seps + tail && FirstKey(open) && Separators(seps)
    requires tail == "" || (!Ws(tail[0]) && tail[0] != ':' && tail[0] != '"')
    ensures Validated(response) == IntentResult(None, MissingField)
  {
    hide Trimmed, FindSub, FirstKey;
    var s, k := open + KEY + seps + tail, |open|;
    assert |KEY| == 9 && s[..k + 9] == open + KEY;
    KeyIsFirst(s, open);
    assert forall i :: k + 9 <= i < k + 9 + |seps| ==> s[i] == seps[i - (k + 9)];
    assert tail != "" ==> s[k + 9 + |seps|] == tail[0];
    SkipAll(s, k + 9, k + 9 + |seps|);
  }
}
