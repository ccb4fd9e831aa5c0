/**
 The wingman grammar and the phrase matcher: which of the six commands, if any, a spoken transcript names.
 */
module WingmanPhrase {
  import opened Wrappers
  import opened PhraseText
  import opened PhraseScore
  import opened SpokenWords

  datatype Command = AttackMyTarget | EngageBandits | Rejoin | CoverMe | HoldFire | ReturnToBase

  const COMMANDS := [AttackMyTarget, EngageBandits, Rejoin, CoverMe, HoldFire, ReturnToBase]

  const MIN_PHRASE_SCORE := 3
  const MIN_PHRASE_MARGIN := 2
  const MAX_TRANSCRIPT_BYTES := 512

  function CommandName(c: Command): string {
    match c
    case AttackMyTarget => "attack_my_target"
    case EngageBandits => "engage_bandits"
    case Rejoin => "rejoin"
    case CoverMe => "cover_me"
    case HoldFire => "hold_fire"
    case ReturnToBase => "return_to_base"
  }

  lemma EveryCommandListed(c: Command)
    ensures c in COMMANDS
  {
    assert COMMANDS[0] == AttackMyTarget && COMMANDS[1] == EngageBandits && COMMANDS[2] == Rejoin;
    assert COMMANDS[3] == CoverMe && COMMANDS[4] == HoldFire && COMMANDS[5] == ReturnToBase;
  }

  function ParsedFrom(name: string, i: nat): Option<Command>
    requires i <= |COMMANDS|
    decreases |COMMANDS| - i
  {
    if i == |COMMANDS| then None
    else if CommandName(COMMANDS[i]) == name then Some(COMMANDS[i])
    else ParsedFrom(name, i + 1)
  }

  method ParseCommand(name: string) returns (r: Option<Command>)
    ensures r == ParsedFrom(name, 0)
  {
    var i := 0;
    while i < |COMMANDS|
      invariant 0 <= i <= |COMMANDS|
      invariant ParsedFrom(name, 0) == ParsedFrom(name, i)
    {
      if CommandName(COMMANDS[i]) == name {
        return Some(COMMANDS[i]);
      }
      i := i + 1;
    }
    r := None;
  }

  lemma {:induction false} ParsedFromMeaning(name: string, i: nat)
    requires i <= |COMMANDS|
    ensures ParsedFrom(name, i).Some? ==> CommandName(ParsedFrom(name, i).value) == name
    ensures ParsedFrom(name, i).None? ==> forall k :: i <= k < |COMMANDS| ==> CommandName(COMMANDS[k]) != name
    decreases |COMMANDS| - i
  {
    hide COMMANDS, CommandName;
    if i < |COMMANDS| {
      ParsedFromMeaning(name, i + 1);
    }
  }

  /** Parsing and naming undo each other: a name parses to c exactly when it is c's name. */
  lemma ParseInvertsName(name: string, c: Command)
    ensures ParsedFrom(name, 0) == Some(c) <==> name == CommandName(c)
  {
    hide ParsedFrom, CommandName, COMMANDS;
    ParsedFromMeaning(name, 0);
    EveryCommandListed(c);
    if name == CommandName(c) {
      var k :| 0 <= k < |COMMANDS| && COMMANDS[k] == c;
      NamesAreDistinct(ParsedFrom(name, 0).value, c);
    }
  }

  /** No two commands share a name, so a parsed name has one meaning. */
  lemma NamesAreDistinct(c: Command, d: Command)
    requires CommandName(c) == CommandName(d)
    ensures c == d
  {
    var n, m := CommandName(c), CommandName(d);
    assert |n| == |m| && n[0] == m[0];
  }

  const ATTACK_MY_TARGET := [Cue("my target", 3), Cue("my bandit", 3), Cue("designated", 3), Cue("locked", 3),
                             Cue("painting", 3), Cue("my contact", 3), Cue("this guy", 2)]

  const ENGAGE_BANDITS := [Cue("bandits", 3), Cue("band its", 3), Cue("in gauge", 2), Cue("engage", 2),
                           Cue("weapons free", 3), Cue("at will", 3), Cue("take them", 2), Cue("fight", 1)]

  const REJOIN := [Cue("rejoin", 4), Cue("re join", 4), Cue("form up", 4), Cue("formup", 4), Cue("formation", 3),
                   Cue("on my wing", 3), Cue("get back", 2)]

  const COVER_ME := [Cue("cover me", 4), Cue("cover", 2), Cue("watch my", 3), Cue("my six", 3), Cue("defend me", 4),
                     Cue("protect me", 4), Cue("help me", 3)]

  const HOLD_FIRE := [Cue("hold fire", 4), Cue("hold your fire", 4), Cue("cease fire", 4), Cue("weapons hold", 4),
                      Cue("weapons tight", 4), Cue("do not fire", 4), Cue("don't shoot", 4)]

  const RETURN_TO_BASE := [Cue("return to base", 4), Cue("rtb", 4), Cue("are tee bee", 4), Cue("go home", 3),
                           Cue("fly home", 3), Cue("bug out", 3), Cue("disengage", 3), Cue("head back", 3)]

  function Cues(c: Command): seq<Cue> {
    match c
    case AttackMyTarget => ATTACK_MY_TARGET
    case EngageBandits => ENGAGE_BANDITS
    case Rejoin => REJOIN
    case CoverMe => COVER_ME
    case HoldFire => HOLD_FIRE
    case ReturnToBase => RETURN_TO_BASE
  }

  lemma AttackPhrases1()
    ensures Phrase("my target")
    ensures Phrase("my bandit")
    ensures Phrase("designated")
  {
  }

  lemma AttackPhrases2()
    ensures Phrase("locked")
    ensures Phrase("painting")
    ensures Phrase("my contact")
  {
  }

  lemma AttackPhrases3()
    ensures Phrase("this guy")
  {
  }

  lemma AttackPhrases()
    ensures Phrases(ATTACK_MY_TARGET)
  {
    hide Phrase;
    AttackPhrases1();
    AttackPhrases2();
    AttackPhrases3();
  }

  lemma EngagePhrases1()
    ensures Phrase("bandits")
    ensures Phrase("band its")
    ensures Phrase("in gauge")
  {
  }

  lemma EngagePhrases2()
    ensures Phrase("engage")
    ensures Phrase("weapons free")
    ensures Phrase("at will")
  {
  }

  lemma EngagePhrases3()
    ensures Phrase("take them")
    ensures Phrase("fight")
  {
  }

  lemma EngagePhrases()
    ensures Phrases(ENGAGE_BANDITS)
  {
    hide Phrase;
    EngagePhrases1();
    EngagePhrases2();
    EngagePhrases3();
  }

  lemma RejoinPhrases1()
    ensures Phrase("rejoin")
    ensures Phrase("re join")
    ensures Phrase("form up")
  {
  }

  lemma RejoinPhrases2()
    ensures Phrase("formup")
    ensures Phrase("formation")
    ensures Phrase("on my wing")
  {
  }

  lemma RejoinPhrases3()
    ensures Phrase("get back")
  {
  }

  lemma RejoinPhrases()
    ensures Phrases(REJOIN)
  {
    hide Phrase;
    RejoinPhrases1();
    RejoinPhrases2();
    RejoinPhrases3();
  }

  lemma CoverPhrases1()
    ensures Phrase("cover me")
    ensures Phrase("cover")
    ensures Phrase("watch my")
  {
  }

  lemma CoverPhrases2()
    ensures Phrase("my six")
    ensures Phrase("defend me")
    ensures Phrase("protect me")
  {
  }

  lemma CoverPhrases3()
    ensures Phrase("help me")
  {
  }

  lemma CoverPhrases()
    ensures Phrases(COVER_ME)
  {
    hide Phrase;
    CoverPhrases1();
    CoverPhrases2();
    CoverPhrases3();
  }

  lemma HoldPhrases1()
    ensures Phrase("hold fire")
    ensures Phrase("hold your fire")
    ensures Phrase("cease fire")
  {
  }

  lemma HoldPhrases2()
    ensures Phrase("weapons hold")
    ensures Phrase("weapons tight")
    ensures Phrase("do not fire")
  {
  }

  lemma HoldPhrases3()
    ensures Phrase("don't shoot")
  {
  }

  lemma HoldPhrases()
    ensures Phrases(HOLD_FIRE)
  {
    hide Phrase;
    HoldPhrases1();
    HoldPhrases2();
    HoldPhrases3();
  }

  lemma ReturnPhrases1()
    ensures Phrase("return to base")
    ensures Phrase("rtb")
    ensures Phrase("are tee bee")
  {
  }

  lemma ReturnPhrases2()
    ensures Phrase("go home")
    ensures Phrase("fly home")
    ensures Phrase("bug out")
  {
  }

  lemma ReturnPhrases3()
    ensures Phrase("disengage")
    ensures Phrase("head back")
  {
  }

  lemma ReturnPhrases()
    ensures Phrases(RETURN_TO_BASE)
  {
    hide Phrase;
    ReturnPhrases1();
    ReturnPhrases2();
    ReturnPhrases3();
  }

  /** Every cue is a phrase of single-spaced words. */
  lemma CuesArePhrases(c: Command)
    ensures Phrases(Cues(c))
  {
    hide Phrases;
    AttackPhrases();
    EngagePhrases();
    RejoinPhrases();
    CoverPhrases();
    HoldPhrases();
    ReturnPhrases();
  }

  /** A transcript the matcher looks at: not empty, not too long, and with a letter or digit in it. */
  predicate Readable(transcript: string) {
    transcript != "" && |transcript| <= 512 && Normalised(transcript) != ""
  }

  function ScoreOf(text: string, c: Command): nat {
    Score(text, Cues(c))
  }

  method ScoreNormalised(text: string, c: Command) returns (score: nat)
    ensures score == ScoreOf(text, c)
  {
    score := ScoreCues(text, Cues(c));
  }

  lemma SilenceFinds(h: string, c: string)
    requires h == ""
    ensures FindFrom(h, c, 0) == -1 && Claimed(h, c, 0) == ""
  {
  }

  lemma {:induction false} SilenceScores(cues: seq<Cue>, order: seq<nat>)
    requires Indices(cues, order)
    ensures Total("", cues, order) == 0
  {
    hide FindFrom, Claimed;
    if order != [] {
      SilenceFinds("", cues[order[0]].text);
      SilenceScores(cues, order[1..]);
    }
  }

  method ScorePhrase(transcript: string, c: Command) returns (score: nat)
    ensures score == if Readable(transcript) then ScoreOf(Normalised(transcript), c) else 0
  {
    if transcript == "" || |transcript| > MAX_TRANSCRIPT_BYTES {
      return 0;
    }
    var text := Normalise(transcript);
    score := ScoreNormalised(text, c);
    SilenceScores(Cues(c), OrderOf(Cues(c), |Cues(c)|));
  }

  datatype PhraseMatch = PhraseMatch(command: Command, score: int, runnerUp: int)

  /** No other command scores above the runner-up, and one scores exactly that. */
  ghost predicate Best(text: string, m: PhraseMatch) {
    && m.score == ScoreOf(text, m.command) && m.runnerUp <= m.score
    && (forall c: Command :: c != m.command ==> ScoreOf(text, c) <= m.runnerUp)
    && (exists c: Command :: c != m.command && ScoreOf(text, c) == m.runnerUp)
  }

  ghost predicate BestSoFar(text: string, n: nat, m: PhraseMatch)
    requires n <= |COMMANDS|
  {
    if n == 0 then m.score == -1 && m.runnerUp == 0
    else
      && m.command in COMMANDS[..n] && m.score == ScoreOf(text, m.command) && 0 <= m.runnerUp <= m.score
      && (forall k :: 0 <= k < n && COMMANDS[k] != m.command ==> ScoreOf(text, COMMANDS[k]) <= m.runnerUp)
      && (if n == 1 then m.runnerUp == 0
          else exists k :: 0 <= k < n && COMMANDS[k] != m.command && ScoreOf(text, COMMANDS[k]) == m.runnerUp)
  }

  /** The best-scoring command and how close any other came. */
  method BestPhrase(transcript: string) returns (r: Option<PhraseMatch>)
    ensures r.Some? <==> Readable(transcript)
    ensures r.Some? ==> Best(Normalised(transcript), r.value)
  {
    hide ScoreOf, Normalised;
    if transcript == "" || |transcript| > MAX_TRANSCRIPT_BYTES {
      return None;
    }
    var text := Normalise(transcript);
    if text == "" {
      return None;
    }
    var best := PhraseMatch(Rejoin, -1, 0);
    var i := 0;
    while i < |COMMANDS|
      invariant 0 <= i <= |COMMANDS| && BestSoFar(text, i, best)
    {
      var c := COMMANDS[i];
      var s := ScoreNormalised(text, c);
      ghost var was := best;
      if s > best.score {
        best := PhraseMatch(c, s, if best.score < 0 then 0 else best.score);
      } else if s > best.runnerUp {
        best := best.(runnerUp := s);
      }
      i := i + 1;
    }
    BestOfAll(text, best);
    r := Some(best);
  }

  lemma BestOfAll(text: string, m: PhraseMatch)
    requires BestSoFar(text, |COMMANDS|, m)
    ensures Best(text, m)
  {
    hide ScoreOf;
    assert COMMANDS[..|COMMANDS|] == COMMANDS;
    forall c: Command | c != m.command ensures ScoreOf(text, c) <= m.runnerUp {
      EveryCommandListed(c);
      var k :| 0 <= k < |COMMANDS| && COMMANDS[k] == c;
    }
  }

  /** The command a transcript names: a score high enough, and clear of every other command's. */
  ghost predicate Named(text: string, c: Command) {
    && ScoreOf(text, c) >= 3
    && forall d: Command :: d != c ==> ScoreOf(text, c) - ScoreOf(text, d) >= 2
  }

  /** At most one command is named, so answering it is never a guess. */
  lemma NamedIsUnique(text: string, c: Command, d: Command)
    requires Named(text, c) && Named(text, d)
    ensures c == d
  {
  }

  /** The matcher answers exactly the command that is named, and declines when there is none. */
  method MatchPhrase(transcript: string) returns (r: Option<Command>)
    ensures r.Some? ==> Readable(transcript) && Named(Normalised(transcript), r.value)
    ensures r.None? ==> !Readable(transcript) || forall c: Command :: !Named(Normalised(transcript), c)
  {
    hide ScoreOf, Normalised;
    var m := BestPhrase(transcript);
    if m.None? {
      return None;
    }
    if m.value.score < MIN_PHRASE_SCORE {
      return None;
    }
    if m.value.score - m.value.runnerUp < MIN_PHRASE_MARGIN {
      return None;
    }
    r := Some(m.value.command);
  }

  // Cues that can and cannot be heard.

  /** Some stretch of the transcript, cut at word boundaries, is this phrase. */
  ghost predicate Heard(s: string, c: string) {
    exists i, j :: SpokenAt(s, c, i, j)
  }

  ghost predicate Spellable(c: string) {
    forall i :: 0 <= i < |c| ==> c[i] == ' ' || Plain(c[i])
  }

  /** A phrase can be matched in some transcript exactly when it has only lower-case letters, digits and spaces. */
  lemma HeardIffSpellable(c: string)
    requires Phrase(c)
    ensures Spellable(c) <==> exists s :: Heard(s, c)
  {
    if Spellable(c) {
      PhraseNormalises(c);
      FoundIffSpoken(c, c);
      assert Heard(c, c);
    } else {
      forall s ensures !Heard(s, c) {
        Unheard(s, c);
      }
    }
  }

  lemma OccursSpellable(s: string, c: string, p: int)
    requires Occurs(Normalised(s), c, p)
    ensures Spellable(c)
  {
    NormalisedShape(s);
    OccursChars(Normalised(s), c, p);
    forall i | 0 <= i < |c| ensures c[i] == ' ' || Plain(c[i]) {
      assert Normalised(s)[p + 1 + i] == c[i];
    }
  }

  lemma Unheard(s: string, c: string)
    requires !Spellable(c)
    ensures !Heard(s, c)
  {
    FoundIffSpoken(s, c);
    if p :| Occurs(Normalised(s), c, p) {
      OccursSpellable(s, c, p);
    }
  }

  lemma PhraseNormalises(c: string)
    requires Phrase(c) && Spellable(c)
    ensures Occurs(Normalised(c), c, 0)
  {
    PhraseScans(c, |c|);
    assert c[..|c|] == c;
    var t := [' '] + c + [' '];
    assert ([' '] + c)[|c|] == c[|c| - 1];
    assert Normalised(c) == t;
    PaddedOccurs(t, c, 0);
    assert t[0..0 + |c| + 2] == t;
  }

  lemma {:induction false} PhraseScans(c: string, n: nat)
    requires Phrase(c) && Spellable(c) && n <= |c|
    ensures Scan(c[..n]) == [' '] + c[..n]
  {
    if n > 0 {
      PhraseScans(c, n - 1);
      assert c[..n][..n - 1] == c[..n - 1];
    }
  }

  /** The cue with an apostrophe is never matched, whatever is said: normalising removes the apostrophe. */
  lemma DontShootIsNeverHeard(s: string)
    ensures Cue("don't shoot", 4) in Cues(HoldFire) && !Heard(s, "don't shoot")
  {
    var c := "don't shoot";
    assert c[3] == '\'';
    assert HOLD_FIRE[6] == Cue(c, 4);
    Unheard(s, c);
  }

  lemma {:induction false} SomeCounted(cues: seq<Cue>, n: nat, claims: seq<Claim>)
    requires n <= |cues| && WeightsTo(cues, n, claims) > 0
    ensures exists x :: x in claims && x.cue < n
  {
    if Counted(claims, n - 1) {
      var x :| x in claims && x.cue == n - 1;
      assert x in claims && x.cue < n;
    } else {
      SomeCounted(cues, n - 1, claims);
      var x :| x in claims && x.cue < n - 1;
      assert x in claims && x.cue < n;
    }
  }

  /** A command that scores was said: one of its cues stands in the transcript as whole words. */
  lemma ScoredWasSaid(transcript: string, c: Command)
    requires ScoreOf(Normalised(transcript), c) > 0
    ensures exists i :: 0 <= i < |Cues(c)| && Heard(transcript, Cues(c)[i].text)
  {
    hide Occurs, Cues, Score, OrderOf, AllClaims, Normalised, Phrases;
    var text, cues := Normalised(transcript), Cues(c);
    var claims := AllClaims(text, cues, OrderOf(cues, |cues|));
    CuesArePhrases(c);
    ScoreIsDisjointEvidence(text, cues);
    SomeCounted(cues, |cues|, claims);
    var x :| x in claims && x.cue < |cues|;
    var k :| 0 <= k < |claims| && claims[k] == x;
    assert Occurs(text, cues[x.cue].text, x.at);
    FoundIffSpoken(transcript, cues[x.cue].text);
    assert Heard(transcript, cues[x.cue].text);
  }

  lemma NamedWasSaid(transcript: string, c: Command)
    requires Named(Normalised(transcript), c)
    ensures exists i :: 0 <= i < |Cues(c)| && Heard(transcript, Cues(c)[i].text)
  {
    hide ScoreOf, Heard, Cues;
    ScoredWasSaid(transcript, c);
  }

  lemma {:induction false} WeightsReach(cues: seq<Cue>, n: nat, claims: seq<Claim>, i: nat)
    requires i < n <= |cues| && Counted(claims, i)
    ensures WeightsTo(cues, n, claims) >= cues[i].weight
  {
    if i < n - 1 {
      WeightsReach(cues, n - 1, claims, i);
    }
  }

  /** A spoken cue scores at least the weight of some spoken cue: itself, or a longer one over the same words. */
  lemma SpokenScores(transcript: string, c: Command, i: nat) returns (k: nat)
    requires i < |Cues(c)| && Heard(transcript, Cues(c)[i].text)
    ensures k < |Cues(c)| && Heard(transcript, Cues(c)[k].text)
    ensures ScoreOf(Normalised(transcript), c) >= Cues(c)[k].weight
  {
    hide Occurs, Cues, Score, OrderOf, AllClaims, Normalised, Phrases, Heard, WeightsTo;
    var text, cues := Normalised(transcript), Cues(c);
    var claims := AllClaims(text, cues, OrderOf(cues, |cues|));
    CuesArePhrases(c);
    ScoreIsDisjointEvidence(text, cues);
    HeardIsFound(transcript, cues[i].text);
    var p :| Occurs(text, cues[i].text, p);
    assert Outranked(cues, claims, i, p);
    var x :| x in claims && x.cue < |cues|;
    k := x.cue;
    var j :| 0 <= j < |claims| && claims[j] == x;
    assert Occurs(text, cues[k].text, x.at);
    HeardIsFound(transcript, cues[k].text);
    assert Counted(claims, k);
    WeightsReach(cues, |cues|, claims, k);
  }

  lemma HeardIsFound(s: string, c: string)
    ensures Heard(s, c) <==> exists p :: Occurs(Normalised(s), c, p)
  {
    FoundIffSpoken(s, c);
  }

  /**
   A transcript in which one command alone is heard, by cues that weigh at least 3, is answered with that
   command, whatever the words around it and whatever separates them.
   */
  lemma OnlyCommandHeard(transcript: string, c: Command, i: nat)
    requires i < |Cues(c)| && Heard(transcript, Cues(c)[i].text)
    requires forall k :: 0 <= k < |Cues(c)| && Heard(transcript, Cues(c)[k].text) ==> Cues(c)[k].weight >= 3
    requires forall d, k :: d != c && 0 <= k < |Cues(d)| ==> !Heard(transcript, Cues(d)[k].text)
    ensures Named(Normalised(transcript), c)
  {
    hide ScoreOf, Heard, Cues, Normalised;
    var k := SpokenScores(transcript, c, i);
    forall d: Command | d != c ensures ScoreOf(Normalised(transcript), d) == 0 {
      if ScoreOf(Normalised(transcript), d) > 0 {
        ScoredWasSaid(transcript, d);
      }
    }
  }

  /** Every hold-fire cue weighs enough: heard alone, it is obeyed. "Cease-fire!" holds fire. */
  lemma HoldFireIsObeyed(transcript: string, i: nat)
    requires i < |Cues(HoldFire)| && Heard(transcript, Cues(HoldFire)[i].text)
    requires forall d: Command, k :: d != HoldFire && 0 <= k < |Cues(d)| ==> !Heard(transcript, Cues(d)[k].text)
    ensures Named(Normalised(transcript), HoldFire)
  {
    hide Heard, Named, Normalised;
    assert forall k :: 0 <= k < |HOLD_FIRE| ==> HOLD_FIRE[k].weight == 4;
    OnlyCommandHeard(transcript, HoldFire, i);
  }

  lemma CeaseIsAWord()
    ensures Normalised("Cease") == " cease "
  {
    var s := "Cease";
    WordsStayWhole(s);
    hide Normalised;
    assert s[0] == 'C' && s[1] == 'e' && s[2] == 'a' && s[3] == 's' && s[4] == 'e';
  }

  lemma FireIsAWord()
    ensures Normalised("fire") == " fire "
  {
    var s := "fire";
    WordsStayWhole(s);
    hide Normalised;
    assert s[0] == 'f' && s[1] == 'i' && s[2] == 'r' && s[3] == 'e';
  }

  lemma WholeIsHeard(s: string, c: string)
    requires Normalised(s) == [' '] + c + [' ']
    ensures Heard(s, c)
  {
    hide Normalised;
    assert s[0..|s|] == s;
    assert SpokenAt(s, c, 0, |s|);
  }

  lemma HyphenIsHeard()
    ensures Normalised("Cease-fire") == " cease fire "
  {
    CeaseIsAWord();
    FireIsAWord();
    hide Normalised;
    SeparatorsSeparate("Cease", '-', "fire");
    assert "Cease" + ['-'] + "fire" == "Cease-fire";
  }

  /** Punctuation separates words: the hyphenated order is heard as the two-word cue. */
  lemma CeaseFireIsHeard()
    ensures Heard("Cease-fire!", "cease fire")
  {
    HyphenIsHeard();
    assert Normalised("") == "";
    hide Normalised;
    SeparatorsSeparate("Cease-fire", '!', "");
    assert "Cease-fire" + ['!'] + "" == "Cease-fire!";
    WholeIsHeard("Cease-fire!", "cease fire");
  }
}
