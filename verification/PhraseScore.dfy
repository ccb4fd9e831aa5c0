/**
 Scoring a transcript against one command's cues: longest cue first, each occurrence masking the words it
 claims so that a shorter cue inside it cannot count the same words again.
 */
module PhraseScore {
  import opened SeqOps
  import opened PhraseText

  datatype Cue = Cue(text: string, weight: nat)

  /** Cue number `cue` claims the words of its text at `at`. */
  datatype Claim = Claim(cue: nat, at: int)

  ghost predicate Phrases(cues: seq<Cue>) {
    forall i :: 0 <= i < |cues| ==> Phrase(cues[i].text)
  }

  // The order in which cues claim.

  /** Cue a claims before cue b: it is longer, or as long and listed earlier. */
  predicate Before(cues: seq<Cue>, a: nat, b: nat)
    requires a < |cues| && b < |cues|
  {
    |cues[a].text| > |cues[b].text| || (|cues[a].text| == |cues[b].text| && a < b)
  }

  predicate Indices(cues: seq<Cue>, order: seq<nat>) {
    forall i :: 0 <= i < |order| ==> order[i] < |cues|
  }

  function InsertKey(cues: seq<Cue>, order: seq<nat>, key: nat): (r: seq<nat>)
    requires Indices(cues, order) && key < |cues|
    ensures |r| == |order| + 1 && Indices(cues, r)
  {
    if order == [] || |cues[order[|order| - 1]].text| >= |cues[key].text| then order + [key]
    else InsertKey(cues, order[..|order| - 1], key) + [order[|order| - 1]]
  }

  function OrderOf(cues: seq<Cue>, n: nat): (r: seq<nat>)
    requires n <= |cues|
    ensures |r| == n && Indices(cues, r)
  {
    if n == 0 then [] else InsertKey(cues, OrderOf(cues, n - 1), n - 1)
  }

  ghost predicate InOrder(cues: seq<Cue>, order: seq<nat>)
    requires Indices(cues, order)
  {
    forall i, j :: 0 <= i < j < |order| ==> Before(cues, order[i], order[j])
  }

  lemma AppendKeepsOrder(cues: seq<Cue>, r: seq<nat>, front: seq<nat>, key: nat, last: nat)
    requires Indices(cues, r) && InOrder(cues, r) && forall x :: x in r <==> x in front || x == key
    requires Indices(cues, front + [last]) && InOrder(cues, front + [last]) && key < |cues| && last < |cues|
    requires Before(cues, key, last)
    ensures InOrder(cues, r + [last])
  {
    hide Before;
    forall i | 0 <= i < |r| ensures Before(cues, r[i], last) {
      assert r[i] in r;
      if r[i] != key {
        var k :| 0 <= k < |front| && front[k] == r[i];
        assert Before(cues, (front + [last])[k], (front + [last])[|front|]);
      }
    }
  }

  lemma {:induction false} InsertKeyKeepsOrder(cues: seq<Cue>, order: seq<nat>, key: nat)
    requires Indices(cues, order) && key < |cues| && InOrder(cues, order) && forall x :: x in order ==> x < key
    ensures InOrder(cues, InsertKey(cues, order, key))
    ensures forall x :: x in InsertKey(cues, order, key) <==> x in order || x == key
  {
    if order == [] || |cues[order[|order| - 1]].text| >= |cues[key].text| {
      forall i | 0 <= i < |order| ensures Before(cues, order[i], key) {
        assert order[i] in order;
        assert i < |order| - 1 ==> Before(cues, order[i], order[|order| - 1]);
      }
    } else {
      var n := |order| - 1;
      var front, last := order[..n], order[n];
      assert forall x :: x in front ==> x in order;
      InsertKeyKeepsOrder(cues, front, key);
      assert order == front + [last];
      AppendKeepsOrder(cues, InsertKey(cues, front, key), front, key, last);
    }
  }

  /** The claiming order lists every cue once, each before the ones it has priority over. */
  lemma {:induction false} OrderIsSorted(cues: seq<Cue>, n: nat)
    requires n <= |cues|
    ensures InOrder(cues, OrderOf(cues, n)) && forall x: nat :: x in OrderOf(cues, n) <==> x < n
  {
    if n > 0 {
      OrderIsSorted(cues, n - 1);
      InsertKeyKeepsOrder(cues, OrderOf(cues, n - 1), n - 1);
    }
  }

  /** The key goes after the last cue that is at least as long. */
  lemma {:induction false} InsertKeyAt(cues: seq<Cue>, order: seq<nat>, key: nat, j: nat)
    requires Indices(cues, order) && key < |cues| && j <= |order|
    requires j == 0 || |cues[order[j - 1]].text| >= |cues[key].text|
    requires forall k :: j <= k < |order| ==> |cues[order[k]].text| < |cues[key].text|
    ensures InsertKey(cues, order, key) == order[..j] + [key] + order[j..]
    decreases |order|
  {
    if j == |order| {
      assert order[..j] == order && order[j..] == [];
    } else {
      var n := |order| - 1;
      InsertKeyAt(cues, order[..n], key, j);
      assert order[..n][..j] == order[..j] && order[..n][j..] + [order[n]] == order[j..];
    }
  }

  /** Shift the shorter cues at the end of order[..i] up by one, leaving a gap for the key. */
  method ShiftShorter(cues: seq<Cue>, order: array<nat>, i: nat, key: nat) returns (j: nat)
    requires i < order.Length && Indices(cues, order[..i]) && key < |cues|
    modifies order
    ensures j <= i && (j == 0 || |cues[old(order[..i])[j - 1]].text| >= |cues[key].text|)
    ensures forall k :: j <= k < i ==> |cues[old(order[..i])[k]].text| < |cues[key].text|
    ensures forall k :: 0 <= k < order.Length ==> order[k] == if j < k <= i then old(order[k - 1]) else old(order[k])
  {
    ghost var sorted := order[..i];
    j := i;
    while j > 0 && |cues[order[j - 1]].text| < |cues[key].text|
      invariant 0 <= j <= i
      invariant forall k :: 0 <= k < i ==> sorted[k] < |cues|
      invariant forall k :: 0 <= k < order.Length ==> order[k] == if j < k <= i then old(order[k - 1]) else old(order[k])
      invariant forall k :: j <= k < i ==> |cues[sorted[k]].text| < |cues[key].text|
    {
      order[j] := order[j - 1];
      j := j - 1;
    }
  }

  /** Put order[i] where it belongs among the sorted cues before it. */
  method InsertAt(cues: seq<Cue>, order: array<nat>, i: nat)
    requires i < order.Length && Indices(cues, order[..i]) && order[i] < |cues|
    modifies order
    ensures order[..i + 1] == old(InsertKey(cues, order[..i], order[i]))
    ensures forall k :: i < k < order.Length ==> order[k] == old(order[k])
  {
    hide InsertKey;
    var key := order[i];
    var j := ShiftShorter(cues, order, i, key);
    order[j] := key;
    InsertKeyAt(cues, old(order[..i]), key, j);
    Shifted(order[..i + 1], old(order[..i]), j, key);
  }

  lemma Shifted(r: seq<nat>, sorted: seq<nat>, j: nat, key: nat)
    requires |r| == |sorted| + 1 && j <= |sorted| && r[j] == key
    requires forall k :: 0 <= k < j ==> r[k] == sorted[k]
    requires forall k :: j < k < |r| ==> r[k] == sorted[k - 1]
    ensures r == sorted[..j] + [key] + sorted[j..]
  {
  }

  /** An in-place insertion sort of the cue indices, longest text first. */
  method SortIndices(cues: seq<Cue>) returns (r: seq<nat>)
    ensures r == OrderOf(cues, |cues|)
  {
    var order := new nat[|cues|](i => i);
    var i := 0;
    while i < |cues|
      invariant 0 <= i <= |cues| == order.Length
      invariant order[..i] == OrderOf(cues, i)
      invariant forall k :: i <= k < |cues| ==> order[k] == k
    {
      InsertAt(cues, order, i);
      i := i + 1;
    }
    r := order[..];
    assert r == order[..i];
  }

  // Claiming.

  /** Where a cue claims words, scanning from `from`: each occurrence in turn, masked before the next is sought. */
  function Claims(h: string, c: string, from: nat): (hs: seq<int>)
    decreases |h| - from
  {
    var p := FindFrom(h, c, from);
    if p == -1 then [] else [p] + Claims(Mask(h, p + 1, |c|), c, p + 1)
  }

  function Claimed(h: string, c: string, from: nat): (r: string)
    ensures |r| == |h|
    decreases |h| - from
  {
    var p := FindFrom(h, c, from);
    if p == -1 then h else Claimed(Mask(h, p + 1, |c|), c, p + 1)
  }

  ghost predicate ApartFromAll(p: int, n: int, hs: seq<int>, m: int) {
    forall i :: 0 <= i < |hs| ==> Apart(p, n, hs[i], m)
  }

  lemma ApartFromCons(p: int, n: int, h: int, hs: seq<int>, m: int)
    ensures ApartFromAll(p, n, [h] + hs, m) <==> Apart(p, n, h, m) && ApartFromAll(p, n, hs, m)
  {
    var all := [h] + hs;
    if ApartFromAll(p, n, all, m) {
      assert Apart(p, n, all[0], m);
      forall i | 0 <= i < |hs| ensures Apart(p, n, hs[i], m) {
        assert all[i + 1] == hs[i];
      }
    }
  }

  /** After a cue has claimed, what is left is exactly what shares no character with its claims. */
  lemma {:induction false} ClaimedLeavesTheRest(h: string, c: string, from: nat, d: string, p: int)
    requires Phrase(c) && Phrase(d)
    ensures Occurs(Claimed(h, c, from), d, p) <==> Occurs(h, d, p) && ApartFromAll(p, |d|, Claims(h, c, from), |c|)
    decreases |h| - from
  {
    hide Occurs, Apart, Phrase, ApartFromAll;
    var q := FindFrom(h, c, from);
    if q == -1 {
      NoneApart(p, |d|, |c|);
    } else {
      NonEmpty(c);
      MaskLeavesTheRest(h, c, q, d, p);
      ClaimedLeavesTheRest(Mask(h, q + 1, |c|), c, q + 1, d, p);
      ApartFromCons(p, |d|, q, Claims(Mask(h, q + 1, |c|), c, q + 1), |c|);
    }
  }

  lemma NonEmpty(c: string)
    requires Phrase(c)
    ensures c != ""
  {
  }

  lemma NoneApart(p: int, n: int, m: int)
    ensures ApartFromAll(p, n, [], m)
  {
  }

  /** A cue's claims are occurrences of it at or after `from`, left to right. */
  lemma {:induction false} ClaimsAreOccurrences(h: string, c: string, from: nat)
    requires Phrase(c)
    ensures forall i :: 0 <= i < |Claims(h, c, from)| ==> Claims(h, c, from)[i] >= from && Occurs(h, c, Claims(h, c, from)[i])
    ensures forall i, j :: 0 <= i < j < |Claims(h, c, from)| ==> Apart(Claims(h, c, from)[i], |c|, Claims(h, c, from)[j], |c|)
    decreases |h| - from
  {
    hide Occurs, Phrase;
    var q := FindFrom(h, c, from);
    if q != -1 {
      NonEmpty(c);
      var m := Mask(h, q + 1, |c|);
      var rest := Claims(m, c, q + 1);
      ClaimsAreOccurrences(m, c, q + 1);
      forall i | 0 <= i < |rest| ensures Occurs(h, c, rest[i]) && Apart(q, |c|, rest[i], |c|) {
        MaskLeavesTheRest(h, c, q, c, rest[i]);
      }
    }
  }

  /** No occurrence of the cue at or after `from` is left unclaimed. */
  lemma {:induction false} NothingLeft(h: string, c: string, from: nat, p: int)
    requires Phrase(c) && p >= from
    ensures !Occurs(Claimed(h, c, from), c, p)
    decreases |h| - from
  {
    hide Occurs, Phrase;
    var q := FindFrom(h, c, from);
    if q != -1 {
      NonEmpty(c);
      var m := Mask(h, q + 1, |c|);
      if p > q {
        NothingLeft(m, c, q + 1, p);
      } else {
        ClaimedLeavesTheRest(m, c, q + 1, c, p);
        MaskLeavesTheRest(h, c, q, c, p);
        SelfClash(q, |c|);
      }
    }
  }

  lemma SelfClash(q: int, n: int)
    requires n > 0
    ensures !Apart(q, n, q, n)
  {
  }

  // The score.

  function Tagged(i: nat, hs: seq<int>): seq<Claim> {
    seq(|hs|, k requires 0 <= k < |hs| => Claim(i, hs[k]))
  }

  /** Every claim made by the cues of `order`, in the order they are made. */
  function AllClaims(h: string, cues: seq<Cue>, order: seq<nat>): seq<Claim>
    requires Indices(cues, order)
    decreases |order|
  {
    if order == [] then []
    else
      var c := cues[order[0]].text;
      Tagged(order[0], Claims(h, c, 0)) + AllClaims(Claimed(h, c, 0), cues, order[1..])
  }

  function Total(h: string, cues: seq<Cue>, order: seq<nat>): nat
    requires Indices(cues, order)
    decreases |order|
  {
    if order == [] then 0
    else
      var c := cues[order[0]];
      (if FindFrom(h, c.text, 0) != -1 then c.weight else 0) + Total(Claimed(h, c.text, 0), cues, order[1..])
  }

  function Score(text: string, cues: seq<Cue>): nat {
    Total(text, cues, OrderOf(cues, |cues|))
  }

  lemma ClaimedStep(h: string, c: string, from: nat)
    ensures var p := FindFrom(h, c, from);
            && -1 <= p < |h| && (p != -1 ==> from <= p && p + 1 + |c| <= |h|)
            && Claimed(h, c, from) == if p == -1 then h else Claimed(Mask(h, p + 1, |c|), c, p + 1)
  {
  }

  /** Let one cue claim everything it can. */
  method ClaimCue(text: string, c: string) returns (working: string, matched: bool)
    ensures working == Claimed(text, c, 0) && (matched <==> FindFrom(text, c, 0) != -1)
  {
    hide FindFrom, Claimed, Mask;
    working, matched := text, false;
    var from := 0;
    var at := FindPhrase(working, c, from);
    while at != -1
      invariant 0 <= from <= |working| && at == FindFrom(working, c, from)
      invariant Claimed(text, c, 0) == Claimed(working, c, from)
      invariant matched ==> FindFrom(text, c, 0) != -1
      invariant !matched ==> working == text && from == 0
      decreases |working| - from
    {
      ClaimedStep(working, c, from);
      matched := true;
      working := BlankOut(working, at + 1, |c|);
      from := at + 1;
      at := FindPhrase(working, c, from);
    }
    ClaimedStep(working, c, from);
  }

  method ScoreCues(text: string, cues: seq<Cue>) returns (total: nat)
    ensures total == Score(text, cues)
  {
    hide Claimed, FindFrom, OrderOf;
    var order := SortIndices(cues);
    var working := text;
    total := 0;
    var k := 0;
    while k < |order|
      invariant 0 <= k <= |order|
      invariant total + Total(working, cues, order[k..]) == Score(text, cues)
    {
      assert order[k..][1..] == order[k + 1..];
      var c := cues[order[k]];
      var matched;
      working, matched := ClaimCue(working, c.text);
      if matched {
        total := total + c.weight;
      }
      k := k + 1;
    }
  }

  ghost predicate Overlaps(cues: seq<Cue>, i: nat, p: int, x: Claim) {
    i < |cues| && x.cue < |cues| && !Apart(p, |cues[i].text|, x.at, |cues[x.cue].text|)
  }

  /** Every claim is a whole-word occurrence of its cue in the text, and no two claims share a character. */
  ghost predicate Backed(h: string, cues: seq<Cue>, order: seq<nat>, claims: seq<Claim>) {
    && (forall k :: 0 <= k < |claims| ==> claims[k].cue in order && claims[k].cue < |cues|)
    && (forall k :: 0 <= k < |claims| ==> claims[k].cue < |cues| && Occurs(h, cues[claims[k].cue].text, claims[k].at))
    && (forall k, l :: 0 <= k < l < |claims| ==> !Overlaps(cues, claims[k].cue, claims[k].at, claims[l]))
  }

  lemma {:induction false} ClaimsAreBacked(h: string, cues: seq<Cue>, order: seq<nat>)
    requires Indices(cues, order) && Phrases(cues)
    ensures Backed(h, cues, order, AllClaims(h, cues, order))
    decreases |order|
  {
    hide Occurs, Phrase, Apart, Claims, Claimed;
    if order != [] {
      var i := order[0];
      var c := cues[i].text;
      var hs, h' := Claims(h, c, 0), Claimed(h, c, 0);
      var rest := AllClaims(h', cues, order[1..]);
      ClaimsAreBacked(h', cues, order[1..]);
      ClaimsAreOccurrences(h, c, 0);
      forall k | 0 <= k < |rest|
        ensures Occurs(h, cues[rest[k].cue].text, rest[k].at) && rest[k].cue in order
        ensures ApartFromAll(rest[k].at, |cues[rest[k].cue].text|, hs, |c|) {
        assert rest[k].cue in order[1..];
        ClaimedLeavesTheRest(h, c, 0, cues[rest[k].cue].text, rest[k].at);
      }
      JoinBacked(h, cues, order, hs, rest);
    }
  }

  lemma ApartFlip(p: int, n: int, q: int, m: int)
    ensures Apart(p, n, q, m) <==> Apart(q, m, p, n)
  {
  }

  lemma JoinBacked(h: string, cues: seq<Cue>, order: seq<nat>, hs: seq<int>, rest: seq<Claim>)
    requires order != [] && order[0] < |cues|
    requires forall i :: 0 <= i < |hs| ==> Occurs(h, cues[order[0]].text, hs[i])
    requires forall i, j :: 0 <= i < j < |hs| ==> Apart(hs[i], |cues[order[0]].text|, hs[j], |cues[order[0]].text|)
    requires forall k :: 0 <= k < |rest| ==> rest[k].cue in order && rest[k].cue < |cues|
    requires forall k :: 0 <= k < |rest| ==> Occurs(h, cues[rest[k].cue].text, rest[k].at)
    requires forall k :: 0 <= k < |rest| ==> ApartFromAll(rest[k].at, |cues[rest[k].cue].text|, hs, |cues[order[0]].text|)
    requires forall k, l :: 0 <= k < l < |rest| ==> !Overlaps(cues, rest[k].cue, rest[k].at, rest[l])
    ensures Backed(h, cues, order, Tagged(order[0], hs) + rest)
  {
    hide Occurs, Apart;
    var all, n := Tagged(order[0], hs) + rest, |hs|;
    forall k, l | 0 <= k < l < |all| ensures !Overlaps(cues, all[k].cue, all[k].at, all[l]) {
      if k < n <= l {
        assert ApartFromAll(all[l].at, |cues[all[l].cue].text|, hs, |cues[order[0]].text|);
        ApartFlip(all[l].at, |cues[all[l].cue].text|, hs[k], |cues[order[0]].text|);
      }
    }
  }

  /** Some claim by a cue of order[..k + 1] shares a character with the occurrence at p. */
  ghost predicate Covered(cues: seq<Cue>, order: seq<nat>, claims: seq<Claim>, k: nat, p: int)
    requires k < |order|
  {
    exists x :: x in claims && x.cue in order[..k + 1] && Overlaps(cues, order[k], p, x)
  }

  /** Greedy and complete: an occurrence goes unclaimed only if an earlier claim took some of its words. */
  lemma {:induction false} OccurrencesAreCovered(h: string, cues: seq<Cue>, order: seq<nat>, k: nat, p: int)
    requires Indices(cues, order) && Phrases(cues) && k < |order| && Occurs(h, cues[order[k]].text, p)
    ensures Covered(cues, order, AllClaims(h, cues, order), k, p)
    decreases |order|
  {
    hide Occurs, Phrase, Apart, Claims, Claimed;
    var i := order[0];
    var c, d := cues[i].text, cues[order[k]].text;
    var hs, h' := Claims(h, c, 0), Claimed(h, c, 0);
    var all := AllClaims(h, cues, order);
    var rest := AllClaims(h', cues, order[1..]);
    ClaimedLeavesTheRest(h, c, 0, d, p);
    if k == 0 {
      OccursInside(h, c, p);
      NothingLeft(h, c, 0, p);
    }
    if !ApartFromAll(p, |d|, hs, |c|) {
      var l :| 0 <= l < |hs| && !Apart(p, |d|, hs[l], |c|);
      assert all[l] == Claim(i, hs[l]) && all[l] in all;
      assert order[..k + 1][0] == i;
      assert Overlaps(cues, order[k], p, all[l]);
    } else {
      OccurrencesAreCovered(h', cues, order[1..], k - 1, p);
      var x :| x in rest && x.cue in order[1..][..k] && Overlaps(cues, order[k], p, x);
      assert order[1..][..k] == order[1..k + 1];
      assert x in all && x.cue in order[..k + 1];
    }
  }

  lemma OccursInside(h: string, c: string, p: int)
    requires Occurs(h, c, p)
    ensures p >= 0
  {
  }

  ghost predicate Counted(claims: seq<Claim>, i: nat) {
    exists x :: x in claims && x.cue == i
  }

  /** The weights of the cues of `order` that made a claim. */
  ghost function Weights(cues: seq<Cue>, order: seq<nat>, claims: seq<Claim>): nat
    requires Indices(cues, order)
  {
    if order == [] then 0
    else
      var n := |order| - 1;
      Weights(cues, order[..n], claims) + (if Counted(claims, order[n]) then cues[order[n]].weight else 0)
  }

  /** The weights of the first n cues that made a claim. */
  ghost function WeightsTo(cues: seq<Cue>, n: nat, claims: seq<Claim>): nat
    requires n <= |cues|
  {
    if n == 0 then 0 else WeightsTo(cues, n - 1, claims) + (if Counted(claims, n - 1) then cues[n - 1].weight else 0)
  }

  lemma {:induction false} InsertKeyWeights(cues: seq<Cue>, order: seq<nat>, key: nat, claims: seq<Claim>)
    requires Indices(cues, order) && key < |cues|
    ensures Weights(cues, InsertKey(cues, order, key), claims)
         == Weights(cues, order, claims) + (if Counted(claims, key) then cues[key].weight else 0)
  {
    hide Counted;
    var r := InsertKey(cues, order, key);
    if order == [] || |cues[order[|order| - 1]].text| >= |cues[key].text| {
      assert r[..|order|] == order;
    } else {
      var n := |order| - 1;
      InsertKeyWeights(cues, order[..n], key, claims);
      assert r[..|r| - 1] == InsertKey(cues, order[..n], key);
    }
  }

  lemma {:induction false} OrderWeights(cues: seq<Cue>, n: nat, claims: seq<Claim>)
    requires n <= |cues|
    ensures Weights(cues, OrderOf(cues, n), claims) == WeightsTo(cues, n, claims)
  {
    hide Counted;
    if n > 0 {
      OrderWeights(cues, n - 1, claims);
      InsertKeyWeights(cues, OrderOf(cues, n - 1), n - 1, claims);
    }
  }

  lemma {:induction false} WeightsCons(cues: seq<Cue>, order: seq<nat>, claims: seq<Claim>)
    requires Indices(cues, order) && order != []
    ensures Weights(cues, order, claims)
         == (if Counted(claims, order[0]) then cues[order[0]].weight else 0) + Weights(cues, order[1..], claims)
    decreases |order|
  {
    hide Counted;
    var n := |order| - 1;
    if n == 0 {
      assert order[..0] == [] && order[1..] == [];
    } else {
      WeightsCons(cues, order[..n], claims);
      assert order[..n][1..] == order[1..][..n - 1];
    }
  }

  lemma {:induction false} WeightsAgree(cues: seq<Cue>, order: seq<nat>, a: seq<Claim>, b: seq<Claim>)
    requires Indices(cues, order) && forall i :: 0 <= i < |order| ==> (Counted(a, order[i]) <==> Counted(b, order[i]))
    ensures Weights(cues, order, a) == Weights(cues, order, b)
  {
    hide Counted;
    if order != [] {
      WeightsAgree(cues, order[..|order| - 1], a, b);
    }
  }

  /** The total is the weight of the cues that made a claim, each once. */
  lemma {:induction false} TotalIsWeights(h: string, cues: seq<Cue>, order: seq<nat>)
    requires Indices(cues, order) && NoDup(order) && Phrases(cues)
    ensures Total(h, cues, order) == Weights(cues, order, AllClaims(h, cues, order))
    decreases |order|
  {
    if order != [] {
      var i := order[0];
      var c := cues[i].text;
      var hs, h' := Claims(h, c, 0), Claimed(h, c, 0);
      var rest, all := AllClaims(h', cues, order[1..]), AllClaims(h, cues, order);
      TotalIsWeights(h', cues, order[1..]);
      ClaimsAreBacked(h', cues, order[1..]);
      WeightsCons(cues, order, all);
      FirstCounted(i, hs, rest, order);
      assert hs == [] <==> FindFrom(h, c, 0) == -1;
      WeightsAgree(cues, order[1..], rest, all);
    }
  }

  lemma FirstCounted(i: nat, hs: seq<int>, rest: seq<Claim>, order: seq<nat>)
    requires order != [] && order[0] == i && NoDup(order)
    requires forall k :: 0 <= k < |rest| ==> rest[k].cue in order[1..]
    ensures Counted(Tagged(i, hs) + rest, i) <==> hs != []
    ensures forall j :: 0 <= j < |order[1..]| ==> (Counted(rest, order[1..][j]) <==> Counted(Tagged(i, hs) + rest, order[1..][j]))
  {
    var all := Tagged(i, hs) + rest;
    if hs != [] {
      assert all[0].cue == i && all[0] in all;
    }
    forall j | 0 <= j < |order[1..]| ensures order[1..][j] != i {
    }
    forall x | x in all ensures (x.cue == i && hs != []) || x in rest {
    }
    forall x | x in rest ensures x.cue != i && x in all {
      var k :| 0 <= k < |rest| && rest[k] == x;
      assert rest[k].cue in order[1..];
    }
  }

  lemma OrderNoDup(cues: seq<Cue>, order: seq<nat>)
    requires Indices(cues, order) && InOrder(cues, order)
    ensures NoDup(order)
  {
    forall i, j | 0 <= i < j < |order| ensures order[i] != order[j] {
      assert Before(cues, order[i], order[j]);
    }
  }

  /** The occurrence of cue i at p shares a character with a claim by i itself or by a cue with priority over it. */
  ghost predicate Outranked(cues: seq<Cue>, claims: seq<Claim>, i: nat, p: int)
    requires i < |cues|
  {
    exists x :: && x in claims && Overlaps(cues, i, p, x)
                && (x.cue == i || |cues[x.cue].text| > |cues[i].text|
                    || (|cues[x.cue].text| == |cues[i].text| && x.cue < i))
  }

  /**
   What a score is: the summed weights of the cues that claimed words, where every claim is a whole-word
   occurrence in the text, no two claims share a character, and every occurrence of a cue that claimed
   nothing there overlaps a claim of a longer cue, of an equally long one listed earlier, or its own.
   */
  lemma ScoreIsDisjointEvidence(text: string, cues: seq<Cue>)
    requires Phrases(cues)
    ensures var order := OrderOf(cues, |cues|);
            var claims := AllClaims(text, cues, order);
            && Backed(text, cues, order, claims)
            && Score(text, cues) == WeightsTo(cues, |cues|, claims)
            && (forall i, p :: 0 <= i < |cues| && Occurs(text, cues[i].text, p) ==> Outranked(cues, claims, i, p))
  {
    hide Occurs, Phrases, Backed, Outranked, OrderOf, AllClaims, Total, Weights, WeightsTo;
    var order := OrderOf(cues, |cues|);
    var claims := AllClaims(text, cues, order);
    OrderIsSorted(cues, |cues|);
    OrderNoDup(cues, order);
    ClaimsAreBacked(text, cues, order);
    TotalIsWeights(text, cues, order);
    OrderWeights(cues, |cues|, claims);
    forall i, p | 0 <= i < |cues| && Occurs(text, cues[i].text, p) ensures Outranked(cues, claims, i, p) {
      OutrankedAt(text, cues, order, i, p);
    }
  }

  lemma OutrankedAt(text: string, cues: seq<Cue>, order: seq<nat>, i: nat, p: int)
    requires Phrases(cues) && Indices(cues, order) && InOrder(cues, order) && i in order && i < |cues|
    requires Occurs(text, cues[i].text, p)
    ensures Outranked(cues, AllClaims(text, cues, order), i, p)
  {
    hide Occurs, Phrases, Overlaps, AllClaims;
    var k :| 0 <= k < |order| && order[k] == i;
    OccurrencesAreCovered(text, cues, order, k, p);
    var x :| x in AllClaims(text, cues, order) && x.cue in order[..k + 1] && Overlaps(cues, order[k], p, x);
    var j :| 0 <= j < k + 1 && order[j] == x.cue;
    assert j < k ==> Before(cues, order[j], order[k]);
  }
}
