/**
 Choosing a target: the hostile nearest a look axis, from the world or from what sensors hold, and the
 nearest hostile in range. Positions are exact reals; the bearing of an offset against the look axis is a
 parameter, as are hostility and what a spatial index visits.
 */
module Threat {
  import opened Wrappers

  datatype Vec = Vec(x: real, y: real, z: real)

  datatype Id = Id(index: nat, generation: nat)

  const NO_ID := Id(0, 0)

  predicate Valid(id: Id) {
    id.generation != 0
  }

  datatype Entity = Entity(id: Id, dead: bool, faction: nat, pos: Vec)

  function Square(x: real): real {
    x * x
  }

  function Offset(a: Vec, b: Vec): Vec {
    Vec(a.x - b.x, a.y - b.y, a.z - b.z)
  }

  function RangeSq(a: Vec, b: Vec): real {
    Square(a.x - b.x) + Square(a.y - b.y) + Square(a.z - b.z)
  }

  /** The live entities, in pool order: at most one per slot, each with a valid id. */
  ghost predicate Pool(live: seq<Entity>) {
    && (forall i :: 0 <= i < |live| ==> Valid(live[i].id))
    && (forall i, j :: 0 <= i < j < |live| ==> live[i].id.index != live[j].id.index)
  }

  function GetByIndex(live: seq<Entity>, idx: nat): Option<Entity> {
    if live == [] then None else if live[0].id.index == idx then Some(live[0]) else GetByIndex(live[1..], idx)
  }

  lemma {:induction false} GetByIndexFinds(live: seq<Entity>, idx: nat)
    ensures GetByIndex(live, idx).Some? ==> GetByIndex(live, idx).value in live && GetByIndex(live, idx).value.id.index == idx
    ensures forall e :: e in live && e.id.index == idx && Pool(live) ==> GetByIndex(live, idx) == Some(e)
  {
    if live != [] {
      GetByIndexFinds(live[1..], idx);
      assert live == [live[0]] + live[1..];
      assert Pool(live) ==> Pool(live[1..]);
    }
  }

  predicate LiveHostile(observer: Entity, faction: nat, other: Entity, hostile: (nat, nat) -> bool) {
    if other.dead || other.id.index == observer.id.index then false else hostile(faction, other.faction)
  }

  /** An index query that visits at least every live entity in range. */
  ghost predicate Covers(live: seq<Entity>, centre: Vec, range: real, visits: seq<nat>) {
    forall e :: e in live && RangeSq(e.pos, centre) <= Square(range) ==> e.id.index in visits
  }

  // Boresight designation.

  datatype Aim = Aim(lead: Entity, bearing: Vec -> real, maxRange: real, minCos: real, hostile: (nat, nat) -> bool)

  function Angle(a: Aim, e: Entity): real {
    a.bearing(Vec(e.pos.x - a.lead.pos.x, e.pos.y - a.lead.pos.y, e.pos.z - a.lead.pos.z))
  }

  /** The squared distance, axis by axis. */
  function SquaredDistance(v: Vec, w: Vec): real {
    (v.x - w.x) * (v.x - w.x) + (v.y - w.y) * (v.y - w.y) + (v.z - w.z) * (v.z - w.z)
  }

  function Range(a: Aim, e: Entity): real {
    SquaredDistance(e.pos, a.lead.pos)
  }

  /** What may be designated at all. */
  predicate Designable(a: Aim, e: Entity) {
    && a.lead.faction != 0 && a.maxRange > 0.0
    && !e.dead && e.id.index != a.lead.id.index && a.hostile(a.lead.faction, e.faction)
    && 0.000001 <= Range(a, e) <= Square(a.maxRange) && Angle(a, e) >= a.minCos
  }

  /** Closer to the look axis, or as close and nearer. */
  predicate Outranks(a: Aim, e: Entity, f: Entity) {
    Angle(a, e) > Angle(a, f) || (Angle(a, e) == Angle(a, f) && Range(a, e) < Range(a, f))
  }

  datatype Candidate = Candidate(id: Id, cosAngle: real, rangeSq: real)

  predicate BetterThan(c: Candidate, d: Candidate) {
    if c.cosAngle != d.cosAngle then c.cosAngle > d.cosAngle else c.rangeSq < d.rangeSq
  }

  method Consider(a: Aim, other: Entity, best: Candidate) returns (r: Candidate)
    ensures r == if Range(a, other) <= Square(a.maxRange) && Range(a, other) >= 0.000001 && Angle(a, other) >= a.minCos
                    && BetterThan(Candidate(other.id, Angle(a, other), Range(a, other)), best)
                 then Candidate(other.id, Angle(a, other), Range(a, other)) else best
  {
    var rangeSq := RangeSq(other.pos, a.lead.pos);
    if rangeSq > Square(a.maxRange) || rangeSq < 0.000001 {
      return best;
    }
    var cosAngle := a.bearing(Offset(other.pos, a.lead.pos));
    if cosAngle < a.minCos {
      return best;
    }
    var cand := Candidate(other.id, cosAngle, rangeSq);
    r := if BetterThan(cand, best) then cand else best;
  }

  /** `best` is the best of the designable entities seen so far, or no one when there is none. */
  ghost predicate BestOf(a: Aim, seen: set<Entity>, best: Candidate) {
    if best.id == NO_ID then best.cosAngle == -2.0 && forall e :: e in seen ==> !Designable(a, e)
    else
      && (exists e :: e in seen && Designable(a, e) && best == Candidate(e.id, Angle(a, e), Range(a, e)))
      && (forall e :: e in seen && Designable(a, e) ==> !BetterThan(Candidate(e.id, Angle(a, e), Range(a, e)), best))
  }

  /** The bearing is a cosine. */
  ghost predicate Cosine(bearing: Vec -> real) {
    forall v :: -1.0 <= bearing(v) <= 1.0
  }

  lemma BestOfMore(a: Aim, seen: set<Entity>, best: Candidate, e: Entity, r: Candidate)
    requires BestOf(a, seen, best) && Valid(e.id) && Cosine(a.bearing)
    requires var c := Candidate(e.id, Angle(a, e), Range(a, e));
             r == if Designable(a, e) && BetterThan(c, best) then c else best
    ensures BestOf(a, seen + {e}, r)
  {
    var c := Candidate(e.id, Angle(a, e), Range(a, e));
    assert -1.0 <= Angle(a, e);
    if r == c && Designable(a, e) {
      assert e in seen + {e};
    } else if best.id != NO_ID {
      var f :| f in seen && Designable(a, f) && best == Candidate(f.id, Angle(a, f), Range(a, f));
      assert f in seen + {e};
    }
  }

  /** The id chosen is that of a designable entity no other designable one outranks; no one, when there is none. */
  ghost predicate Designated(a: Aim, live: seq<Entity>, r: Id) {
    if Valid(r) then exists e :: e in live && e.id == r && Designable(a, e) && Unbeaten(a, live, e)
    else forall e :: e in live ==> !Designable(a, e)
  }

  ghost predicate Unbeaten(a: Aim, live: seq<Entity>, e: Entity) {
    forall f :: f in live && Designable(a, f) ==> !Outranks(a, f, e)
  }

  lemma BestIsDesignated(a: Aim, live: seq<Entity>, seen: set<Entity>, best: Candidate)
    requires Pool(live) && BestOf(a, seen, best)
    requires forall e :: e in seen ==> e in live
    requires forall e :: e in live && Designable(a, e) ==> e in seen
    ensures Designated(a, live, best.id)
  {
    if best.id != NO_ID {
      var e :| e in seen && Designable(a, e) && best == Candidate(e.id, Angle(a, e), Range(a, e));
      var i :| 0 <= i < |live| && live[i] == e;
      assert Valid(live[i].id);
      forall f | f in live && Designable(a, f) ensures !Outranks(a, f, e) {
        assert !BetterThan(Candidate(f.id, Angle(a, f), Range(a, f)), best);
      }
      assert Unbeaten(a, live, e);
    }
  }

  /** Designate by boresight, over what an index query visits when one is given, else over the whole pool. */
  method DesignateBoresightTarget(live: seq<Entity>, a: Aim, visits: Option<seq<nat>>) returns (r: Id)
    requires Pool(live) && Cosine(a.bearing)
    requires visits.Some? ==> Covers(live, a.lead.pos, a.maxRange, visits.value)
    ensures Designated(a, live, r)
  {
    hide Angle, Range, BestOf, Designated;
    var best := Candidate(NO_ID, -2.0, 0.0);
    if a.lead.faction == 0 || a.maxRange <= 0.0 {
      NothingDesignable(a, live);
      return NO_ID;
    }
    ghost var seen: set<Entity> := {};
    StartBest(a, best);
    if visits.Some? {
      var i := 0;
      while i < |visits.value|
        invariant 0 <= i <= |visits.value| && BestOf(a, seen, best)
        invariant forall e :: e in seen ==> e in live
        invariant forall e :: e in live && e.id.index in visits.value[..i] ==> e in seen
      {
        var other := GetByIndex(live, visits.value[i]);
        GetByIndexFinds(live, visits.value[i]);
        if other.Some? {
          ValidInPool(live, other.value);
          ghost var was := best;
          if LiveHostile(a.lead, a.lead.faction, other.value, a.hostile) {
            best := Consider(a, other.value, best);
          }
          BestOfMore(a, seen, was, other.value, best);
          seen := seen + {other.value};
        }
        i := i + 1;
      }
      assert visits.value[..i] == visits.value;
      DesignableIsCovered(a, live, visits.value);
    } else {
      var i := 0;
      while i < |live|
        invariant 0 <= i <= |live| && BestOf(a, seen, best)
        invariant seen == set e | e in live[..i]
      {
        ValidInPool(live, live[i]);
        ghost var was := best;
        if LiveHostile(a.lead, a.lead.faction, live[i], a.hostile) {
          best := Consider(a, live[i], best);
        }
        BestOfMore(a, seen, was, live[i], best);
        seen := seen + {live[i]};
        assert live[..i + 1] == live[..i] + [live[i]];
        i := i + 1;
      }
      assert live[..i] == live;
    }
    BestIsDesignated(a, live, seen, best);
    r := best.id;
  }

  lemma NothingDesignable(a: Aim, live: seq<Entity>)
    requires a.lead.faction == 0 || a.maxRange <= 0.0
    ensures Designated(a, live, NO_ID)
  {
  }

  lemma StartBest(a: Aim, best: Candidate)
    requires best == Candidate(NO_ID, -2.0, 0.0)
    ensures BestOf(a, {}, best)
  {
  }

  lemma ValidInPool(live: seq<Entity>, e: Entity)
    requires Pool(live) && e in live
    ensures Valid(e.id)
  {
  }

  lemma DesignableIsCovered(a: Aim, live: seq<Entity>, visits: seq<nat>)
    requires Covers(live, a.lead.pos, a.maxRange, visits)
    ensures forall e :: e in live && Designable(a, e) ==> e.id.index in visits
  {
  }

  lemma NamedOnce(live: seq<Entity>, e: Entity, f: Entity)
    requires Pool(live) && e in live && f in live && e.id == f.id
    ensures e == f
  {
  }

  /** Whatever the index visits and in whatever order, it and the full scan choose targets of equal rank. */
  lemma IndexAgreesWithScan(a: Aim, live: seq<Entity>, r: Id, s: Id)
    requires Pool(live) && Designated(a, live, r) && Designated(a, live, s)
    ensures Valid(r) <==> Valid(s)
    ensures Valid(r) ==>
              forall e, f :: e in live && e.id == r && f in live && f.id == s ==>
                Angle(a, e) == Angle(a, f) && Range(a, e) == Range(a, f)
  {
    hide Angle, Range;
    if Valid(r) {
      var e :| e in live && e.id == r && Designable(a, e) && Unbeaten(a, live, e);
      assert Valid(s);
      var f :| f in live && f.id == s && Designable(a, f) && Unbeaten(a, live, f);
      assert !Outranks(a, e, f) && !Outranks(a, f, e);
      forall e', f' | e' in live && e'.id == r && f' in live && f'.id == s ensures e' == e && f' == f {
        NamedOnce(live, e, e');
        NamedOnce(live, f, f');
      }
    }
  }

  // The nearest hostile.

  datatype Watch = Watch(anchor: Entity, faction: nat, range: real, hostile: (nat, nat) -> bool)

  function Distance(w: Watch, e: Entity): real {
    SquaredDistance(e.pos, w.anchor.pos)
  }

  predicate Threatens(w: Watch, e: Entity) {
    && w.faction != 0 && w.range > 0.0
    && !e.dead && e.id.index != w.anchor.id.index && w.hostile(w.faction, e.faction)
    && Distance(w, e) <= Square(w.range)
  }

  ghost predicate NearestOf(w: Watch, seen: set<Entity>, best: Id, bestSq: real) {
    && bestSq <= Square(w.range)
    && (forall e :: e in seen && Threatens(w, e) ==> bestSq <= Distance(w, e))
    && (if best == NO_ID then bestSq == Square(w.range) && forall e :: e in seen ==> !Threatens(w, e)
        else exists e :: e in seen && Threatens(w, e) && e.id == best && Distance(w, e) == bestSq)
  }

  /** The id chosen is that of a nearest threat; no one, when nothing threatens. */
  ghost predicate Nearest(w: Watch, live: seq<Entity>, r: Id) {
    if Valid(r) then exists e :: e in live && e.id == r && Threatens(w, e) && NoneNearer(w, live, e)
    else forall e :: e in live ==> !Threatens(w, e)
  }

  ghost predicate NoneNearer(w: Watch, live: seq<Entity>, e: Entity) {
    forall f :: f in live && Threatens(w, f) ==> Distance(w, e) <= Distance(w, f)
  }

  lemma NearestOfMore(w: Watch, seen: set<Entity>, best: Id, bestSq: real, e: Entity, best': Id, bestSq': real)
    requires NearestOf(w, seen, best, bestSq) && Valid(e.id) && w.faction != 0 && w.range > 0.0
    requires (best', bestSq') == if LiveHostile(w.anchor, w.faction, e, w.hostile) && Distance(w, e) <= bestSq
                                 then (e.id, Distance(w, e)) else (best, bestSq)
    ensures NearestOf(w, seen + {e}, best', bestSq')
  {
    hide Distance;
    assert e in seen + {e};
    if best' == best && best != NO_ID && !(LiveHostile(w.anchor, w.faction, e, w.hostile) && Distance(w, e) <= bestSq) {
      var f :| f in seen && Threatens(w, f) && f.id == best && Distance(w, f) == bestSq;
      assert f in seen + {e};
    }
  }

  lemma NearestFound(w: Watch, live: seq<Entity>, seen: set<Entity>, best: Id, bestSq: real)
    requires Pool(live) && NearestOf(w, seen, best, bestSq)
    requires forall e :: e in seen ==> e in live
    requires forall e :: e in live && Threatens(w, e) ==> e in seen
    ensures Nearest(w, live, best)
  {
    hide Distance;
    if best != NO_ID {
      var e :| e in seen && Threatens(w, e) && e.id == best && Distance(w, e) == bestSq;
      ValidInPool(live, e);
      assert NoneNearer(w, live, e);
    }
  }

  lemma NothingThreatens(w: Watch, live: seq<Entity>)
    requires w.faction == 0 || w.range <= 0.0
    ensures Nearest(w, live, NO_ID)
  {
  }

  lemma ThreatIsCovered(w: Watch, live: seq<Entity>, visits: seq<nat>)
    requires Covers(live, w.anchor.pos, w.range, visits)
    ensures forall e :: e in live && Threatens(w, e) ==> e.id.index in visits
  {
  }

  method NearestHostileWithin(live: seq<Entity>, w: Watch, visits: Option<seq<nat>>) returns (best: Id)
    requires Pool(live)
    requires visits.Some? ==> Covers(live, w.anchor.pos, w.range, visits.value)
    ensures Nearest(w, live, best)
  {
    hide Distance, NearestOf, Nearest, Square;
    best := NO_ID;
    if w.faction == 0 || w.range <= 0.0 {
      NothingThreatens(w, live);
      return;
    }
    var bestSq := Square(w.range);
    ghost var seen: set<Entity> := {};
    StartNearest(w);
    if visits.Some? {
      var i := 0;
      while i < |visits.value|
        invariant 0 <= i <= |visits.value| && NearestOf(w, seen, best, bestSq)
        invariant forall e :: e in seen ==> e in live
        invariant forall e :: e in live && e.id.index in visits.value[..i] ==> e in seen
      {
        var other := GetByIndex(live, visits.value[i]);
        GetByIndexFinds(live, visits.value[i]);
        if other.Some? {
          ValidInPool(live, other.value);
          ghost var was, wasSq := best, bestSq;
          if LiveHostile(w.anchor, w.faction, other.value, w.hostile) {
            if Distance(w, other.value) <= bestSq {
              bestSq := Distance(w, other.value);
              best := other.value.id;
            }
          }
          NearestOfMore(w, seen, was, wasSq, other.value, best, bestSq);
          seen := seen + {other.value};
        }
        i := i + 1;
      }
      assert visits.value[..i] == visits.value;
      ThreatIsCovered(w, live, visits.value);
    } else {
      var i := 0;
      while i < |live|
        invariant 0 <= i <= |live| && NearestOf(w, seen, best, bestSq)
        invariant seen == set e | e in live[..i]
      {
        ValidInPool(live, live[i]);
        ghost var was, wasSq := best, bestSq;
        if LiveHostile(w.anchor, w.faction, live[i], w.hostile) {
          if Distance(w, live[i]) <= bestSq {
            bestSq := Distance(w, live[i]);
            best := live[i].id;
          }
        }
        NearestOfMore(w, seen, was, wasSq, live[i], best, bestSq);
        seen := seen + {live[i]};
        assert live[..i + 1] == live[..i] + [live[i]];
        i := i + 1;
      }
      assert live[..i] == live;
    }
    NearestFound(w, live, seen, best, bestSq);
  }

  lemma StartNearest(w: Watch)
    ensures NearestOf(w, {}, NO_ID, Square(w.range))
  {
  }

  /** The index and the full scan may pick different threats, but never at different distances. */
  lemma NearestAgrees(w: Watch, live: seq<Entity>, r: Id, s: Id)
    requires Pool(live) && Nearest(w, live, r) && Nearest(w, live, s)
    ensures Valid(r) <==> Valid(s)
    ensures Valid(r) ==>
              forall e, f :: e in live && e.id == r && f in live && f.id == s ==> Distance(w, e) == Distance(w, f)
  {
    hide Distance;
    if Valid(r) {
      var e :| e in live && e.id == r && Threatens(w, e) && NoneNearer(w, live, e);
      assert Valid(s);
      var f :| f in live && f.id == s && Threatens(w, f) && NoneNearer(w, live, f);
      forall e', f' | e' in live && e'.id == r && f' in live && f'.id == s ensures e' == e && f' == f {
        NamedOnce(live, e, e');
        NamedOnce(live, f, f');
      }
    }
  }

  // Designation from sensor contacts.

  datatype Contact = Contact(id: Id, faction: nat, lastKnown: Vec, locked: bool)

  /** The lead's look: no usable axis, or the bearing of an offset against it. */
  datatype Look = NoAxis | Axis(bearing: Vec -> real)

  datatype Glance = Glance(leadPos: Vec, faction: nat, maxRange: real, cosLimit: real, hostile: (nat, nat) -> bool)

  predicate InCone(g: Glance, bearing: Vec -> real, c: Contact) {
    && g.hostile(g.faction, c.faction) && 0.000001 <= SquaredDistance(c.lastKnown, g.leadPos) <= g.maxRange * g.maxRange
    && Toward(g, bearing, c) >= g.cosLimit
  }

  function Toward(g: Glance, bearing: Vec -> real, c: Contact): real {
    bearing(Vec(c.lastKnown.x - g.leadPos.x, c.lastKnown.y - g.leadPos.y, c.lastKnown.z - g.leadPos.z))
  }

  /** The first contact of the given kind nearest the nose, among those before n: its id and cosine. */
  ghost predicate Leads(g: Glance, bearing: Vec -> real, contacts: seq<Contact>, n: nat, locked: bool, best: Id, bestDot: real)
    requires n <= |contacts|
  {
    if bestDot == -2.0 then
      best == NO_ID && forall k :: 0 <= k < n && contacts[k].locked == locked ==> !InCone(g, bearing, contacts[k])
    else
      && (exists k :: 0 <= k < n && NearestNose(g, bearing, contacts, n, locked, k) && best == contacts[k].id
                      && bestDot == Toward(g, bearing, contacts[k]))
  }

  /** Contact k is in the cone, of the given kind, and the first of that kind before n that is nearest the nose. */
  ghost predicate NearestNose(g: Glance, bearing: Vec -> real, contacts: seq<Contact>, n: nat, locked: bool, k: nat)
    requires n <= |contacts| && k < n
  {
    && contacts[k].locked == locked && InCone(g, bearing, contacts[k])
    && forall l :: 0 <= l < n && contacts[l].locked == locked && InCone(g, bearing, contacts[l]) ==>
                     if l < k then Toward(g, bearing, contacts[l]) < Toward(g, bearing, contacts[k])
                     else Toward(g, bearing, contacts[l]) <= Toward(g, bearing, contacts[k])
  }

  ghost predicate SomeInCone(g: Glance, bearing: Vec -> real, contacts: seq<Contact>, locked: bool) {
    exists k :: 0 <= k < |contacts| && contacts[k].locked == locked && InCone(g, bearing, contacts[k])
  }

  ghost predicate IsNearestNose(g: Glance, bearing: Vec -> real, contacts: seq<Contact>, locked: bool, r: Id) {
    exists k :: 0 <= k < |contacts| && contacts[k].id == r && NearestNose(g, bearing, contacts, |contacts|, locked, k)
  }

  /** The locked contact nearest the nose has an id that can be designated. */
  ghost predicate HasUsableLock(g: Glance, bearing: Vec -> real, contacts: seq<Contact>) {
    exists k :: 0 <= k < |contacts| && Valid(contacts[k].id) && NearestNose(g, bearing, contacts, |contacts|, true, k)
  }

  /**
   A usable lock beats a bearing; among equals the one nearest the nose, the first listed on a tie; no one
   when nothing is in the cone.
   */
  ghost predicate Pointed(g: Glance, bearing: Vec -> real, contacts: seq<Contact>, r: Id) {
    if HasUsableLock(g, bearing, contacts) then IsNearestNose(g, bearing, contacts, true, r)
    else if SomeInCone(g, bearing, contacts, false) then IsNearestNose(g, bearing, contacts, false, r)
    else r == NO_ID
  }

  lemma LeadsStep(g: Glance, bearing: Vec -> real, contacts: seq<Contact>, n: nat, locked: bool, best: Id, bestDot: real,
                  best': Id, bestDot': real)
    requires n < |contacts| && Cosine(bearing) && Leads(g, bearing, contacts, n, locked, best, bestDot)
    requires (best', bestDot') ==
             if InCone(g, bearing, contacts[n]) && contacts[n].locked == locked && Toward(g, bearing, contacts[n]) > bestDot
             then (contacts[n].id, Toward(g, bearing, contacts[n])) else (best, bestDot)
    ensures Leads(g, bearing, contacts, n + 1, locked, best', bestDot')
  {
    var c := contacts[n];
    assert -1.0 <= Toward(g, bearing, c);
    hide InCone, Toward;
    if bestDot != -2.0 {
      var k :| 0 <= k < n && NearestNose(g, bearing, contacts, n, locked, k) && best == contacts[k].id
               && bestDot == Toward(g, bearing, contacts[k]);
      if (best', bestDot') == (best, bestDot) && !(InCone(g, bearing, c) && c.locked == locked && Toward(g, bearing, c) > bestDot) {
        assert NearestNose(g, bearing, contacts, n + 1, locked, k);
      } else {
        assert NearestNose(g, bearing, contacts, n + 1, locked, n);
      }
    } else if InCone(g, bearing, c) && c.locked == locked {
      assert NearestNose(g, bearing, contacts, n + 1, locked, n);
    }
  }

  lemma LeadsDone(g: Glance, bearing: Vec -> real, contacts: seq<Contact>, locked: bool, best: Id, bestDot: real)
    requires Leads(g, bearing, contacts, |contacts|, locked, best, bestDot)
    ensures SomeInCone(g, bearing, contacts, locked) <==> bestDot != -2.0
    ensures bestDot != -2.0 ==> IsNearestNose(g, bearing, contacts, locked, best)
    ensures bestDot == -2.0 ==> best == NO_ID
    ensures locked ==> (Valid(best) <==> HasUsableLock(g, bearing, contacts))
  {
    hide Toward, InCone;
    if bestDot != -2.0 {
      var k :| 0 <= k < |contacts| && NearestNose(g, bearing, contacts, |contacts|, locked, k) && best == contacts[k].id
               && bestDot == Toward(g, bearing, contacts[k]);
      assert IsNearestNose(g, bearing, contacts, locked, best);
      forall l | 0 <= l < |contacts| && NearestNose(g, bearing, contacts, |contacts|, locked, l) ensures l == k {
      }
    }
  }

  /** Designate only what the lead has detected: its contacts, judged by their last-known positions. */
  method DesignateFromContacts(g: Glance, look: Look, contacts: seq<Contact>) returns (r: Id)
    requires look.Axis? ==> Cosine(look.bearing)
    ensures look.NoAxis? ==> r == NO_ID
    ensures look.Axis? ==> Pointed(g, look.bearing, contacts, r)
  {
    hide Leads;
    if contacts == [] || look.NoAxis? {
      return NO_ID;
    }
    var bearing := look.bearing;
    var bestLocked, bestLockedDot := NO_ID, -2.0;
    var bestSeen, bestSeenDot := NO_ID, -2.0;
    LeadsStart(g, bearing, contacts, true);
    LeadsStart(g, bearing, contacts, false);
    var i := 0;
    while i < |contacts|
      invariant 0 <= i <= |contacts|
      invariant Leads(g, bearing, contacts, i, true, bestLocked, bestLockedDot)
      invariant Leads(g, bearing, contacts, i, false, bestSeen, bestSeenDot)
    {
      var c := contacts[i];
      ghost var wasLocked, wasLockedDot, wasSeen, wasSeenDot := bestLocked, bestLockedDot, bestSeen, bestSeenDot;
      var distSq := RangeSq(c.lastKnown, g.leadPos);
      if g.hostile(g.faction, c.faction) && distSq <= Square(g.maxRange) && distSq >= 0.000001 {
        var dot := bearing(Offset(c.lastKnown, g.leadPos));
        if dot >= g.cosLimit {
          if c.locked {
            if dot > bestLockedDot {
              bestLockedDot := dot;
              bestLocked := c.id;
            }
          } else if dot > bestSeenDot {
            bestSeenDot := dot;
            bestSeen := c.id;
          }
        }
      }
      LeadsStep(g, bearing, contacts, i, true, wasLocked, wasLockedDot, bestLocked, bestLockedDot);
      LeadsStep(g, bearing, contacts, i, false, wasSeen, wasSeenDot, bestSeen, bestSeenDot);
      i := i + 1;
    }
    LeadsDone(g, bearing, contacts, true, bestLocked, bestLockedDot);
    LeadsDone(g, bearing, contacts, false, bestSeen, bestSeenDot);
    r := if Valid(bestLocked) then bestLocked else bestSeen;
  }

  lemma LeadsStart(g: Glance, bearing: Vec -> real, contacts: seq<Contact>, locked: bool)
    ensures Leads(g, bearing, contacts, 0, locked, NO_ID, -2.0)
  {
  }
}
