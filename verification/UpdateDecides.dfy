/**
 What one update decides, read off the state before it: who keeps the runway, who is given it, who is
 waved off, what is said, and what every flight reads afterwards. Nothing here goes through the steps.
 */
module UpdateDecides {
  import opened AtcTypes
  import opened SeqOps
  import opened Sequencer
  import opened Safety
  import opened QueueOrder
  import opened HoldOffTerm

  /** f is serving a wave-off at this tick. */
  predicate HeldOff(c: map<nat, Clearance>, f: EntityId, tick: nat) {
    f.index in c && c[f.index].id == f && tick < c[f.index].holdOffUntil
  }

  predicate Alive(w: World, f: EntityId) {
    f in w && !w[f].dead
  }

  /** A live arrival other than the occupant that is not held off, or a live departure that is not told to wait. */
  ghost predicate Awaited(s: Facility, w: World, tick: nat) {
    || (exists a :: a in s.arrivals && Alive(w, a) && a != s.occupant && !HeldOff(s.clearance, a, tick))
    || (!s.hold && exists d :: d in s.departures && Alive(w, d))
  }

  predicate DownAndStopped(w: World, f: EntityId)
    requires f in w
  {
    w[f].speed < 3.0 && w[f].agl < 5.0
  }

  /** The occupant is alive, not done, and not over its budget: 5400 ticks to climb out, 14400 to land if awaited. */
  ghost predicate KeepsRunway(s: Facility, w: World, tick: nat) {
    && !s.occKind.Free? && Alive(w, s.occupant)
    && (s.occKind.Departure? ==> w[s.occupant].agl <= 40.0 && Elapsed(tick, s.occSince) <= 5400)
    && (s.occKind.Arrival? ==>
          !DownAndStopped(w, s.occupant) && (Elapsed(tick, s.occSince) <= 14400 || !Awaited(s, w, tick)))
  }

  /** The arrival on the runway has stopped on it. */
  ghost predicate HasLanded(s: Facility, w: World) {
    s.occKind.Arrival? && Alive(w, s.occupant) && DownAndStopped(w, s.occupant)
  }

  /** The arrival on the runway has used up its time while somebody waits. */
  ghost predicate TimedOut(s: Facility, w: World, tick: nat) {
    && s.occKind.Arrival? && Alive(w, s.occupant) && !DownAndStopped(w, s.occupant)
    && Elapsed(tick, s.occSince) > 14400 && Awaited(s, w, tick)
  }

  /** Held off once this update has dealt with the occupant. */
  ghost predicate Passed(s: Facility, w: World, tick: nat, f: EntityId) {
    HeldOff(s.clearance, f, tick) || (TimedOut(s, w, tick) && f == s.occupant)
  }

  /** a is the first of the ordered arrivals that is not held off. */
  ghost predicate NextToLand(s: Facility, w: World, tick: nat, order: seq<EntityId>, a: EntityId) {
    exists k :: && 0 <= k < |order| && order[k] == a && !Passed(s, w, tick, a)
                && forall j :: 0 <= j < k ==> Passed(s, w, tick, order[j])
  }

  /** The next to land is on short final to a runway somebody else holds, and does not yet read go-around. */
  ghost predicate OnShortFinal(s: Facility, w: World, tick: nat, order: seq<EntityId>, a: EntityId) {
    && KeepsRunway(s, w, tick) && NextToLand(s, w, tick, order, a) && a != s.occupant
    && a in w && w[a].dist < 3000.0 && !StateOf(s.clearance, a).GoAround?
  }

  /** The next to land is near enough to be given a runway that has come free. */
  ghost predicate TakesRunway(s: Facility, w: World, tick: nat, order: seq<EntityId>, a: EntityId) {
    !KeepsRunway(s, w, tick) && NextToLand(s, w, tick, order, a) && a in w && w[a].dist < 6000.0
  }

  /** d is the first of the queue that is alive. */
  ghost predicate FirstAlive(q: seq<EntityId>, w: World, d: EntityId) {
    exists k :: 0 <= k < |q| && q[k] == d && Alive(w, d) && forall j :: 0 <= j < k ==> !Alive(w, q[j])
  }

  /** d is the first live departure, nobody holds departures, and no arrival takes the runway. */
  ghost predicate TakesOff(s: Facility, w: World, tick: nat, order: seq<EntityId>, d: EntityId) {
    && !KeepsRunway(s, w, tick) && (forall a :: !TakesRunway(s, w, tick, order, a))
    && !s.hold && FirstAlive(s.departures, w, d)
  }

  ghost predicate WavedOff(s: Facility, w: World, tick: nat, order: seq<EntityId>, f: EntityId) {
    OnShortFinal(s, w, tick, order, f) || (TimedOut(s, w, tick) && f == s.occupant)
  }

  // Steps 1 and 2.

  lemma PruneKeepsLive(s: Facility, w: World, f: EntityId)
    requires Alive(w, f)
    ensures Known(Prune(s, w).clearance, f) <==> Known(s.clearance, f)
    ensures Known(s.clearance, f) ==> Prune(s, w).clearance[f.index] == s.clearance[f.index]
  {
  }

  lemma WaitingIsAwaited(s: Facility, w: World, tick: nat)
    ensures var p := Prune(s, w); p.occupant == s.occupant ==> (SomeoneWaiting(p, tick) <==> Awaited(s, w, tick))
  {
    var p := Prune(s, w);
    forall a | Alive(w, a) ensures Sequenceable(p.clearance, a, tick) <==> !HeldOff(s.clearance, a, tick) {
      PruneKeepsLive(s, w, a);
    }
    DepartureWaits(s.departures, w);
    DepartureWaits(s.arrivals, w);
    hide Sequenceable, HeldOff, LiveClearances, Survivors;
    assert forall a :: a in p.arrivals <==> a in s.arrivals && Alive(w, a);
  }

  lemma DepartureWaits(q: seq<EntityId>, w: World)
    ensures Survivors(q, w) != [] <==> exists d :: d in q && Alive(w, d)
    ensures forall a :: a in Survivors(q, w) <==> a in q && Alive(w, a)
  {
    if Survivors(q, w) != [] {
      assert Survivors(q, w)[0] in q && Alive(w, Survivors(q, w)[0]);
    }
  }

  ghost function AfterRelease(s: Facility, w: World, tick: nat): (Facility, seq<Radio>) {
    Release(Prune(s, w), w, tick)
  }

  lemma KeptIsUntouched(s: Facility, w: World, tick: nat)
    requires KeepsRunway(s, w, tick)
    ensures AfterRelease(s, w, tick).1 == []
    ensures AfterRelease(s, w, tick).0 ==
              Prune(s, w).(occSince := if s.occKind.Arrival? && Elapsed(tick, s.occSince) > 14400 then tick else s.occSince)
    ensures AfterRelease(s, w, tick).0.occKind == s.occKind && AfterRelease(s, w, tick).0.occupant == s.occupant
  {
    WaitingIsAwaited(s, w, tick);
    hide SomeoneWaiting, Awaited, Survivors, LiveClearances;
  }

  lemma LostIsFree(s: Facility, w: World, tick: nat)
    requires !KeepsRunway(s, w, tick)
    ensures AfterRelease(s, w, tick).0.occKind.Free?
    ensures AfterRelease(s, w, tick).0.hold == s.hold
    ensures AfterRelease(s, w, tick).0.departures == Survivors(s.departures, w)
  {
    WaitingIsAwaited(s, w, tick);
    hide SomeoneWaiting, Awaited, Survivors, LiveClearances, Without;
  }

  lemma ReleaseSays(s: Facility, w: World, tick: nat)
    ensures AfterRelease(s, w, tick).1 ==
              if TimedOut(s, w, tick) then [Radio(SayGoAround, s.occupant)]
              else if HasLanded(s, w) then [Radio(SayTaxiToParking, s.occupant)] else []
  {
    WaitingIsAwaited(s, w, tick);
    hide SomeoneWaiting, Awaited, Survivors, LiveClearances, Without;
  }

  function HoldOffOf(c: map<nat, Clearance>, f: EntityId): nat {
    if Known(c, f) then c[f.index].holdOffUntil else 0
  }

  /** What the record of a live flight says after steps 1 and 2. */
  ghost predicate ReleasedRecord(s: Facility, w: World, tick: nat, f: EntityId, c: map<nat, Clearance>) {
    && HoldOffOf(c, f) == (if TimedOut(s, w, tick) && f == s.occupant then tick + 7200 else HoldOffOf(s.clearance, f))
    && StateOf(c, f) ==
         if s.occKind.Free? || KeepsRunway(s, w, tick) || f != s.occupant then StateOf(s.clearance, f)
         else if s.occKind.Departure? then Departed
         else if HasLanded(s, w) then Landed else GoAround
  }

  lemma StampedRecord(c: map<nat, Clearance>, g: EntityId, st: ClearanceState, f: EntityId)
    requires f == g || f.index != g.index
    ensures StateOf(SetClearance(c, g, st), f) == if f == g then st else StateOf(c, f)
    ensures HoldOffOf(SetClearance(c, g, st), f) == HoldOffOf(c, f)
    ensures forall tick :: HeldOff(SetClearance(c, g, st), f, tick) <==> HeldOff(c, f, tick)
  {
  }

  lemma WavedRecord(c: map<nat, Clearance>, g: EntityId, tick: nat, f: EntityId)
    requires f == g || f.index != g.index
    ensures StateOf(WaveOff(c, g, tick), f) == if f == g then GoAround else StateOf(c, f)
    ensures HoldOffOf(WaveOff(c, g, tick), f) == if f == g then tick + 7200 else HoldOffOf(c, f)
    ensures HeldOff(WaveOff(c, g, tick), f, tick) <==> f == g || HeldOff(c, f, tick)
  {
  }

  /** The clearance table after steps 1 and 2. */
  lemma ReleasedTable(s: Facility, w: World, tick: nat)
    ensures var c := Prune(s, w).clearance;
            AfterRelease(s, w, tick).0.clearance ==
              if TimedOut(s, w, tick) then WaveOff(c, s.occupant, tick)
              else if HasLanded(s, w) then SetClearance(c, s.occupant, Landed)
              else if s.occKind.Departure? && Alive(w, s.occupant) && !KeepsRunway(s, w, tick)
              then SetClearance(c, s.occupant, Departed) else c
  {
    WaitingIsAwaited(s, w, tick);
    hide SomeoneWaiting, Awaited, Survivors, LiveClearances, Without, WaveOff, SetClearance;
  }

  /** An occupancy is kept, or ends in one way. */
  lemma WaysOut(s: Facility, w: World, tick: nat)
    ensures KeepsRunway(s, w, tick) ==> !s.occKind.Free? && Alive(w, s.occupant) && !HasLanded(s, w) && !TimedOut(s, w, tick)
    ensures HasLanded(s, w) ==> s.occKind.Arrival? && Alive(w, s.occupant) && !TimedOut(s, w, tick)
    ensures TimedOut(s, w, tick) ==> s.occKind.Arrival? && Alive(w, s.occupant)
    ensures s.occKind.Arrival? && Alive(w, s.occupant) ==>
              KeepsRunway(s, w, tick) || HasLanded(s, w) || TimedOut(s, w, tick)
  {
  }

  lemma PruneReads(s: Facility, w: World, tick: nat, f: EntityId)
    requires Alive(w, f)
    ensures StateOf(Prune(s, w).clearance, f) == StateOf(s.clearance, f)
    ensures HoldOffOf(Prune(s, w).clearance, f) == HoldOffOf(s.clearance, f)
    ensures HeldOff(Prune(s, w).clearance, f, tick) <==> HeldOff(s.clearance, f, tick)
  {
    PruneKeepsLive(s, w, f);
    hide Prune;
  }

  lemma ReleaseRecords(s: Facility, w: World, tick: nat, f: EntityId)
    requires Alive(w, f) && OneLivePerSlot(w)
    ensures ReleasedRecord(s, w, tick, f, AfterRelease(s, w, tick).0.clearance)
    ensures HeldOff(AfterRelease(s, w, tick).0.clearance, f, tick) <==> Passed(s, w, tick, f)
  {
    var c := Prune(s, w).clearance;
    hide Prune, AfterRelease, KeepsRunway, TimedOut, HasLanded, SetClearance, WaveOff, StateOf, HoldOffOf, HeldOff;
    PruneReads(s, w, tick, f);
    ReleasedTable(s, w, tick);
    WaysOut(s, w, tick);
    if TimedOut(s, w, tick) {
      assert f == s.occupant || f.index != s.occupant.index;
      WavedRecord(c, s.occupant, tick, f);
    } else if HasLanded(s, w) {
      assert f == s.occupant || f.index != s.occupant.index;
      StampedRecord(c, s.occupant, Landed, f);
    } else if s.occKind.Departure? && Alive(w, s.occupant) && !KeepsRunway(s, w, tick) {
      assert f == s.occupant || f.index != s.occupant.index;
      StampedRecord(c, s.occupant, Departed, f);
    }
  }

  // Steps 3 and 4.

  /** The first entry that is not held off is the one the search finds. */
  lemma FoundIsNext(s: Facility, w: World, tick: nat, order: seq<EntityId>, c: map<nat, Clearance>)
    requires forall f :: f in order ==> (HeldOff(c, f, tick) <==> Passed(s, w, tick, f))
    ensures var h := Head(order, c, tick);
            forall a :: NextToLand(s, w, tick, order, a) <==> h < |order| && order[h] == a
  {
    hide Passed;
    var h := Head(order, c, tick);
    forall j | 0 <= j < h ensures Passed(s, w, tick, order[j]) {
      assert order[j] in order;
    }
    if h < |order| {
      assert order[h] in order;
      assert NextToLand(s, w, tick, order, order[h]);
    }
    forall a | NextToLand(s, w, tick, order, a) ensures h < |order| && order[h] == a {
      var k :| && 0 <= k < |order| && order[k] == a && !Passed(s, w, tick, a)
               && forall j :: 0 <= j < k ==> Passed(s, w, tick, order[j]);
      assert a in order;
    }
  }

  lemma OrderIsAlive(s: Facility, w: World, tick: nat, t: Facility, f: EntityId)
    requires Updates(s, w, tick, t) && f in t.arrivals
    ensures Alive(w, f)
  {
    UpdateArrivals(s, w, tick, t, f);
  }

  lemma KeptNext(s: Facility, w: World, tick: nat, t: Facility)
    requires Updates(s, w, tick, t) && KeepsRunway(s, w, tick)
    ensures var h := Head(t.arrivals, Prune(s, w).clearance, tick);
            forall a :: NextToLand(s, w, tick, t.arrivals, a) <==> h < |t.arrivals| && t.arrivals[h] == a
  {
    hide Updates;
    forall f | f in t.arrivals ensures HeldOff(Prune(s, w).clearance, f, tick) <==> Passed(s, w, tick, f) {
      OrderIsAlive(s, w, tick, t, f);
      PruneKeepsLive(s, w, f);
    }
    hide Prune, Passed, KeepsRunway;
    FoundIsNext(s, w, tick, t.arrivals, Prune(s, w).clearance);
  }

  /** The update as steps 3 and 4 applied to what steps 1 and 2 leave. */
  lemma UpdateIsGrant(s: Facility, w: World, tick: nat, t: Facility)
    requires Updates(s, w, tick, t)
    ensures var r := AfterRelease(s, w, tick);
            && t == Grant(r.0.(arrivals := t.arrivals), w, tick).0
            && Said(s, Updated(tick), w, t) == r.1 + Grant(r.0.(arrivals := t.arrivals), w, tick).1
  {
  }

  /** Whom step 4 waves off while the runway is held. */
  ghost predicate Waves(g: Facility, w: World, tick: nat, a: EntityId) {
    var h := Head(g.arrivals, g.clearance, tick);
    && h < |g.arrivals| && g.arrivals[h] == a && a in w && w[a].dist < 3000.0
    && a != g.occupant && !StateOf(g.clearance, a).GoAround?
  }

  lemma HeldRunwayWaves(g: Facility, w: World, tick: nat, a: EntityId)
    requires !g.occKind.Free?
    ensures var (t, out) := Grant(g, w, tick);
            && (Radio(SayGoAround, a) in out <==> Waves(g, w, tick, a))
            && (Waves(g, w, tick, a) ==>
                  out == [Radio(SayGoAround, a)] && t == g.(clearance := WaveOff(g.clearance, a, tick)))
            && (out == [] ==> t == g)
            && (out != [] ==> exists b :: Waves(g, w, tick, b))
  {
    hide WaveOff, StateOf;
    if Grant(g, w, tick).1 != [] {
      assert Waves(g, w, tick, g.arrivals[Head(g.arrivals, g.clearance, tick)]);
    }
  }

  lemma WavesIsShortFinal(s: Facility, w: World, tick: nat, t: Facility, a: EntityId)
    requires Updates(s, w, tick, t) && KeepsRunway(s, w, tick)
    ensures Waves(AfterRelease(s, w, tick).0.(arrivals := t.arrivals), w, tick, a)
        <==> OnShortFinal(s, w, tick, t.arrivals, a)
  {
    KeptIsUntouched(s, w, tick);
    KeptNext(s, w, tick, t);
    if a in t.arrivals {
      OrderIsAlive(s, w, tick, t, a);
      PruneKeepsLive(s, w, a);
    }
    hide Updates, KeepsRunway, Prune, AfterRelease, NextToLand;
  }

  lemma HeldOutcome(s: Facility, w: World, tick: nat, t: Facility)
    requires Updates(s, w, tick, t) && KeepsRunway(s, w, tick)
    ensures forall a :: OnShortFinal(s, w, tick, t.arrivals, a) ==>
              Said(s, Updated(tick), w, t) == [Radio(SayGoAround, a)]
              && t.clearance == WaveOff(Prune(s, w).clearance, a, tick)
    ensures (forall a :: !OnShortFinal(s, w, tick, t.arrivals, a)) ==>
              Said(s, Updated(tick), w, t) == [] && t.clearance == Prune(s, w).clearance
    ensures t.occupant == s.occupant && t.occKind == s.occKind && t.hold == s.hold
    ensures t.occSince == if s.occKind.Arrival? && Elapsed(tick, s.occSince) > 14400 then tick else s.occSince
    ensures t.departures == Survivors(s.departures, w)
  {
    var r := AfterRelease(s, w, tick);
    var g := r.0.(arrivals := t.arrivals);
    KeptIsUntouched(s, w, tick);
    UpdateIsGrant(s, w, tick, t);
    assert [] + Grant(g, w, tick).1 == Grant(g, w, tick).1;
    forall a ensures Waves(g, w, tick, a) <==> OnShortFinal(s, w, tick, t.arrivals, a) {
      WavesIsShortFinal(s, w, tick, t, a);
    }
    forall a {
      HeldRunwayWaves(g, w, tick, a);
    }
    HeldRunwayWaves(g, w, tick, s.occupant);
    hide Updates, KeepsRunway, Said, AfterRelease, Grant, OnShortFinal, Waves, LiveClearances, Survivors, WaveOff;
  }

  /**
   While the runway is held past steps 1 and 2, an update waves off exactly the flight on short final, if
   there is one, whoever the occupant is: it alone is spoken to, and it is parked for 7200 ticks.
   */
  lemma ShortFinalIsWavedOff(s: Facility, w: World, tick: nat, t: Facility, a: EntityId)
    requires Updates(s, w, tick, t) && KeepsRunway(s, w, tick)
    ensures Radio(SayGoAround, a) in Said(s, Updated(tick), w, t) <==> OnShortFinal(s, w, tick, t.arrivals, a)
    ensures OnShortFinal(s, w, tick, t.arrivals, a) ==>
              && Said(s, Updated(tick), w, t) == [Radio(SayGoAround, a)]
              && Parked(t, a, tick + 7200) && StateOf(t.clearance, a).GoAround?
    ensures (forall b :: !OnShortFinal(s, w, tick, t.arrivals, b)) ==> Said(s, Updated(tick), w, t) == []
  {
    HeldOutcome(s, w, tick, t);
    if b :| OnShortFinal(s, w, tick, t.arrivals, b) {
      assert Said(s, Updated(tick), w, t) == [Radio(SayGoAround, b)];
    }
    hide Updates, KeepsRunway, Said, Prune;
  }

  /** A runway held past steps 1 and 2 stays with its occupant, and every live departure stays queued. */
  lemma HeldRunwayStays(s: Facility, w: World, tick: nat, t: Facility)
    requires Updates(s, w, tick, t) && KeepsRunway(s, w, tick)
    ensures t.occupant == s.occupant && t.occKind == s.occKind
    ensures t.occSince == if s.occKind.Arrival? && Elapsed(tick, s.occSince) > 14400 then tick else s.occSince
    ensures t.departures == Survivors(s.departures, w)
  {
    HeldOutcome(s, w, tick, t);
  }

  lemma FreeNext(s: Facility, w: World, tick: nat, t: Facility)
    requires Updates(s, w, tick, t) && OneLivePerSlot(w)
    ensures var h := Head(t.arrivals, AfterRelease(s, w, tick).0.clearance, tick);
            forall a :: NextToLand(s, w, tick, t.arrivals, a) <==> h < |t.arrivals| && t.arrivals[h] == a
  {
    hide Updates, AfterRelease, ReleasedRecord;
    var c := AfterRelease(s, w, tick).0.clearance;
    forall f | f in t.arrivals ensures HeldOff(c, f, tick) <==> Passed(s, w, tick, f) {
      OrderIsAlive(s, w, tick, t, f);
      ReleaseRecords(s, w, tick, f);
    }
    hide Passed, KeepsRunway;
    FoundIsNext(s, w, tick, t.arrivals, c);
  }

  /** Whom step 4 gives a free runway. */
  ghost predicate Lands(g: Facility, w: World, tick: nat, a: EntityId) {
    var h := Head(g.arrivals, g.clearance, tick);
    h < |g.arrivals| && g.arrivals[h] == a && a in w && w[a].dist < 6000.0
  }

  lemma FreeRunwayGoes(g: Facility, w: World, tick: nat, a: EntityId)
    requires g.occKind.Free?
    ensures var (t, out) := Grant(g, w, tick);
            && (Lands(g, w, tick, a) && !StateOf(g.clearance, a).ClearedToLand? ==>
                  && out == [Radio(SayClearedToLand, a)]
                  && t == g.(clearance := SetClearance(g.clearance, a, ClearedToLand), occupant := a,
                             occKind := Arrival, occSince := tick))
            && ((forall b :: !Lands(g, w, tick, b)) && !g.hold && g.departures != [] ==>
                  && out == [Radio(SayClearedTakeoff, g.departures[0])]
                  && t == g.(departures := g.departures[1..],
                             clearance := SetClearance(g.clearance, g.departures[0], ClearedTakeoff),
                             occupant := g.departures[0], occKind := Departure, occSince := tick))
            && ((forall b :: !Lands(g, w, tick, b)) && (g.hold || g.departures == []) ==> out == [] && t == g)
  {
    hide SetClearance, StateOf;
    var h := Head(g.arrivals, g.clearance, tick);
    if ArrivalWithin(g, w, tick, DEPARTURE_HOLD_RANGE) {
      assert Lands(g, w, tick, g.arrivals[h]);
    }
  }

  lemma LandsIsTakes(s: Facility, w: World, tick: nat, t: Facility, a: EntityId)
    requires Updates(s, w, tick, t) && OneLivePerSlot(w) && !KeepsRunway(s, w, tick)
    ensures Lands(AfterRelease(s, w, tick).0.(arrivals := t.arrivals), w, tick, a)
        <==> TakesRunway(s, w, tick, t.arrivals, a)
  {
    FreeNext(s, w, tick, t);
    hide Updates, KeepsRunway, AfterRelease, NextToLand;
  }

  /** Nobody who may be given a free runway still reads a landing clearance. */
  lemma NotYetCleared(s: Facility, w: World, tick: nat, a: EntityId)
    requires Inv(s) && OneLivePerSlot(w) && Alive(w, a) && !KeepsRunway(s, w, tick)
    ensures !StateOf(AfterRelease(s, w, tick).0.clearance, a).ClearedToLand?
  {
    ReleaseRecords(s, w, tick, a);
    hide AfterRelease, Awaited;
  }

  lemma {:induction false} SurvivorIsFirst(q: seq<EntityId>, w: World)
    requires Survivors(q, w) != []
    ensures FirstAlive(q, w, Survivors(q, w)[0])
  {
    var front, x := q[..|q| - 1], q[|q| - 1];
    assert q == front + [x];
    SurvivorsSnoc(front, x, w);
    hide Survivors, Gone;
    var d := Survivors(q, w)[0];
    if Survivors(front, w) != [] {
      SurvivorIsFirst(front, w);
      var k :| 0 <= k < |front| && front[k] == d && Alive(w, d) && forall j :: 0 <= j < k ==> !Alive(w, front[j]);
      assert q[k] == d && forall j :: 0 <= j < k ==> q[j] == front[j];
    } else {
      assert q[|front|] == d;
      forall j | 0 <= j < |front| ensures !Alive(w, q[j]) {
        assert q[j] == front[j] && front[j] in front;
      }
    }
  }

  lemma SurvivorsSnoc(front: seq<EntityId>, x: EntityId, w: World)
    ensures Survivors(front + [x], w) == Survivors(front, w) + (if Alive(w, x) then [x] else [])
    ensures Survivors(front, w) == [] ==> forall y :: y in front ==> !Alive(w, y)
  {
    FilterAppend(front, x, id => !Gone(w, id));
    if Survivors(front, w) == [] {
      forall y | y in front ensures !Alive(w, y) {
        assert Alive(w, y) ==> y in Survivors(front, w);
      }
    }
  }

  lemma FirstSurvivor(q: seq<EntityId>, w: World, d: EntityId)
    ensures FirstAlive(q, w, d) <==> Survivors(q, w) != [] && Survivors(q, w)[0] == d
  {
    if FirstAlive(q, w, d) {
      assert d in Survivors(q, w);
    }
    if Survivors(q, w) != [] {
      SurvivorIsFirst(q, w);
    }
  }

  ghost function ReadyToGrant(s: Facility, w: World, tick: nat, t: Facility): Facility {
    AfterRelease(s, w, tick).0.(arrivals := t.arrivals)
  }

  lemma FreeFacts(s: Facility, w: World, tick: nat, t: Facility, a: EntityId)
    requires Updates(s, w, tick, t) && !KeepsRunway(s, w, tick) && Inv(s) && OneLivePerSlot(w)
    ensures Lands(ReadyToGrant(s, w, tick, t), w, tick, a) <==> TakesRunway(s, w, tick, t.arrivals, a)
    ensures TakesRunway(s, w, tick, t.arrivals, a) ==> !StateOf(AfterRelease(s, w, tick).0.clearance, a).ClearedToLand?
  {
    LandsIsTakes(s, w, tick, t, a);
    hide Updates, KeepsRunway, AfterRelease, StateOf, Inv, OneLivePerSlot;
    if TakesRunway(s, w, tick, t.arrivals, a) {
      assert a in t.arrivals;
      OrderIsAlive(s, w, tick, t, a);
      NotYetCleared(s, w, tick, a);
    }
  }

  lemma LandingOutcome(s: Facility, w: World, tick: nat, t: Facility, a: EntityId)
    requires Updates(s, w, tick, t) && Inv(s) && OneLivePerSlot(w) && TakesRunway(s, w, tick, t.arrivals, a)
    ensures Said(s, Updated(tick), w, t) == AfterRelease(s, w, tick).1 + [Radio(SayClearedToLand, a)]
    ensures t.clearance == SetClearance(AfterRelease(s, w, tick).0.clearance, a, ClearedToLand)
    ensures t.occupant == a && t.occKind.Arrival? && t.occSince == tick && t.departures == Survivors(s.departures, w)
  {
    LostIsFree(s, w, tick);
    UpdateIsGrant(s, w, tick, t);
    FreeFacts(s, w, tick, t, a);
    FreeRunwayGoes(ReadyToGrant(s, w, tick, t), w, tick, a);
    hide Updates, KeepsRunway, Said, AfterRelease, Grant, Lands, Survivors, SetClearance, StateOf;
  }

  lemma NobodyLands(s: Facility, w: World, tick: nat, t: Facility)
    requires Updates(s, w, tick, t) && !KeepsRunway(s, w, tick) && Inv(s) && OneLivePerSlot(w)
    requires forall a :: !TakesRunway(s, w, tick, t.arrivals, a)
    ensures forall a :: !Lands(ReadyToGrant(s, w, tick, t), w, tick, a)
  {
    forall a ensures !Lands(ReadyToGrant(s, w, tick, t), w, tick, a) {
      FreeFacts(s, w, tick, t, a);
    }
  }

  lemma TakeoffOutcome(s: Facility, w: World, tick: nat, t: Facility, d: EntityId)
    requires Updates(s, w, tick, t) && Inv(s) && OneLivePerSlot(w) && TakesOff(s, w, tick, t.arrivals, d)
    ensures Said(s, Updated(tick), w, t) == AfterRelease(s, w, tick).1 + [Radio(SayClearedTakeoff, d)]
    ensures t.clearance == SetClearance(AfterRelease(s, w, tick).0.clearance, d, ClearedTakeoff)
    ensures t.occupant == d && t.occKind.Departure? && t.occSince == tick
    ensures [d] + t.departures == Survivors(s.departures, w)
  {
    LostIsFree(s, w, tick);
    UpdateIsGrant(s, w, tick, t);
    NobodyLands(s, w, tick, t);
    FirstSurvivor(s.departures, w, d);
    FreeRunwayGoes(ReadyToGrant(s, w, tick, t), w, tick, d);
    hide Updates, KeepsRunway, Said, AfterRelease, Grant, Lands, Survivors, SetClearance, StateOf, FirstAlive, TakesRunway;
  }

  lemma SomebodyTakesOff(s: Facility, w: World, tick: nat, order: seq<EntityId>)
    requires !KeepsRunway(s, w, tick) && !s.hold && Survivors(s.departures, w) != []
    requires forall a :: !TakesRunway(s, w, tick, order, a)
    ensures TakesOff(s, w, tick, order, Survivors(s.departures, w)[0])
  {
    FirstSurvivor(s.departures, w, Survivors(s.departures, w)[0]);
  }

  lemma EmptyOutcome(s: Facility, w: World, tick: nat, t: Facility)
    requires Updates(s, w, tick, t) && !KeepsRunway(s, w, tick) && Inv(s) && OneLivePerSlot(w)
    requires forall a :: !TakesRunway(s, w, tick, t.arrivals, a) && !TakesOff(s, w, tick, t.arrivals, a)
    ensures Said(s, Updated(tick), w, t) == AfterRelease(s, w, tick).1
    ensures t.clearance == AfterRelease(s, w, tick).0.clearance
    ensures t.occKind.Free? && t.departures == Survivors(s.departures, w)
  {
    LostIsFree(s, w, tick);
    UpdateIsGrant(s, w, tick, t);
    NobodyLands(s, w, tick, t);
    if Survivors(s.departures, w) != [] && !s.hold {
      SomebodyTakesOff(s, w, tick, t.arrivals);
    }
    FreeRunwayGoes(ReadyToGrant(s, w, tick, t), w, tick, s.occupant);
    hide Updates, KeepsRunway, Said, AfterRelease, Grant, Lands, Survivors, SetClearance, StateOf, FirstAlive, TakesRunway, TakesOff;
    assert AfterRelease(s, w, tick).1 + [] == AfterRelease(s, w, tick).1;
  }

  /**
   Who has the runway after an update. Kept, it stays; otherwise the next to land has it if it is inside
   6000 metres, else the first live departure if departures are not held, else nobody.
   */
  lemma WhoHasTheRunway(s: Facility, w: World, tick: nat, t: Facility, f: EntityId)
    requires Updates(s, w, tick, t) && Inv(s) && OneLivePerSlot(w)
    ensures t.occKind.Arrival? && t.occupant == f <==>
              || (KeepsRunway(s, w, tick) && s.occKind.Arrival? && s.occupant == f)
              || TakesRunway(s, w, tick, t.arrivals, f)
    ensures t.occKind.Departure? && t.occupant == f <==>
              || (KeepsRunway(s, w, tick) && s.occKind.Departure? && s.occupant == f)
              || TakesOff(s, w, tick, t.arrivals, f)
    ensures TakesRunway(s, w, tick, t.arrivals, f) || TakesOff(s, w, tick, t.arrivals, f) ==> t.occSince == tick
  {
    hide Updates, KeepsRunway, TakesRunway, TakesOff, Inv, OneLivePerSlot, Said, AfterRelease, SetClearance, Survivors;
    if KeepsRunway(s, w, tick) {
      HeldRunwayStays(s, w, tick, t);
      KeptIsNotTaken(s, w, tick, t.arrivals, f);
    } else if a :| TakesRunway(s, w, tick, t.arrivals, a) {
      LandingOutcome(s, w, tick, t, a);
      TakenByOne(s, w, tick, t.arrivals, a, f);
    } else if d :| TakesOff(s, w, tick, t.arrivals, d) {
      TakeoffOutcome(s, w, tick, t, d);
      TakenByOne(s, w, tick, t.arrivals, d, f);
    } else {
      EmptyOutcome(s, w, tick, t);
    }
  }

  lemma KeptIsNotTaken(s: Facility, w: World, tick: nat, order: seq<EntityId>, f: EntityId)
    requires KeepsRunway(s, w, tick)
    ensures !TakesRunway(s, w, tick, order, f) && !TakesOff(s, w, tick, order, f)
  {
  }

  lemma TakenByOne(s: Facility, w: World, tick: nat, order: seq<EntityId>, a: EntityId, f: EntityId)
    ensures TakesRunway(s, w, tick, order, a) && TakesRunway(s, w, tick, order, f) ==> a == f
    ensures TakesOff(s, w, tick, order, a) && TakesOff(s, w, tick, order, f) ==> a == f
    ensures !(TakesRunway(s, w, tick, order, a) && TakesOff(s, w, tick, order, f))
    ensures !(TakesRunway(s, w, tick, order, f) && TakesOff(s, w, tick, order, a))
  {
    hide Passed, KeepsRunway;
    NextIsOne(s, w, tick, order, a, f);
  }

  lemma NextIsOne(s: Facility, w: World, tick: nat, order: seq<EntityId>, a: EntityId, f: EntityId)
    ensures NextToLand(s, w, tick, order, a) && NextToLand(s, w, tick, order, f) ==> a == f
  {
    hide Passed;
  }

  /** What a live flight reads after an update. */
  ghost function ReadsAfter(s: Facility, w: World, tick: nat, order: seq<EntityId>, f: EntityId): ClearanceState {
    if TakesRunway(s, w, tick, order, f) then ClearedToLand
    else if TakesOff(s, w, tick, order, f) then ClearedTakeoff
    else if WavedOff(s, w, tick, order, f) then GoAround
    else if s.occKind.Free? || KeepsRunway(s, w, tick) || f != s.occupant then StateOf(s.clearance, f)
    else if s.occKind.Departure? then Departed else Landed
  }

  /**
   What every live flight reads after an update and how long it is held off: the one given the runway its
   clearance, the ones waved off go-around and 7200 ticks, the occupant that is done departed or landed,
   and everyone else exactly what it read before.
   */
  lemma WhatEveryoneReads(s: Facility, w: World, tick: nat, t: Facility, f: EntityId)
    requires Updates(s, w, tick, t) && Inv(s) && OneLivePerSlot(w) && Alive(w, f)
    ensures StateOf(t.clearance, f) == ReadsAfter(s, w, tick, t.arrivals, f)
    ensures HoldOffOf(t.clearance, f) ==
              if WavedOff(s, w, tick, t.arrivals, f) then tick + 7200 else HoldOffOf(s.clearance, f)
  {
    hide Updates, KeepsRunway, TakesRunway, TakesOff, Inv, Said, AfterRelease, SetClearance, WaveOff, Survivors, OnShortFinal, StateOf, HoldOffOf, NextToLand;
    if KeepsRunway(s, w, tick) {
      KeptReads(s, w, tick, t, f);
    } else {
      FreedReads(s, w, tick, t, f);
    }
  }

  lemma KeptReads(s: Facility, w: World, tick: nat, t: Facility, f: EntityId)
    requires Updates(s, w, tick, t) && OneLivePerSlot(w) && Alive(w, f) && KeepsRunway(s, w, tick)
    ensures StateOf(t.clearance, f) == ReadsAfter(s, w, tick, t.arrivals, f)
    ensures HoldOffOf(t.clearance, f) ==
              if WavedOff(s, w, tick, t.arrivals, f) then tick + 7200 else HoldOffOf(s.clearance, f)
  {
    HeldOutcome(s, w, tick, t);
    PruneKeepsLive(s, w, f);
    KeptIsNotTaken(s, w, tick, t.arrivals, f);
    WaysOut(s, w, tick);
    hide Updates, KeepsRunway, TakesRunway, TakesOff, Said, WaveOff, Survivors, TimedOut, NextToLand, Prune;
    if a :| OnShortFinal(s, w, tick, t.arrivals, a) {
      TakerIsAlive(s, w, tick, t, a);
      WavedRecord(Prune(s, w).clearance, a, tick, f);
      NextIsOne(s, w, tick, t.arrivals, a, f);
    }
  }

  lemma FreedReads(s: Facility, w: World, tick: nat, t: Facility, f: EntityId)
    requires Updates(s, w, tick, t) && Inv(s) && OneLivePerSlot(w) && Alive(w, f) && !KeepsRunway(s, w, tick)
    ensures StateOf(t.clearance, f) == ReadsAfter(s, w, tick, t.arrivals, f)
    ensures HoldOffOf(t.clearance, f) ==
              if WavedOff(s, w, tick, t.arrivals, f) then tick + 7200 else HoldOffOf(s.clearance, f)
  {
    ReleaseRecords(s, w, tick, f);
    WaysOut(s, w, tick);
    var c := AfterRelease(s, w, tick).0.clearance;
    hide Updates, KeepsRunway, TakesRunway, TakesOff, Inv, Said, SetClearance, Survivors, TimedOut, NextToLand, AfterRelease, HasLanded;
    if a :| TakesRunway(s, w, tick, t.arrivals, a) {
      LandingOutcome(s, w, tick, t, a);
      TakerIsAlive(s, w, tick, t, a);
      StampedRecord(c, a, ClearedToLand, f);
      TakenByOne(s, w, tick, t.arrivals, a, f);
    } else if d :| TakesOff(s, w, tick, t.arrivals, d) {
      TakeoffOutcome(s, w, tick, t, d);
      TakerIsAlive(s, w, tick, t, d);
      StampedRecord(c, d, ClearedTakeoff, f);
      TakenByOne(s, w, tick, t.arrivals, d, f);
    } else {
      EmptyOutcome(s, w, tick, t);
    }
  }

  lemma TakerIsAlive(s: Facility, w: World, tick: nat, t: Facility, a: EntityId)
    requires Updates(s, w, tick, t)
    ensures (TakesRunway(s, w, tick, t.arrivals, a) || TakesOff(s, w, tick, t.arrivals, a)
             || OnShortFinal(s, w, tick, t.arrivals, a)) ==> Alive(w, a)
  {
    if TakesRunway(s, w, tick, t.arrivals, a) || OnShortFinal(s, w, tick, t.arrivals, a) {
      assert a in t.arrivals;
      OrderIsAlive(s, w, tick, t, a);
    }
  }

  /** Every line an update says, and no other: to whom, and on which ground. */
  lemma EveryLine(s: Facility, w: World, tick: nat, t: Facility, r: Radio)
    requires Updates(s, w, tick, t) && Inv(s) && OneLivePerSlot(w)
    ensures r in Said(s, Updated(tick), w, t) <==>
              match r.phrase
              case SayClearedToLand => TakesRunway(s, w, tick, t.arrivals, r.target)
              case SayClearedTakeoff => TakesOff(s, w, tick, t.arrivals, r.target)
              case SayGoAround => WavedOff(s, w, tick, t.arrivals, r.target)
              case SayTaxiToParking => HasLanded(s, w) && r.target == s.occupant
              case SayContactApproach => false
  {
    hide Updates, KeepsRunway, TakesRunway, TakesOff, Inv, OneLivePerSlot, Said, SetClearance, WaveOff, Survivors, TimedOut, NextToLand, AfterRelease, HasLanded, StateOf;
    var f := r.target;
    if KeepsRunway(s, w, tick) {
      HeldOutcome(s, w, tick, t);
      KeptIsNotTaken(s, w, tick, t.arrivals, f);
      WaysOut(s, w, tick);
      if a :| OnShortFinal(s, w, tick, t.arrivals, a) {
        NextIsOne(s, w, tick, t.arrivals, a, f);
      }
    } else {
      ReleaseSays(s, w, tick);
      WaysOut(s, w, tick);
      if a :| TakesRunway(s, w, tick, t.arrivals, a) {
        LandingOutcome(s, w, tick, t, a);
        TakenByOne(s, w, tick, t.arrivals, a, f);
      } else if d :| TakesOff(s, w, tick, t.arrivals, d) {
        TakeoffOutcome(s, w, tick, t, d);
        TakenByOne(s, w, tick, t.arrivals, d, f);
      } else {
        EmptyOutcome(s, w, tick, t);
      }
    }
  }

  lemma StampKeepsUnknown(c: map<nat, Clearance>, g: EntityId, st: ClearanceState, tick: nat, f: EntityId)
    requires !Known(c, f) && f != g
    ensures !Known(SetClearance(c, g, st), f) && !Known(WaveOff(c, g, tick), f)
  {
  }

  lemma ReleasedUnknown(s: Facility, w: World, tick: nat, f: EntityId)
    requires !Alive(w, f)
    ensures !Known(Prune(s, w).clearance, f) && !Known(AfterRelease(s, w, tick).0.clearance, f)
  {
    var c := Prune(s, w).clearance;
    assert !Known(c, f);
    ReleasedTable(s, w, tick);
    hide Prune, AfterRelease, Awaited, SetClearance, WaveOff, Known, KeepsRunway;
    if f != s.occupant {
      StampKeepsUnknown(c, s.occupant, Landed, tick, f);
      StampKeepsUnknown(c, s.occupant, Departed, tick, f);
    }
  }

  lemma DeadAreUnknown(s: Facility, w: World, tick: nat, t: Facility, f: EntityId)
    requires Updates(s, w, tick, t) && Inv(s) && OneLivePerSlot(w) && !Alive(w, f)
    ensures !Known(t.clearance, f) && f !in t.departures
  {
    ReleasedUnknown(s, w, tick, f);
    var c := AfterRelease(s, w, tick).0.clearance;
    assert f !in Survivors(s.departures, w);
    hide Updates, Inv, OneLivePerSlot, KeepsRunway, TakesRunway, TakesOff, OnShortFinal, Alive, Prune, AfterRelease, SetClearance, WaveOff, Known, Said, Survivors;
    if KeepsRunway(s, w, tick) {
      HeldOutcome(s, w, tick, t);
      if a :| OnShortFinal(s, w, tick, t.arrivals, a) {
        TakerIsAlive(s, w, tick, t, a);
        StampKeepsUnknown(Prune(s, w).clearance, a, GoAround, tick, f);
      }
    } else if a :| TakesRunway(s, w, tick, t.arrivals, a) {
      LandingOutcome(s, w, tick, t, a);
      TakerIsAlive(s, w, tick, t, a);
      StampKeepsUnknown(c, a, ClearedToLand, tick, f);
    } else if d :| TakesOff(s, w, tick, t.arrivals, d) {
      TakeoffOutcome(s, w, tick, t, d);
      TakerIsAlive(s, w, tick, t, d);
      StampKeepsUnknown(c, d, ClearedTakeoff, tick, f);
      assert f in t.departures ==> f in [d] + t.departures;
    } else {
      EmptyOutcome(s, w, tick, t);
    }
  }

  /** The dead are forgotten altogether: no queue, no record and no runway is theirs. */
  lemma TheDeadAreForgotten(s: Facility, w: World, tick: nat, t: Facility, f: EntityId)
    requires Updates(s, w, tick, t) && Inv(s) && OneLivePerSlot(w) && !Alive(w, f)
    ensures f !in t.arrivals && f !in t.departures && !Known(t.clearance, f)
    ensures t.occupant == f ==> t.occKind.Free?
  {
    UpdateArrivals(s, w, tick, t, f);
    DeadAreUnknown(s, w, tick, t, f);
    WhoHasTheRunway(s, w, tick, t, f);
    TakerIsAlive(s, w, tick, t, f);
    hide Updates, Inv, OneLivePerSlot, TakesRunway, TakesOff;
  }

  /** What is left of the departure queue: the live ones in order, less the one that takes off. */
  lemma WhoStillWaits(s: Facility, w: World, tick: nat, t: Facility)
    requires Updates(s, w, tick, t) && Inv(s) && OneLivePerSlot(w)
    ensures forall d :: TakesOff(s, w, tick, t.arrivals, d) ==> [d] + t.departures == Filter(s.departures, f => Alive(w, f))
    ensures (forall d :: !TakesOff(s, w, tick, t.arrivals, d)) ==> t.departures == Filter(s.departures, f => Alive(w, f))
  {
    SameFilter(s.departures, w);
    hide Updates, Inv, OneLivePerSlot, KeepsRunway, TakesRunway, TakesOff, Said, Survivors, Filter;
    if KeepsRunway(s, w, tick) {
      HeldOutcome(s, w, tick, t);
      forall d ensures !TakesOff(s, w, tick, t.arrivals, d) {
        KeptIsNotTaken(s, w, tick, t.arrivals, d);
      }
    } else if a :| TakesRunway(s, w, tick, t.arrivals, a) {
      LandingOutcome(s, w, tick, t, a);
      forall d ensures !TakesOff(s, w, tick, t.arrivals, d) {
        TakenByOne(s, w, tick, t.arrivals, a, d);
      }
    } else {
      forall d | TakesOff(s, w, tick, t.arrivals, d) ensures [d] + t.departures == Survivors(s.departures, w) {
        TakeoffOutcome(s, w, tick, t, d);
      }
      if forall d :: !TakesOff(s, w, tick, t.arrivals, d) {
        EmptyOutcome(s, w, tick, t);
      }
    }
  }

  lemma SameFilter(q: seq<EntityId>, w: World)
    ensures Survivors(q, w) == Filter(q, f => Alive(w, f))
  {
    FilterAgree(q, f => !Gone(w, f), f => Alive(w, f));
  }

  lemma ReleasedArrivals(s: Facility, w: World, tick: nat)
    ensures Unsorted(s, w, tick) == Filter(s.arrivals, f => Alive(w, f) && !(HasLanded(s, w) && f == s.occupant))
  {
    var keep := f => Alive(w, f) && !(HasLanded(s, w) && f == s.occupant);
    if HasLanded(s, w) {
      LandedIsStruck(s, w, tick);
      hide Unsorted, Filter, HasLanded;
      FilterTwice(s.arrivals, f => !Gone(w, f), f => f != s.occupant, keep);
    } else {
      NoneIsStruck(s, w, tick);
      FilterAgree(s.arrivals, f => !Gone(w, f), keep);
    }
  }

  lemma LandedIsStruck(s: Facility, w: World, tick: nat)
    requires HasLanded(s, w)
    ensures Unsorted(s, w, tick) == Without(Survivors(s.arrivals, w), s.occupant)
  {
    hide Survivors, Without, LiveClearances;
  }

  lemma NoneIsStruck(s: Facility, w: World, tick: nat)
    requires !HasLanded(s, w)
    ensures Unsorted(s, w, tick) == Survivors(s.arrivals, w)
  {
    hide Survivors, Without, LiveClearances, SomeoneWaiting;
  }

  /** What is left of the arrivals: the live ones, less one that has landed, each as often as before, nearest first. */
  lemma WhoIsStillInbound(s: Facility, w: World, tick: nat, t: Facility)
    requires Updates(s, w, tick, t)
    ensures multiset(t.arrivals) == multiset(Filter(s.arrivals, f => Alive(w, f) && !(HasLanded(s, w) && f == s.occupant)))
    ensures forall i, j :: 0 <= i < j < |t.arrivals| ==>
              t.arrivals[i] in w && t.arrivals[j] in w && w[t.arrivals[i]].dist <= w[t.arrivals[j]].dist
  {
    ReleasedArrivals(s, w, tick);
    forall i | 0 <= i < |t.arrivals| ensures t.arrivals[i] in w {
      OrderIsAlive(s, w, tick, t, t.arrivals[i]);
    }
    hide HasLanded, Alive, Prune, Release, Filter;
  }
}
