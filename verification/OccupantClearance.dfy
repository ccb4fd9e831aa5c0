/**
 The converse of mutual exclusion: when the runway's occupant still reads the clearance it was given. An
 update never takes it away; a few requests and cancels do, and then nothing gives it back.
 */
module OccupantClearance {
  import opened AtcTypes
  import opened SeqOps
  import opened Sequencer
  import opened Safety

  /** The runway's occupant reads the clearance it was given. */
  ghost predicate OccupantReadsIt(s: Facility) {
    match s.occKind
    case Free => true
    case Arrival => StateOf(s.clearance, s.occupant).ClearedToLand?
    case Departure => StateOf(s.clearance, s.occupant).ClearedTakeoff?
  }

  /** A request or cancel that writes over the occupant's slot: its own change of mind, or another handle there. */
  predicate Overwrites(s: Facility, e: Event) {
    match e
    case TakeoffRequested(g) => g.Valid() && g.index == s.occupant.index && g != s.occupant
    case LandingRequested(g) =>
      s.acceptsLandings && g.Valid() && g.index == s.occupant.index && (g != s.occupant || s.occKind.Departure?)
    case InboundDeclared(g) => s.acceptsLandings && g.Valid() && g.index == s.occupant.index
    case Cancelled(g) => g.index == s.occupant.index && g != s.occupant
    case _ => false
  }

  /** The runway is in the same hands, for the same purpose. */
  predicate SameTenant(s: Facility, t: Facility) {
    !s.occKind.Free? && t.occKind == s.occKind && t.occupant == s.occupant
  }

  lemma PruneKeepsReading(s: Facility, w: World)
    requires !Prune(s, w).occKind.Free?
    ensures SameTenant(s, Prune(s, w)) && !Gone(w, s.occupant)
    ensures OccupantReadsIt(Prune(s, w)) <==> OccupantReadsIt(s)
  {
    hide Filter;
  }

  lemma ReleaseKeepsReading(s: Facility, w: World, tick: nat)
    requires !Release(s, w, tick).0.occKind.Free?
    ensures SameTenant(s, Release(s, w, tick).0)
    ensures Release(s, w, tick).0.clearance == s.clearance
  {
    hide Filter;
  }

  /** Whoever has just been vacated is not on offer for the purpose it had. */
  ghost predicate NotOffered(s: Facility, tick: nat, kind: Occupancy, f: EntityId) {
    && (kind.Arrival? ==> f !in s.arrivals || !Sequenceable(s.clearance, f, tick))
    && (kind.Departure? ==> f !in s.departures)
  }

  lemma ReleaseOffersOthers(s: Facility, w: World, tick: nat)
    requires OccupancySound(s) && !s.occKind.Free? && Release(s, w, tick).0.occKind.Free?
    ensures NotOffered(Release(s, w, tick).0, tick, s.occKind, s.occupant)
  {
  }

  lemma VacatedNotOffered(s: Facility, w: World, tick: nat)
    requires OccupancySound(s) && !s.occKind.Free? && Release(Prune(s, w), w, tick).0.occKind.Free?
    ensures NotOffered(Release(Prune(s, w), w, tick).0, tick, s.occKind, s.occupant)
  {
    hide Filter, SomeoneWaiting;
    if Prune(s, w).occKind.Free? {
      assert Gone(w, s.occupant);
    } else {
      ReleaseOffersOthers(Prune(s, w), w, tick);
    }
  }

  lemma GrantTakesAnOffer(s: Facility, w: World, tick: nat, kind: Occupancy, f: EntityId)
    requires s.occKind.Free? && NotOffered(s, tick, kind, f) && !kind.Free?
    ensures !(Grant(s, w, tick).0.occKind == kind && Grant(s, w, tick).0.occupant == f)
  {
  }

  /** A flight newly given the runway reads its clearance; an occupant waved past keeps its own. */
  lemma GrantKeepsReading(s: Facility, w: World, tick: nat)
    requires !Grant(s, w, tick).0.occKind.Free?
    requires !s.occKind.Free? ==> forall f :: f in s.arrivals && f.index == s.occupant.index ==> f == s.occupant
    ensures s.occKind.Free? ==> OccupantReadsIt(Grant(s, w, tick).0)
    ensures !s.occKind.Free? ==> SameTenant(s, Grant(s, w, tick).0)
    ensures !s.occKind.Free? ==> (OccupantReadsIt(Grant(s, w, tick).0) <==> OccupantReadsIt(s))
  {
  }

  lemma SurvivorsShareNoSlot(s: Facility, w: World, tick: nat, f: EntityId)
    requires OneLivePerSlot(w) && !Gone(w, f)
    ensures forall g :: g in Release(Prune(s, w), w, tick).0.arrivals && g.index == f.index ==> g == f
  {
    hide Nearest;
  }

  /** An update leaves a staying occupant reading what it read, and a new occupant reading its clearance. */
  lemma UpdateSettlesReading(s: Facility, w: World, tick: nat, t: Facility)
    requires Inv(s) && Updates(s, w, tick, t) && OneLivePerSlot(w) && !t.occKind.Free?
    ensures if SameTenant(s, t) then OccupantReadsIt(t) <==> OccupantReadsIt(s) else OccupantReadsIt(t)
  {
    hide QueuesSound, RunwayIsTheirs, SlotsSound, OccupancySound, Prune, Release, Grant, OccupantReadsIt, OneLivePerSlot;
    var p := Prune(s, w);
    var r := Release(p, w, tick).0;
    var g := r.(arrivals := t.arrivals);
    PermutationKeeps(r.arrivals, t.arrivals);
    if r.occKind.Free? {
      if !s.occKind.Free? {
        VacatedNotOffered(s, w, tick);
        GrantTakesAnOffer(g, w, tick, s.occKind, s.occupant);
      }
      GrantKeepsReading(g, w, tick);
    } else {
      ReleaseKeepsReading(p, w, tick);
      PruneKeepsReading(s, w);
      SurvivorsShareNoSlot(s, w, tick, s.occupant);
      GrantKeepsReading(g, w, tick);
      SameReading(p, g);
    }
  }

  lemma SameReading(p: Facility, g: Facility)
    requires p.clearance == g.clearance && p.occKind == g.occKind && p.occupant == g.occupant
    ensures OccupantReadsIt(p) <==> OccupantReadsIt(g)
  {
  }

  /** With one live handle per slot, an update never takes an occupant's clearance from it. */
  lemma UpdateKeepsReading(s: Facility, w: World, tick: nat, t: Facility)
    requires Inv(s) && OccupantReadsIt(s) && Updates(s, w, tick, t) && OneLivePerSlot(w)
    ensures OccupantReadsIt(t)
  {
    hide Inv, Updates, OneLivePerSlot;
    if !t.occKind.Free? {
      UpdateSettlesReading(s, w, tick, t);
    }
  }

  /** Between updates a staying occupant loses its clearance to exactly the overwriting events, and for good. */
  lemma RequestSettlesReading(s: Facility, e: Event, w: World, t: Facility)
    requires Step(s, e, w, t) && !e.Updated? && SameTenant(s, t)
    ensures OccupantReadsIt(t) <==> OccupantReadsIt(s) && !Overwrites(s, e)
  {
    hide Filter;
  }

  /** Only an update puts anyone on the runway. */
  lemma RequestsSeatNobody(s: Facility, e: Event, w: World, t: Facility)
    requires Step(s, e, w, t) && !e.Updated? && !t.occKind.Free?
    ensures SameTenant(s, t)
  {
    hide Filter;
  }

  /** From state m, where the runway was taken, to state n the same flight has held it for the same purpose. */
  ghost predicate Tenure(states: seq<Facility>, m: nat, n: nat)
    requires n < |states|
  {
    && 0 < m <= n && !states[m].occKind.Free? && !SameTenant(states[m - 1], states[m])
    && forall i :: m <= i < n ==> SameTenant(states[i], states[i + 1])
  }

  ghost predicate Untouched(states: seq<Facility>, events: seq<Event>, m: nat, n: nat)
    requires n < |states| && n <= |events|
  {
    forall i :: m <= i < n ==> !Overwrites(states[i], events[i])
  }

  ghost predicate OneLivePerSlotAt(events: seq<Event>, worlds: seq<World>, i: nat)
    requires i < |events| && i < |worlds|
  {
    events[i].Updated? ==> OneLivePerSlot(worlds[i])
  }

  /**
   In every state of every run the occupant reads its clearance if and only if no request or cancel has
   written over its slot since it took the runway.
   */
  lemma {:induction false} OccupantReadsItIffUntouched(states: seq<Facility>, events: seq<Event>, worlds: seq<World>, n: nat)
      returns (m: nat)
    requires Run(states, events, worlds) && n < |states| && !states[n].occKind.Free?
    requires forall i :: 0 <= i < n ==> OneLivePerSlotAt(events, worlds, i)
    ensures Tenure(states, m, n)
    ensures OccupantReadsIt(states[n]) <==> Untouched(states, events, m, n)
    decreases n
  {
    hide Inv, Step, OneLivePerSlot, OccupantReadsIt, Overwrites;
    assert n > 0;
    var s, e, w, t := states[n - 1], events[n - 1], worlds[n - 1], states[n];
    assert StepAt(states, events, worlds, n - 1) && OneLivePerSlotAt(events, worlds, n - 1);
    RunKeepsInv(states, events, worlds, n - 1);
    StepSettlesReading(s, e, w, t);
    if SameTenant(s, t) {
      m := OccupantReadsItIffUntouched(states, events, worlds, n - 1);
    } else {
      m := n;
    }
  }

  lemma StepSettlesReading(s: Facility, e: Event, w: World, t: Facility)
    requires Inv(s) && Step(s, e, w, t) && !t.occKind.Free? && (e.Updated? ==> OneLivePerSlot(w))
    ensures if SameTenant(s, t) then OccupantReadsIt(t) <==> OccupantReadsIt(s) && !Overwrites(s, e) else OccupantReadsIt(t)
  {
    hide Inv, OneLivePerSlot, OccupantReadsIt, Updates;
    if e.Updated? {
      UpdateSettlesReading(s, w, e.tick, t);
    } else {
      RequestsSeatNobody(s, e, w, t);
      RequestSettlesReading(s, e, w, t);
    }
  }
}
