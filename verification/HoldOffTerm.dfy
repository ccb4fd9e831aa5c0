/**
 A wave-off means something: for 7200 ticks the flight can neither take the runway as an arrival nor be
 counted against a departure, and nothing short of a cancel, its death or a stale handle lifts that.
 */
module HoldOffTerm {
  import opened AtcTypes
  import opened SeqOps
  import opened Sequencer
  import opened Safety
  import opened QueueOrder

  /** f is held out of the sequence until `until`, and does not own the runway as an arrival. */
  ghost predicate Parked(s: Facility, f: EntityId, until: nat) {
    && Known(s.clearance, f) && s.clearance[f.index].holdOffUntil >= until
    && !(s.occKind.Arrival? && s.occupant == f)
  }

  lemma ReleaseTouchesOne(s: Facility, w: World, tick: nat, f: EntityId)
    requires HoldsSlot(w, f) && Known(s.clearance, f)
    requires s.occKind.Free? || !Gone(w, s.occupant)
    ensures var r := Release(s, w, tick).0;
            && Known(r.clearance, f)
            && (r.clearance[f.index].holdOffUntil == s.clearance[f.index].holdOffUntil
                || (s.occKind.Arrival? && s.occupant == f))
            && (r.occKind.Free? || (r.occKind == s.occKind && r.occupant == s.occupant))
  {
  }

  lemma PruneKeepsRecord(s: Facility, w: World, f: EntityId)
    requires !Gone(w, f) && Known(s.clearance, f)
    ensures Known(Prune(s, w).clearance, f) && Prune(s, w).clearance[f.index] == s.clearance[f.index]
    ensures Prune(s, w).occKind.Free? || (!Gone(w, s.occupant) && Prune(s, w).occupant == s.occupant)
  {
  }

  /** An update before the term is over leaves a parked flight parked. */
  lemma UpdateKeepsParked(s: Facility, w: World, tick: nat, t: Facility, f: EntityId, until: nat)
    requires Updates(s, w, tick, t) && Parked(s, f, until) && tick < until
    requires HoldsSlot(w, f)
    ensures Parked(t, f, until)
  {
    var p := Prune(s, w);
    var r := Release(p, w, tick).0;
    PruneKeepsRecord(s, w, f);
    ReleaseTouchesOne(p, w, tick, f);
    LiveOwnsSlot(s, w, f);
    ReleaseKeepsSlot(p, w, tick, f);
    PermutationKeeps(r.arrivals, t.arrivals);
    GrantTouchesOne(r.(arrivals := t.arrivals), w, tick, f);
  }

  lemma ReleaseWaves(s: Facility, w: World, tick: nat, f: EntityId)
    requires Radio(SayGoAround, f) in Release(s, w, tick).1
    ensures s.occupant == f && Parked(Release(s, w, tick).0, f, tick + HOLD_OFF)
  {
  }

  lemma GrantWaves(s: Facility, w: World, tick: nat, f: EntityId)
    requires Radio(SayGoAround, f) in Grant(s, w, tick).1
    ensures Parked(Grant(s, w, tick).0, f, tick + HOLD_OFF)
  {
  }

  /** Whoever is told to go around at `tick` is parked until tick + 7200. */
  lemma WaveOffParks(s: Facility, w: World, tick: nat, t: Facility, f: EntityId)
    requires Updates(s, w, tick, t) && HoldsSlot(w, f)
    requires Radio(SayGoAround, f) in Said(s, Updated(tick), w, t)
    ensures Parked(t, f, tick + HOLD_OFF)
  {
    var p := Prune(s, w);
    var r := Release(p, w, tick);
    var g := r.0.(arrivals := t.arrivals);
    if Radio(SayGoAround, f) in Grant(g, w, tick).1 {
      GrantWaves(g, w, tick, f);
    } else {
      ReleaseWaves(p, w, tick, f);
      LiveOwnsSlot(s, w, f);
      ReleaseKeepsSlot(p, w, tick, f);
      PermutationKeeps(r.0.arrivals, t.arrivals);
      GrantTouchesOne(g, w, tick, f);
    }
  }

  /** An event that re-keys or erases f's pool slot: a request naming another handle there, or a cancel. */
  predicate Disturbs(s: Facility, e: Event, f: EntityId) {
    match e
    case TakeoffRequested(g) => g.Valid() && g.index == f.index && g != f
    case LandingRequested(g) => s.acceptsLandings && g.Valid() && g.index == f.index && g != f
    case InboundDeclared(g) => s.acceptsLandings && g.Valid() && g.index == f.index && g != f
    case Cancelled(g) => g.index == f.index
    case _ => false
  }

  /** Between updates, exactly the disturbing events lift a hold-off; f's own requests never do. */
  lemma ParkedUntilDisturbed(s: Facility, e: Event, w: World, t: Facility, f: EntityId, until: nat)
    requires Parked(s, f, until) && Step(s, e, w, t) && !e.Updated?
    ensures Parked(t, f, until) <==> !Disturbs(s, e, f)
    ensures Disturbs(s, e, f) ==> forall tick: nat :: Sequenceable(t.clearance, f, tick)
  {
  }

  /** A named handle that resolves in a consistent pool beside f is f or lives in another slot. */
  lemma LiveNamesDoNotDisturb(s: Facility, e: Event, w: World, f: EntityId)
    requires HoldsSlot(w, f) && e != Cancelled(f)
    requires !e.HoldSet? && !e.Updated? ==> e.flight in w
    ensures !Disturbs(s, e, f)
  {
  }

  /** One step of a term: nothing disturbs f's slot, and an update comes before `until` with f alive. */
  ghost predicate Quiet(s: Facility, e: Event, w: World, f: EntityId, until: nat) {
    && !Disturbs(s, e, f)
    && (e.Updated? ==> e.tick < until && HoldsSlot(w, f))
  }

  lemma ParkedStep(s: Facility, e: Event, w: World, t: Facility, f: EntityId, until: nat)
    requires Parked(s, f, until) && Step(s, e, w, t) && Quiet(s, e, w, f, until)
    ensures Parked(t, f, until)
  {
    if e.Updated? {
      UpdateKeepsParked(s, w, e.tick, t, f, until);
    } else {
      ParkedUntilDisturbed(s, e, w, t, f, until);
    }
  }

  /** Told to go around at `tick`, f is parked after that update and through every step of its term. */
  lemma {:induction false} HeldForTheTerm(states: seq<Facility>, events: seq<Event>, worlds: seq<World>,
                                          from: nat, n: nat, f: EntityId, tick: nat)
    requires Run(states, events, worlds) && from < n < |states|
    requires events[from] == Updated(tick) && HoldsSlot(worlds[from], f)
    requires Radio(SayGoAround, f) in Said(states[from], events[from], worlds[from], states[from + 1])
    requires forall i :: from < i < n ==> Quiet(states[i], events[i], worlds[i], f, tick + HOLD_OFF)
    ensures Parked(states[n], f, tick + HOLD_OFF)
  {
    hide Updates, Said, RequestTakeoff, RequestLanding, DeclareInbound, RemoveFlight;
    assert StepAt(states, events, worlds, n - 1);
    if n == from + 1 {
      WaveOffParks(states[from], worlds[from], tick, states[n], f);
    } else {
      HeldForTheTerm(states, events, worlds, from, n - 1, f, tick);
      ParkedStep(states[n - 1], events[n - 1], worlds[n - 1], states[n], f, tick + HOLD_OFF);
    }
  }

  function Hide(s: Facility, f: EntityId): Facility {
    s.(arrivals := Without(s.arrivals, f))
  }

  lemma {:induction false} WithoutCommutes(q: seq<EntityId>, keep: EntityId -> bool, f: EntityId)
    ensures Filter(Without(q, f), keep) == Without(Filter(q, keep), f)
  {
    if q != [] {
      var front, x := q[..|q| - 1], q[|q| - 1];
      WithoutCommutes(front, keep, f);
      assert front + [x] == q;
      WithoutSnoc(front, x, f);
      KeepSnoc(front, x, keep);
      WithoutSnoc(Filter(front, keep), x, f);
      KeepSnoc(Without(front, f), x, keep);
    }
  }

  lemma KeepSnoc(q: seq<EntityId>, x: EntityId, keep: EntityId -> bool)
    ensures keep(x) ==> Filter(q + [x], keep) == Filter(q, keep) + [x]
    ensures !keep(x) ==> Filter(q + [x], keep) == Filter(q, keep)
  {
    FilterAppend(q, x, keep);
  }

  lemma WithoutSnoc(q: seq<EntityId>, x: EntityId, f: EntityId)
    ensures Without(q + [x], f) == if x == f then Without(q, f) else Without(q, f) + [x]
  {
    FilterAppend(q, x, id => id != f);
  }

  lemma HeadSnoc(q: seq<EntityId>, x: EntityId, c: map<nat, Clearance>, tick: nat)
    ensures Head(q + [x], c, tick)
         == if Head(q, c, tick) < |q| then Head(q, c, tick)
            else if Sequenceable(c, x, tick) then |q| else |q| + 1
  {
    var h, h' := Head(q, c, tick), Head(q + [x], c, tick);
    assert forall i :: 0 <= i < |q| ==> (q + [x])[i] == q[i];
    assert (q + [x])[|q|] == x;
  }

  lemma {:induction false} HeadSkipsParked(q: seq<EntityId>, c: map<nat, Clearance>, tick: nat, f: EntityId)
    requires !Sequenceable(c, f, tick)
    ensures var h, h' := Head(q, c, tick), Head(Without(q, f), c, tick);
            && (h < |q| <==> h' < |Without(q, f)|)
            && (h < |q| ==> q[h] == Without(q, f)[h'])
  {
    if q != [] {
      var front, x := q[..|q| - 1], q[|q| - 1];
      HeadSkipsParked(front, c, tick, f);
      assert q == front + [x];
      HeadSnoc(front, x, c, tick);
      WithoutSnoc(front, x, f);
      if x != f {
        HeadSnoc(Without(front, f), x, c, tick);
      }
    }
  }

  lemma {:induction false} WithoutNearest(q: seq<EntityId>, w: World, f: EntityId)
    requires Nearest(q, w)
    ensures Nearest(Without(q, f), w)
  {
    if q != [] {
      var front, x := q[..|q| - 1], q[|q| - 1];
      WithoutNearest(front, w, f);
      var r := Without(front, f);
      forall i | 0 <= i < |r| ensures NoFarther(w, r[i], x) {
        assert r[i] in front;
      }
    }
  }

  lemma WithoutSorted(a: seq<EntityId>, b: seq<EntityId>, w: World, f: EntityId)
    requires SortedOrder(a, b, w)
    ensures SortedOrder(Without(a, f), Without(b, f), w)
  {
    WithoutNearest(b, w, f);
    forall x ensures multiset(Without(a, f))[x] == multiset(Without(b, f))[x] {
      FilterCounts(a, id => id != f, x);
      FilterCounts(b, id => id != f, x);
    }
  }

  lemma PruneHides(s: Facility, w: World, f: EntityId)
    ensures Prune(Hide(s, f), w) == Hide(Prune(s, w), f)
  {
    WithoutCommutes(s.arrivals, id => !Gone(w, id), f);
  }

  lemma ReleaseHides(s: Facility, w: World, tick: nat, f: EntityId)
    requires !Sequenceable(s.clearance, f, tick) && !(s.occKind.Arrival? && s.occupant == f)
    ensures Release(Hide(s, f), w, tick).0 == Hide(Release(s, w, tick).0, f)
    ensures Release(Hide(s, f), w, tick).1 == Release(s, w, tick).1
  {
    if s.occKind.Arrival? {
      if Stopped(s, w) {
        WithoutCommutes(s.arrivals, id => id != s.occupant, f);
      } else {
        HiddenWaiting(s, tick, f);
      }
    }
  }

  lemma HiddenWaiting(s: Facility, tick: nat, f: EntityId)
    requires !Sequenceable(s.clearance, f, tick)
    ensures SomeoneWaiting(Hide(s, f), tick) <==> SomeoneWaiting(s, tick)
  {
    var q := Without(s.arrivals, f);
    assert forall id :: id in q <==> id in s.arrivals && id != f;
  }

  lemma GrantHides(s: Facility, w: World, tick: nat, f: EntityId)
    requires !Sequenceable(s.clearance, f, tick)
    ensures Grant(Hide(s, f), w, tick).0 == Hide(Grant(s, w, tick).0, f)
    ensures Grant(Hide(s, f), w, tick).1 == Grant(s, w, tick).1
  {
    hide Without, SetClearance, WaveOff, StateOf;
    HeadSkipsParked(s.arrivals, s.clearance, tick, f);
  }

  lemma PrunedHides(s: Facility, w: World, tick: nat, f: EntityId, until: nat)
    requires Parked(s, f, until) && tick < until && HoldsSlot(w, f)
    ensures var r, r' := Release(Prune(s, w), w, tick), Release(Prune(Hide(s, f), w), w, tick);
            r'.0 == Hide(r.0, f) && r'.1 == r.1 && !Sequenceable(r.0.clearance, f, tick)
  {
    PruneHides(s, w, f);
    PruneKeepsRecord(s, w, f);
    ReleaseHides(Prune(s, w), w, tick, f);
    ReleaseTouchesOne(Prune(s, w), w, tick, f);
  }

  /**
   While f is parked the update is blind to it: the same update with f struck from the sequence leaves
   the same state, f apart, and says the same on the radio. So f blocks nobody and takes nothing.
   */
  lemma ParkedIsInvisible(s: Facility, w: World, tick: nat, t: Facility, f: EntityId, until: nat)
    requires Updates(s, w, tick, t) && Parked(s, f, until) && tick < until
    requires HoldsSlot(w, f)
    ensures Updates(Hide(s, f), w, tick, Hide(t, f))
    ensures Said(Hide(s, f), Updated(tick), w, Hide(t, f)) == Said(s, Updated(tick), w, t)
  {
    hide Prune, Release, Grant, Without, Gone;
    var r := Release(Prune(s, w), w, tick).0;
    PrunedHides(s, w, tick, f, until);
    WithoutSorted(r.arrivals, t.arrivals, w, f);
    GrantHides(r.(arrivals := t.arrivals), w, tick, f);
  }

  /** One step as a term normally sees it: f is alive and not cancelled, and requests and cancels name handles that resolve. */
  ghost predicate Ordinary(e: Event, w: World, f: EntityId, until: nat) {
    && HoldsSlot(w, f) && e != Cancelled(f)
    && (!e.HoldSet? && !e.Updated? ==> e.flight in w)
    && (e.Updated? ==> e.tick < until)
  }

  /** One step as if f were not in the sequence: the same state, f apart, and the same radio lines. */
  ghost predicate BlindTo(s: Facility, e: Event, w: World, t: Facility, f: EntityId)
    requires e.Updated?
  {
    Updates(Hide(s, f), w, e.tick, Hide(t, f)) && Said(Hide(s, f), e, w, Hide(t, f)) == Said(s, e, w, t)
  }

  /**
   Told to go around at `tick`, and whatever live flights request meanwhile, f is parked at every later
   update before tick + 7200, and that update neither gives it the runway nor lets it hold anyone back.
   */
  lemma WaveOffHoldsForTheTerm(states: seq<Facility>, events: seq<Event>, worlds: seq<World>,
                               from: nat, n: nat, f: EntityId, tick: nat)
    requires Run(states, events, worlds) && from < n < |events|
    requires events[from] == Updated(tick) && HoldsSlot(worlds[from], f)
    requires Radio(SayGoAround, f) in Said(states[from], events[from], worlds[from], states[from + 1])
    requires forall i :: from < i <= n ==> Ordinary(events[i], worlds[i], f, tick + HOLD_OFF)
    requires events[n].Updated?
    ensures Parked(states[n], f, tick + HOLD_OFF) && Parked(states[n + 1], f, tick + HOLD_OFF)
    ensures BlindTo(states[n], events[n], worlds[n], states[n + 1], f)
  {
    hide Parked, Updates, Said, HoldsSlot, Disturbs, StepAt;
    forall i | from < i <= n ensures Quiet(states[i], events[i], worlds[i], f, tick + HOLD_OFF) {
      assert Ordinary(events[i], worlds[i], f, tick + HOLD_OFF);
      LiveNamesDoNotDisturb(states[i], events[i], worlds[i], f);
    }
    HeldForTheTerm(states, events, worlds, from, n, f, tick);
    HeldForTheTerm(states, events, worlds, from, n + 1, f, tick);
    UpdateOf(states, events, worlds, n);
    ParkedIsInvisible(states[n], worlds[n], events[n].tick, states[n + 1], f, tick + HOLD_OFF);
  }

  lemma UpdateOf(states: seq<Facility>, events: seq<Event>, worlds: seq<World>, n: nat)
    requires Run(states, events, worlds) && n < |events| && events[n].Updated?
    ensures Updates(states[n], worlds[n], events[n].tick, states[n + 1])
  {
    assert StepAt(states, events, worlds, n);
  }
}
