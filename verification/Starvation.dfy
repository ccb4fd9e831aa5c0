/**
 Why bounded waiting speaks of one arrival: the hold-off (120 s) is shorter than an arrival's budget
 (240 s), so two arrivals that never land can take turns and keep a departure waiting for ever.
 */
module Starvation {
  import opened AtcTypes
  import opened SeqOps
  import opened Sequencer
  import opened Safety

  const FIRST := EntityId(1, 1)
  const SECOND := EntityId(2, 1)
  const WAITER := EntityId(3, 1)
  const INTERVAL := 60

  /** Two aircraft circle at 4000 m, a third is parked short of the threshold; nobody moves. */
  const CIRCLING: World := map[
    FIRST := Sight(false, 100.0, 75.0, 4000.0),
    SECOND := Sight(false, 100.0, 75.0, 4000.0),
    WAITER := Sight(false, 0.0, 0.0, 25.0)]

  /** One of the two owns the runway and the other's hold-off ends before the owner's budget does. */
  ghost predicate TakingTurns(s: Facility, tick: nat) {
    && s.departures == [WAITER] && s.arrivals == [FIRST, SECOND] && !s.hold && s.acceptsLandings
    && s.occKind.Arrival? && s.occupant in s.arrivals
    && s.occSince <= tick <= s.occSince + ARRIVAL_BUDGET
    && Known(s.clearance, FIRST) && s.clearance[FIRST.index].holdOffUntil <= s.occSince + HOLD_OFF
    && Known(s.clearance, SECOND) && s.clearance[SECOND.index].holdOffUntil <= s.occSince + HOLD_OFF
  }

  lemma EverybodySurvives()
    ensures Survivors([WAITER], CIRCLING) == [WAITER]
    ensures Survivors([FIRST, SECOND], CIRCLING) == [FIRST, SECOND]
  {
    FilterAppend([], WAITER, id => !Gone(CIRCLING, id));
    FilterAppend([FIRST], SECOND, id => !Gone(CIRCLING, id));
    FilterAppend([], FIRST, id => !Gone(CIRCLING, id));
    assert [FIRST] + [SECOND] == [FIRST, SECOND];
  }

  lemma AllSurvive(s: Facility, tick: nat)
    requires TakingTurns(s, tick)
    ensures var p := Prune(s, CIRCLING); TakingTurns(p, tick) && KeepsTurn(s, p)
  {
    EverybodySurvives();
    hide Survivors;
  }

  lemma HeadOfTwo(c: map<nat, Clearance>, tick: nat)
    ensures Head([FIRST, SECOND], c, tick)
         == if Sequenceable(c, FIRST, tick) then 0 else if Sequenceable(c, SECOND, tick) then 1 else 2
  {
    assert [FIRST, SECOND][1..] == [SECOND];
  }

  lemma OwnerKeeps(s: Facility, tick: nat, now: nat)
    requires TakingTurns(s, tick) && tick <= now <= s.occSince + ARRIVAL_BUDGET
    ensures Release(s, CIRCLING, now).0 == s && Grant(s, CIRCLING, now).0 == s && TakingTurns(s, now)
  {
    HeadOfTwo(s.clearance, now);
  }

  /** Over budget, with the other past its hold-off: the owner is waved off and held. */
  lemma OwnerWavedOff(s: Facility, tick: nat, now: nat)
    requires TakingTurns(s, tick) && s.occSince + ARRIVAL_BUDGET < now
    ensures var r := Release(s, CIRCLING, now).0;
            && r == Vacate(s.(clearance := WaveOff(s.clearance, s.occupant, now)))
            && Known(r.clearance, FIRST) && Known(r.clearance, SECOND)
            && (s.occupant == FIRST ==> !Sequenceable(r.clearance, FIRST, now) && Sequenceable(r.clearance, SECOND, now))
            && (s.occupant == SECOND ==> Sequenceable(r.clearance, FIRST, now))
  {
    assert FIRST in s.arrivals && SECOND in s.arrivals;
    assert Sequenceable(s.clearance, FIRST, now) && Sequenceable(s.clearance, SECOND, now);
  }

  lemma OtherTakesOver(s: Facility, tick: nat, now: nat)
    requires TakingTurns(s, tick) && s.occSince + ARRIVAL_BUDGET < now
    ensures TakingTurns(Grant(Release(s, CIRCLING, now).0, CIRCLING, now).0, now)
    ensures LosesTurn(s, Grant(Release(s, CIRCLING, now).0, CIRCLING, now).0, now)
  {
    OwnerWavedOff(s, tick, now);
    hide Release;
    HeadOfTwo(Release(s, CIRCLING, now).0.clearance, now);
  }

  /** The order [FIRST, SECOND] is a sorted one, since the two are equally far away. */
  lemma UpdateInOrder(s: Facility, tick: nat) returns (t: Facility)
    requires Unsorted(s, CIRCLING, tick) == [FIRST, SECOND]
    ensures Updates(s, CIRCLING, tick, t)
    ensures t == Grant(Release(Prune(s, CIRCLING), CIRCLING, tick).0, CIRCLING, tick).0
  {
    hide Prune, Release;
    var r := Release(Prune(s, CIRCLING), CIRCLING, tick).0;
    assert r.(arrivals := [FIRST, SECOND]) == r;
    t := UpdateWith(s, CIRCLING, tick, [FIRST, SECOND]).0;
    assert t.arrivals == [FIRST, SECOND];
  }

  /** The owner keeps the runway on the same budget. */
  ghost predicate KeepsTurn(s: Facility, t: Facility) {
    t.occupant == s.occupant && t.occKind == s.occKind && t.occSince == s.occSince
  }

  /** The owner is waved off and the other of the two takes the runway, on a new budget. */
  ghost predicate LosesTurn(s: Facility, t: Facility, now: nat) {
    && t.occupant != s.occupant && t.occKind.Arrival? && t.occSince == now
    && StateOf(t.clearance, s.occupant).GoAround? && !Sequenceable(t.clearance, s.occupant, now)
  }

  /** At the next ATC step the owner keeps the runway, or, over budget, is waved off and the other takes over. */
  lemma NextTurn(s: Facility, tick: nat) returns (t: Facility)
    requires TakingTurns(s, tick)
    ensures Updates(s, CIRCLING, tick + INTERVAL, t) && TakingTurns(t, tick + INTERVAL)
    ensures if tick + INTERVAL <= s.occSince + ARRIVAL_BUDGET then KeepsTurn(s, t) else LosesTurn(s, t, tick + INTERVAL)
  {
    var now, p := tick + INTERVAL, Prune(s, CIRCLING);
    AllSurvive(s, tick);
    if now <= p.occSince + ARRIVAL_BUDGET {
      OwnerKeeps(p, tick, now);
    } else {
      OwnerWavedOff(p, tick, now);
      OtherTakesOver(p, tick, now);
    }
    t := UpdateInOrder(s, now);
  }

  lemma RunExtends(states: seq<Facility>, events: seq<Event>, worlds: seq<World>, e: Event, w: World, t: Facility)
    requires Run(states, events, worlds) && Step(states[|states| - 1], e, w, t)
    ensures Run(states + [t], events + [e], worlds + [w])
  {
    hide Step;
    var n := |events|;
    forall i | 0 <= i < n + 1 ensures StepAt(states + [t], events + [e], worlds + [w], i) {
      assert i < n ==> StepAt(states, events, worlds, i);
    }
  }

  /** Three requests, then an update a second: n of them after the first, and the queue never moves. */
  ghost predicate StarvingRun(states: seq<Facility>, events: seq<Event>, worlds: seq<World>, n: nat) {
    && Run(states, events, worlds) && |events| == n + 4
    && events[..3] == [TakeoffRequested(WAITER), LandingRequested(FIRST), LandingRequested(SECOND)]
    && (forall i :: 3 <= i < |events| ==> events[i] == Updated(INTERVAL * (i - 2)))
    && (forall i :: 0 <= i < |worlds| ==> worlds[i] == CIRCLING)
    && (forall i :: 1 <= i < |states| ==> states[i].departures == [WAITER])
  }

  lemma StarvingExtends(states: seq<Facility>, events: seq<Event>, worlds: seq<World>, n: nat, t: Facility)
    requires StarvingRun(states, events, worlds, n) && t.departures == [WAITER]
    requires Step(states[n + 4], Updated(INTERVAL * (n + 2)), CIRCLING, t)
    ensures StarvingRun(states + [t], events + [Updated(INTERVAL * (n + 2))], worlds + [CIRCLING], n + 1)
  {
    hide Step;
    var e := Updated(INTERVAL * (n + 2));
    RunExtends(states, events, worlds, e, CIRCLING, t);
    hide StepAt;
    assert (events + [e])[..3] == events[..3];
  }

  lemma RequestsIn() returns (s1: Facility, s2: Facility, s3: Facility)
    ensures Step(Initial(true), TakeoffRequested(WAITER), CIRCLING, s1) && s1.departures == [WAITER]
    ensures Step(s1, LandingRequested(FIRST), CIRCLING, s2) && s2.departures == [WAITER]
    ensures Step(s2, LandingRequested(SECOND), CIRCLING, s3) && s3.departures == [WAITER]
    ensures s3.arrivals == [FIRST, SECOND] && s3.occKind.Free? && !s3.hold && s3.acceptsLandings
    ensures s3.clearance == map[
      WAITER.index := Clearance(WAITER, HoldShort, 0),
      FIRST.index := Clearance(FIRST, Pattern, 0),
      SECOND.index := Clearance(SECOND, Pattern, 0)]
  {
    s1 := RequestTakeoff(Initial(true), WAITER);
    s2 := RequestLanding(s1, FIRST);
    s3 := RequestLanding(s2, SECOND);
  }

  /** The first update gives the free runway to the first arrival. */
  lemma FirstGrant(s: Facility) returns (t: Facility)
    requires s.arrivals == [FIRST, SECOND] && s.departures == [WAITER] && s.occKind.Free? && !s.hold && s.acceptsLandings
    requires Known(s.clearance, FIRST) && s.clearance[FIRST.index].holdOffUntil == 0
    requires Known(s.clearance, SECOND) && s.clearance[SECOND.index].holdOffUntil == 0
    ensures Updates(s, CIRCLING, INTERVAL, t) && TakingTurns(t, INTERVAL)
  {
    EverybodySurvives();
    hide Survivors;
    var p := Prune(s, CIRCLING);
    HeadOfTwo(p.clearance, INTERVAL);
    t := UpdateInOrder(s, INTERVAL);
  }

  lemma Opening() returns (states: seq<Facility>, events: seq<Event>, worlds: seq<World>)
    ensures |states| == 5 && StarvingRun(states, events, worlds, 0) && TakingTurns(states[4], INTERVAL)
  {
    hide Updates, RequestTakeoff, RequestLanding;
    var s1, s2, s3 := RequestsIn();
    var s4 := FirstGrant(s3);
    states := [Initial(true), s1, s2, s3, s4];
    events := [TakeoffRequested(WAITER), LandingRequested(FIRST), LandingRequested(SECOND), Updated(INTERVAL)];
    worlds := [CIRCLING, CIRCLING, CIRCLING, CIRCLING];
    OpeningRuns(s1, s2, s3, s4);
    assert events[3] == Updated(INTERVAL);
  }

  lemma OpeningRuns(s1: Facility, s2: Facility, s3: Facility, s4: Facility)
    requires Step(Initial(true), TakeoffRequested(WAITER), CIRCLING, s1) && Step(s1, LandingRequested(FIRST), CIRCLING, s2)
    requires Step(s2, LandingRequested(SECOND), CIRCLING, s3) && Step(s3, Updated(INTERVAL), CIRCLING, s4)
    ensures Run([Initial(true), s1, s2, s3, s4],
                [TakeoffRequested(WAITER), LandingRequested(FIRST), LandingRequested(SECOND), Updated(INTERVAL)],
                [CIRCLING, CIRCLING, CIRCLING, CIRCLING])
  {
    hide Step;
  }

  lemma NextSecond(states: seq<Facility>, events: seq<Event>, worlds: seq<World>, n: nat)
      returns (states': seq<Facility>, events': seq<Event>, worlds': seq<World>)
    requires StarvingRun(states, events, worlds, n) && TakingTurns(states[n + 4], INTERVAL * (n + 1))
    ensures StarvingRun(states', events', worlds', n + 1) && TakingTurns(states'[n + 5], INTERVAL * (n + 2))
  {
    hide TakingTurns, Updates;
    var t := NextTurn(states[n + 4], INTERVAL * (n + 1));
    TurnKeepsQueue(t, INTERVAL * (n + 2));
    StarvingExtends(states, events, worlds, n, t);
    states', events', worlds' := states + [t], events + [Updated(INTERVAL * (n + 2))], worlds + [CIRCLING];
  }

  lemma TurnKeepsQueue(s: Facility, tick: nat)
    requires TakingTurns(s, tick)
    ensures s.departures == [WAITER]
  {
  }

  /**
   For every n there is a run of n further ATC steps, one a second, with departures never held and
   nobody cancelling or dying, throughout which the waiting departure stays at the front of its queue.
   */
  lemma {:induction false} TwoArrivalsStarve(n: nat) returns (states: seq<Facility>, events: seq<Event>, worlds: seq<World>)
    ensures StarvingRun(states, events, worlds, n)
    ensures TakingTurns(states[n + 4], INTERVAL * (n + 1))
  {
    hide TakingTurns, Step;
    if n == 0 {
      states, events, worlds := Opening();
    } else {
      states, events, worlds := TwoArrivalsStarve(n - 1);
      states, events, worlds := NextSecond(states, events, worlds, n - 1);
    }
  }
}
