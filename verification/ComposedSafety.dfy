/**
 The service and the aircraft that obey it, run together: requests, cancels, ticks and samples of the
 departure and arrival machines interleave freely, each poll answered by the towers as they then stand.
 */
module ComposedSafety {
  import opened Wrappers
  import opened AtcTypes
  import opened Sequencer
  import opened Safety
  import opened AtcService
  import opened StateMachine
  import opened AtcBehaviors

  datatype Fleet = Fleet(towers: Facilities, departing: map<EntityId, Brain>, arriving: map<EntityId, Brain>)

  datatype FleetEvent =
    | Asked(id: string, e: Event)
    | CancelledAll(flight: EntityId)
    | TickedAll(w: World, tick: nat)
    | DepartureSampled(flight: EntityId, obs: Observation, dt: real)
    | ArrivalSampled(flight: EntityId, obs: Observation, dt: real)

  ghost predicate FleetStep(airports: Airports, s: Fleet, e: FleetEvent, out: Control, t: Fleet) {
    match e
    case Asked(id, ask) => !ask.Updated? && t == s.(towers := Routed(s.towers, airports, id, ask))
    case CancelledAll(f) => t == s.(towers := CancelledEverywhere(s.towers, f))
    case TickedAll(w, tick) =>
      Ticked(s.towers, w, tick, t.towers) && t.departing == s.departing && t.arriving == s.arriving
    case DepartureSampled(f, obs, dt) =>
      && f in s.departing && Answers(s.towers, f, obs.clearance) && dt >= 0.0
      && var r := Sample(s.departing[f], Drive, NEUTRAL, obs, dt);
         out == r.1 && t == s.(departing := s.departing[f := r.0])
    case ArrivalSampled(f, obs, dt) =>
      && f in s.arriving && Answers(s.towers, f, obs.clearance) && dt >= 0.0
      && var r := Sample(s.arriving[f], Drive, NEUTRAL, obs, dt);
         out == r.1 && t == s.(arriving := s.arriving[f := r.0])
  }

  /** Every machine starts as the compositions make it, and no tower is open yet. */
  ghost predicate FleetInitial(s: Fleet) {
    && s.towers == map[]
    && (forall f :: f in s.departing ==> exists spec, next ::
          s.departing[f] == Machine(DepartureStates(spec, next), HOLD_SHORT_STATE, Some(HoldingShort), 0.0))
    && (forall f :: f in s.arriving ==> exists spec ::
          s.arriving[f] == Machine(ArrivalStates(spec), PATTERN_STATE, Some(Circling), 0.0))
  }

  ghost predicate FleetStepAt(airports: Airports, states: seq<Fleet>, events: seq<FleetEvent>, outs: seq<Control>, i: nat)
    requires i + 1 < |states| && i < |events| && i < |outs|
  {
    FleetStep(airports, states[i], events[i], outs[i], states[i + 1])
  }

  ghost predicate FleetRun(airports: Airports, states: seq<Fleet>, events: seq<FleetEvent>, outs: seq<Control>) {
    && |states| == |events| + 1 && |outs| == |events| && FleetInitial(states[0])
    && forall i :: 0 <= i < |events| ==> FleetStepAt(airports, states, events, outs, i)
  }

  ghost predicate DepartureBrain(m: Brain) {
    && (exists spec, next :: m.states == DepartureStates(spec, next))
    && 0 <= m.activeIdx <= 2 && m.dwell >= 0.0
    && (m.activeIdx == HOLD_SHORT_STATE ==> m.active == Some(HoldingShort))
  }

  ghost predicate ArrivalBrain(m: Brain) {
    && (exists spec :: m.states == ArrivalStates(spec))
    && 0 <= m.activeIdx <= 1 && m.active.Some? && m.dwell >= 0.0
  }

  ghost predicate FleetInv(s: Fleet) {
    && (forall id :: id in s.towers ==> Inv(s.towers[id]))
    && (forall f :: f in s.departing ==> DepartureBrain(s.departing[f]))
    && (forall f :: f in s.arriving ==> ArrivalBrain(s.arriving[f]))
  }

  /** The departure composition, one sample: it holds short at idle until it reads a takeoff clearance. */
  lemma DepartureSample(m: Brain, obs: Observation, dt: real)
    requires DepartureBrain(m) && dt >= 0.0
    ensures var (m', out) := Sample(m, Drive, NEUTRAL, obs, dt);
            && DepartureBrain(m') && m.activeIdx <= m'.activeIdx
            && (m.activeIdx == HOLD_SHORT_STATE ==>
                  out == PARKED && (m'.activeIdx != HOLD_SHORT_STATE <==> obs.clearance.ClearedTakeoff?))
  {
    var spec, next :| m.states == DepartureStates(spec, next);
    DepartureNames(spec, next);
    if 0 <= m.activeIdx < |m.states| && m.active.Some? {
      var m' := m.(dwell := m.dwell + dt, active := Some(Drive(m.active.value, obs).0));
      var trs := m'.states[m'.activeIdx].transitions;
      var k := FirstEnabledDecides(m', trs, obs);
    }
  }

  lemma DepartureNames(spec: RunwaySpec, next: Option<Pilot>)
    ensures var states := DepartureStates(spec, next);
            FindState(states, "hold_short") == 0 && FindState(states, "takeoff") == 1 && FindState(states, "depart") == 2
  {
    var states := DepartureStates(spec, next);
    assert states[0].name == "hold_short" && states[1].name == "takeoff" && states[2].name == "depart";
  }

  lemma ArrivalNames(spec: RunwaySpec)
    ensures FindState(ArrivalStates(spec), "pattern") == 0 && FindState(ArrivalStates(spec), "final") == 1
  {
    var states := ArrivalStates(spec);
    assert states[0].name == "pattern" && states[1].name == "final";
  }

  /** The arrival composition, one sample: onto final on a landing clearance, back after a wave-off and a second. */
  lemma ArrivalSample(m: Brain, obs: Observation, dt: real)
    requires ArrivalBrain(m) && dt >= 0.0
    ensures var (m', _) := Sample(m, Drive, NEUTRAL, obs, dt);
            && ArrivalBrain(m')
            && (m.activeIdx == PATTERN_STATE ==>
                  (m'.activeIdx == FINAL_STATE <==> obs.clearance.ClearedToLand?))
            && (m.activeIdx == FINAL_STATE ==>
                  (m'.activeIdx == PATTERN_STATE <==> m.dwell + dt >= 1.0 && obs.clearance.GoAround?))
            && m'.dwell == if m'.activeIdx == m.activeIdx then m.dwell + dt else 0.0
  {
    var spec :| m.states == ArrivalStates(spec);
    ArrivalNames(spec);
    var m' := m.(dwell := m.dwell + dt, active := Some(Drive(m.active.value, obs).0));
    var k := FirstEnabledDecides(m', m'.states[m'.activeIdx].transitions, obs);
  }

  lemma RoutedKeepsInv(fs: Facilities, airports: Airports, id: string, e: Event)
    requires !e.Updated? && forall i :: i in fs ==> Inv(fs[i])
    ensures forall i :: i in Routed(fs, airports, id, e) ==> Inv(Routed(fs, airports, id, e)[i])
  {
    hide Inv;
    var us := Opened(fs, airports, id);
    InitialInv();
    if id != "" && id in us {
      StepKeepsInv(us[id], e, map[], Respond(us[id], e));
    }
  }

  lemma InitialInv()
    ensures forall b :: Inv(Initial(b))
  {
  }

  lemma TowersKeepInv(airports: Airports, s: Fleet, e: FleetEvent, out: Control, t: Fleet)
    requires FleetStep(airports, s, e, out, t) && forall i :: i in s.towers ==> Inv(s.towers[i])
    ensures forall i :: i in t.towers ==> Inv(t.towers[i])
  {
    hide Inv, Updates, Routed, Sample, RemoveFlight;
    match e
    case Asked(id, ask) => RoutedKeepsInv(s.towers, airports, id, ask);
    case CancelledAll(f) =>
      forall i | i in t.towers ensures Inv(t.towers[i]) {
        CancelKeepsInv(s.towers[i], f);
      }
    case TickedAll(w, tick) =>
      forall i | i in t.towers ensures Inv(t.towers[i]) {
        UpdateKeepsInv(s.towers[i], w, tick, t.towers[i]);
      }
    case _ =>
  }

  lemma BrainsKeepInv(airports: Airports, s: Fleet, e: FleetEvent, out: Control, t: Fleet)
    requires FleetStep(airports, s, e, out, t) && FleetInv(s)
    ensures forall f :: f in t.departing ==> DepartureBrain(t.departing[f])
    ensures forall f :: f in t.arriving ==> ArrivalBrain(t.arriving[f])
  {
    hide Inv, Routed, Ticked, CancelledEverywhere, Sample, DepartureBrain, ArrivalBrain, Answers;
    match e
    case DepartureSampled(f, obs, dt) => DepartureSample(s.departing[f], obs, dt);
    case ArrivalSampled(f, obs, dt) => ArrivalSample(s.arriving[f], obs, dt);
    case _ =>
  }

  lemma FleetStartsSound(s: Fleet)
    requires FleetInitial(s)
    ensures FleetInv(s)
  {
  }

  lemma {:induction false} FleetKeepsInv(airports: Airports, states: seq<Fleet>, events: seq<FleetEvent>,
                                         outs: seq<Control>, n: nat)
    requires FleetRun(airports, states, events, outs) && n < |states|
    ensures FleetInv(states[n])
  {
    hide Inv, DepartureBrain, ArrivalBrain, FleetStep, FleetInitial;
    if n == 0 {
      FleetStartsSound(states[0]);
    } else {
      FleetKeepsInv(airports, states, events, outs, n - 1);
      assert FleetStepAt(airports, states, events, outs, n - 1);
      TowersKeepInv(airports, states[n - 1], events[n - 1], outs[n - 1], states[n]);
      BrainsKeepInv(airports, states[n - 1], events[n - 1], outs[n - 1], states[n]);
    }
  }

  /** f is the occupant of some tower's runway, of that kind, and reads that tower's matching clearance. */
  ghost predicate OnRunway(s: Fleet, f: EntityId, kind: Occupancy) {
    exists id :: id in s.towers && s.towers[id].occKind == kind && s.towers[id].occupant == f
  }

  /** A poll that answers a runway clearance means some tower has given that flight its runway. */
  lemma RunwayAnswerIsTrue(s: Fleet, f: EntityId, r: ClearanceState)
    requires FleetInv(s) && Answers(s.towers, f, r)
    ensures r.ClearedTakeoff? ==> OnRunway(s, f, Departure)
    ensures r.ClearedToLand? ==> OnRunway(s, f, Arrival)
  {
    hide DepartureBrain, ArrivalBrain;
  }

  predicate HoldingAt(s: Fleet, f: EntityId) {
    f in s.departing && s.departing[f].activeIdx == HOLD_SHORT_STATE
  }

  /** One step as one departure machine sees it. */
  lemma DepartureStep(airports: Airports, s: Fleet, e: FleetEvent, out: Control, t: Fleet, f: EntityId)
    requires FleetStep(airports, s, e, out, t) && FleetInv(s) && f in s.departing
    ensures f in t.departing
    ensures !HoldingAt(s, f) ==> !HoldingAt(t, f)
    ensures HoldingAt(s, f) && e.DepartureSampled? && e.flight == f ==> out == PARKED
    ensures HoldingAt(s, f) && !HoldingAt(t, f) ==>
              e.DepartureSampled? && e.flight == f && OnRunway(s, f, Departure)
  {
    hide Inv, Routed, Ticked, CancelledEverywhere, Sample, ArrivalBrain, Answers, OnRunway;
    if e.DepartureSampled? {
      DepartureSample(s.departing[e.flight], e.obs, e.dt);
      RunwayAnswerIsTrue(s, e.flight, e.obs.clearance);
    }
  }

  /** Step j is where f leaves hold_short: a sample of f, taken while f is a departure occupant. */
  ghost predicate LeavesHoldShort(states: seq<Fleet>, events: seq<FleetEvent>, f: EntityId, j: nat)
    requires j + 1 < |states| && j < |events|
  {
    && HoldingAt(states[j], f) && !HoldingAt(states[j + 1], f)
    && events[j].DepartureSampled? && events[j].flight == f && OnRunway(states[j], f, Departure)
  }

  /** Every command f's machine gave at steps before n, while it held short, was the parked one. */
  ghost predicate ParkedWhileHolding(states: seq<Fleet>, events: seq<FleetEvent>, outs: seq<Control>, f: EntityId, n: nat)
    requires n < |states| && n <= |events| && n <= |outs|
  {
    forall i :: 0 <= i < n && HoldingAt(states[i], f) && events[i].DepartureSampled? && events[i].flight == f
      ==> outs[i] == Control(0.0, true, 0.0)
  }

  /**
   In every run, a departure machine either still holds short, or left it at exactly one step, on a
   sample taken while its flight was some tower's departure occupant; it has not come back since, and
   every command it gave up to and including that step was idle throttle with the gear down.
   */
  lemma {:induction false} DeparturesMoveOnClearance(airports: Airports, states: seq<Fleet>, events: seq<FleetEvent>,
                                                     outs: seq<Control>, f: EntityId, n: nat)
    requires FleetRun(airports, states, events, outs) && n < |states| && f in states[0].departing
    ensures f in states[n].departing && ParkedWhileHolding(states, events, outs, f, n)
    ensures if HoldingAt(states[n], f) then forall i :: 0 <= i <= n ==> HoldingAt(states[i], f)
            else exists j :: 0 <= j < n && LeavesHoldShort(states, events, f, j)
                   && (forall i :: 0 <= i <= j ==> HoldingAt(states[i], f))
                   && (forall i :: j < i <= n ==> !HoldingAt(states[i], f))
  {
    hide FleetInv, FleetStep, OnRunway;
    if n > 0 {
      DeparturesMoveOnClearance(airports, states, events, outs, f, n - 1);
      FleetKeepsInv(airports, states, events, outs, n - 1);
      assert FleetStepAt(airports, states, events, outs, n - 1);
      DepartureStep(airports, states[n - 1], events[n - 1], outs[n - 1], states[n], f);
      if HoldingAt(states[n - 1], f) && !HoldingAt(states[n], f) {
        assert LeavesHoldShort(states, events, f, n - 1);
      }
    }
  }

  predicate OnFinalAt(s: Fleet, a: EntityId) {
    a in s.arriving && s.arriving[a].activeIdx == FINAL_STATE
  }

  /** Seconds of samples the arrival machine of `a` received in steps from up to (not including) to. */
  function SecondsSampled(events: seq<FleetEvent>, a: EntityId, from: nat, to: nat): real
    requires from <= to <= |events|
  {
    if from == to then 0.0
    else SecondsSampled(events, a, from, to - 1)
         + (if events[to - 1].ArrivalSampled? && events[to - 1].flight == a then events[to - 1].dt else 0.0)
  }

  ghost predicate ToldGoAround(s: Fleet, a: EntityId) {
    exists id :: id in s.towers && StateOf(s.towers[id].clearance, a).GoAround?
  }

  /** One step as one arrival machine sees it. */
  lemma ArrivalStep(airports: Airports, s: Fleet, e: FleetEvent, out: Control, t: Fleet, a: EntityId)
    requires FleetStep(airports, s, e, out, t) && FleetInv(s) && a in s.arriving
    ensures a in t.arriving
    ensures !OnFinalAt(s, a) && OnFinalAt(t, a) ==>
              e.ArrivalSampled? && e.flight == a && OnRunway(s, a, Arrival) && t.arriving[a].dwell == 0.0
    ensures OnFinalAt(s, a) && !OnFinalAt(t, a) ==>
              e.ArrivalSampled? && e.flight == a && ToldGoAround(s, a) && s.arriving[a].dwell + e.dt >= 1.0
    ensures OnFinalAt(s, a) && OnFinalAt(t, a) ==>
              t.arriving[a].dwell == s.arriving[a].dwell + (if e.ArrivalSampled? && e.flight == a then e.dt else 0.0)
  {
    hide Inv, Routed, Ticked, CancelledEverywhere, Sample, DepartureBrain, OnRunway;
    if e.ArrivalSampled? {
      ArrivalSample(s.arriving[e.flight], e.obs, e.dt);
      RunwayAnswerIsTrue(s, e.flight, e.obs.clearance);
    }
  }

  /** Step `entry` is where `a` turns onto final, and it has stayed there through state n. */
  ghost predicate OnFinalSince(states: seq<Fleet>, a: EntityId, entry: nat, n: nat)
    requires n < |states|
  {
    && entry < n && !OnFinalAt(states[entry], a)
    && forall i :: entry < i <= n ==> OnFinalAt(states[i], a)
  }

  /** The dwell timer measures the time since the turn onto final. */
  lemma {:induction false} DwellIsTimeOnFinal(airports: Airports, states: seq<Fleet>, events: seq<FleetEvent>,
                                              outs: seq<Control>, a: EntityId, entry: nat, n: nat)
    requires FleetRun(airports, states, events, outs) && n < |states| && OnFinalSince(states, a, entry, n)
    ensures states[n].arriving[a].dwell == SecondsSampled(events, a, entry + 1, n)
  {
    hide FleetInv, FleetStep, OnRunway;
    StaysInArriving(airports, states, events, outs, a, n - 1, n);
    FleetKeepsInv(airports, states, events, outs, n - 1);
    assert FleetStepAt(airports, states, events, outs, n - 1);
    ArrivalStep(airports, states[n - 1], events[n - 1], outs[n - 1], states[n], a);
    if entry + 1 < n {
      assert OnFinalAt(states[n - 1], a);
      DwellIsTimeOnFinal(airports, states, events, outs, a, entry, n - 1);
    }
  }

  /** Machines are neither made nor lost during a run. */
  lemma StaysInArriving(airports: Airports, states: seq<Fleet>, events: seq<FleetEvent>, outs: seq<Control>,
                        a: EntityId, i: nat, n: nat)
    requires FleetRun(airports, states, events, outs) && n < |states| && n == i + 1
    ensures a in states[i].arriving <==> a in states[n].arriving
  {
    assert FleetStepAt(airports, states, events, outs, i);
  }

  /**
   In every run an arrival machine turns onto final only on a sample taken while its flight was some
   tower's arrival occupant, and leaves it only on a sample at which some tower was telling it to go
   around, with at least a second of samples received since the turn, this one included.
   */
  lemma ArrivalsMoveOnClearance(airports: Airports, states: seq<Fleet>, events: seq<FleetEvent>, outs: seq<Control>,
                                a: EntityId, n: nat)
    requires FleetRun(airports, states, events, outs) && n < |events| && a in states[n].arriving
    ensures !OnFinalAt(states[n], a) && OnFinalAt(states[n + 1], a) ==>
              events[n].ArrivalSampled? && events[n].flight == a && OnRunway(states[n], a, Arrival)
    ensures forall entry: nat :: OnFinalSince(states, a, entry, n) && !OnFinalAt(states[n + 1], a) ==>
              && events[n].ArrivalSampled? && events[n].flight == a && ToldGoAround(states[n], a)
              && SecondsSampled(events, a, entry + 1, n + 1) >= 1.0
  {
    hide FleetInv, FleetStep, OnRunway, ToldGoAround;
    FleetKeepsInv(airports, states, events, outs, n);
    assert FleetStepAt(airports, states, events, outs, n);
    ArrivalStep(airports, states[n], events[n], outs[n], states[n + 1], a);
    forall entry: nat | OnFinalSince(states, a, entry, n) && !OnFinalAt(states[n + 1], a)
      ensures SecondsSampled(events, a, entry + 1, n + 1) >= 1.0
    {
      DwellIsTimeOnFinal(airports, states, events, outs, a, entry, n);
    }
  }
}
