/**
 The child that a composition has entered keeps flying: over every run, a takeoff or an approach is in
 the phase its own samples have brought it to, and it commands what that phase commands.
 */
module FlownPhases {
  import opened Wrappers
  import opened AtcTypes
  import opened AtcService
  import opened Safety
  import opened StateMachine
  import opened AtcBehaviors
  import opened ComposedSafety

  // Phases, from the samples alone.

  /** The k-th gate of a takeoff: rolling, at rotation speed, off the ground, at the climb-out height. */
  predicate TakeoffGate(spec: RunwaySpec, k: nat, o: Observation) {
    match k
    case 0 => o.groundSpeed > 2.0
    case 1 => o.groundSpeed >= spec.rotateSpeed
    case 2 => o.agl > 3.0
    case _ => o.agl >= spec.climboutAgl
  }

  /** The k-th gate of a landing: below flare height, at touchdown height, slow. */
  predicate LandingGate(k: nat, o: Observation) {
    match k
    case 0 => o.agl < 12.0
    case 1 => o.agl <= 0.6
    case _ => o.groundSpeed < 2.0
  }

  /** The first n gates were met by samples taken one after another. */
  ghost predicate TakeoffGatesMet(spec: RunwaySpec, n: nat, seen: seq<Observation>) {
    n == 0 || exists i :: 0 <= i < |seen| && TakeoffGate(spec, n - 1, seen[i]) && TakeoffGatesMet(spec, n - 1, seen[..i])
  }

  ghost predicate LandingGatesMet(n: nat, seen: seq<Observation>) {
    n == 0 || exists i :: 0 <= i < |seen| && LandingGate(n - 1, seen[i]) && LandingGatesMet(n - 1, seen[..i])
  }

  lemma TakeoffGatesSnoc(spec: RunwaySpec, n: nat, seen: seq<Observation>)
    requires n > 0 && seen != []
    ensures var before, o := seen[..|seen| - 1], seen[|seen| - 1];
            TakeoffGatesMet(spec, n, seen)
            <==> TakeoffGatesMet(spec, n, before) || (TakeoffGate(spec, n - 1, o) && TakeoffGatesMet(spec, n - 1, before))
  {
    var before, o := seen[..|seen| - 1], seen[|seen| - 1];
    assert forall i :: 0 <= i < |before| ==> before[..i] == seen[..i] && before[i] == seen[i];
  }

  lemma LandingGatesSnoc(n: nat, seen: seq<Observation>)
    requires n > 0 && seen != []
    ensures var before, o := seen[..|seen| - 1], seen[|seen| - 1];
            LandingGatesMet(n, seen)
            <==> LandingGatesMet(n, before) || (LandingGate(n - 1, o) && LandingGatesMet(n - 1, before))
  {
    var before, o := seen[..|seen| - 1], seen[|seen| - 1];
    assert forall i :: 0 <= i < |before| ==> before[..i] == seen[..i] && before[i] == seen[i];
  }

  /** A takeoff has come n phases far exactly when its samples met the first n gates, in that order. */
  lemma {:induction false} TakeoffPhaseIsGates(spec: RunwaySpec, seen: seq<Observation>, n: nat)
    requires n <= 4
    ensures TakeoffRank(TakeoffAfter(LineUp, spec, seen)) >= n <==> TakeoffGatesMet(spec, n, seen)
  {
    if n > 0 && seen != [] {
      var before := seen[..|seen| - 1];
      TakeoffPhaseIsGates(spec, before, n);
      TakeoffPhaseIsGates(spec, before, n - 1);
      TakeoffGatesSnoc(spec, n, seen);
    }
  }

  /** And so has a landing. */
  lemma {:induction false} LandingPhaseIsGates(seen: seq<Observation>, n: nat)
    requires n <= 3
    ensures LandingRank(LandingAfter(Final, seen)) >= n <==> LandingGatesMet(n, seen)
  {
    if n > 0 && seen != [] {
      var before := seen[..|seen| - 1];
      LandingPhaseIsGates(before, n);
      LandingPhaseIsGates(before, n - 1);
      LandingGatesSnoc(n, seen);
    }
  }

  // What a machine's child has seen.

  /** What f's departure machine was shown in steps from up to (not including) to. */
  function DepartureSamples(events: seq<FleetEvent>, f: EntityId, from: nat, to: nat): seq<Observation>
    requires from <= to <= |events|
  {
    if from == to then []
    else DepartureSamples(events, f, from, to - 1)
         + (if events[to - 1].DepartureSampled? && events[to - 1].flight == f then [events[to - 1].obs] else [])
  }

  function ArrivalSamples(events: seq<FleetEvent>, a: EntityId, from: nat, to: nat): seq<Observation>
    requires from <= to <= |events|
  {
    if from == to then []
    else ArrivalSamples(events, a, from, to - 1)
         + (if events[to - 1].ArrivalSampled? && events[to - 1].flight == a then [events[to - 1].obs] else [])
  }

  /** Full power with the gear down until the climb is 30 metres high; done, nothing is commanded. */
  ghost predicate TakeoffCommanded(phase: TakeoffPhase, o: Observation, out: Control) {
    && out.throttle == (if phase.TakeoffDone? then 0.0 else 1.0)
    && (out.gearDown <==> phase.LineUp? || phase.Roll? || phase.Rotate? || (phase.Climb? && o.agl < 30.0))
    && out.wheelBrake == 0.0
  }

  /** Gear down throughout; power only on final, to hold the approach speed; full brake only in the rollout. */
  ghost predicate LandingCommanded(spec: RunwaySpec, phase: LandingPhase, o: Observation, out: Control) {
    && out.gearDown
    && out.wheelBrake == (if phase.Rollout? then 1.0 else 0.0)
    && (!phase.Final? ==> out.throttle == 0.0)
    && (phase.Final? ==>
          var wanted := 0.5 + 0.02 * (spec.approachSpeed - o.groundSpeed);
          && 0.0 <= out.throttle <= 1.0
          && (0.0 <= wanted <= 1.0 ==> out.throttle == wanted)
          && (wanted < 0.0 ==> out.throttle == 0.0) && (wanted > 1.0 ==> out.throttle == 1.0))
  }

  /** Some sample was above the altitude at which a departure is handed off. */
  ghost predicate ClimbedPast(spec: RunwaySpec, seen: seq<Observation>) {
    exists i :: 0 <= i < |seen| && seen[i].altitude > spec.runwayElev + spec.climboutAgl
  }

  /** The machine of a departure has this spec and has been taking off on these samples, or has been handed off. */
  ghost predicate TakingOffWith(m: Brain, spec: RunwaySpec, next: Option<Pilot>, seen: seq<Observation>) {
    && m.states == DepartureStates(spec, next)
    && m.activeIdx == (if ClimbedPast(spec, seen) then 2 else 1)
    && (m.activeIdx == 1 ==> m.active == Some(TakingOff(spec, TakeoffAfter(LineUp, spec, seen))))
  }

  ghost predicate OnFinalWith(m: Brain, spec: RunwaySpec, seen: seq<Observation>) {
    && m.states == ArrivalStates(spec) && m.activeIdx == FINAL_STATE
    && m.active == Some(OnFinal(spec, LandingAfter(Final, seen)))
  }

  lemma DepartureKeepsStates(m: Brain, spec: RunwaySpec, next: Option<Pilot>, obs: Observation, dt: real)
    requires m.states == DepartureStates(spec, next)
    ensures Sample(m, Drive, NEUTRAL, obs, dt).0.states == m.states
  {
  }

  /** Leaving hold_short starts a takeoff afresh. */
  lemma TakeoffBegins(m: Brain, spec: RunwaySpec, next: Option<Pilot>, obs: Observation, dt: real)
    requires m.states == DepartureStates(spec, next) && m.activeIdx == HOLD_SHORT_STATE
    requires Sample(m, Drive, NEUTRAL, obs, dt).0.activeIdx != HOLD_SHORT_STATE
    ensures TakingOffWith(Sample(m, Drive, NEUTRAL, obs, dt).0, spec, next, [])
  {
    DepartureNames(spec, next);
  }

  /** One more sample advances the takeoff the child is in, and the command is that of the phase it reaches. */
  lemma TakeoffContinues(m: Brain, spec: RunwaySpec, next: Option<Pilot>, seen: seq<Observation>, obs: Observation, dt: real)
    requires TakingOffWith(m, spec, next, seen) && m.dwell >= 0.0 && dt >= 0.0
    ensures var (m', out) := Sample(m, Drive, NEUTRAL, obs, dt);
            && TakingOffWith(m', spec, next, seen + [obs])
            && (m.activeIdx == 1 ==> TakeoffCommanded(TakeoffAfter(LineUp, spec, seen + [obs]), obs, out))
  {
    DepartureNames(spec, next);
    var all := seen + [obs];
    assert all[..|all| - 1] == seen && all[|seen|] == obs;
    assert forall i :: 0 <= i < |seen| ==> all[i] == seen[i];
    assert m.states[1].transitions[1..] == [] && m.states[2].transitions == [];
  }

  lemma ApproachBegins(m: Brain, spec: RunwaySpec, obs: Observation, dt: real)
    requires m.states == ArrivalStates(spec) && m.activeIdx == PATTERN_STATE
    requires Sample(m, Drive, NEUTRAL, obs, dt).0.activeIdx == FINAL_STATE
    ensures OnFinalWith(Sample(m, Drive, NEUTRAL, obs, dt).0, spec, [])
  {
    ArrivalNames(spec);
  }

  /** One more sample of an approach advances the landing, and the command is that of the phase it reaches. */
  lemma ApproachContinues(m: Brain, spec: RunwaySpec, seen: seq<Observation>, obs: Observation, dt: real)
    requires OnFinalWith(m, spec, seen)
    ensures var (m', out) := Sample(m, Drive, NEUTRAL, obs, dt);
            && (m'.activeIdx == FINAL_STATE ==> OnFinalWith(m', spec, seen + [obs]))
            && LandingCommanded(spec, LandingAfter(Final, seen + [obs]), obs, out)
  {
    ArrivalNames(spec);
    var all := seen + [obs];
    assert all[..|all| - 1] == seen && all[|seen|] == obs;
    assert m.states[1].transitions[1..] == [];
  }

  // Over every run.

  lemma OtherStepsKeepBrain(airports: Airports, s: Fleet, e: FleetEvent, out: Control, t: Fleet, f: EntityId)
    requires FleetStep(airports, s, e, out, t)
    ensures f in t.departing <==> f in s.departing
    ensures f in t.arriving <==> f in s.arriving
    ensures f in s.departing && !(e.DepartureSampled? && e.flight == f) ==> t.departing[f] == s.departing[f]
    ensures f in s.arriving && !(e.ArrivalSampled? && e.flight == f) ==> t.arriving[f] == s.arriving[f]
  {
  }

  lemma DwellsForward(airports: Airports, states: seq<Fleet>, events: seq<FleetEvent>, outs: seq<Control>, f: EntityId, n: nat)
    requires FleetRun(airports, states, events, outs) && n < |states|
    ensures f in states[n].departing ==> states[n].departing[f].dwell >= 0.0
  {
    hide Inv, ArrivalBrain, FleetStep, FleetInitial;
    FleetKeepsInv(airports, states, events, outs, n);
  }

  /**
   From the sample at which a departure leaves hold_short, its machine flies one and the same takeoff: at
   every later moment of every run the child is in the phase that the flight's samples since then have
   brought it to, until the first sample above the hand-off altitude, which ends the takeoff for good.
   */
  lemma {:induction false} TakeoffIsFlownThrough(airports: Airports, states: seq<Fleet>, events: seq<FleetEvent>,
                                                 outs: seq<Control>, f: EntityId, spec: RunwaySpec, next: Option<Pilot>,
                                                 j: nat, n: nat)
    requires FleetRun(airports, states, events, outs) && j < n < |states|
    requires LeavesHoldShort(states, events, f, j) && states[j].departing[f].states == DepartureStates(spec, next)
    ensures f in states[n].departing
    ensures TakingOffWith(states[n].departing[f], spec, next, DepartureSamples(events, f, j + 1, n))
  {
    hide TakingOffWith, Sample, TakeoffCommanded, OnRunway, FleetInitial, DepartureStates;
    assert FleetStepAt(airports, states, events, outs, n - 1);
    var s, e := states[n - 1], events[n - 1];
    if n == j + 1 {
      TakeoffBegins(s.departing[f], spec, next, e.obs, e.dt);
    } else {
      TakeoffIsFlownThrough(airports, states, events, outs, f, spec, next, j, n - 1);
      DwellsForward(airports, states, events, outs, f, n - 1);
      OtherStepsKeepBrain(airports, s, e, outs[n - 1], states[n], f);
      var seen := DepartureSamples(events, f, j + 1, n - 1);
      if e.DepartureSampled? && e.flight == f {
        TakeoffContinues(s.departing[f], spec, next, seen, e.obs, e.dt);
      } else {
        assert seen + [] == seen;
      }
    }
  }

  /** Every command given during that takeoff is the one of the phase reached, this sample included. */
  lemma TakeoffCommandsFollowPhase(airports: Airports, states: seq<Fleet>, events: seq<FleetEvent>, outs: seq<Control>,
                                   f: EntityId, spec: RunwaySpec, next: Option<Pilot>, j: nat, n: nat)
    requires FleetRun(airports, states, events, outs) && j < n < |events|
    requires LeavesHoldShort(states, events, f, j) && states[j].departing[f].states == DepartureStates(spec, next)
    requires events[n].DepartureSampled? && events[n].flight == f
    requires !ClimbedPast(spec, DepartureSamples(events, f, j + 1, n))
    ensures TakeoffCommanded(TakeoffAfter(LineUp, spec, DepartureSamples(events, f, j + 1, n + 1)), events[n].obs, outs[n])
  {
    hide Sample, TakeoffCommanded, OnRunway, FleetInitial, LeavesHoldShort;
    TakeoffIsFlownThrough(airports, states, events, outs, f, spec, next, j, n);
    DwellsForward(airports, states, events, outs, f, n);
    assert FleetStepAt(airports, states, events, outs, n);
    TakeoffContinues(states[n].departing[f], spec, next, DepartureSamples(events, f, j + 1, n), events[n].obs, events[n].dt);
  }

  /** From its turn onto final an arrival flies one and the same landing, until it goes around. */
  lemma {:induction false} LandingIsFlownThrough(airports: Airports, states: seq<Fleet>, events: seq<FleetEvent>,
                                                 outs: seq<Control>, a: EntityId, spec: RunwaySpec, entry: nat, n: nat)
    requires FleetRun(airports, states, events, outs) && n < |states| && OnFinalSince(states, a, entry, n)
    requires a in states[entry].arriving && states[entry].arriving[a].states == ArrivalStates(spec)
    ensures a in states[n].arriving
    ensures OnFinalWith(states[n].arriving[a], spec, ArrivalSamples(events, a, entry + 1, n))
  {
    hide OnFinalWith, Sample, LandingCommanded, OnRunway, FleetInitial, ArrivalStates;
    assert FleetStepAt(airports, states, events, outs, n - 1);
    var s, e := states[n - 1], events[n - 1];
    OtherStepsKeepBrain(airports, s, e, outs[n - 1], states[n], a);
    assert OnFinalAt(states[n], a);
    if n == entry + 1 {
      StartsInPattern(airports, states, events, outs, a, entry);
      ApproachBegins(s.arriving[a], spec, e.obs, e.dt);
    } else {
      assert OnFinalAt(states[n - 1], a);
      LandingIsFlownThrough(airports, states, events, outs, a, spec, entry, n - 1);
      var seen := ArrivalSamples(events, a, entry + 1, n - 1);
      if e.ArrivalSampled? && e.flight == a {
        ApproachContinues(s.arriving[a], spec, seen, e.obs, e.dt);
      } else {
        assert seen + [] == seen;
      }
    }
  }

  lemma StartsInPattern(airports: Airports, states: seq<Fleet>, events: seq<FleetEvent>, outs: seq<Control>, a: EntityId, n: nat)
    requires FleetRun(airports, states, events, outs) && n < |states| && a in states[n].arriving && !OnFinalAt(states[n], a)
    ensures states[n].arriving[a].activeIdx == PATTERN_STATE
  {
    hide Inv, DepartureBrain, FleetStep, FleetInitial;
    FleetKeepsInv(airports, states, events, outs, n);
  }

  /** Every command given on final is the one of the phase reached: the wheel brakes come on in the rollout. */
  lemma LandingCommandsFollowPhase(airports: Airports, states: seq<Fleet>, events: seq<FleetEvent>, outs: seq<Control>,
                                   a: EntityId, spec: RunwaySpec, entry: nat, n: nat)
    requires FleetRun(airports, states, events, outs) && n < |events| && OnFinalSince(states, a, entry, n)
    requires a in states[entry].arriving && states[entry].arriving[a].states == ArrivalStates(spec)
    requires events[n].ArrivalSampled? && events[n].flight == a
    ensures LandingCommanded(spec, LandingAfter(Final, ArrivalSamples(events, a, entry + 1, n + 1)), events[n].obs, outs[n])
  {
    hide Sample, LandingCommanded, OnFinalWith, OnRunway, FleetInitial;
    LandingIsFlownThrough(airports, states, events, outs, a, spec, entry, n);
    assert FleetStepAt(airports, states, events, outs, n);
    ApproachContinues(states[n].arriving[a], spec, ArrivalSamples(events, a, entry + 1, n), events[n].obs, events[n].dt);
  }
}
