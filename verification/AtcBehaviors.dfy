/** The departure and arrival compositions: state machines whose gates are ATC clearances. */
module AtcBehaviors {
  import opened Wrappers
  import opened AtcTypes
  import opened StateMachine

  /** The part of a control command the claims are about; steering is not modelled. */
  datatype Control = Control(throttle: real, gearDown: bool, wheelBrake: real)

  const NEUTRAL := Control(0.0, false, 0.0)
  const PARKED := Control(0.0, true, 0.0)

  /** What one tick shows: ATC's answer for this flight, its own motion, and what an unmodelled child commands. */
  datatype Observation = Observation(clearance: ClearanceState, altitude: real, agl: real, groundSpeed: real, other: Control)

  datatype TakeoffPhase = LineUp | Roll | Rotate | Climb | TakeoffDone
  datatype LandingPhase = Final | Flare | Rollout | LandingDone

  datatype RunwaySpec = RunwaySpec(runwayElev: real, climboutAgl: real, approachSpeed: real, rotateSpeed: real)

  /** The child controllers of the two compositions. */
  datatype Pilot = HoldingShort | TakingOff(spec: RunwaySpec, takeoff: TakeoffPhase) | HandedOff
                 | Circling | OnFinal(spec: RunwaySpec, landing: LandingPhase)

  function NextTakeoffPhase(p: TakeoffPhase, spec: RunwaySpec, obs: Observation): TakeoffPhase {
    match p
    case LineUp => if obs.groundSpeed > 2.0 then Roll else p
    case Roll => if obs.groundSpeed >= spec.rotateSpeed then Rotate else p
    case Rotate => if obs.agl > 3.0 then Climb else p
    case Climb => if obs.agl >= spec.climboutAgl then TakeoffDone else p
    case TakeoffDone => p
  }

  function NextLandingPhase(p: LandingPhase, obs: Observation): LandingPhase {
    match p
    case Final => if obs.agl < 12.0 then Flare else p
    case Flare => if obs.agl <= 0.6 then Rollout else p
    case Rollout => if obs.groundSpeed < 2.0 then LandingDone else p
    case LandingDone => p
  }

  function TakeoffRank(p: TakeoffPhase): nat {
    match p
    case LineUp => 0
    case Roll => 1
    case Rotate => 2
    case Climb => 3
    case TakeoffDone => 4
  }

  function TakeoffAfter(p: TakeoffPhase, spec: RunwaySpec, seen: seq<Observation>): TakeoffPhase {
    if seen == [] then p else NextTakeoffPhase(TakeoffAfter(p, spec, seen[..|seen| - 1]), spec, seen[|seen| - 1])
  }

  /**
   However a takeoff is observed, its phase never goes back, and an aircraft that has left the roll has at
   some sample been at rotation speed.
   */
  lemma {:induction false} TakeoffOnlyAdvances(p: TakeoffPhase, spec: RunwaySpec, seen: seq<Observation>)
    ensures TakeoffRank(p) <= TakeoffRank(TakeoffAfter(p, spec, seen)) <= TakeoffRank(p) + |seen|
    ensures TakeoffRank(p) < 2 <= TakeoffRank(TakeoffAfter(p, spec, seen)) ==>
              exists i :: 0 <= i < |seen| && seen[i].groundSpeed >= spec.rotateSpeed
  {
    if seen != [] {
      var before, o := seen[..|seen| - 1], seen[|seen| - 1];
      TakeoffOnlyAdvances(p, spec, before);
      if TakeoffRank(p) < 2 <= TakeoffRank(TakeoffAfter(p, spec, before)) {
        var i :| 0 <= i < |before| && before[i].groundSpeed >= spec.rotateSpeed;
        assert seen[i] == before[i];
      } else {
        assert seen[|seen| - 1] == o;
      }
    }
  }

  function LandingRank(p: LandingPhase): nat {
    match p
    case Final => 0
    case Flare => 1
    case Rollout => 2
    case LandingDone => 3
  }

  function LandingAfter(p: LandingPhase, seen: seq<Observation>): LandingPhase {
    if seen == [] then p else NextLandingPhase(LandingAfter(p, seen[..|seen| - 1]), seen[|seen| - 1])
  }

  /** Nor does a landing's: the wheel brakes wait for a sample at touchdown height. */
  lemma {:induction false} LandingOnlyAdvances(p: LandingPhase, seen: seq<Observation>)
    ensures LandingRank(p) <= LandingRank(LandingAfter(p, seen)) <= LandingRank(p) + |seen|
    ensures LandingRank(p) < 2 <= LandingRank(LandingAfter(p, seen)) ==>
              exists i :: 0 <= i < |seen| && seen[i].agl <= 0.6
  {
    if seen != [] {
      var before, o := seen[..|seen| - 1], seen[|seen| - 1];
      LandingOnlyAdvances(p, before);
      if LandingRank(p) < 2 <= LandingRank(LandingAfter(p, before)) {
        var i :| 0 <= i < |before| && before[i].agl <= 0.6;
        assert seen[i] == before[i];
      } else {
        assert seen[|seen| - 1] == o;
      }
    }
  }

  function Clamp(x: real, lo: real, hi: real): real {
    if x < lo then lo else if x > hi then hi else x
  }

  /** One sample of a child: its phase advances first, then the phase it is now in commands. */
  function Drive(p: Pilot, obs: Observation): (Pilot, Control) {
    match p
    case HoldingShort => (p, PARKED)
    case TakingOff(spec, phase) =>
      var now := NextTakeoffPhase(phase, spec, obs);
      (TakingOff(spec, now),
       match now
       case Climb => Control(1.0, obs.agl < 30.0, 0.0)
       case TakeoffDone => NEUTRAL
       case _ => Control(1.0, true, 0.0))
    case OnFinal(spec, phase) =>
      var now := NextLandingPhase(phase, obs);
      (OnFinal(spec, now),
       match now
       case Final => Control(Clamp(0.5 + 0.02 * (spec.approachSpeed - obs.groundSpeed), 0.0, 1.0), true, 0.0)
       case Rollout => Control(0.0, true, 1.0)
       case _ => Control(0.0, true, 0.0))
    case _ => (p, obs.other)
  }

  type Brain = Machine<Observation, Pilot>

  function ClearedForTakeoff(): Observation -> bool { (o: Observation) => o.clearance.ClearedTakeoff? }
  function ClearedForLanding(): Observation -> bool { (o: Observation) => o.clearance.ClearedToLand? }
  function ToldToGoAround(): Observation -> bool { (o: Observation) => o.clearance.GoAround? }
  function AboveAltitude(alt: real): Observation -> bool { (o: Observation) => o.altitude > alt }

  /** hold short -> (cleared) take off -> (climbed out) hand off to the next controller, which may be none. */
  function DepartureStates(spec: RunwaySpec, next: Option<Pilot>): seq<State<Observation, Pilot>> {
    [State("hold_short", Some(HoldingShort), [Transition("takeoff", ClearedForTakeoff(), 0.0)]),
     State("takeoff", Some(TakingOff(spec, LineUp)),
           [Transition("depart", AboveAltitude(spec.runwayElev + spec.climboutAgl), 0.0)]),
     State("depart", next, [])]
  }

  /** circle the pattern -> (cleared) fly the approach; a wave-off leads back, after a second at least. */
  function ArrivalStates(spec: RunwaySpec): seq<State<Observation, Pilot>> {
    [State("pattern", Some(Circling), [Transition("final", ClearedForLanding(), 0.0)]),
     State("final", Some(OnFinal(spec, Final)), [Transition("pattern", ToldToGoAround(), 1.0)])]
  }

  const HOLD_SHORT_STATE := 0
  const PATTERN_STATE := 0
  const FINAL_STATE := 1

  method MakeDepartureController(spec: RunwaySpec, next: Option<Pilot>)
      returns (sm: StateMachineController<Observation, Pilot, Control>)
    ensures fresh(sm) && sm.Valid() && sm.drive == Drive && sm.neutral == NEUTRAL
    ensures sm.Value() == Machine(DepartureStates(spec, next), HOLD_SHORT_STATE, Some(HoldingShort), 0.0)
  {
    sm := new StateMachineController(Drive, NEUTRAL);
    sm.AddStateOf("hold_short", Some(HoldingShort));
    sm.AddStateOf("takeoff", Some(TakingOff(spec, LineUp)));
    sm.AddStateOf("depart", next);
    assert sm.states == [State("hold_short", Some(HoldingShort), []), State("takeoff", Some(TakingOff(spec, LineUp)), []),
                         State("depart", next, [])];
    assert sm.states[0].name == "hold_short" && sm.states[1].name == "takeoff";
    sm.AddTransitionOf("hold_short", "takeoff", ClearedForTakeoff(), 0.0);
    assert sm.states[0].name == "hold_short" && sm.states[1].name == "takeoff";
    sm.AddTransitionOf("takeoff", "depart", AboveAltitude(spec.runwayElev + spec.climboutAgl), 0.0);
    assert sm.states[0].transitions == DepartureStates(spec, next)[0].transitions
        && sm.states[1].transitions == DepartureStates(spec, next)[1].transitions;
    assert sm.states == DepartureStates(spec, next);
    sm.SetInitialState("hold_short");
  }

  method MakeArrivalController(spec: RunwaySpec) returns (sm: StateMachineController<Observation, Pilot, Control>)
    ensures fresh(sm) && sm.Valid() && sm.drive == Drive && sm.neutral == NEUTRAL
    ensures sm.Value() == Machine(ArrivalStates(spec), PATTERN_STATE, Some(Circling), 0.0)
  {
    sm := new StateMachineController(Drive, NEUTRAL);
    sm.AddStateOf("pattern", Some(Circling));
    sm.AddStateOf("final", Some(OnFinal(spec, Final)));
    assert sm.states[0].name == "pattern" && sm.states[1].name == "final";
    sm.AddTransitionOf("pattern", "final", ClearedForLanding(), 0.0);
    assert sm.states[0].name == "pattern" && sm.states[1].name == "final";
    sm.AddTransitionOf("final", "pattern", ToldToGoAround(), 1.0);
    assert sm.states[0].transitions == ArrivalStates(spec)[0].transitions
        && sm.states[1].transitions == ArrivalStates(spec)[1].transitions;
    assert sm.states == ArrivalStates(spec);
    sm.SetInitialState("pattern");
  }
}
