/** The runway sequencer as functions on values: what each entry point of a facility computes. */
module Sequencer {
  import opened AtcTypes
  import opened SeqOps

  const DEPARTURE_HOLD_RANGE := 6000.0
  const SHORT_FINAL_RANGE := 3000.0
  const OCC_CLEAR_AGL := 40.0
  const STOPPED_SPEED := 3.0
  const STOPPED_AGL := 5.0
  const DEPARTURE_BUDGET := 5400
  const ARRIVAL_BUDGET := 14400
  const HOLD_OFF := 7200
  const TICK_MODULUS := 0x1_0000_0000_0000_0000

  datatype Occupancy = Free | Departure | Arrival

  datatype Clearance = Clearance(id: EntityId, state: ClearanceState, holdOffUntil: nat)

  datatype Facility = Facility(
    acceptsLandings: bool,
    departures: seq<EntityId>,
    arrivals: seq<EntityId>,
    clearance: map<nat, Clearance>,
    occupant: EntityId,
    occKind: Occupancy,
    occSince: nat,
    hold: bool)

  /** Ticks elapsed since `since`; the subtraction is on 64-bit unsigned integers. */
  function Elapsed(tick: nat, since: nat): nat {
    if tick >= since then tick - since else (tick - since) % TICK_MODULUS
  }

  function Slot(c: map<nat, Clearance>, flight: EntityId): Clearance {
    if flight.index in c then c[flight.index] else Clearance(NULL_ID, NoClearance, 0)
  }

  /** Re-keys the slot to `flight`; a hold-off survives only when the slot already was this flight's. */
  function SetClearance(c: map<nat, Clearance>, flight: EntityId, s: ClearanceState): map<nat, Clearance> {
    var prev := Slot(c, flight);
    c[flight.index := Clearance(flight, s, if prev.id != flight then 0 else prev.holdOffUntil)]
  }

  function HoldOff(c: map<nat, Clearance>, flight: EntityId, until: nat): map<nat, Clearance> {
    c[flight.index := Slot(c, flight).(id := flight, holdOffUntil := until)]
  }

  /** Waving a flight off stamps GoAround and parks it outside the sequence. */
  function WaveOff(c: map<nat, Clearance>, flight: EntityId, tick: nat): map<nat, Clearance> {
    HoldOff(SetClearance(c, flight, GoAround), flight, tick + HOLD_OFF)
  }

  /** Erases by slot index, whichever generation is recorded there. */
  function Forget(c: map<nat, Clearance>, flight: EntityId): map<nat, Clearance> {
    c - {flight.index}
  }

  predicate Known(c: map<nat, Clearance>, flight: EntityId) {
    flight.index in c && c[flight.index].id == flight
  }

  predicate Sequenceable(c: map<nat, Clearance>, flight: EntityId, tick: nat) {
    !Known(c, flight) || tick >= c[flight.index].holdOffUntil
  }

  function StateOf(c: map<nat, Clearance>, flight: EntityId): ClearanceState {
    if Known(c, flight) then c[flight.index].state else NoClearance
  }

  function RequestTakeoff(s: Facility, flight: EntityId): Facility {
    if !flight.Valid() then s
    else
      var q := if flight !in s.departures && s.occupant != flight then s.departures + [flight] else s.departures;
      var cur := StateOf(s.clearance, flight);
      var c := if cur.NoClearance? || cur.Landed? || cur.Departed?
               then SetClearance(s.clearance, flight, HoldShort) else s.clearance;
      s.(departures := q, clearance := c)
  }

  function Enrol(q: seq<EntityId>, flight: EntityId): seq<EntityId> {
    if flight in q then q else q + [flight]
  }

  function RequestLanding(s: Facility, flight: EntityId): Facility {
    if !flight.Valid() || !s.acceptsLandings then s
    else
      s.(arrivals := Enrol(s.arrivals, flight),
         clearance := if StateOf(s.clearance, flight).ClearedToLand? then s.clearance
                      else SetClearance(s.clearance, flight, Pattern))
  }

  function DeclareInbound(s: Facility, flight: EntityId): (Facility, seq<Radio>) {
    if !flight.Valid() || !s.acceptsLandings then (s, [])
    else
      (s.(arrivals := Enrol(s.arrivals, flight), clearance := SetClearance(s.clearance, flight, Inbound)),
       [Radio(SayContactApproach, flight)])
  }

  function Without(q: seq<EntityId>, flight: EntityId): seq<EntityId> {
    Filter(q, id => id != flight)
  }

  function Vacate(s: Facility): Facility {
    s.(occupant := NULL_ID, occKind := Free)
  }

  function RemoveFlight(s: Facility, flight: EntityId): Facility {
    var r := s.(departures := Without(s.departures, flight),
                arrivals := Without(s.arrivals, flight),
                clearance := Forget(s.clearance, flight));
    if s.occupant == flight then Vacate(r) else r
  }

  function Survivors(q: seq<EntityId>, w: World): seq<EntityId> {
    Filter(q, id => !Gone(w, id))
  }

  function LiveClearances(c: map<nat, Clearance>, w: World): map<nat, Clearance> {
    map k | k in c && !Gone(w, c[k].id) :: c[k]
  }

  /** Step 1 of an update: forget every flight whose entity is gone. */
  function Prune(s: Facility, w: World): Facility {
    var r := s.(departures := Survivors(s.departures, w),
                arrivals := Survivors(s.arrivals, w),
                clearance := LiveClearances(s.clearance, w));
    if !s.occKind.Free? && Gone(w, s.occupant) then Vacate(r) else r
  }

  predicate ClimbedOut(s: Facility, w: World) {
    s.occupant in w && w[s.occupant].agl > OCC_CLEAR_AGL
  }

  predicate Stopped(s: Facility, w: World) {
    s.occupant in w && w[s.occupant].speed < STOPPED_SPEED && w[s.occupant].agl < STOPPED_AGL
  }

  predicate SomeoneWaiting(s: Facility, tick: nat) {
    || (exists id :: id in s.arrivals && id != s.occupant && Sequenceable(s.clearance, id, tick))
    || (!s.hold && s.departures != [])
  }

  /** Step 2 of an update: end the current occupancy when it is finished or over budget. */
  function Release(s: Facility, w: World, tick: nat): (Facility, seq<Radio>) {
    match s.occKind
    case Departure =>
      if ClimbedOut(s, w) || Elapsed(tick, s.occSince) > DEPARTURE_BUDGET then
        (Vacate(s.(clearance := SetClearance(s.clearance, s.occupant, Departed))), [])
      else (s, [])
    case Arrival =>
      if Stopped(s, w) then
        (Vacate(s.(clearance := SetClearance(s.clearance, s.occupant, Landed),
                   arrivals := Without(s.arrivals, s.occupant))),
         [Radio(SayTaxiToParking, s.occupant)])
      else if Elapsed(tick, s.occSince) > ARRIVAL_BUDGET then
        if SomeoneWaiting(s, tick) then
          (Vacate(s.(clearance := WaveOff(s.clearance, s.occupant, tick))), [Radio(SayGoAround, s.occupant)])
        else (s.(occSince := tick), [])
      else (s, [])
    case Free => (s, [])
  }

  /** Step 3 of an update: an entity that does not resolve sorts behind every one that does. */
  predicate NoFarther(w: World, a: EntityId, b: EntityId) {
    b in w ==> a in w && w[a].dist <= w[b].dist
  }

  ghost predicate Nearest(q: seq<EntityId>, w: World) {
    forall i, j :: 0 <= i < j < |q| ==> NoFarther(w, q[i], q[j])
  }

  /** Any order the library sort may leave: the same flights, nearest first, ties in any order. */
  ghost predicate SortedOrder(before: seq<EntityId>, after: seq<EntityId>, w: World) {
    multiset(before) == multiset(after) && Nearest(after, w)
  }

  /** The first arrival that is not serving a wave-off, or |q| when there is none. */
  function Head(q: seq<EntityId>, c: map<nat, Clearance>, tick: nat): (h: nat)
    ensures h <= |q|
    ensures h < |q| ==> Sequenceable(c, q[h], tick)
    ensures forall i :: 0 <= i < h ==> !Sequenceable(c, q[i], tick)
  {
    if q == [] then 0
    else if Sequenceable(c, q[0], tick) then 0
    else 1 + Head(q[1..], c, tick)
  }

  predicate ArrivalWithin(s: Facility, w: World, tick: nat, range: real) {
    var h := Head(s.arrivals, s.clearance, tick);
    h < |s.arrivals| && s.arrivals[h] in w && w[s.arrivals[h]].dist < range
  }

  /** Step 4 of an update: give a free runway away, or wave off the flight on short final. */
  function Grant(s: Facility, w: World, tick: nat): (Facility, seq<Radio>) {
    var h := Head(s.arrivals, s.clearance, tick);
    if s.occKind.Free? then
      if ArrivalWithin(s, w, tick, DEPARTURE_HOLD_RANGE) then
        var lander := s.arrivals[h];
        var cleared := StateOf(s.clearance, lander).ClearedToLand?;
        (s.(clearance := if cleared then s.clearance else SetClearance(s.clearance, lander, ClearedToLand),
            occupant := lander, occKind := Arrival, occSince := tick),
         if cleared then [] else [Radio(SayClearedToLand, lander)])
      else if !s.hold && s.departures != [] then
        var dep := s.departures[0];
        (s.(departures := s.departures[1..],
            clearance := SetClearance(s.clearance, dep, ClearedTakeoff),
            occupant := dep, occKind := Departure, occSince := tick),
         [Radio(SayClearedTakeoff, dep)])
      else (s, [])
    else if ArrivalWithin(s, w, tick, SHORT_FINAL_RANGE) && s.arrivals[h] != s.occupant
            && !StateOf(s.clearance, s.arrivals[h]).GoAround? then
      (s.(clearance := WaveOff(s.clearance, s.arrivals[h], tick)), [Radio(SayGoAround, s.arrivals[h])])
    else (s, [])
  }

  /** One whole update, given the order the sort leaves the arrivals in. */
  function UpdateWith(s: Facility, w: World, tick: nat, order: seq<EntityId>): (Facility, seq<Radio>) {
    var r := Release(Prune(s, w), w, tick);
    var g := Grant(r.0.(arrivals := order), w, tick);
    (g.0, r.1 + g.1)
  }

  function Unsorted(s: Facility, w: World, tick: nat): seq<EntityId> {
    Release(Prune(s, w), w, tick).0.arrivals
  }

  /** `t` is a state an update may leave: step 4 keeps the order that step 3 chose. */
  ghost predicate Updates(s: Facility, w: World, tick: nat, t: Facility) {
    SortedOrder(Unsorted(s, w, tick), t.arrivals, w) && t == UpdateWith(s, w, tick, t.arrivals).0
  }
}
