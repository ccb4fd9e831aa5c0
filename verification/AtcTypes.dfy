/** Entity handles, clearance states and radio phrases of the air-traffic-control layer. */
module AtcTypes {

  /** A pool handle: slot index and generation. Generation 0 is the null handle. */
  datatype EntityId = EntityId(index: nat, generation: nat) {
    predicate Valid() { generation != 0 }
  }

  const NULL_ID := EntityId(0, 0)

  datatype ClearanceState =
    | NoClearance | HoldShort | ClearedTakeoff | Departed
    | Inbound | Pattern | ClearedToLand | GoAround | Landed

  datatype Phrase = SayClearedTakeoff | SayClearedToLand | SayGoAround | SayContactApproach | SayTaxiToParking

  /** One radio line: the phrase and the flight it is directed at. */
  datatype Radio = Radio(phrase: Phrase, target: EntityId)

  /** What the facility reads of one entity: altitudes, speed and distance come from the environment. */
  datatype Sight = Sight(dead: bool, agl: real, speed: real, dist: real)

  /** The live entities of one instant; a handle that is not a key resolves to nothing. */
  type World = map<EntityId, Sight>

  predicate Gone(w: World, id: EntityId) {
    id !in w || w[id].dead
  }

  /** f is alive and no other handle that resolves uses its pool slot. */
  ghost predicate HoldsSlot(w: World, f: EntityId) {
    !Gone(w, f) && forall g :: g in w && g.index == f.index ==> g == f
  }

  /** The pool as it is: no two live handles share a slot. */
  ghost predicate OneLivePerSlot(w: World) {
    forall f, g :: !Gone(w, f) && !Gone(w, g) && f.index == g.index ==> f == g
  }
}
