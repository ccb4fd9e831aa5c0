/** What each request does to the facility it reaches, in terms of what flights read before and after. */
module RequestDecides {
  import opened AtcTypes
  import opened SeqOps
  import opened Sequencer
  import opened UpdateDecides

  /** Ticks are 64-bit: the time since `since` is the difference, counted around the word when it has wrapped. */
  lemma ElapsedWraps(tick: nat, since: nat)
    requires tick < 0x1_0000_0000_0000_0000 && since < 0x1_0000_0000_0000_0000
    ensures Elapsed(tick, since) == if tick >= since then tick - since else tick + 0x1_0000_0000_0000_0000 - since
  {
  }

  /** Every flight in another pool slot reads what it read and is held off as long as it was. */
  ghost predicate OthersKeep(s: Facility, t: Facility, f: EntityId) {
    forall g: EntityId :: g.index != f.index ==>
      StateOf(t.clearance, g) == StateOf(s.clearance, g) && HoldOffOf(t.clearance, g) == HoldOffOf(s.clearance, g)
  }

  /** What no request but a cancel touches: the runway, whether departures are held, what kind of field it is. */
  predicate RunwayKept(s: Facility, t: Facility) {
    && t.occupant == s.occupant && t.occKind == s.occKind && t.occSince == s.occSince
    && t.hold == s.hold && t.acceptsLandings == s.acceptsLandings
  }

  /**
   Asking for takeoff puts a flight at the end of the queue once, unless it has the runway; it is told to
   hold short unless it already reads something that matters, and a second request changes nothing.
   */
  lemma TakeoffRequestDecides(s: Facility, f: EntityId)
    ensures f.generation == 0 ==> RequestTakeoff(s, f) == s
    ensures f.generation != 0 ==>
              var t := RequestTakeoff(s, f);
              && t.departures == (if f in s.departures || f == s.occupant then s.departures else s.departures + [f])
              && t.arrivals == s.arrivals && RunwayKept(s, t) && OthersKeep(s, t, f)
              && (StateOf(s.clearance, f) in {NoClearance, Landed, Departed} ==> StateOf(t.clearance, f) == HoldShort)
              && (StateOf(s.clearance, f) !in {NoClearance, Landed, Departed} ==> t.clearance == s.clearance)
              && HoldOffOf(t.clearance, f) == HoldOffOf(s.clearance, f)
              && RequestTakeoff(t, f) == t
  {
  }

  /**
   Asking to land puts a flight at the end of the arrivals once and into the pattern, unless it is cleared
   already; where landings are not accepted, nothing happens. A hold-off it is serving stands.
   */
  lemma LandingRequestDecides(s: Facility, f: EntityId)
    ensures f.generation == 0 || !s.acceptsLandings ==> RequestLanding(s, f) == s
    ensures f.generation != 0 && s.acceptsLandings ==>
              var t := RequestLanding(s, f);
              && t.arrivals == (if f in s.arrivals then s.arrivals else s.arrivals + [f])
              && t.departures == s.departures && RunwayKept(s, t) && OthersKeep(s, t, f)
              && StateOf(t.clearance, f) == (if StateOf(s.clearance, f).ClearedToLand? then ClearedToLand else Pattern)
              && HoldOffOf(t.clearance, f) == HoldOffOf(s.clearance, f)
              && RequestLanding(t, f) == t
  {
  }

  /** Declaring inbound does the same from any reading, answers `inbound`, and is acknowledged over the radio. */
  lemma InboundDecides(s: Facility, f: EntityId)
    ensures f.generation == 0 || !s.acceptsLandings ==> DeclareInbound(s, f) == (s, [])
    ensures f.generation != 0 && s.acceptsLandings ==>
              var (t, out) := DeclareInbound(s, f);
              && out == [Radio(SayContactApproach, f)]
              && t.arrivals == (if f in s.arrivals then s.arrivals else s.arrivals + [f])
              && t.departures == s.departures && RunwayKept(s, t) && OthersKeep(s, t, f)
              && StateOf(t.clearance, f) == Inbound && HoldOffOf(t.clearance, f) == HoldOffOf(s.clearance, f)
  {
  }

  /** Cancelling takes a flight out of both queues and off the runway, and clears its slot; nobody else moves. */
  lemma CancelDecides(s: Facility, f: EntityId)
    ensures var t := RemoveFlight(s, f);
            && t.departures == Filter(s.departures, g => g != f) && t.arrivals == Filter(s.arrivals, g => g != f)
            && f.index !in t.clearance && OthersKeep(s, t, f)
            && (s.occupant == f ==> t.occKind.Free? && t.occupant == NULL_ID)
            && (s.occupant != f ==> t.occKind == s.occKind && t.occupant == s.occupant)
            && t.occSince == s.occSince && t.hold == s.hold && t.acceptsLandings == s.acceptsLandings
  {
  }
}
