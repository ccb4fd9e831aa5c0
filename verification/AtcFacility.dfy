/** One controlling facility: the mutable sequencer, each method proved against its sequencing function. */
module AtcFacility {
  import opened AtcTypes
  import opened SeqOps
  import opened Sequencer
  import opened Safety

  class Tower {
    const acceptsLandings: bool
    var departures: seq<EntityId>
    var arrivals: seq<EntityId>
    var clearance: map<nat, Clearance>
    var occupant: EntityId
    var occKind: Occupancy
    var occSince: nat
    var hold: bool

    function State(): Facility
      reads this
    {
      Facility(acceptsLandings, departures, arrivals, clearance, occupant, occKind, occSince, hold)
    }

    constructor (acceptsLandings: bool)
      ensures State() == Initial(acceptsLandings)
    {
      this.acceptsLandings := acceptsLandings;
      departures, arrivals, clearance := [], [], map[];
      occupant, occKind, occSince, hold := NULL_ID, Free, 0, false;
    }

    method SetClearanceOf(flight: EntityId, s: ClearanceState)
      modifies this`clearance
      ensures clearance == SetClearance(old(clearance), flight, s)
    {
      var c := if flight.index in clearance then clearance[flight.index] else Clearance(NULL_ID, NoClearance, 0);
      if c.id != flight {
        c := c.(holdOffUntil := 0);
      }
      clearance := clearance[flight.index := c.(id := flight, state := s)];
    }

    method HoldOffUntil(flight: EntityId, until: nat)
      modifies this`clearance
      ensures clearance == HoldOff(old(clearance), flight, until)
    {
      var c := if flight.index in clearance then clearance[flight.index] else Clearance(NULL_ID, NoClearance, 0);
      clearance := clearance[flight.index := c.(id := flight, holdOffUntil := until)];
    }

    method RequestTakeoff(flight: EntityId)
      modifies this
      ensures State() == Sequencer.RequestTakeoff(old(State()), flight)
    {
      if !flight.Valid() {
        return;
      }
      if flight !in departures && occupant != flight {
        departures := departures + [flight];
      }
      var cur := StateOf(clearance, flight);
      if cur.NoClearance? || cur.Landed? || cur.Departed? {
        SetClearanceOf(flight, HoldShort);
      }
    }

    method RequestLanding(flight: EntityId)
      modifies this
      ensures State() == Sequencer.RequestLanding(old(State()), flight)
    {
      if !flight.Valid() || !acceptsLandings {
        return;
      }
      if flight !in arrivals {
        arrivals := arrivals + [flight];
      }
      if !StateOf(clearance, flight).ClearedToLand? {
        SetClearanceOf(flight, Pattern);
      }
    }

    method DeclareInbound(flight: EntityId) returns (out: seq<Radio>)
      modifies this
      ensures (State(), out) == Sequencer.DeclareInbound(old(State()), flight)
    {
      out := [];
      if !flight.Valid() || !acceptsLandings {
        return;
      }
      if flight !in arrivals {
        arrivals := arrivals + [flight];
      }
      SetClearanceOf(flight, Inbound);
      out := [Radio(SayContactApproach, flight)];
    }

    method SetHoldDepartures(on: bool)
      modifies this`hold
      ensures hold == on
    {
      hold := on;
    }

    method RemoveFlight(flight: EntityId)
      modifies this
      ensures State() == Sequencer.RemoveFlight(old(State()), flight)
    {
      hide Filter;
      departures := EraseUnless(departures, id => id != flight);
      arrivals := EraseUnless(arrivals, id => id != flight);
      clearance := clearance - {flight.index};
      if occupant == flight {
        occupant, occKind := NULL_ID, Free;
      }
    }

    /** Walks the clearance table and erases the entries whose entity is gone. */
    method DropStaleClearances(w: World)
      modifies this`clearance
      ensures clearance == LiveClearances(old(clearance), w)
    {
      var todo := clearance.Keys;
      ghost var was := clearance;
      while todo != {}
        invariant todo <= clearance.Keys <= was.Keys
        invariant forall k :: k in clearance ==> clearance[k] == was[k]
        invariant forall k :: k in was && k !in todo ==> (k in clearance <==> !Gone(w, was[k].id))
        decreases todo
      {
        var k :| k in todo;
        if Gone(w, clearance[k].id) {
          clearance := clearance - {k};
        }
        todo := todo - {k};
      }
    }

    method PruneGone(w: World)
      modifies this
      ensures State() == Prune(old(State()), w)
    {
      hide LiveClearances;
      departures := EraseUnless(departures, id => !Gone(w, id));
      arrivals := EraseUnless(arrivals, id => !Gone(w, id));
      DropStaleClearances(w);
      if !occKind.Free? && Gone(w, occupant) {
        occupant, occKind := NULL_ID, Free;
      }
    }

    method AnyOtherSequenceable(tick: nat) returns (found: bool)
      ensures found <==> exists id :: id in arrivals && id != occupant && Sequenceable(clearance, id, tick)
    {
      found := false;
      for i := 0 to |arrivals|
        invariant !found
        invariant forall j :: 0 <= j < i ==> arrivals[j] == occupant || !Sequenceable(clearance, arrivals[j], tick)
      {
        if arrivals[i] != occupant && Sequenceable(clearance, arrivals[i], tick) {
          return true;
        }
      }
    }

    method ReleaseRunway(w: World, tick: nat) returns (out: seq<Radio>)
      modifies this
      ensures (State(), out) == Release(old(State()), w, tick)
    {
      out := [];
      if occKind.Departure? {
        var climbedOut := occupant in w && w[occupant].agl > OCC_CLEAR_AGL;
        if climbedOut || Elapsed(tick, occSince) > DEPARTURE_BUDGET {
          SetClearanceOf(occupant, Departed);
          occupant, occKind := NULL_ID, Free;
        }
      } else if occKind.Arrival? {
        var stopped := occupant in w && w[occupant].speed < STOPPED_SPEED && w[occupant].agl < STOPPED_AGL;
        if stopped {
          var lander := occupant;
          occupant, occKind := NULL_ID, Free;
          SetClearanceOf(lander, Landed);
          arrivals := EraseUnless(arrivals, id => id != lander);
          out := [Radio(SayTaxiToParking, lander)];
        } else if Elapsed(tick, occSince) > ARRIVAL_BUDGET {
          var anotherArrivalWaiting := AnyOtherSequenceable(tick);
          var departureWaiting := !hold && departures != [];
          if anotherArrivalWaiting || departureWaiting {
            var waved := occupant;
            occupant, occKind := NULL_ID, Free;
            SetClearanceOf(waved, GoAround);
            HoldOffUntil(waved, tick + HOLD_OFF);
            out := [Radio(SayGoAround, waved)];
          } else {
            occSince := tick;
          }
        }
      }
    }

    method FindHead(tick: nat) returns (h: nat)
      ensures h == Head(arrivals, clearance, tick)
    {
      h := 0;
      while h < |arrivals| && !Sequenceable(clearance, arrivals[h], tick)
        invariant h <= |arrivals|
        invariant forall j :: 0 <= j < h ==> !Sequenceable(clearance, arrivals[j], tick)
      {
        h := h + 1;
      }
    }

    method GrantRunway(w: World, tick: nat) returns (out: seq<Radio>)
      modifies this
      ensures (State(), out) == Grant(old(State()), w, tick)
    {
      out := [];
      var h := FindHead(tick);
      var seen := h < |arrivals| && arrivals[h] in w;
      var arrivalNear := seen && w[arrivals[h]].dist < DEPARTURE_HOLD_RANGE;
      var arrivalShortFinal := seen && w[arrivals[h]].dist < SHORT_FINAL_RANGE;
      if occKind.Free? {
        if arrivalNear {
          var lander := arrivals[h];
          if !StateOf(clearance, lander).ClearedToLand? {
            SetClearanceOf(lander, ClearedToLand);
            out := [Radio(SayClearedToLand, lander)];
          }
          occupant, occKind, occSince := lander, Arrival, tick;
        } else if !hold && departures != [] {
          var dep := departures[0];
          departures := departures[1..];
          SetClearanceOf(dep, ClearedTakeoff);
          out := [Radio(SayClearedTakeoff, dep)];
          occupant, occKind, occSince := dep, Departure, tick;
        }
      } else if arrivalShortFinal && arrivals[h] != occupant && !StateOf(clearance, arrivals[h]).GoAround? {
        var waved := arrivals[h];
        SetClearanceOf(waved, GoAround);
        HoldOffUntil(waved, tick + HOLD_OFF);
        out := [Radio(SayGoAround, waved)];
      }
    }

    /** One ATC step against the live world. */
    method Update(w: World, tick: nat) returns (out: seq<Radio>)
      modifies this
      ensures Updates(old(State()), w, tick, State())
      ensures out == UpdateWith(old(State()), w, tick, arrivals).1
    {
      hide Prune, Release, Grant;
      PruneGone(w);
      var released := ReleaseRunway(w, tick);
      ghost var r := State();
      arrivals := SortByDistance(arrivals, w);
      assert State() == r.(arrivals := arrivals);
      ghost var order := arrivals;
      var granted := GrantRunway(w, tick);
      GrantKeepsOrder(r.(arrivals := order), w, tick);
      out := released + granted;
    }
  }

  lemma GrantKeepsOrder(s: Facility, w: World, tick: nat)
    ensures Grant(s, w, tick).0.arrivals == s.arrivals
  {
  }

  /** The erase-remove idiom: what does not satisfy `keep` is taken out, the rest stays in order. */
  method EraseUnless(q: seq<EntityId>, keep: EntityId -> bool) returns (r: seq<EntityId>)
    ensures r == Filter(q, keep)
  {
    r := [];
    for i := 0 to |q|
      invariant r == Filter(q[..i], keep)
    {
      assert q[..i + 1] == q[..i] + [q[i]];
      FilterAppend(q[..i], q[i], keep);
      if keep(q[i]) {
        r := r + [q[i]];
      }
    }
    assert q[..|q|] == q;
  }

  /** Nearest first. The library sort is not stable; this is one of the orders it may leave. */
  method SortByDistance(q: seq<EntityId>, w: World) returns (r: seq<EntityId>)
    ensures SortedOrder(q, r, w)
  {
    r := [];
    for i := 0 to |q|
      invariant multiset(r) == multiset(q[..i]) && Nearest(r, w)
    {
      assert q[..i + 1] == q[..i] + [q[i]];
      r := InsertByDistance(r, q[i], w);
    }
    assert q[..|q|] == q;
  }

  method InsertByDistance(q: seq<EntityId>, x: EntityId, w: World) returns (r: seq<EntityId>)
    requires Nearest(q, w)
    ensures multiset(r) == multiset(q) + multiset{x} && Nearest(r, w)
  {
    var k := |q|;
    while k > 0 && !NoFarther(w, q[k - 1], x)
      invariant 0 <= k <= |q|
      invariant forall j :: k <= j < |q| ==> NoFarther(w, x, q[j])
    {
      k := k - 1;
    }
    InsertNearest(q, k, x, w);
    assert q == q[..k] + q[k..];
    r := q[..k] + [x] + q[k..];
  }

  lemma InsertNearest(q: seq<EntityId>, k: nat, x: EntityId, w: World)
    requires Nearest(q, w) && k <= |q| && (k > 0 ==> NoFarther(w, q[k - 1], x))
    requires forall j :: k <= j < |q| ==> NoFarther(w, x, q[j])
    ensures Nearest(q[..k] + [x] + q[k..], w)
  {
    forall i | 0 <= i < k ensures NoFarther(w, q[i], x) {
      assert i < k - 1 ==> NoFarther(w, q[i], q[k - 1]);
    }
    var r := q[..k] + [x] + q[k..];
    assert forall i :: 0 <= i < |r| ==> r[i] == if i < k then q[i] else if i == k then x else q[i - 1];
  }
}
