/** The service: one tower per airport in use, requests routed by airport id, and the shared radio outbox. */
module AtcService {
  import opened AtcTypes
  import opened SeqOps
  import opened Sequencer
  import opened Safety
  import opened AtcFacility

  type Facilities = map<string, Facility>

  /** The registry: airports that have a runway, and whether they accept landings. */
  type Airports = map<string, bool>

  function Opened(fs: Facilities, airports: Airports, id: string): Facilities {
    if id == "" || id in fs || id !in airports then fs else fs[id := Initial(airports[id])]
  }

  function Respond(s: Facility, e: Event): Facility {
    match e
    case TakeoffRequested(f) => RequestTakeoff(s, f)
    case LandingRequested(f) => RequestLanding(s, f)
    case InboundDeclared(f) => DeclareInbound(s, f).0
    case Cancelled(f) => RemoveFlight(s, f)
    case HoldSet(on) => s.(hold := on)
    case Updated(_) => s
  }

  /** A request reaches the tower of that id, opened on first use; an unknown airport swallows it. */
  function Routed(fs: Facilities, airports: Airports, id: string, e: Event): Facilities {
    var us := Opened(fs, airports, id);
    if id != "" && id in us then us[id := Respond(us[id], e)] else us
  }

  /**
   A request for an airport in use reaches its tower; for one that is not yet but is known, it reaches a
   newly made tower that has seen nothing; for an unknown or empty id nothing happens. No other tower
   is touched, and none is closed.
   */
  lemma RoutedReaches(fs: Facilities, airports: Airports, id: string, e: Event)
    ensures var us := Routed(fs, airports, id, e);
            && (forall k :: k in fs && k != id ==> k in us && us[k] == fs[k])
            && (forall k :: k in us && k != id ==> k in fs)
            && (id != "" && id in fs ==> id in us && us[id] == Respond(fs[id], e))
            && (id != "" && id !in fs && id in airports ==>
                  id in us && us[id] == Respond(Facility(airports[id], [], [], map[], NULL_ID, Free, 0, false), e))
            && (id == "" || (id !in fs && id !in airports) ==> us == fs)
  {
  }

  /** What a tower does with a request is one step of its protocol. */
  lemma RespondsByTheProtocol(s: Facility, e: Event, w: World)
    requires !e.Updated?
    ensures Step(s, e, w, Respond(s, e))
  {
  }

  function CancelledEverywhere(fs: Facilities, f: EntityId): Facilities {
    map id | id in fs :: RemoveFlight(fs[id], f)
  }

  ghost predicate Ticked(fs: Facilities, w: World, tick: nat, fs': Facilities) {
    fs'.Keys == fs.Keys && forall id :: id in fs ==> Updates(fs[id], w, tick, fs'[id])
  }

  /** What a poll may answer: nothing only if no tower knows the flight, else some tower's own answer. */
  ghost predicate Answers(fs: Facilities, f: EntityId, r: ClearanceState) {
    if r.NoClearance? then forall id :: id in fs ==> StateOf(fs[id].clearance, f).NoClearance?
    else exists id :: id in fs && StateOf(fs[id].clearance, f) == r
  }

  /** Part way through a tick: the towers in `order` have stepped and said their lines, those in `todo` have not. */
  ghost predicate Visited(fs: Facilities, fs': Facilities, todo: set<string>, order: seq<string>, w: World, tick: nat,
                          prior: seq<Radio>, said: seq<Radio>) {
    && fs'.Keys == fs.Keys && todo <= fs.Keys && |order| + |todo| == |fs.Keys|
    && (forall id :: id in order <==> id in fs && id !in todo)
    && (forall id :: id in todo ==> fs'[id] == fs[id])
    && (forall id :: id in order ==> Updates(fs[id], w, tick, fs'[id]))
    && said == prior + Lines(fs, fs', w, tick, order)
  }

  lemma NobodyVisited(fs: Facilities, w: World, tick: nat, prior: seq<Radio>)
    ensures Visited(fs, fs, fs.Keys, [], w, tick, prior, prior)
  {
    hide Updates;
  }

  lemma VisitNext(fs: Facilities, before: Facilities, now: Facilities, todo: set<string>, order: seq<string>, w: World,
                  tick: nat, prior: seq<Radio>, said: seq<Radio>, said': seq<Radio>, id: string)
    requires Visited(fs, before, todo, order, w, tick, prior, said) && id in todo
    requires now.Keys == before.Keys && forall k :: k in before && k != id ==> now[k] == before[k]
    requires Updates(before[id], w, tick, now[id])
    requires said' == said + UpdateWith(before[id], w, tick, now[id].arrivals).1
    ensures Visited(fs, now, todo - {id}, order + [id], w, tick, prior, said')
  {
    hide Updates, UpdateWith;
    LinesSnoc(fs, before, now, w, tick, order, id);
    Assoc(prior, Lines(fs, before, w, tick, order), UpdateWith(fs[id], w, tick, now[id].arrivals).1);
  }

  lemma AllVisited(fs: Facilities, fs': Facilities, order: seq<string>, w: World, tick: nat,
                   prior: seq<Radio>, said: seq<Radio>)
    requires Visited(fs, fs', {}, order, w, tick, prior, said)
    ensures Ticked(fs, w, tick, fs') && |order| == |fs.Keys| && (forall id :: id in order <==> id in fs)
    ensures said == prior + Lines(fs, fs', w, tick, order)
  {
    hide Updates;
  }

  lemma ValuesGrow(m: map<string, Tower>, id: string, t: Tower)
    requires id !in m
    ensures m.Values <= m[id := t].Values <= m.Values + {t}
  {
    forall v | v in m.Values ensures v in m[id := t].Values {
      var k :| k in m && m[k] == v;
      assert m[id := t][k] == v;
    }
  }

  class Service {
    const airports: Airports
    var towers: map<string, Tower>
    var outbox: seq<Radio>

    /** No two airports share a tower. */
    ghost predicate Valid()
      reads this
    {
      "" !in towers && forall a, b :: a in towers && b in towers && a != b ==> towers[a] != towers[b]
    }

    function All(): Facilities
      reads this, towers.Values
    {
      map id | id in towers :: towers[id].State()
    }

    constructor (airports: Airports)
      ensures Valid() && All() == map[] && outbox == [] && this.airports == airports
    {
      this.airports, towers, outbox := airports, map[], [];
    }

    method GetOrCreate(id: string) returns (found: bool)
      requires Valid()
      modifies this`towers
      ensures Valid() && All() == Opened(old(All()), airports, id)
      ensures found <==> id != "" && id in towers
      ensures fresh(towers.Values - old(towers.Values)) && old(towers.Values) <= towers.Values
    {
      if id == "" {
        return false;
      }
      if id in towers {
        return true;
      }
      if id !in airports {
        return false;
      }
      var t := new Tower(airports[id]);
      ValuesGrow(towers, id, t);
      towers := towers[id := t];
      return true;
    }

    /** Serving one tower leaves every other as it was. */
    twostate lemma OneChanged(id: string)
      requires Valid() && id in towers && towers == old(towers)
      requires forall k :: k in towers && k != id ==> towers[k].State() == old(towers[k].State())
      ensures All() == old(All())[id := towers[id].State()]
    {
    }

    /** A request with no airport named goes to the one nearest the flight, which the registry supplies. */
    method RequestTakeoff(flight: EntityId, facilityId: string, nearest: string)
      requires Valid()
      modifies this, towers.Values
      ensures Valid() && outbox == old(outbox)
      ensures facilityId != "" ==> All() == Routed(old(All()), airports, facilityId, TakeoffRequested(flight))
      ensures facilityId == "" ==> All() == Routed(old(All()), airports, nearest, TakeoffRequested(flight))
    {
      var id := if facilityId == "" then nearest else facilityId;
      var found := GetOrCreate(id);
      label routed:
      if found {
        towers[id].RequestTakeoff(flight);
        OneChanged@routed(id);
      }
    }

    method RequestLanding(flight: EntityId, facilityId: string, nearest: string)
      requires Valid()
      modifies this, towers.Values
      ensures Valid() && outbox == old(outbox)
      ensures facilityId != "" ==> All() == Routed(old(All()), airports, facilityId, LandingRequested(flight))
      ensures facilityId == "" ==> All() == Routed(old(All()), airports, nearest, LandingRequested(flight))
    {
      var id := if facilityId == "" then nearest else facilityId;
      var found := GetOrCreate(id);
      label routed:
      if found {
        towers[id].RequestLanding(flight);
        OneChanged@routed(id);
      }
    }

    method DeclareInbound(flight: EntityId, facilityId: string, nearest: string)
      requires Valid()
      modifies this, towers.Values
      ensures Valid()
      ensures facilityId != "" ==> All() == Routed(old(All()), airports, facilityId, InboundDeclared(flight))
      ensures facilityId == "" ==> All() == Routed(old(All()), airports, nearest, InboundDeclared(flight))
      ensures var id := if facilityId == "" then nearest else facilityId;
              var us := Opened(old(All()), airports, id);
              outbox == old(outbox) + if id != "" && id in us then Sequencer.DeclareInbound(us[id], flight).1 else []
    {
      var id := if facilityId == "" then nearest else facilityId;
      var found := GetOrCreate(id);
      label routed:
      if found {
        var out := towers[id].DeclareInbound(flight);
        outbox := outbox + out;
        OneChanged@routed(id);
      }
    }

    method HoldDepartures(id: string, hold: bool)
      requires Valid()
      modifies this, towers.Values
      ensures Valid() && outbox == old(outbox)
      ensures All() == Routed(old(All()), airports, id, HoldSet(hold))
    {
      var found := GetOrCreate(id);
      label routed:
      if found {
        towers[id].SetHoldDepartures(hold);
        OneChanged@routed(id);
      }
    }

    method Cancel(flight: EntityId)
      requires Valid()
      modifies towers.Values
      ensures Valid() && All() == CancelledEverywhere(old(All()), flight)
    {
      var todo := towers.Keys;
      while todo != {}
        invariant todo <= towers.Keys
        invariant forall id :: id in towers ==>
                    towers[id].State() == if id in todo then old(towers[id].State())
                                          else RemoveFlight(old(towers[id].State()), flight)
        decreases todo
      {
        var id :| id in todo;
        towers[id].RemoveFlight(flight);
        todo := todo - {id};
      }
    }

    /** Asks the towers one after another, in no fixed order, and stops at the first that knows the flight. */
    method ClearanceOf(flight: EntityId) returns (r: ClearanceState)
      requires Valid()
      ensures Answers(All(), flight, r)
    {
      var todo := towers.Keys;
      while todo != {}
        invariant todo <= towers.Keys
        invariant forall id :: id in towers && id !in todo ==> StateOf(All()[id].clearance, flight).NoClearance?
        decreases todo
      {
        var id :| id in todo;
        r := StateOf(towers[id].clearance, flight);
        if !r.NoClearance? {
          assert StateOf(All()[id].clearance, flight) == r;
          return;
        }
        todo := todo - {id};
      }
      r := NoClearance;
    }

    method TickOne(id: string, w: World, tick: nat)
      requires Valid() && id in towers
      modifies this`outbox, towers[id]
      ensures Valid() && All().Keys == old(All()).Keys && id in All()
      ensures Updates(old(All())[id], w, tick, All()[id])
      ensures forall k :: k in old(All()) && k != id ==> All()[k] == old(All())[k]
      ensures outbox == old(outbox) + UpdateWith(old(All())[id], w, tick, All()[id].arrivals).1
    {
      hide Updates, UpdateWith;
      var out := towers[id].Update(w, tick);
      outbox := outbox + out;
    }

    /** One ATC step of every tower; `order` records the order the towers were visited in. */
    method Tick(w: World, tick: nat) returns (ghost order: seq<string>)
      requires Valid()
      modifies this`outbox, towers.Values
      ensures Valid() && Ticked(old(All()), w, tick, All())
      ensures (forall id :: id in order <==> id in towers) && |order| == |towers.Keys|
      ensures outbox == old(outbox) + Lines(old(All()), All(), w, tick, order)
    {
      hide Updates, UpdateWith, Visited, Lines, Ticked;
      var todo := towers.Keys;
      ghost var pre, prior := All(), outbox;
      order := [];
      NobodyVisited(pre, w, tick, prior);
      assert pre.Keys == towers.Keys;
      while todo != {}
        invariant todo <= towers.Keys
        invariant Visited(pre, All(), todo, order, w, tick, prior, outbox)
        decreases todo
      {
        var id :| id in todo;
        ghost var before, said := All(), outbox;
        TickOne(id, w, tick);
        VisitNext(pre, before, All(), todo, order, w, tick, prior, said, outbox, id);
        order := order + [id];
        todo := todo - {id};
      }
      AllVisited(pre, All(), order, w, tick, prior, outbox);
    }

    method DrainTransmissions() returns (out: seq<Radio>)
      modifies this`outbox
      ensures out == old(outbox) && outbox == []
    {
      out := [];
      out, outbox := outbox, out;
    }
  }

  /** The radio lines of one tick, tower by tower. */
  function Lines(fs: Facilities, fs': Facilities, w: World, tick: nat, order: seq<string>): seq<Radio> {
    if order == [] then []
    else
      var id := order[|order| - 1];
      Lines(fs, fs', w, tick, order[..|order| - 1])
      + (if id in fs && id in fs' then UpdateWith(fs[id], w, tick, fs'[id].arrivals).1 else [])
  }

  lemma {:induction false} LinesAgree(fs: Facilities, fs': Facilities, fs'': Facilities, w: World, tick: nat, order: seq<string>)
    requires forall id :: id in order ==> id in fs' && id in fs'' && fs'[id] == fs''[id]
    ensures Lines(fs, fs', w, tick, order) == Lines(fs, fs'', w, tick, order)
  {
    hide UpdateWith;
    if order != [] {
      LinesAgree(fs, fs', fs'', w, tick, order[..|order| - 1]);
      assert order[|order| - 1] in order;
    }
  }

  lemma LinesSnoc(fs: Facilities, fs': Facilities, fs'': Facilities, w: World, tick: nat, order: seq<string>, id: string)
    requires id in fs && id in fs'' && forall i :: i in order ==> i in fs' && i in fs'' && fs'[i] == fs''[i]
    ensures Lines(fs, fs'', w, tick, order + [id])
         == Lines(fs, fs', w, tick, order) + UpdateWith(fs[id], w, tick, fs''[id].arrivals).1
  {
    hide UpdateWith;
    LinesAgree(fs, fs', fs'', w, tick, order);
    assert (order + [id])[..|order + [id]| - 1] == order;
  }
}
