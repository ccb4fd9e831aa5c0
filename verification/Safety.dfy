/**
 Runs of one facility: any interleaving of requests, cancels, hold orders and updates, with the world
 changing freely between events. Mutual exclusion and queue integrity are invariants of every run.
 */
module Safety {
  import opened AtcTypes
  import opened SeqOps
  import opened Sequencer

  datatype Event =
    | TakeoffRequested(flight: EntityId)
    | LandingRequested(flight: EntityId)
    | InboundDeclared(flight: EntityId)
    | Cancelled(flight: EntityId)
    | HoldSet(on: bool)
    | Updated(tick: nat)

  ghost predicate Step(s: Facility, e: Event, w: World, t: Facility) {
    match e
    case TakeoffRequested(f) => t == RequestTakeoff(s, f)
    case LandingRequested(f) => t == RequestLanding(s, f)
    case InboundDeclared(f) => t == DeclareInbound(s, f).0
    case Cancelled(f) => t == RemoveFlight(s, f)
    case HoldSet(on) => t == s.(hold := on)
    case Updated(tick) => Updates(s, w, tick, t)
  }

  function Initial(acceptsLandings: bool): Facility {
    Facility(acceptsLandings, [], [], map[], NULL_ID, Free, 0, false)
  }

  ghost predicate StepAt(states: seq<Facility>, events: seq<Event>, worlds: seq<World>, i: nat)
    requires i + 1 < |states| && i < |events| && i < |worlds|
  {
    Step(states[i], events[i], worlds[i], states[i + 1])
  }

  /** `states` is a run of a newly made facility: event i, seen against world i, leads to state i + 1. */
  ghost predicate Run(states: seq<Facility>, events: seq<Event>, worlds: seq<World>) {
    && |states| == |events| + 1 && |worlds| == |events|
    && states[0] == Initial(states[0].acceptsLandings)
    && forall i :: 0 <= i < |events| ==> StepAt(states, events, worlds, i)
  }

  /** A flight that reads a runway clearance is the occupant, and of the matching kind. */
  ghost predicate RunwayIsTheirs(s: Facility) {
    forall k :: k in s.clearance ==>
      && (s.clearance[k].state.ClearedToLand? ==> s.occKind.Arrival? && s.occupant == s.clearance[k].id)
      && (s.clearance[k].state.ClearedTakeoff? ==> s.occKind.Departure? && s.occupant == s.clearance[k].id)
  }

  ghost predicate QueuesSound(s: Facility) {
    && NoDup(s.departures) && NoDup(s.arrivals)
    && (forall f :: f in s.departures ==> f.Valid())
    && (forall f :: f in s.arrivals ==> f.Valid())
  }

  ghost predicate OccupancySound(s: Facility) {
    && (s.occKind.Free? <==> !s.occupant.Valid())
    && (s.occKind.Free? ==> s.occupant == NULL_ID)
    && (s.occKind.Arrival? ==> s.occupant in s.arrivals)
    && (s.occKind.Departure? ==> s.occupant !in s.departures)
  }

  ghost predicate SlotsSound(s: Facility) {
    forall k :: k in s.clearance ==> s.clearance[k].id.index == k
  }

  ghost predicate Inv(s: Facility) {
    RunwayIsTheirs(s) && QueuesSound(s) && OccupancySound(s) && SlotsSound(s)
  }

  lemma PermutationKeeps(a: seq<EntityId>, b: seq<EntityId>)
    requires multiset(a) == multiset(b)
    ensures forall x :: x in a <==> x in b
    ensures NoDup(a) ==> NoDup(b)
    ensures |a| == |b|
  {
    assert forall x :: x in a <==> x in multiset(a);
    assert forall x :: x in b <==> x in multiset(b);
    assert |multiset(a)| == |a| && |multiset(b)| == |b|;
    if NoDup(a) {
      NoDupCounts(a);
      forall i, j | 0 <= i < j < |b| ensures b[i] != b[j] {
        if b[i] == b[j] {
          RepeatCounts(b, i, j);
        }
      }
    }
  }

  lemma RepeatCounts(b: seq<EntityId>, i: nat, j: nat)
    requires i < j < |b| && b[i] == b[j]
    ensures multiset(b)[b[i]] >= 2
  {
    assert b == b[..j] + b[j..];
    assert b[..j][i] in b[..j] && b[j..][0] in b[j..];
  }

  lemma {:induction false} NoDupCounts(a: seq<EntityId>)
    requires NoDup(a)
    ensures forall x :: multiset(a)[x] <= 1
  {
    if a != [] {
      var last := a[|a| - 1];
      NoDupCounts(a[..|a| - 1]);
      assert a == a[..|a| - 1] + [last];
      assert last !in a[..|a| - 1];
    }
  }

  lemma PruneKeepsQueues(s: Facility, w: World)
    requires QueuesSound(s) && OccupancySound(s)
    ensures QueuesSound(Prune(s, w)) && OccupancySound(Prune(s, w))
  {
    hide Filter, NoDup, Gone;
    FilterNoDup(s.departures, id => !Gone(w, id));
    FilterNoDup(s.arrivals, id => !Gone(w, id));
  }

  lemma PruneKeepsRunway(s: Facility, w: World)
    requires RunwayIsTheirs(s) && SlotsSound(s)
    ensures RunwayIsTheirs(Prune(s, w)) && SlotsSound(Prune(s, w))
  {
    hide Filter, Survivors;
  }

  lemma PruneKeepsInv(s: Facility, w: World)
    requires Inv(s)
    ensures Inv(Prune(s, w))
  {
    hide QueuesSound, OccupancySound, RunwayIsTheirs, SlotsSound, Prune;
    PruneKeepsQueues(s, w);
    PruneKeepsRunway(s, w);
  }

  lemma ReleaseKeepsQueues(s: Facility, w: World, tick: nat)
    requires QueuesSound(s)
    ensures QueuesSound(Release(s, w, tick).0)
  {
    FilterNoDup(s.arrivals, id => id != s.occupant);
  }

  lemma ReleaseKeepsRunway(s: Facility, w: World, tick: nat)
    requires RunwayIsTheirs(s) && SlotsSound(s)
    ensures RunwayIsTheirs(Release(s, w, tick).0) && SlotsSound(Release(s, w, tick).0)
  {
    hide Filter, SomeoneWaiting, Stopped, ClimbedOut;
  }

  lemma ReleaseKeepsOccupancy(s: Facility, w: World, tick: nat)
    requires OccupancySound(s)
    ensures OccupancySound(Release(s, w, tick).0)
  {
    hide Filter, SomeoneWaiting, Stopped, ClimbedOut;
  }

  lemma GrantKeepsQueues(s: Facility, w: World, tick: nat)
    requires QueuesSound(s)
    ensures QueuesSound(Grant(s, w, tick).0)
  {
  }

  lemma GrantKeepsRunway(s: Facility, w: World, tick: nat)
    requires RunwayIsTheirs(s) && OccupancySound(s) && SlotsSound(s) && QueuesSound(s)
    ensures RunwayIsTheirs(Grant(s, w, tick).0) && SlotsSound(Grant(s, w, tick).0)
  {
  }

  lemma GrantKeepsOccupancy(s: Facility, w: World, tick: nat)
    requires OccupancySound(s) && QueuesSound(s)
    ensures OccupancySound(Grant(s, w, tick).0)
  {
  }

  lemma UpdateKeepsInv(s: Facility, w: World, tick: nat, t: Facility)
    requires Inv(s) && Updates(s, w, tick, t)
    ensures Inv(t)
  {
    PruneKeepsInv(s, w);
    ReleaseKeepsQueues(Prune(s, w), w, tick);
    ReleaseKeepsRunway(Prune(s, w), w, tick);
    ReleaseKeepsOccupancy(Prune(s, w), w, tick);
    var r := Release(Prune(s, w), w, tick).0;
    PermutationKeeps(r.arrivals, t.arrivals);
    assert Inv(r.(arrivals := t.arrivals));
    GrantKeepsQueues(r.(arrivals := t.arrivals), w, tick);
    GrantKeepsRunway(r.(arrivals := t.arrivals), w, tick);
    GrantKeepsOccupancy(r.(arrivals := t.arrivals), w, tick);
  }

  lemma TakeoffRequestKeepsInv(s: Facility, f: EntityId)
    requires Inv(s)
    ensures Inv(RequestTakeoff(s, f))
  {
  }

  lemma LandingRequestKeepsInv(s: Facility, f: EntityId)
    requires Inv(s)
    ensures Inv(RequestLanding(s, f)) && Inv(DeclareInbound(s, f).0)
  {
  }

  lemma CancelKeepsInv(s: Facility, f: EntityId)
    requires Inv(s)
    ensures Inv(RemoveFlight(s, f))
  {
    FilterNoDup(s.departures, id => id != f);
    FilterNoDup(s.arrivals, id => id != f);
  }

  lemma StepKeepsInv(s: Facility, e: Event, w: World, t: Facility)
    requires Inv(s) && Step(s, e, w, t)
    ensures Inv(t)
  {
    match e
    case TakeoffRequested(f) => TakeoffRequestKeepsInv(s, f);
    case LandingRequested(f) => LandingRequestKeepsInv(s, f);
    case InboundDeclared(f) => LandingRequestKeepsInv(s, f);
    case Cancelled(f) => CancelKeepsInv(s, f);
    case HoldSet(_) =>
    case Updated(tick) => UpdateKeepsInv(s, w, tick, t);
  }

  lemma StartsSound(acceptsLandings: bool)
    ensures Inv(Initial(acceptsLandings))
  {
  }

  lemma {:induction false} RunKeepsInv(states: seq<Facility>, events: seq<Event>, worlds: seq<World>, n: nat)
    requires Run(states, events, worlds) && n < |states|
    ensures Inv(states[n])
  {
    hide Inv, Step, Initial;
    if n == 0 {
      StartsSound(states[0].acceptsLandings);
    } else {
      RunKeepsInv(states, events, worlds, n - 1);
      assert StepAt(states, events, worlds, n - 1);
      StepKeepsInv(states[n - 1], events[n - 1], worlds[n - 1], states[n]);
    }
  }

  predicate HoldsRunwayClearance(s: Facility, f: EntityId) {
    StateOf(s.clearance, f).ClearedToLand? || StateOf(s.clearance, f).ClearedTakeoff?
  }

  /** In every state of every run at most one flight reads a runway clearance, and it is the occupant. */
  lemma MutualExclusion(states: seq<Facility>, events: seq<Event>, worlds: seq<World>, n: nat, f: EntityId, g: EntityId)
    requires Run(states, events, worlds) && n < |states|
    requires HoldsRunwayClearance(states[n], f) && HoldsRunwayClearance(states[n], g)
    ensures f == g == states[n].occupant
    ensures StateOf(states[n].clearance, f).ClearedToLand? <==> states[n].occKind.Arrival?
    ensures StateOf(states[n].clearance, f).ClearedTakeoff? <==> states[n].occKind.Departure?
  {
    RunKeepsInv(states, events, worlds, n);
  }
}
