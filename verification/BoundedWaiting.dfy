/**
 Bounded waiting: against a single arrival that behaves as badly as it likes, a departure at position k
 of the queue is cleared within k + 1 turns of the runway.
 */
module BoundedWaiting {
  import opened AtcTypes
  import opened SeqOps
  import opened Sequencer
  import opened Safety
  import opened QueueOrder

  /** One turn: an arrival and a departure each spend their whole budget, each noticed one gap late. */
  function Turn(gap: nat): nat {
    ARRIVAL_BUDGET + DEPARTURE_BUDGET + 2 * gap
  }

  function Turns(k: nat, gap: nat): nat {
    if k == 0 then 0 else Turn(gap) + Turns(k - 1, gap)
  }

  /** k turns, as the product. */
  function TurnsFor(k: nat, gap: nat): nat {
    k * Turn(gap)
  }

  lemma {:induction false} TurnsIsProduct(k: nat, gap: nat)
    ensures Turns(k, gap) == TurnsFor(k, gap)
  {
    if k > 0 {
      TurnsIsProduct(k - 1, gap);
      calc {
        Turns(k, gap);
        Turn(gap) + (k - 1) * Turn(gap);
        (1 + (k - 1)) * Turn(gap);
      }
    }
  }

  lemma {:induction false} TurnsGrow(j: nat, k: nat, gap: nat)
    requires j <= k
    ensures Turns(j, gap) <= Turns(k, gap)
  {
    if j < k {
      TurnsGrow(j, k - 1, gap);
    }
  }

  /** The tick of the last update among the first n events, or `start` when there was none. */
  function LastTick(events: seq<Event>, start: nat, n: nat): nat
    requires n <= |events|
  {
    if n == 0 then start
    else if events[n - 1].Updated? then events[n - 1].tick
    else LastTick(events, start, n - 1)
  }

  /** After an update at `last`, no occupancy is older than its budget. */
  ghost predicate Timely(s: Facility, last: nat) {
    match s.occKind
    case Free => true
    case Departure => s.occSince <= last <= s.occSince + DEPARTURE_BUDGET
    case Arrival => s.occSince <= last <= s.occSince + ARRIVAL_BUDGET
  }

  lemma ReleaseIsTimely(s: Facility, last: nat, w: World, tick: nat)
    requires Timely(s, last) && last <= tick
    ensures Timely(Release(s, w, tick).0, tick)
  {
  }

  lemma GrantIsTimely(s: Facility, w: World, tick: nat)
    requires Timely(s, tick)
    ensures Timely(Grant(s, w, tick).0, tick)
  {
  }

  lemma UpdateIsTimely(s: Facility, last: nat, w: World, tick: nat, t: Facility)
    requires Timely(s, last) && last <= tick && Updates(s, w, tick, t)
    ensures Timely(t, tick)
  {
    hide Release, Grant;
    var r := Release(Prune(s, w), w, tick).0;
    ReleaseIsTimely(Prune(s, w), last, w, tick);
    assert Timely(r.(arrivals := t.arrivals), tick);
    GrantIsTimely(r.(arrivals := t.arrivals), w, tick);
  }

  /** Clocks in order: every update is at or after the one before it. */
  ghost predicate Monotone(events: seq<Event>, start: nat) {
    forall i :: 0 <= i < |events| && events[i].Updated? ==> LastTick(events, start, i) <= events[i].tick
  }

  lemma {:induction false} RunsAreTimely(states: seq<Facility>, events: seq<Event>, worlds: seq<World>, start: nat, n: nat)
    requires Run(states, events, worlds) && Monotone(events, start) && n < |states|
    ensures Timely(states[n], LastTick(events, start, n))
  {
    if n > 0 {
      RunsAreTimely(states, events, worlds, start, n - 1);
      hide Updates;
      assert StepAt(states, events, worlds, n - 1);
      if events[n - 1].Updated? {
        UpdateIsTimely(states[n - 1], LastTick(events, start, n - 1), worlds[n - 1], events[n - 1].tick, states[n]);
      }
    }
  }

  /** The latest tick by which the flight at position k gets its clearance. */
  function Deadline(s: Facility, last: nat, k: nat, gap: nat): nat {
    Turns(k, gap) + match s.occKind
                    case Free => last + gap + ARRIVAL_BUDGET + gap
                    case Departure => s.occSince + Turn(gap)
                    case Arrival => s.occSince + ARRIVAL_BUDGET + gap
  }

  /** d waits at position k, on time, with only `arrival` ever in the landing sequence. */
  ghost predicate Waiting(s: Facility, last: nat, k: nat, gap: nat, arrival: EntityId, d: EntityId, bound: nat) {
    && Inv(s) && Timely(s, last) && !s.hold
    && (forall f :: f in s.arrivals ==> f == arrival)
    && k < |s.departures| && s.departures[k] == d
    && Deadline(s, last, k, gap) <= bound
  }

  ghost predicate WaitingSomewhere(s: Facility, last: nat, gap: nat, arrival: EntityId, d: EntityId, bound: nat) {
    exists k :: Waiting(s, last, k, gap, arrival, d, bound)
  }

  ghost predicate ClearedNow(s: Facility, w: World, tick: nat, t: Facility, d: EntityId) {
    && Radio(SayClearedTakeoff, d) in UpdateWith(s, w, tick, t.arrivals).1
    && t.occKind.Departure? && t.occupant == d && t.occSince == tick
    && StateOf(t.clearance, d).ClearedTakeoff?
  }

  /** Events the hypothesis allows: no hold, no cancel of the arrival or of d, no second arrival. */
  predicate Fair(e: Event, arrival: EntityId, d: EntityId) {
    match e
    case Cancelled(f) => f != arrival && f != d
    case LandingRequested(f) => f == arrival
    case InboundDeclared(f) => f == arrival
    case HoldSet(on) => !on
    case _ => true
  }

  ghost predicate NoneSequenceable(s: Facility, tick: nat) {
    forall f :: f in s.arrivals ==> !Sequenceable(s.clearance, f, tick)
  }

  /** Steps 1 and 2 with d alive: d moves up, and a runway that an arrival gives up has no arrival to take it. */
  lemma RunwayGivenUp(s: Facility, last: nat, w: World, tick: nat, k: nat, gap: nat, arrival: EntityId, d: EntityId, bound: nat)
    requires Waiting(s, last, k, gap, arrival, d, bound) && last <= tick && !Gone(w, d)
    ensures var r := Release(Prune(s, w), w, tick).0;
            && !r.hold && (exists j :: 0 <= j <= k && j < |r.departures| && r.departures[j] == d)
            && (!r.occKind.Free? ==> r.occKind == s.occKind && r.occupant == s.occupant && r.occSince == s.occSince)
            && (r.occKind.Free? && s.occKind.Arrival? ==> NoneSequenceable(r, tick))
  {
    var p := Prune(s, w);
    FilterPosition(s.departures, id => !Gone(w, id), k);
    assert p.departures == Survivors(s.departures, w);
    assert forall f :: f in p.arrivals ==> f in s.arrivals && !Gone(w, f);
    ReleaseGivesUp(p, last, w, tick, arrival);
  }

  lemma ReleaseGivesUp(p: Facility, last: nat, w: World, tick: nat, arrival: EntityId)
    requires Timely(p, last) && last <= tick && !p.hold && p.departures != []
    requires forall f :: f in p.arrivals ==> f == arrival
    requires p.occKind.Arrival? ==> p.occupant in p.arrivals
    ensures var r := Release(p, w, tick).0;
            && r.departures == p.departures && r.hold == p.hold
            && (!r.occKind.Free? ==> r.occKind == p.occKind && r.occupant == p.occupant && r.occSince == p.occSince)
            && (r.occKind.Free? && p.occKind.Arrival? ==> NoneSequenceable(r, tick))
  {
  }

  /** Step 4 with somebody waiting: the runway is never left free, and the front is served unless an arrival is. */
  lemma GrantServes(s: Facility, w: World, tick: nat)
    requires !s.hold && s.departures != []
    ensures var t := Grant(s, w, tick).0;
            if s.occKind.Free? && (NoneSequenceable(s, tick) || !t.occKind.Arrival?) then
              ClearedBySeq(s, w, tick, s.departures[0]) && t.departures == s.departures[1..]
            else
              && t.departures == s.departures && !t.occKind.Free? && t.hold == s.hold
              && (if s.occKind.Free? then t.occKind.Arrival? && t.occSince == tick
                  else t.occKind == s.occKind && t.occSince == s.occSince)
  {
  }

  ghost predicate ClearedBySeq(s: Facility, w: World, tick: nat, d: EntityId) {
    var t := Grant(s, w, tick);
    && t.1 == [Radio(SayClearedTakeoff, d)] && t.0.occKind.Departure? && t.0.occupant == d
    && t.0.occSince == tick && StateOf(t.0.clearance, d).ClearedTakeoff? && t.0.hold == s.hold
  }

  lemma DeadlineIsAhead(s: Facility, last: nat, k: nat, gap: nat)
    requires Timely(s, last)
    ensures last + gap <= Deadline(s, last, k, gap)
  {
  }

  /** Moving up a place pays for a departure's turn; a new arrival spends only what was already allowed. */
  lemma DeadlineShrinks(s: Facility, last: nat, k: nat, gap: nat, tick: nat, t: Facility, j: nat)
    requires Timely(s, last) && last <= tick <= last + gap
    requires
      || (t.occKind.Departure? && t.occSince == tick && j < k)
      || (t.occKind.Arrival? && t.occSince == tick && j <= k && !s.occKind.Arrival?)
      || (!s.occKind.Free? && t.occKind == s.occKind && t.occSince == s.occSince && j <= k)
    ensures Deadline(t, tick, j, gap) <= Deadline(s, last, k, gap)
  {
    TurnsGrow(j, k, gap);
    if j < k {
      TurnsGrow(j + 1, k, gap);
    }
  }

  /** One update: either d is cleared now, in time, or it waits on with a deadline no later than before. */
  lemma UpdateServes(s: Facility, last: nat, w: World, tick: nat, t: Facility, k: nat, gap: nat,
                     arrival: EntityId, d: EntityId, bound: nat)
    requires Waiting(s, last, k, gap, arrival, d, bound) && last <= tick <= last + gap && !Gone(w, d)
    requires Updates(s, w, tick, t)
    ensures tick <= bound
    ensures ClearedNow(s, w, tick, t, d) || WaitingSomewhere(t, tick, gap, arrival, d, bound)
  {
    hide Prune, Release, Grant;
    var r := Release(Prune(s, w), w, tick);
    var g := r.0.(arrivals := t.arrivals);
    DeadlineIsAhead(s, last, k, gap);
    RunwayGivenUp(s, last, w, tick, k, gap, arrival, d, bound);
    var j :| 0 <= j <= k && j < |r.0.departures| && r.0.departures[j] == d;
    PermutationKeeps(r.0.arrivals, t.arrivals);
    GrantServes(g, w, tick);
    UpdateKeepsInv(s, w, tick, t);
    UpdateIsTimely(s, last, w, tick, t);
    forall f ensures f in t.arrivals ==> f == arrival {
      UpdateArrivals(s, w, tick, t, f);
    }
    if g.occKind.Free? && (NoneSequenceable(g, tick) || !t.occKind.Arrival?) {
      if j == 0 {
        assert Radio(SayClearedTakeoff, d) in r.1 + Grant(g, w, tick).1;
      } else {
        DeadlineShrinks(s, last, k, gap, tick, t, j - 1);
        assert Waiting(t, tick, j - 1, gap, arrival, d, bound);
      }
    } else {
      DeadlineShrinks(s, last, k, gap, tick, t, j);
      assert Waiting(t, tick, j, gap, arrival, d, bound);
    }
  }

  lemma CancelKeepsWaiting(s: Facility, last: nat, f: EntityId, k: nat, gap: nat,
                           arrival: EntityId, d: EntityId, bound: nat)
    requires Waiting(s, last, k, gap, arrival, d, bound) && f != arrival && f != d
    ensures WaitingSomewhere(RemoveFlight(s, f), last, gap, arrival, d, bound)
  {
    hide QueuesSound, RunwayIsTheirs, SlotsSound, Forget, Filter, Turns;
    var t := RemoveFlight(s, f);
    CancelKeepsInv(s, f);
    FilterPosition(s.departures, id => id != f, k);
    var j :| 0 <= j <= k && j < |t.departures| && t.departures[j] == d;
    TurnsGrow(j, k, gap);
    assert Waiting(t, last, j, gap, arrival, d, bound);
  }

  /** Between updates nothing the hypothesis allows costs d its place or its deadline. */
  lemma RequestsKeepWaiting(s: Facility, last: nat, e: Event, w: World, t: Facility, k: nat, gap: nat,
                            arrival: EntityId, d: EntityId, bound: nat)
    requires Waiting(s, last, k, gap, arrival, d, bound) && Step(s, e, w, t) && !e.Updated? && Fair(e, arrival, d)
    ensures WaitingSomewhere(t, last, gap, arrival, d, bound)
  {
    hide Inv, RemoveFlight, SetClearance;
    if e.Cancelled? {
      CancelKeepsWaiting(s, last, e.flight, k, gap, arrival, d, bound);
    } else {
      StepKeepsInv(s, e, w, t);
      assert Waiting(t, last, k, gap, arrival, d, bound);
    }
  }

  /** What the world and the pilots must respect at one step for the bound to hold. */
  ghost predicate Respects(events: seq<Event>, worlds: seq<World>, start: nat, i: nat, gap: nat,
                           arrival: EntityId, d: EntityId)
    requires i < |events| && i < |worlds|
  {
    && Fair(events[i], arrival, d)
    && (events[i].Updated? ==>
          LastTick(events, start, i) <= events[i].tick <= LastTick(events, start, i) + gap && !Gone(worlds[i], d))
  }

  ghost predicate ServedAt(states: seq<Facility>, events: seq<Event>, worlds: seq<World>, j: nat, d: EntityId, bound: nat)
    requires j + 1 < |states| && j < |events| && j < |worlds|
  {
    && events[j].Updated? && events[j].tick <= bound
    && ClearedNow(states[j], worlds[j], events[j].tick, states[j + 1], d)
  }

  /** Some update from step m on, before step n and not after `bound`, clears d for takeoff. */
  ghost predicate ServedBetween(states: seq<Facility>, events: seq<Event>, worlds: seq<World>,
                                m: nat, n: nat, d: EntityId, bound: nat)
    requires n < |states| && n <= |events| && n <= |worlds|
  {
    exists j :: m <= j < n && ServedAt(states, events, worlds, j, d, bound)
  }

  lemma {:induction false} ServedOrWaiting(states: seq<Facility>, events: seq<Event>, worlds: seq<World>, start: nat,
                                           m: nat, n: nat, k: nat, gap: nat, arrival: EntityId, d: EntityId, bound: nat)
    requires Run(states, events, worlds) && m <= n < |states|
    requires Waiting(states[m], LastTick(events, start, m), k, gap, arrival, d, bound)
    requires forall i :: m <= i < n ==> Respects(events, worlds, start, i, gap, arrival, d)
    ensures ServedBetween(states, events, worlds, m, n, d, bound)
         || WaitingSomewhere(states[n], LastTick(events, start, n), gap, arrival, d, bound)
  {
    hide Waiting, ClearedNow, Updates;
    if m < n {
      ServedOrWaiting(states, events, worlds, start, m, n - 1, k, gap, arrival, d, bound);
      if !ServedBetween(states, events, worlds, m, n - 1, d, bound) {
        ServeStep(states, events, worlds, start, n - 1, gap, arrival, d, bound);
      }
    }
  }

  lemma ServeStep(states: seq<Facility>, events: seq<Event>, worlds: seq<World>, start: nat,
                  i: nat, gap: nat, arrival: EntityId, d: EntityId, bound: nat)
    requires Run(states, events, worlds) && i < |events|
    requires WaitingSomewhere(states[i], LastTick(events, start, i), gap, arrival, d, bound)
    requires Respects(events, worlds, start, i, gap, arrival, d)
    ensures ServedAt(states, events, worlds, i, d, bound)
         || WaitingSomewhere(states[i + 1], LastTick(events, start, i + 1), gap, arrival, d, bound)
  {
    hide Waiting, ClearedNow, Updates;
    var s, e, w, t, last := states[i], events[i], worlds[i], states[i + 1], LastTick(events, start, i);
    var k :| Waiting(s, last, k, gap, arrival, d, bound);
    assert StepAt(states, events, worlds, i);
    if e.Updated? {
      UpdateServes(s, last, w, e.tick, t, k, gap, arrival, d, bound);
    } else {
      RequestsKeepWaiting(s, last, e, w, t, k, gap, arrival, d, bound);
    }
  }

  /**
   From any moment m of any run: if departures are not held, only `arrival` is ever sequenced to land and
   it does not cancel, updates are at most `gap` ticks apart, and d waits alive at position k, then once
   the clock passes the bound an update at or before the bound has cleared d for takeoff.
   */
  lemma DepartureIsServed(states: seq<Facility>, events: seq<Event>, worlds: seq<World>, start: nat,
                          m: nat, n: nat, k: nat, gap: nat, arrival: EntityId, d: EntityId)
    requires Run(states, events, worlds) && Monotone(events, start) && m <= n < |states|
    requires !states[m].hold && (forall f :: f in states[m].arrivals ==> f == arrival)
    requires k < |states[m].departures| && states[m].departures[k] == d
    requires forall i :: m <= i < n ==> Respects(events, worlds, start, i, gap, arrival, d)
    requires LastTick(events, start, n) + gap > LastTick(events, start, m) + TurnsFor(k + 1, gap)
    ensures ServedBetween(states, events, worlds, m, n, d, LastTick(events, start, m) + TurnsFor(k + 1, gap))
  {
    hide *;
    TurnsIsProduct(k + 1, gap);
    ServedInTurns(states, events, worlds, start, m, n, k, gap, arrival, d);
  }

  lemma ServedInTurns(states: seq<Facility>, events: seq<Event>, worlds: seq<World>, start: nat,
                      m: nat, n: nat, k: nat, gap: nat, arrival: EntityId, d: EntityId)
    requires Run(states, events, worlds) && Monotone(events, start) && m <= n < |states|
    requires !states[m].hold && (forall f :: f in states[m].arrivals ==> f == arrival)
    requires k < |states[m].departures| && states[m].departures[k] == d
    requires forall i :: m <= i < n ==> Respects(events, worlds, start, i, gap, arrival, d)
    requires LastTick(events, start, n) + gap > LastTick(events, start, m) + Turns(k + 1, gap)
    ensures ServedBetween(states, events, worlds, m, n, d, LastTick(events, start, m) + Turns(k + 1, gap))
  {
    hide Waiting, Inv, Timely, Updates, Turns;
    var now := LastTick(events, start, m);
    var bound := now + Turns(k + 1, gap);
    RunKeepsInv(states, events, worlds, m);
    RunsAreTimely(states, events, worlds, start, m);
    StartsWaiting(states[m], now, k, gap, arrival, d);
    ServedOrWaiting(states, events, worlds, start, m, n, k, gap, arrival, d, bound);
    if WaitingSomewhere(states[n], LastTick(events, start, n), gap, arrival, d, bound) {
      WaitingIsInTime(states[n], LastTick(events, start, n), gap, arrival, d, bound);
    }
  }

  lemma StartsWaiting(s: Facility, now: nat, k: nat, gap: nat, arrival: EntityId, d: EntityId)
    requires Inv(s) && Timely(s, now) && !s.hold && (forall f :: f in s.arrivals ==> f == arrival)
    requires k < |s.departures| && s.departures[k] == d
    ensures Waiting(s, now, k, gap, arrival, d, now + Turns(k + 1, gap))
  {
    hide Inv;
  }

  lemma WaitingIsInTime(s: Facility, last: nat, gap: nat, arrival: EntityId, d: EntityId, bound: nat)
    requires WaitingSomewhere(s, last, gap, arrival, d, bound)
    ensures last + gap <= bound
  {
    hide Inv;
    var k :| Waiting(s, last, k, gap, arrival, d, bound);
    DeadlineIsAhead(s, last, k, gap);
  }
}
