/** Who leaves the queues and in which order, over every run of a facility. */
module QueueOrder {
  import opened AtcTypes
  import opened SeqOps
  import opened Sequencer
  import opened Safety

  /** The flights a batch of radio lines clears for takeoff, in order. */
  function TakeoffClearances(out: seq<Radio>): seq<EntityId> {
    if out == [] then []
    else TakeoffClearances(out[..|out| - 1])
         + (if out[|out| - 1].phrase.SayClearedTakeoff? then [out[|out| - 1].target] else [])
  }

  /** The radio lines of one step. */
  function Said(s: Facility, e: Event, w: World, t: Facility): seq<Radio> {
    match e
    case InboundDeclared(f) => DeclareInbound(s, f).1
    case Updated(tick) => UpdateWith(s, w, tick, t.arrivals).1
    case _ => []
  }

  /** Who joins the departure queue in one step: whoever asks with a valid handle and neither waits nor rolls already. */
  function JoinedBy(s: Facility, e: Event): seq<EntityId> {
    if e.TakeoffRequested? && e.flight.generation != 0 && e.flight !in s.departures && e.flight != s.occupant
    then [e.flight] else []
  }

  /** Who is dropped from it in one step without a clearance. */
  function DroppedBy(s: Facility, e: Event, w: World): seq<EntityId> {
    match e
    case Cancelled(f) => Filter(s.departures, id => id == f)
    case Updated(_) => Filter(s.departures, id => Gone(w, id))
    case _ => []
  }

  function ClearedBy(s: Facility, e: Event, w: World, t: Facility): seq<EntityId> {
    TakeoffClearances(Said(s, e, w, t))
  }

  lemma ReleaseClearsNobody(s: Facility, w: World, tick: nat)
    ensures Release(s, w, tick).0.departures == s.departures
    ensures TakeoffClearances(Release(s, w, tick).1) == []
  {
    assert [Radio(SayGoAround, s.occupant)][..0] == [];
    assert [Radio(SayTaxiToParking, s.occupant)][..0] == [];
  }

  lemma GrantClearsFront(s: Facility, w: World, tick: nat)
    ensures |Grant(s, w, tick).1| <= 1
    ensures TakeoffClearances(Grant(s, w, tick).1) + Grant(s, w, tick).0.departures == s.departures
  {
    var out := Grant(s, w, tick).1;
    assert out != [] ==> out[..0] == [];
  }

  lemma ClearancesConcat(a: seq<Radio>, b: seq<Radio>)
    requires |b| <= 1
    ensures TakeoffClearances(a + b) == TakeoffClearances(a) + TakeoffClearances(b)
  {
    if b == [] {
      assert a + b == a;
    } else {
      assert (a + b)[..|a + b| - 1] == a;
      assert b[..0] == [];
    }
  }

  /** An update clears at most one takeoff, and it is the front of the surviving queue. */
  lemma UpdateQueue(s: Facility, w: World, tick: nat, t: Facility)
    requires Updates(s, w, tick, t)
    ensures TakeoffClearances(Said(s, Updated(tick), w, t)) + t.departures == Survivors(s.departures, w)
  {
    var p := Prune(s, w);
    var r := Release(p, w, tick);
    ReleaseClearsNobody(p, w, tick);
    GrantClearsFront(r.0.(arrivals := t.arrivals), w, tick);
    ClearancesConcat(r.1, Grant(r.0.(arrivals := t.arrivals), w, tick).1);
  }

  /** The law of one step: clearances and the rest of the queue follow the old queue and the newcomers. */
  ghost predicate QueueLaw(q: seq<EntityId>, joined: seq<EntityId>, cleared: seq<EntityId>,
                           dropped: seq<EntityId>, q': seq<EntityId>) {
    && Subsequence(cleared + q', q + joined)
    && multiset(q + joined) == multiset(cleared + q') + multiset(dropped)
  }

  lemma FilterLaw(q: seq<EntityId>, keep: EntityId -> bool, drop: EntityId -> bool, cleared: seq<EntityId>, q': seq<EntityId>)
    requires forall x :: keep(x) <==> !drop(x)
    requires cleared + q' == Filter(q, keep)
    ensures QueueLaw(q, [], cleared, Filter(q, drop), q')
  {
    assert q + [] == q;
    FilterSubsequence(q, keep);
    FilterPartition(q, keep, drop);
  }

  lemma UpdateLaw(s: Facility, w: World, tick: nat, t: Facility)
    requires Updates(s, w, tick, t)
    ensures QueueLaw(s.departures, [], ClearedBy(s, Updated(tick), w, t), DroppedBy(s, Updated(tick), w), t.departures)
  {
    UpdateQueue(s, w, tick, t);
    FilterLaw(s.departures, id => !Gone(w, id), id => Gone(w, id), ClearedBy(s, Updated(tick), w, t), t.departures);
  }

  lemma QuietLaw(q: seq<EntityId>, joined: seq<EntityId>)
    ensures QueueLaw(q, joined, [], [], q + joined)
  {
    assert [] + (q + joined) == q + joined;
    SubsequenceRefl(q + joined);
  }

  lemma QuietStep(s: Facility, e: Event, w: World, t: Facility)
    requires Step(s, e, w, t) && !e.Updated?
    ensures ClearedBy(s, e, w, t) == []
    ensures !e.Cancelled? ==> t.departures == s.departures + JoinedBy(s, e)
  {
    SilentLine(Said(s, e, w, t));
    assert s.departures + [] == s.departures;
  }

  lemma SilentLine(out: seq<Radio>)
    requires |out| <= 1 && (out != [] ==> !out[0].phrase.SayClearedTakeoff?)
    ensures TakeoffClearances(out) == []
  {
    assert out != [] ==> out[..0] == [];
  }

  lemma StepLaw(s: Facility, e: Event, w: World, t: Facility)
    requires Step(s, e, w, t)
    ensures QueueLaw(s.departures, JoinedBy(s, e), ClearedBy(s, e, w, t), DroppedBy(s, e, w), t.departures)
  {
    match e
    case Updated(tick) => UpdateLaw(s, w, tick, t);
    case Cancelled(f) =>
      QuietStep(s, e, w, t);
      FilterLaw(s.departures, id => id != f, id => id == f, [], t.departures);
    case _ =>
      QuietStep(s, e, w, t);
      QuietLaw(s.departures, JoinedBy(s, e));
  }

  lemma FlattenTo<T>(batches: seq<seq<T>>, n: nat)
    requires 0 < n <= |batches|
    ensures Flatten(batches[..n]) == Flatten(batches[..n - 1]) + batches[n - 1]
  {
    assert batches[..n][..n - 1] == batches[..n - 1];
  }

  /** The law of one step, carried over a whole history that starts with an empty queue. */
  lemma {:induction false} HistoryLaw(queues: seq<seq<EntityId>>, joined: seq<seq<EntityId>>, cleared: seq<seq<EntityId>>,
                                      dropped: seq<seq<EntityId>>, n: nat)
    requires |queues| == |joined| + 1 && |joined| == |cleared| == |dropped| && n <= |joined| && queues[0] == []
    requires forall i :: 0 <= i < n ==> QueueLaw(queues[i], joined[i], cleared[i], dropped[i], queues[i + 1])
    ensures QueueLaw([], Flatten(joined[..n]), Flatten(cleared[..n]), Flatten(dropped[..n]), queues[n])
  {
    if n == 0 {
      assert QueueLaw([], [], [], [], []);
    } else {
      hide QueueLaw, Flatten;
      HistoryLaw(queues, joined, cleared, dropped, n - 1);
      FlattenTo(joined, n);
      FlattenTo(cleared, n);
      FlattenTo(dropped, n);
      LawsCompose(Flatten(joined[..n - 1]), Flatten(cleared[..n - 1]), Flatten(dropped[..n - 1]), queues[n - 1],
                  joined[n - 1], cleared[n - 1], dropped[n - 1], queues[n]);
    }
  }

  lemma LawsCompose(joined: seq<EntityId>, cleared: seq<EntityId>, dropped: seq<EntityId>, q: seq<EntityId>,
                    joinedNow: seq<EntityId>, clearedNow: seq<EntityId>, droppedNow: seq<EntityId>, q': seq<EntityId>)
    requires QueueLaw([], joined, cleared, dropped, q) && QueueLaw(q, joinedNow, clearedNow, droppedNow, q')
    ensures QueueLaw([], joined + joinedNow, cleared + clearedNow, dropped + droppedNow, q')
  {
    assert [] + joined == joined && [] + (joined + joinedNow) == joined + joinedNow;
    OrdersCompose(joined, cleared, q, joinedNow, clearedNow, q');
    CountsCompose(joined, cleared, dropped, q, joinedNow, clearedNow, droppedNow, q');
  }

  lemma OrdersCompose(joined: seq<EntityId>, cleared: seq<EntityId>, q: seq<EntityId>,
                      joinedNow: seq<EntityId>, clearedNow: seq<EntityId>, q': seq<EntityId>)
    requires Subsequence(cleared + q, joined) && Subsequence(clearedNow + q', q + joinedNow)
    ensures Subsequence(cleared + clearedNow + q', joined + joinedNow)
  {
    SubsequenceConcat(cleared, clearedNow + q', q + joinedNow);
    Assoc(cleared, clearedNow, q');
    Assoc(cleared, q, joinedNow);
    SubsequenceAppend(cleared + q, joined, joinedNow);
    SubsequenceTrans(cleared + clearedNow + q', cleared + q + joinedNow, joined + joinedNow);
  }

  lemma CountsCompose(joined: seq<EntityId>, cleared: seq<EntityId>, dropped: seq<EntityId>, q: seq<EntityId>,
                      joinedNow: seq<EntityId>, clearedNow: seq<EntityId>, droppedNow: seq<EntityId>, q': seq<EntityId>)
    requires multiset(joined) == multiset(cleared + q) + multiset(dropped)
    requires multiset(q + joinedNow) == multiset(clearedNow + q') + multiset(droppedNow)
    ensures multiset(joined + joinedNow) == multiset(cleared + clearedNow + q') + multiset(dropped + droppedNow)
  {
    assert multiset(joined + joinedNow) == multiset(joined) + multiset(joinedNow);
    assert multiset(q + joinedNow) == multiset(q) + multiset(joinedNow);
    assert multiset(cleared + q) == multiset(cleared) + multiset(q);
    assert multiset(clearedNow + q') == multiset(clearedNow) + multiset(q');
    assert multiset(cleared + clearedNow + q') == multiset(cleared) + multiset(clearedNow) + multiset(q');
    assert multiset(dropped + droppedNow) == multiset(dropped) + multiset(droppedNow);
    BagsCompose(multiset(joined), multiset(cleared), multiset(q), multiset(dropped), multiset(joinedNow),
                multiset(clearedNow), multiset(q'), multiset(droppedNow));
  }

  lemma BagsCompose(j: multiset<EntityId>, c: multiset<EntityId>, q: multiset<EntityId>, d: multiset<EntityId>,
                    jn: multiset<EntityId>, cn: multiset<EntityId>, q': multiset<EntityId>, dn: multiset<EntityId>)
    requires j == c + q + d && q + jn == cn + q' + dn
    ensures j + jn == c + cn + q' + (d + dn)
  {
    forall x ensures (j + jn)[x] == (c + cn + q' + (d + dn))[x] {
      assert (q + jn)[x] == (cn + q' + dn)[x];
    }
  }

  ghost function Queues(states: seq<Facility>): seq<seq<EntityId>> {
    seq(|states|, i requires 0 <= i < |states| => states[i].departures)
  }

  ghost function Joined(states: seq<Facility>, events: seq<Event>): seq<seq<EntityId>>
    requires |states| == |events| + 1
  {
    seq(|events|, i requires 0 <= i < |events| => JoinedBy(states[i], events[i]))
  }

  ghost function Cleared(states: seq<Facility>, events: seq<Event>, worlds: seq<World>): seq<seq<EntityId>>
    requires |states| == |events| + 1 && |worlds| == |events|
  {
    seq(|events|, i requires 0 <= i < |events| => ClearedBy(states[i], events[i], worlds[i], states[i + 1]))
  }

  ghost function Dropped(states: seq<Facility>, events: seq<Event>, worlds: seq<World>): seq<seq<EntityId>>
    requires |states| == |events| + 1 && |worlds| == |events|
  {
    seq(|events|, i requires 0 <= i < |events| => DroppedBy(states[i], events[i], worlds[i]))
  }

  /**
   Takeoff clearances come out in the order the requests joined: in every run, the flights cleared over
   the radio so far, followed by the ones still waiting, are the joining order with flights left out;
   and the ones left out are exactly those whose request was cancelled or whose entity is gone.
   */
  lemma FirstComeFirstServed(states: seq<Facility>, events: seq<Event>, worlds: seq<World>, n: nat)
    requires Run(states, events, worlds) && n < |states|
    ensures var joined := Flatten(Joined(states, events)[..n]);
            var cleared := Flatten(Cleared(states, events, worlds)[..n]);
            var dropped := Flatten(Dropped(states, events, worlds)[..n]);
            && Subsequence(cleared + states[n].departures, joined)
            && multiset(joined) == multiset(cleared + states[n].departures) + multiset(dropped)
  {
    hide *;
    HistorySizes(states, events, worlds);
    var joined, cleared := Joined(states, events), Cleared(states, events, worlds);
    var dropped, queues := Dropped(states, events, worlds), Queues(states);
    forall i | 0 <= i < n ensures QueueLaw(queues[i], joined[i], cleared[i], dropped[i], queues[i + 1]) {
      HistoryLawAt(states, events, worlds, i);
    }
    HistoryLaw(queues, joined, cleared, dropped, n);
    OpenLaw(Flatten(joined[..n]), Flatten(cleared[..n]), Flatten(dropped[..n]), queues[n]);
  }

  lemma HistorySizes(states: seq<Facility>, events: seq<Event>, worlds: seq<World>)
    requires Run(states, events, worlds)
    ensures |states| == |events| + 1 && |worlds| == |events| && |Queues(states)| == |states|
    ensures |Joined(states, events)| == |Cleared(states, events, worlds)| == |Dropped(states, events, worlds)| == |events|
    ensures forall i :: 0 <= i < |states| ==> Queues(states)[i] == states[i].departures
    ensures Queues(states)[0] == []
  {
  }

  lemma HistoryLawAt(states: seq<Facility>, events: seq<Event>, worlds: seq<World>, i: nat)
    requires Run(states, events, worlds) && i < |events|
    ensures |Queues(states)| == |states|
    ensures QueueLaw(Queues(states)[i], Joined(states, events)[i], Cleared(states, events, worlds)[i],
                     Dropped(states, events, worlds)[i], Queues(states)[i + 1])
  {
    hide QueueLaw, ClearedBy, JoinedBy, DroppedBy;
    LawAt(states, events, worlds, i);
  }

  lemma OpenLaw(joined: seq<EntityId>, cleared: seq<EntityId>, dropped: seq<EntityId>, q: seq<EntityId>)
    requires QueueLaw([], joined, cleared, dropped, q)
    ensures Subsequence(cleared + q, joined) && multiset(joined) == multiset(cleared + q) + multiset(dropped)
  {
    assert [] + joined == joined;
  }

  lemma LawAt(states: seq<Facility>, events: seq<Event>, worlds: seq<World>, i: nat)
    requires Run(states, events, worlds) && i < |events|
    ensures QueueLaw(states[i].departures, JoinedBy(states[i], events[i]),
                     ClearedBy(states[i], events[i], worlds[i], states[i + 1]),
                     DroppedBy(states[i], events[i], worlds[i]), states[i + 1].departures)
  {
    hide Updates, RequestTakeoff, RequestLanding, DeclareInbound, RemoveFlight, QueueLaw;
    assert StepAt(states, events, worlds, i);
    StepLaw(states[i], events[i], worlds[i], states[i + 1]);
  }

  predicate NamesForLanding(e: Event, f: EntityId) {
    (e.LandingRequested? || e.InboundDeclared?) && e.flight == f
  }

  predicate LandedNow(s: Facility, w: World, f: EntityId) {
    s.occKind.Arrival? && s.occupant == f && Stopped(s, w)
  }

  lemma ReleaseKeepsArrivals(s: Facility, w: World, tick: nat, f: EntityId)
    ensures f in Release(s, w, tick).0.arrivals <==> f in s.arrivals && !LandedNow(s, w, f)
  {
  }

  /** The arrivals after an update are the ones before it, less the dead and the one that landed. */
  lemma UpdateArrivals(s: Facility, w: World, tick: nat, t: Facility, f: EntityId)
    requires Updates(s, w, tick, t)
    ensures f in t.arrivals <==> f in s.arrivals && !Gone(w, f) && !LandedNow(s, w, f)
  {
    var p := Prune(s, w);
    assert f in p.arrivals <==> f in s.arrivals && !Gone(w, f);
    ReleaseKeepsArrivals(p, w, tick, f);
    assert f in t.arrivals <==> f in multiset(t.arrivals);
    assert f in Unsorted(s, w, tick) <==> f in multiset(Unsorted(s, w, tick));
  }

  /** An arrival leaves the sequence in exactly three ways: it cancels, its entity dies, or it has landed. */
  lemma ArrivalLeaves(s: Facility, e: Event, w: World, t: Facility, f: EntityId)
    requires Step(s, e, w, t) && f in s.arrivals
    ensures f !in t.arrivals <==> e == Cancelled(f) || (e.Updated? && (Gone(w, f) || LandedNow(s, w, f)))
  {
    if e.Updated? {
      UpdateArrivals(s, w, e.tick, t, f);
    }
  }

  lemma StaysOut(s: Facility, e: Event, w: World, t: Facility, f: EntityId)
    requires Step(s, e, w, t) && f !in s.arrivals && !NamesForLanding(e, f)
    ensures f !in t.arrivals
  {
    if e.Updated? {
      UpdateArrivals(s, w, e.tick, t, f);
    }
  }

  /** Once out of the sequence, no flight is cleared to land again without a new landing request. */
  lemma {:induction false} NotReclearedUnasked(states: seq<Facility>, events: seq<Event>, worlds: seq<World>,
                                               from: nat, n: nat, f: EntityId)
    requires Run(states, events, worlds) && from <= n < |states|
    requires f !in states[from].arrivals
    requires forall i :: from <= i < n ==> !NamesForLanding(events[i], f)
    ensures f !in states[n].arrivals && !StateOf(states[n].clearance, f).ClearedToLand?
  {
    if from < n {
      NotReclearedUnasked(states, events, worlds, from, n - 1, f);
      assert StepAt(states, events, worlds, n - 1);
      StaysOut(states[n - 1], events[n - 1], worlds[n - 1], states[n], f);
    }
    RunKeepsInv(states, events, worlds, n);
  }

  /** No queued flight other than f itself uses f's pool slot. */
  ghost predicate OwnsSlot(s: Facility, f: EntityId) {
    forall g :: g in s.departures || g in s.arrivals ==> g.index == f.index ==> g == f
  }

  lemma LiveOwnsSlot(s: Facility, w: World, f: EntityId)
    requires HoldsSlot(w, f)
    ensures OwnsSlot(Prune(s, w), f)
  {
    var p := Prune(s, w);
    assert forall g :: g in p.departures || g in p.arrivals ==> g in w;
  }

  lemma ReleaseKeepsSlot(s: Facility, w: World, tick: nat, f: EntityId)
    requires OwnsSlot(s, f)
    ensures OwnsSlot(Release(s, w, tick).0, f)
  {
    ReleaseClearsNobody(s, w, tick);
    forall g ensures g in Release(s, w, tick).0.arrivals ==> g in s.arrivals {
      ReleaseKeepsArrivals(s, w, tick, g);
    }
  }

  /** Step 4 writes at most one slot of the clearance table: the new occupant's, or the waved flight's. */
  lemma GrantWritesOneSlot(s: Facility, w: World, tick: nat) returns (slot: nat)
    ensures var c := Grant(s, w, tick).0.clearance;
            forall k :: k != slot ==> (k in c <==> k in s.clearance) && (k in c ==> c[k] == s.clearance[k])
  {
    var h := Head(s.arrivals, s.clearance, tick);
    slot := if s.occKind.Free? && !ArrivalWithin(s, w, tick, DEPARTURE_HOLD_RANGE) && s.departures != []
            then s.departures[0].index else if h < |s.arrivals| then s.arrivals[h].index else 0;
  }

  /**
   Step 4 leaves alone the record of a flight that owns its slot and is not on offer as an arrival: it
   keeps its hold-off, it changes only by becoming the departure, and it is not made the arrival.
   */
  lemma GrantTouchesOne(s: Facility, w: World, tick: nat, f: EntityId)
    requires OwnsSlot(s, f) && Known(s.clearance, f)
    requires f in s.arrivals ==> !Sequenceable(s.clearance, f, tick)
    ensures var t := Grant(s, w, tick).0;
            && Known(t.clearance, f)
            && t.clearance[f.index].holdOffUntil == s.clearance[f.index].holdOffUntil
            && (t.clearance[f.index] == s.clearance[f.index] || (t.occKind.Departure? && t.occupant == f))
            && (t.occKind.Arrival? && t.occupant == f ==> s.occKind.Arrival? && s.occupant == f)
  {
  }

  /** A stopped lander is retired in the same update: out of the sequence, told to taxi, and `landed`. */
  lemma LandingRetires(s: Facility, w: World, tick: nat, t: Facility)
    requires Updates(s, w, tick, t)
    requires HoldsSlot(w, s.occupant) && LandedNow(s, w, s.occupant)
    ensures s.occupant !in t.arrivals && !(t.occKind.Arrival? && t.occupant == s.occupant)
    ensures StateOf(t.clearance, s.occupant).Landed? || (t.occKind.Departure? && t.occupant == s.occupant)
    ensures Radio(SayTaxiToParking, s.occupant) in Said(s, Updated(tick), w, t)
  {
    var f, p := s.occupant, Prune(s, w);
    var r := Release(p, w, tick).0;
    UpdateArrivals(s, w, tick, t, f);
    LiveOwnsSlot(s, w, f);
    ReleaseKeepsSlot(p, w, tick, f);
    PermutationKeeps(r.arrivals, t.arrivals);
    assert StateOf(r.clearance, f).Landed?;
    GrantTouchesOne(r.(arrivals := t.arrivals), w, tick, f);
  }
}
