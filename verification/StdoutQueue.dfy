/**
 The queue between the thread that reads a child's output and the threads that ask for its lines: a mutex,
 a condition variable and an atomic end flag, as interleaved steps.
 */
module StdoutQueue {
  import opened StdoutLines

  datatype Reader = Reading | Holding(line: string) | Notifying | Ending | Finished

  /** Where a consumer is: outside, asking for the mutex, holding it at three points of its loop, or asleep. */
  datatype Consumer = Outside | Asking | Locked | SawEmpty | SawOpen | Asleep(notified: bool)

  datatype Holder = Free | By(consumer: nat)

  datatype State = State(
    unread: string,
    reader: Reader,
    queue: seq<string>,
    done: bool,
    mutex: Holder,
    consumers: map<nat, Consumer>,
    delivered: seq<string>
  )

  datatype Step =
    | Fetch | Push | NotifyOne(who: nat) | NotifyNobody | SeeEnd | NotifyAll
    | Call(c: nat) | Lock(c: nat) | Pop(c: nat) | FindEmpty(c: nat) | LoadFlag(c: nat) | Sleep(c: nat) | Wake(c: nat, timedOut: bool)

  function At(s: State, c: nat): Consumer {
    if c in s.consumers then s.consumers[c] else Outside
  }

  function Moved(s: State, c: nat, to: Consumer): map<nat, Consumer> {
    s.consumers[c := to]
  }

  function Start(output: string): State {
    State(output, Reading, [], false, Free, map[], [])
  }

  predicate Sleeping(s: State, c: nat) {
    At(s, c).Asleep?
  }

  ghost predicate Enabled(s: State, e: Step) {
    match e
    case Fetch => s.reader.Reading? && s.unread != ""
    case Push => s.reader.Holding? && s.mutex.Free?
    case NotifyOne(who) => s.reader.Notifying? && Sleeping(s, who)
    case NotifyNobody => s.reader.Notifying? && forall c :: !Sleeping(s, c)
    case SeeEnd => s.reader.Reading? && s.unread == ""
    case NotifyAll => s.reader.Ending?
    case Call(c) => At(s, c).Outside?
    case Lock(c) => At(s, c).Asking? && s.mutex.Free?
    case Pop(c) => At(s, c).Locked? && s.queue != []
    case FindEmpty(c) => At(s, c).Locked? && s.queue == []
    case LoadFlag(c) => At(s, c).SawEmpty?
    case Sleep(c) => At(s, c).SawOpen?
    case Wake(c, timedOut) => Sleeping(s, c) && s.mutex.Free?
  }

  /**
   One step. The reader's critical section is a single push; a consumer's spans several steps, during
   which the end flag, being atomic, may still change. A wake-up takes the mutex again; a timed-out one
   then answers nothing.
   */
  function Next(s: State, e: Step): State
    requires Enabled(s, e)
  {
    match e
    case Fetch =>
      var n := ReadLength(s.unread, 0);
      s.(unread := s.unread[n..], reader := Holding(LineOf(s.unread[..n])))
    case Push => s.(queue := s.queue + [s.reader.line], reader := Notifying)
    case NotifyOne(who) => s.(reader := Reading, consumers := Moved(s, who, Asleep(true)))
    case NotifyNobody => s.(reader := Reading)
    case SeeEnd => s.(done := true, reader := Ending)
    case NotifyAll =>
      s.(reader := Finished,
         consumers := map c | c in s.consumers :: if s.consumers[c].Asleep? then Asleep(true) else s.consumers[c])
    case Call(c) => s.(consumers := Moved(s, c, Asking))
    case Lock(c) => s.(mutex := By(c), consumers := Moved(s, c, Locked))
    case Pop(c) =>
      s.(queue := s.queue[1..], delivered := s.delivered + [s.queue[0]], mutex := Free, consumers := Moved(s, c, Outside))
    case FindEmpty(c) => s.(consumers := Moved(s, c, SawEmpty))
    case LoadFlag(c) =>
      if s.done then s.(mutex := Free, consumers := Moved(s, c, Outside)) else s.(consumers := Moved(s, c, SawOpen))
    case Sleep(c) => s.(mutex := Free, consumers := Moved(s, c, Asleep(false)))
    case Wake(c, timedOut) =>
      if timedOut then s.(consumers := Moved(s, c, Outside)) else s.(mutex := By(c), consumers := Moved(s, c, Locked))
  }

  ghost predicate StepAt(states: seq<State>, steps: seq<Step>, i: nat)
    requires i < |steps| && |states| == |steps| + 1
  {
    Enabled(states[i], steps[i]) && states[i + 1] == Next(states[i], steps[i])
  }

  /** A run from the start, interleaving the reader and any number of consumers in any way. */
  ghost predicate Run(output: string, states: seq<State>, steps: seq<Step>) {
    && |states| == |steps| + 1 && states[0] == Start(output)
    && forall i :: 0 <= i < |steps| ==> StepAt(states, steps, i)
  }

  function Hand(r: Reader): seq<string> {
    if r.Holding? then [r.line] else []
  }

  predicate Inside(c: Consumer) {
    c.Locked? || c.SawEmpty? || c.SawOpen?
  }

  /** Delivered, queued, in the reader's hand and unread: together, and in that order, the whole output. */
  predicate Conserved(output: string, s: State) {
    s.delivered + s.queue + Hand(s.reader) + Lines(s.unread) == Lines(output)
  }

  ghost predicate Inv(output: string, s: State) {
    && Conserved(output, s)
    && (s.done <==> s.reader.Ending? || s.reader.Finished?)
    && (s.done ==> s.unread == "")
    && (forall c :: Inside(At(s, c)) <==> s.mutex == By(c))
    && (forall c :: At(s, c).SawEmpty? || At(s, c).SawOpen? ==> s.queue == [])
  }

  lemma FetchConserves(output: string, s: State)
    requires Conserved(output, s) && Enabled(s, Fetch)
    ensures Conserved(output, Next(s, Fetch))
  {
    var n := ReadLength(s.unread, 0);
    var l := LineOf(s.unread[..n]);
    calc {
      s.delivered + s.queue + [l] + Lines(s.unread[n..]);
      s.delivered + s.queue + ([l] + Lines(s.unread[n..]));
      { assert s.delivered + s.queue + [] == s.delivered + s.queue; }
      Lines(output);
    }
  }

  lemma StepConserves(output: string, s: State, e: Step)
    requires Conserved(output, s) && Enabled(s, e)
    ensures Conserved(output, Next(s, e))
  {
    hide Lines;
    if e.Fetch? {
      FetchConserves(output, s);
    } else if e.Push? {
      var l := s.reader.line;
      assert s.delivered + (s.queue + [l]) + [] == s.delivered + s.queue + [l];
    } else if e.Pop? {
      assert (s.delivered + [s.queue[0]]) + s.queue[1..] == s.delivered + s.queue;
    }
  }

  /** Every step keeps the invariant. */
  lemma StepKeepsInv(output: string, s: State, e: Step)
    requires Inv(output, s) && Enabled(s, e)
    ensures Inv(output, Next(s, e))
  {
    hide Conserved, Lines;
    StepConserves(output, s, e);
    var t := Next(s, e);
    forall c
      ensures Inside(At(t, c)) <==> t.mutex == By(c)
      ensures At(t, c).SawEmpty? || At(t, c).SawOpen? ==> t.queue == [] {
      assert Inside(At(s, c)) <==> s.mutex == By(c);
    }
  }

  lemma {:induction false} RunKeepsInv(output: string, states: seq<State>, steps: seq<Step>, i: nat)
    requires Run(output, states, steps) && i <= |steps|
    ensures Inv(output, states[i])
    decreases i
  {
    hide Inv, Enabled, Next;
    if i == 0 {
      StartInv(output);
    } else {
      RunKeepsInv(output, states, steps, i - 1);
      assert StepAt(states, steps, i - 1);
      StepKeepsInv(output, states[i - 1], steps[i - 1]);
    }
  }

  lemma StartInv(output: string)
    ensures Inv(output, Start(output))
  {
    assert [] + [] + [] + Lines(output) == Lines(output);
  }

  /** No line is lost, duplicated or reordered: at every moment the delivered lines are a prefix of the output's. */
  lemma NothingLost(output: string, states: seq<State>, steps: seq<Step>, i: nat)
    requires Run(output, states, steps) && i <= |steps|
    ensures Conserved(output, states[i]) && states[i].delivered <= Lines(output)
  {
    RunKeepsInv(output, states, steps, i);
    var s := states[i];
    assert (s.delivered + s.queue + Hand(s.reader) + Lines(s.unread))[..|s.delivered|] == s.delivered;
  }

  /** A consumer told "nothing more" because the reader is done is told so only after every line was delivered. */
  lemma DoneMeansAllDelivered(output: string, states: seq<State>, steps: seq<Step>, i: nat, c: nat)
    requires Run(output, states, steps) && i < |steps| && steps[i] == LoadFlag(c) && states[i].done
    ensures states[i].delivered == Lines(output) && At(states[i + 1], c).Outside?
  {
    assert StepAt(states, steps, i);
    RunKeepsInv(output, states, steps, i);
    var s := states[i];
    assert At(s, c).SawEmpty?;
    assert s.queue == [] && Lines(s.unread) == [];
    assert s.delivered + [] + [] + [] == s.delivered;
  }

  /** Lines printed one by one are delivered as printed, in order, with none missing once a consumer is told it is over. */
  lemma PrintedLinesArrive(lines: seq<string>, crlf: bool, states: seq<State>, steps: seq<Step>, i: nat, c: nat)
    requires forall k :: 0 <= k < |lines| ==> Carried(lines[k], crlf)
    requires Run(Joined(lines, crlf), states, steps) && i < |steps| && steps[i] == LoadFlag(c) && states[i].done
    ensures states[i].delivered == lines
  {
    hide Run;
    DoneMeansAllDelivered(Joined(lines, crlf), states, steps, i, c);
    LinesRoundTrip(lines, crlf);
  }

  /** Consumer c comes back from its call in this step. */
  ghost predicate Returns(s: State, e: Step, c: nat) {
    Enabled(s, e) && !At(s, c).Outside? && At(Next(s, e), c).Outside?
  }

  /**
   A call comes back in exactly three ways: with the front line of the queue, which it takes; told that it
   is over, with the end announced and the queue empty; or timed out. A consumer woken without a time-out
   goes round again, and never leaves empty-handed past a queued line.
   */
  lemma HowACallReturns(output: string, s: State, e: Step, c: nat)
    requires Inv(output, s) && Returns(s, e, c)
    ensures || (e == Pop(c) && s.queue != [] && Next(s, e).delivered == s.delivered + [s.queue[0]]
                && Next(s, e).queue == s.queue[1..])
            || (e == LoadFlag(c) && s.done && s.queue == [] && Next(s, e).delivered == s.delivered)
            || (e == Wake(c, true) && Next(s, e).delivered == s.delivered)
  {
    hide Conserved;
  }

  /** The queue grows only at the back, by the line in the reader's hand, and shrinks only at the front. */
  lemma QueueMoves(s: State, e: Step)
    requires Enabled(s, e)
    ensures e.Push? ==> Next(s, e).queue == s.queue + Hand(s.reader)
    ensures e.Pop? ==> [Next(s, e).delivered[|s.delivered|]] + Next(s, e).queue == s.queue
    ensures !e.Push? && !e.Pop? ==> Next(s, e).queue == s.queue && Next(s, e).delivered == s.delivered
  {
  }

  // Who is told of the end.

  ghost predicate SleptBy(steps: seq<Step>, c: nat, j: nat, i: nat)
    requires i <= |steps|
  {
    exists k :: j < k < i && steps[k] == Sleep(c)
  }

  ghost predicate WokenBy(steps: seq<Step>, c: nat, j: nat, i: nat)
    requires i <= |steps|
  {
    exists k :: j < k < i && steps[k].Wake? && steps[k].c == c
  }

  /** Nothing more is announced: the reader has finished and the flag is set. */
  predicate Over(s: State) {
    s.reader.Finished? && s.done
  }

  /** A consumer that has not seen the flag unset neither will, nor will it be asleep without having been told. */
  predicate Told(s: State, c: nat) {
    At(s, c) != SawOpen && At(s, c) != Asleep(false)
  }

  lemma StaysOver(s: State, e: Step)
    requires Over(s) && Enabled(s, e)
    ensures Over(Next(s, e))
  {
  }

  lemma StaysTold(s: State, e: Step, c: nat)
    requires Over(s) && Enabled(s, e) && Told(s, c)
    ensures Told(Next(s, e), c)
  {
  }

  /** Past the end, a consumer that saw the flag unset moves only to sleep, and then only by its own wake-up. */
  lemma MissingStep(s: State, e: Step, c: nat)
    requires Over(s) && Enabled(s, e)
    ensures At(s, c).SawOpen? ==> At(Next(s, e), c) == if e == Sleep(c) then Asleep(false) else SawOpen
    ensures At(s, c) == Asleep(false) ==>
              if e.Wake? && e.c == c then Told(Next(s, e), c) else At(Next(s, e), c) == Asleep(false)
    ensures e == Sleep(c) ==> At(s, c).SawOpen?
    ensures e.Wake? && e.c == c ==> At(s, c).Asleep?
  {
  }

  /** Announcing the end tells every sleeper, and nobody else. */
  lemma AnnouncingTells(s: State, c: nat)
    requires Enabled(s, NotifyAll) && (s.done <==> s.reader.Ending? || s.reader.Finished?)
    ensures Over(Next(s, NotifyAll))
    ensures At(s, c).SawOpen? ==> At(Next(s, NotifyAll), c).SawOpen?
    ensures !At(s, c).SawOpen? ==> Told(Next(s, NotifyAll), c)
  {
  }

  /** Where a consumer that stood between its check and its wait when the end was announced is at step i. */
  ghost predicate Missing(s: State, steps: seq<Step>, c: nat, j: nat, i: nat)
    requires i <= |steps|
  {
    && (!SleptBy(steps, c, j, i) ==> At(s, c).SawOpen? && !WokenBy(steps, c, j, i))
    && (SleptBy(steps, c, j, i) && !WokenBy(steps, c, j, i) ==> At(s, c) == Asleep(false))
    && (WokenBy(steps, c, j, i) ==> Told(s, c))
  }

  lemma ByStep(steps: seq<Step>, c: nat, j: nat, i: nat)
    requires j < i < |steps|
    ensures SleptBy(steps, c, j, i + 1) <==> SleptBy(steps, c, j, i) || steps[i] == Sleep(c)
    ensures WokenBy(steps, c, j, i + 1) <==> WokenBy(steps, c, j, i) || (steps[i].Wake? && steps[i].c == c)
  {
  }

  lemma {:induction false} AfterTheEnd(output: string, states: seq<State>, steps: seq<Step>, j: nat, i: nat, c: nat)
    requires Run(output, states, steps) && j < i <= |steps| && steps[j] == NotifyAll
    ensures Over(states[i])
    ensures At(states[j], c).SawOpen? ==> Missing(states[i], steps, c, j, i)
    ensures !At(states[j], c).SawOpen? ==> Told(states[i], c)
    decreases i
  {
    hide Inv, Enabled, Next, At, SleptBy, WokenBy;
    assert StepAt(states, steps, i - 1);
    if i == j + 1 {
      EndFlagMeans(output, states, steps, j);
      AnnouncingTells(states[j], c);
      NothingYet(steps, c, j);
    } else {
      AfterTheEnd(output, states, steps, j, i - 1, c);
      StaysOver(states[i - 1], steps[i - 1]);
      MissingStep(states[i - 1], steps[i - 1], c);
      ByStep(steps, c, j, i - 1);
      if Told(states[i - 1], c) {
        StaysTold(states[i - 1], steps[i - 1], c);
      }
    }
  }

  lemma NothingYet(steps: seq<Step>, c: nat, j: nat)
    requires j < |steps|
    ensures !SleptBy(steps, c, j, j + 1) && !WokenBy(steps, c, j, j + 1)
  {
  }

  lemma EndFlagMeans(output: string, states: seq<State>, steps: seq<Step>, j: nat)
    requires Run(output, states, steps) && j < |steps|
    ensures states[j].done <==> states[j].reader.Ending? || states[j].reader.Finished?
  {
    hide Run;
    RunKeepsInv(output, states, steps, j);
  }

  /**
   In every run, after the end is announced at step j, a consumer is asleep and un-notified at step i if
   and only if at j it stood between its flag check and its wait, has gone to sleep since, and has not
   woken. A consumer anywhere else at j is never left un-notified.
   */
  lemma MissesIffBetweenCheckAndWait(output: string, states: seq<State>, steps: seq<Step>, j: nat, i: nat, c: nat)
    requires Run(output, states, steps) && j < i <= |steps| && steps[j] == NotifyAll
    ensures At(states[i], c) == Asleep(false)
        <==> At(states[j], c).SawOpen? && SleptBy(steps, c, j, i) && !WokenBy(steps, c, j, i)
  {
    hide Run, SleptBy, WokenBy;
    AfterTheEnd(output, states, steps, j, i, c);
  }

  /** Some continuation of the run, of any length, leaves some consumer asleep and un-notified. */
  ghost predicate CanMiss(output: string, states: seq<State>, steps: seq<Step>) {
    exists states', steps', c :: Continues(output, states, steps, states', steps') && At(states'[|steps'|], c) == Asleep(false)
  }

  ghost predicate Continues(output: string, states: seq<State>, steps: seq<Step>, states': seq<State>, steps': seq<Step>) {
    Run(output, states', steps') && states <= states' && steps <= steps'
  }

  /** Some consumer has found the flag unset and has not yet gone to sleep. */
  ghost predicate SomebodyBetween(s: State) {
    exists c :: At(s, c).SawOpen?
  }

  /** So once the end is announced somebody can still miss it exactly when somebody stands between check and wait. */
  lemma CanMissIffBetweenCheckAndWait(output: string, states: seq<State>, steps: seq<Step>)
    requires Run(output, states, steps) && steps != [] && steps[|steps| - 1] == NotifyAll
    ensures CanMiss(output, states, steps) <==> SomebodyBetween(states[|steps| - 1])
  {
    var j := |steps| - 1;
    if CanMiss(output, states, steps) {
      var states', steps', c :| Continues(output, states, steps, states', steps') && At(states'[|steps'|], c) == Asleep(false);
      assert steps'[j] == steps[j] && states'[j] == states[j];
      MissesIffBetweenCheckAndWait(output, states', steps', j, |steps'|, c);
      assert At(states[j], c).SawOpen?;
    }
    if c :| At(states[j], c).SawOpen? {
      SleepingOn(output, states, steps, c);
    }
  }

  /** The continuation: the consumer goes to sleep next. */
  lemma SleepingOn(output: string, states: seq<State>, steps: seq<Step>, c: nat)
    requires Run(output, states, steps) && steps != [] && steps[|steps| - 1] == NotifyAll
    requires At(states[|steps| - 1], c).SawOpen?
    ensures CanMiss(output, states, steps)
  {
    hide Inv, Next, Enabled;
    var n := |steps|;
    assert StepAt(states, steps, n - 1);
    EndFlagMeans(output, states, steps, n - 1);
    AnnouncingTells(states[n - 1], c);
    SleepIsEnabled(states[n], c);
    var t := Next(states[n], Sleep(c));
    var states', steps' := states + [t], steps + [Sleep(c)];
    forall i | 0 <= i < |steps'| ensures StepAt(states', steps', i) {
      assert i < n ==> StepAt(states, steps, i);
    }
    assert Continues(output, states, steps, states', steps');
    assert At(states'[|steps'|], c) == Asleep(false);
  }

  lemma SleepIsEnabled(s: State, c: nat)
    requires At(s, c).SawOpen?
    ensures Enabled(s, Sleep(c)) && At(Next(s, Sleep(c)), c) == Asleep(false)
  {
  }

  ghost predicate MissesTheEnd(states: seq<State>, steps: seq<Step>, c: nat) {
    && Run("", states, steps)
    && states[|steps|].reader.Finished? && At(states[|steps|], c) == Asleep(false)
  }

  /** One consumer and a child that prints nothing: the moments of the run below. */
  function Moment(k: nat): State {
    if k == 0 then Start("")
    else if k == 1 then State("", Reading, [], false, Free, map[0 := Asking], [])
    else if k == 2 then State("", Reading, [], false, By(0), map[0 := Locked], [])
    else if k == 3 then State("", Reading, [], false, By(0), map[0 := SawEmpty], [])
    else if k == 4 then State("", Reading, [], false, By(0), map[0 := SawOpen], [])
    else if k == 5 then State("", Ending, [], true, By(0), map[0 := SawOpen], [])
    else if k == 6 then State("", Finished, [], true, By(0), map[0 := SawOpen], [])
    else State("", Finished, [], true, Free, map[0 := Asleep(false)], [])
  }

  const MISSING := [Call(0), Lock(0), FindEmpty(0), LoadFlag(0), SeeEnd, NotifyAll, Sleep(0)]

  lemma MomentStep(k: nat)
    requires k < |MISSING|
    ensures Enabled(Moment(k), MISSING[k]) && Moment(k + 1) == Next(Moment(k), MISSING[k])
  {
    var t := Next(Moment(k), MISSING[k]);
    assert t.consumers == Moment(k + 1).consumers;
  }

  /**
   A witness: the flag is stored and announced without the mutex, so a consumer that has just found the
   flag unset goes to sleep un-notified and is left to its timeout.
   */
  lemma EndCanBeMissed()
    ensures exists states, steps, c :: MissesTheEnd(states, steps, c)
  {
    hide Enabled, Next;
    var states := seq(8, k requires k >= 0 => Moment(k));
    forall i | 0 <= i < |MISSING| ensures StepAt(states, MISSING, i) {
      MomentStep(i);
    }
    assert MissesTheEnd(states, MISSING, 0);
  }
}
