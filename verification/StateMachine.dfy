/**
 The controller that sequences child controllers: named states, transitions tested in insertion order
 after the child has been sampled, and a dwell timer that restarts on every entry.
 */
module StateMachine {

  import opened Wrappers

  /** `O` is what one tick lets a condition see. */
  datatype Transition<!O> = Transition(to: string, cond: O -> bool, minDwell: real)

  /** `C` is a child controller; a factory may also produce none. */
  datatype State<!O, +C> = State(name: string, factory: Option<C>, transitions: seq<Transition<O>>)

  datatype Machine<!O, +C> = Machine(states: seq<State<O, C>>, activeIdx: int, active: Option<C>, dwell: real)

  /** Index of the state of that name, or -1. */
  function FindState<O, C>(states: seq<State<O, C>>, name: string): (i: int)
    ensures -1 <= i < |states|
    ensures i >= 0 ==> states[i].name == name && forall j :: 0 <= j < i ==> states[j].name != name
    ensures i < 0 ==> forall j :: 0 <= j < |states| ==> states[j].name != name
  {
    if states == [] then -1
    else if states[0].name == name then 0
    else
      var r := FindState(states[1..], name);
      if r < 0 then -1 else r + 1
  }

  function Enter<O, C>(m: Machine<O, C>, idx: int): Machine<O, C>
    requires -1 <= idx < |m.states|
  {
    m.(activeIdx := idx, dwell := 0.0, active := if idx >= 0 then m.states[idx].factory else None)
  }

  function AddState<O, C>(m: Machine<O, C>, name: string, factory: Option<C>): Machine<O, C> {
    if FindState(m.states, name) >= 0 then m
    else m.(states := m.states + [State(name, factory, [])])
  }

  function AddTransition<O, C>(m: Machine<O, C>, from: string, tr: Transition<O>): Machine<O, C> {
    var i := FindState(m.states, from);
    if i < 0 then m
    else m.(states := m.states[i := m.states[i].(transitions := m.states[i].transitions + [tr])])
  }

  function SetInitial<O, C>(m: Machine<O, C>, name: string): Machine<O, C> {
    var i := FindState(m.states, name);
    if i < 0 then m else Enter(m, i)
  }

  predicate Ready<O>(tr: Transition<O>, dwell: real, obs: O) {
    dwell >= tr.minDwell && tr.cond(obs)
  }

  /** The state the transitions lead to, or -1: an unknown target ends the search, a self-transition does not. */
  function Choose<O, C>(m: Machine<O, C>, trs: seq<Transition<O>>, obs: O): (i: int)
    ensures -1 <= i < |m.states| && (i >= 0 ==> i != m.activeIdx)
    ensures i >= 0 ==> exists tr :: tr in trs && Ready(tr, m.dwell, obs) && FindState(m.states, tr.to) == i
  {
    if trs == [] then -1
    else if !Ready(trs[0], m.dwell, obs) then Choose(m, trs[1..], obs)
    else
      var next := FindState(m.states, trs[0].to);
      if next < 0 then -1
      else if next == m.activeIdx then Choose(m, trs[1..], obs)
      else assert trs[0] in trs; next
  }

  /** A transition the search goes past: not enabled, or back to the state it is in. */
  predicate Passed<O, C>(m: Machine<O, C>, tr: Transition<O>, obs: O) {
    !Ready(tr, m.dwell, obs) || FindState(m.states, tr.to) == m.activeIdx
  }

  /**
   Priority: the choice is made by the first transition in insertion order that is enabled and leads
   elsewhere; an unknown target there ends the search with no move.
   */
  lemma {:induction false} FirstEnabledDecides<O, C>(m: Machine<O, C>, trs: seq<Transition<O>>, obs: O) returns (k: nat)
    requires 0 <= m.activeIdx
    ensures k <= |trs| && forall j :: 0 <= j < k ==> Passed(m, trs[j], obs)
    ensures k < |trs| ==> !Passed(m, trs[k], obs)
    ensures Choose(m, trs, obs) == if k < |trs| then FindState(m.states, trs[k].to) else -1
  {
    k := 0;
    if trs != [] && Passed(m, trs[0], obs) {
      var r := FirstEnabledDecides(m, trs[1..], obs);
      k := r + 1;
    }
  }

  /** One tick: the active child drives this tick's output, then the transitions are tested. */
  function Sample<O, C, U>(m: Machine<O, C>, drive: (C, O) -> (C, U), neutral: U, obs: O, dt: real): (Machine<O, C>, U) {
    if !(0 <= m.activeIdx < |m.states|) || m.active.None? then (m, neutral)
    else
      var (child, out) := drive(m.active.value, obs);
      var m' := m.(dwell := m.dwell + dt, active := Some(child));
      var next := Choose(m', m'.states[m'.activeIdx].transitions, obs);
      (if next >= 0 then Enter(m', next) else m', out)
  }

  function Blank<O, C>(): Machine<O, C> {
    Machine([], -1, None, 0.0)
  }

  class StateMachineController<!O, C, U> {
    const drive: (C, O) -> (C, U)
    const neutral: U
    var states: seq<State<O, C>>
    var activeIdx: int
    var active: Option<C>
    var dwell: real

    ghost predicate Valid()
      reads this
    {
      -1 <= activeIdx < |states|
    }

    function Value(): Machine<O, C>
      reads this
    {
      Machine(states, activeIdx, active, dwell)
    }

    constructor (drive: (C, O) -> (C, U), neutral: U)
      ensures Valid() && Value() == Blank() && this.drive == drive && this.neutral == neutral
    {
      this.drive, this.neutral := drive, neutral;
      states, activeIdx, active, dwell := [], -1, None, 0.0;
    }

    method Find(name: string) returns (idx: int)
      ensures idx == FindState(states, name)
    {
      for i := 0 to |states|
        invariant forall j :: 0 <= j < i ==> states[j].name != name
      {
        if states[i].name == name {
          return i;
        }
      }
      return -1;
    }

    method EnterState(idx: int)
      requires Valid() && -1 <= idx < |states|
      modifies this
      ensures Valid() && Value() == Enter(old(Value()), idx)
    {
      activeIdx, dwell := idx, 0.0;
      active := if idx >= 0 then states[idx].factory else None;
    }

    method AddStateOf(name: string, factory: Option<C>)
      requires Valid()
      modifies this
      ensures Valid() && Value() == AddState(old(Value()), name, factory)
    {
      var idx := Find(name);
      if idx >= 0 {
        return;
      }
      states := states + [State(name, factory, [])];
    }

    method AddTransitionOf(from: string, to: string, cond: O -> bool, minDwell: real)
      requires Valid()
      modifies this
      ensures Valid() && Value() == AddTransition(old(Value()), from, Transition(to, cond, minDwell))
    {
      var idx := Find(from);
      if idx < 0 {
        return;
      }
      states := states[idx := states[idx].(transitions := states[idx].transitions + [Transition(to, cond, minDwell)])];
    }

    method SetInitialState(name: string)
      requires Valid()
      modifies this
      ensures Valid() && Value() == SetInitial(old(Value()), name)
    {
      var idx := Find(name);
      if idx < 0 {
        return;
      }
      EnterState(idx);
    }

    /** The loop over outgoing transitions: the state to enter, or -1 to stay. */
    method TestTransitions(trs: seq<Transition<O>>, obs: O) returns (next: int)
      requires Valid()
      ensures next == Choose(Value(), trs, obs)
    {
      var i := 0;
      while i < |trs|
        invariant 0 <= i <= |trs|
        invariant Choose(Value(), trs, obs) == Choose(Value(), trs[i..], obs)
      {
        assert trs[i..][0] == trs[i] && trs[i..][1..] == trs[i + 1..];
        if Ready(trs[i], dwell, obs) {
          next := Find(trs[i].to);
          if next < 0 || next != activeIdx {
            return;
          }
        }
        i := i + 1;
      }
      next := -1;
    }

    method SampleOnce(obs: O, dt: real) returns (out: U)
      requires Valid()
      modifies this
      ensures Valid() && (Value(), out) == Sample(old(Value()), drive, neutral, obs, dt)
    {
      if activeIdx < 0 || active.None? {
        return neutral;
      }
      dwell := dwell + dt;
      var (child, inp) := drive(active.value, obs);
      active := Some(child);
      var next := TestTransitions(states[activeIdx].transitions, obs);
      if next >= 0 {
        EnterState(next);
      }
      return inp;
    }
  }
}
