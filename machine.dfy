/** The state machine contract of StateMachine.java for a flat machine: a
    status, a current state, a transition table from (state, event) to the
    target state, the sub-state lists and last-active-child records kept per
    parent state, and the actions run so far.

    Every action the machine runs goes through its own ActionExecutor: one
    batch per start, fire or terminate, in which the entry, exit and
    transition actions are deferred in order and then executed.  The actions
    of this model are the machine's own logging actions, which always
    complete. */
module Machine {
  import opened Wrappers
  import opened Executor

  datatype StateMachineStatus = Initialized | Idle | Busy | Terminated

  /** The actions a flat machine runs: a state's entry and exit actions and
      the action of the transition from `source` to `target` on `on`. */
  datatype MachineAction<S, E> =
    | Entry(state: S)
    | Exit(state: S)
    | Transit(source: S, target: S, on: E)

  datatype MachineError = IllegalState

  /** What `fire` did: moved to `target`, found no transition for the event
      (declined), or refused because the machine is not idle. */
  datatype FireResult<S> = Transited(target: S) | Declined | Rejected(error: MachineError)

  /** The entries of the machine's action batches. A state argument that is
      null in the source (the parent of a top-level state, the event of start
      and terminate) is None. */
  type Step<S, E, C> = ExecutionContext<MachineAction<S, E>, Option<S>, Option<E>, C, object>

  /** The actions of a sequence of calls, in order. */
  function Actions<A, S, E, C, M>(calls: seq<ExecutionContext<A, S, E, C, M>>): seq<A>
  {
    seq(|calls|, i requires 0 <= i < |calls| => calls[i].action)
  }

  /** Executing one complete batch of machine actions extends the action
      log by exactly the batch's actions, in deferral order. */
  lemma BatchExtendsActions<S, E, C>(before: seq<Observation<MachineAction<S, E>, Option<S>, Option<E>, C, object>>,
                                     batch: seq<Step<S, E, C>>)
    ensures Actions(Calls(before + Trace(batch, Attempted(batch, NeverFails))))
         == Actions(Calls(before)) + Actions(batch)
  {
    RunsWholeBatch(batch, NeverFails);
    CallsAppend(before, Trace(batch, Attempted(batch, NeverFails)));
  }

  predicate NoDuplicates<T(==)>(xs: seq<T>) {
    forall i, j :: 0 <= i < j < |xs| ==> xs[i] != xs[j]
  }

  /** The sub-state list of a parent after `setSubState`: an ordered set, so
      a state already present is not added twice. */
  function WithSubState<S(==)>(subs: seq<S>, s: S): (r: seq<S>)
    ensures s in r
    ensures forall i :: 0 <= i < |r| ==> r[i] in subs || r[i] == s
    ensures |subs| <= |r| && r[..|subs|] == subs
    ensures NoDuplicates(subs) ==> NoDuplicates(r)
  {
    if s in subs then subs else subs + [s]
  }

  /** The sub-state list of a parent after `removeSubState`: `s` is gone and
      the others keep their order (`RemoveKeepsOrder`). */
  function WithoutSubState<S(==)>(subs: seq<S>, s: S): (r: seq<S>)
    ensures s !in r
    ensures forall i :: 0 <= i < |r| ==> r[i] in subs && r[i] != s
    ensures forall i :: 0 <= i < |subs| && subs[i] != s ==> subs[i] in r
    ensures NoDuplicates(subs) ==> NoDuplicates(r)
  {
    if subs == [] then []
    else if subs[0] == s then WithoutSubState(subs[1..], s)
    else [subs[0]] + WithoutSubState(subs[1..], s)
  }

  /** Removal works piecewise, so the remaining states keep their relative
      order: removing from a concatenation removes from each part. */
  lemma {:induction false} WithoutSubStateAppend<S>(a: seq<S>, b: seq<S>, s: S)
    ensures WithoutSubState(a + b, s) == WithoutSubState(a, s) + WithoutSubState(b, s)
    decreases |a|
  {
    if a == [] {
      assert a + b == b;
    } else {
      assert (a + b)[1..] == a[1..] + b;
      WithoutSubStateAppend(a[1..], b, s);
    }
  }

  /** In a list without duplicates, removing the state at index i leaves
      exactly the states before it followed by the states after it. */
  lemma RemoveKeepsOrder<S>(subs: seq<S>, s: S, i: nat)
    requires i < |subs| && subs[i] == s && NoDuplicates(subs)
    ensures WithoutSubState(subs, s) == subs[..i] + subs[i + 1..]
  {
    assert subs == subs[..i] + ([subs[i]] + subs[i + 1..]);
    WithoutSubStateAppend(subs[..i], [subs[i]] + subs[i + 1..], s);
    WithoutSubStateAppend([subs[i]], subs[i + 1..], s);
    NotInUnchanged(subs[..i], s);
    NotInUnchanged(subs[i + 1..], s);
  }

  /** Removing a state that is not in the list changes nothing. */
  lemma {:induction false} NotInUnchanged<S>(subs: seq<S>, s: S)
    requires s !in subs
    ensures WithoutSubState(subs, s) == subs
  {
    if subs != [] {
      assert subs == [subs[0]] + subs[1..];
      NotInUnchanged(subs[1..], s);
    }
  }

  /** Adding a state that was not a sub-state and then removing it gives
      back the original list. */
  lemma {:induction false} RemoveUndoesAdd<S>(subs: seq<S>, s: S)
    requires s !in subs
    ensures WithoutSubState(WithSubState(subs, s), s) == subs
  {
    if subs != [] {
      assert (subs + [s])[1..] == subs[1..] + [s];
      RemoveUndoesAdd(subs[1..], s);
    }
  }

  class StateMachine<S(==), E(==), C> {
    const initialState: S
    const transitions: map<(S, E), S>
    const executor: ActionExecutor<MachineAction<S, E>, Option<S>, Option<E>, C, object>
    var status: StateMachineStatus
    var currentState: Option<S>
    var subStates: map<S, seq<S>>
    var lastActiveChild: map<S, S>

    /** Between calls no batch is left open, the machine is never seen busy,
        a started and running machine has a current state, and every
        sub-state list is an ordered set. */
    ghost predicate Valid()
      reads this, executor
    {
      && executor.stack == []
      && status != Busy
      && (status == Initialized ==> currentState == None)
      && (status == Idle ==> currentState.Some?)
      && (forall p :: p in subStates ==> NoDuplicates(subStates[p]))
    }

    /** The actions run so far, in the order they ran. */
    function ActionLog(): seq<MachineAction<S, E>>
      reads this, executor
    {
      Actions(Calls(executor.log))
    }

    /** The sub-states recorded for `parent`, in the order they were added;
        empty when none were set. A valid machine's lists have no duplicates. */
    function GetSubStatesOn(parent: S): (r: seq<S>)
      reads this
      ensures parent in subStates ==> r == subStates[parent]
      ensures parent !in subStates ==> r == []
      ensures (forall p :: p in subStates ==> NoDuplicates(subStates[p])) ==> NoDuplicates(r)
    {
      if parent in subStates then subStates[parent] else []
    }

    /** The child last recorded as active under `parent`, or None (Java's
        null) when no child was recorded. */
    function GetLastActiveChildStateOf(parent: S): (r: Option<S>)
      reads this
      ensures r.Some? <==> parent in lastActiveChild
      ensures r.Some? ==> r.value == lastActiveChild[parent]
    {
      if parent in lastActiveChild then Some(lastActiveChild[parent]) else None
    }

    constructor (initialState: S, transitions: map<(S, E), S>)
      ensures Valid() && fresh(executor)
      ensures this.initialState == initialState && this.transitions == transitions
      ensures status == Initialized && currentState == None
      ensures subStates == map[] && lastActiveChild == map[]
      ensures ActionLog() == []
    {
      this.initialState := initialState;
      this.transitions := transitions;
      executor := new ActionExecutor();
      status := Initialized;
      currentState := None;
      subStates := map[];
      lastActiveChild := map[];
    }

    /** Runs `batch` through the executor as one batch. The machine's
        actions always complete. */
    method RunBatch(batch: seq<Step<S, E, C>>)
      modifies executor
      ensures executor.stack == old(executor.stack)
      ensures ActionLog() == old(ActionLog()) + Actions(batch)
    {
      var _ := RunNested(executor, batch, NeverFails);
      BatchExtendsActions(old(executor.log), batch);
    }

    /** Enters the initial state, running only its entry action. */
    method Start(context: C) returns (r: Outcome<MachineError>)
      requires Valid()
      modifies this, executor
      ensures Valid()
      ensures subStates == old(subStates) && lastActiveChild == old(lastActiveChild)
      ensures old(status) == Initialized ==>
        && r == Pass
        && status == Idle
        && currentState == Some(initialState)
        && ActionLog() == old(ActionLog()) + [Entry(initialState)]
      ensures old(status) != Initialized ==>
        && r == Fail(IllegalState)
        && status == old(status)
        && currentState == old(currentState)
        && executor.log == old(executor.log)
    {
      if status != Initialized {
        return Fail(IllegalState);
      }
      var machine: object := this;
      var batch: seq<Step<S, E, C>> := [ExecutionContext(Entry(initialState), None, Some(initialState), None, context, machine)];
      RunBatch(batch);
      currentState := Some(initialState);
      status := Idle;
      r := Pass;
    }

    /** Fires `event`: when the table has a transition from the current
        state on it, runs the exit action of the source, the transition
        action and the entry action of the target, in that order, and moves
        to the target. */
    method Fire(event: E, context: C) returns (r: FireResult<S>)
      requires Valid()
      modifies this, executor
      ensures Valid()
      ensures subStates == old(subStates) && lastActiveChild == old(lastActiveChild)
      ensures old(status) != Idle ==>
        && r == Rejected(IllegalState)
        && status == old(status)
        && currentState == old(currentState)
        && executor.log == old(executor.log)
      ensures old(status) == Idle && (old(currentState).value, event) !in transitions ==>
        && r == Declined
        && status == Idle
        && currentState == old(currentState)
        && executor.log == old(executor.log)
      ensures old(status) == Idle && (old(currentState).value, event) in transitions ==>
        var source := old(currentState).value;
        var target := transitions[(source, event)];
        && r == Transited(target)
        && status == Idle
        && currentState == Some(target)
        && ActionLog() == old(ActionLog()) + [Exit(source), Transit(source, target, event), Entry(target)]
    {
      if status != Idle {
        return Rejected(IllegalState);
      }
      var source := currentState.value;
      if (source, event) !in transitions {
        return Declined;
      }
      status := Busy;
      var target := transitions[(source, event)];
      var machine: object := this;
      var batch: seq<Step<S, E, C>> := [
        ExecutionContext(Exit(source), Some(source), None, Some(event), context, machine),
        ExecutionContext(Transit(source, target, event), Some(source), Some(target), Some(event), context, machine),
        ExecutionContext(Entry(target), None, Some(target), Some(event), context, machine)];
      RunBatch(batch);
      currentState := Some(target);
      status := Idle;
      r := Transited(target);
    }

    /** Ends the machine, running the exit action of the current state (if
        it was ever started); a machine already terminated refuses. */
    method Terminate(context: C) returns (r: Outcome<MachineError>)
      requires Valid()
      modifies this, executor
      ensures Valid()
      ensures currentState == old(currentState)
      ensures subStates == old(subStates) && lastActiveChild == old(lastActiveChild)
      ensures status == Terminated
      ensures old(status) == Terminated ==> r == Fail(IllegalState) && executor.log == old(executor.log)
      ensures old(status) != Terminated ==>
        && r == Pass
        && ActionLog() == old(ActionLog()) + (if old(currentState).Some? then [Exit(old(currentState).value)] else [])
    {
      if status == Terminated {
        return Fail(IllegalState);
      }
      if currentState.Some? {
        var s := currentState.value;
        var machine: object := this;
        var batch: seq<Step<S, E, C>> := [ExecutionContext(Exit(s), Some(s), None, None, context, machine)];
        RunBatch(batch);
      }
      status := Terminated;
      r := Pass;
    }

    /** Ends the machine without running any exit action. */
    method TerminateWithoutExitStates(context: C) returns (r: Outcome<MachineError>)
      requires Valid()
      modifies this
      ensures Valid()
      ensures currentState == old(currentState)
      ensures subStates == old(subStates) && lastActiveChild == old(lastActiveChild)
      ensures status == Terminated
      ensures r == (if old(status) == Terminated then Fail(IllegalState) else Pass)
      ensures executor.log == old(executor.log)
    {
      if status == Terminated {
        return Fail(IllegalState);
      }
      status := Terminated;
      r := Pass;
    }

    /** Records `child` as the last active child of `parent`. */
    method SetLastActiveChildState(parent: S, child: S)
      requires Valid()
      modifies this
      ensures Valid()
      ensures GetLastActiveChildStateOf(parent) == Some(child)
      ensures lastActiveChild == old(lastActiveChild)[parent := child]
      ensures status == old(status) && currentState == old(currentState) && subStates == old(subStates)
    {
      lastActiveChild := lastActiveChild[parent := child];
    }

    /** Adds `subState` to the sub-states of `parent`. */
    method SetSubState(parent: S, subState: S)
      requires Valid()
      modifies this
      ensures Valid()
      ensures subState in GetSubStatesOn(parent)
      ensures subStates == old(subStates)[parent := WithSubState(old(GetSubStatesOn(parent)), subState)]
      ensures status == old(status) && currentState == old(currentState) && lastActiveChild == old(lastActiveChild)
    {
      subStates := subStates[parent := WithSubState(GetSubStatesOn(parent), subState)];
    }

    /** Removes `subState` from the sub-states of `parent`. */
    method RemoveSubState(parent: S, subState: S)
      requires Valid()
      modifies this
      ensures Valid()
      ensures subState !in GetSubStatesOn(parent)
      ensures subStates == old(subStates)[parent := WithoutSubState(old(GetSubStatesOn(parent)), subState)]
      ensures status == old(status) && currentState == old(currentState) && lastActiveChild == old(lastActiveChild)
    {
      subStates := subStates[parent := WithoutSubState(GetSubStatesOn(parent), subState)];
    }

    /** Clears the sub-states of `parent`. */
    method RemoveSubStatesOn(parent: S)
      requires Valid()
      modifies this
      ensures Valid()
      ensures GetSubStatesOn(parent) == []
      ensures subStates == old(subStates) - {parent}
      ensures status == old(status) && currentState == old(currentState) && lastActiveChild == old(lastActiveChild)
    {
      subStates := subStates - {parent};
    }
  }
}
