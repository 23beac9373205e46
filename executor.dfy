/** The deferred action executor of ActionExecutorImpl: a stack of batches
    of deferred actions. `begin` opens a batch, `defer` records an action with
    its arguments in the open batch, `execute` pops the open batch and runs its
    entries in order, publishing an "m of n" progress event before each one.

    Action bodies are foreign code: an action is an opaque value of type `A`,
    running it is recorded as an `Invoked` observation, and whether its body
    throws is given by the pure predicate `fails`, which sees the entry's
    0-based index in its batch as well as the entry, so that one action
    deferred twice with the same arguments may complete once and throw the
    second time. Progress notifications to listeners are recorded as
    `Published` observations in the same log. */
module Executor {
  import opened Wrappers

  /** One deferred call: the action and the arguments it is run with. */
  datatype ExecutionContext<A, S, E, C, M> =
    ExecutionContext(action: A, from: S, to: S, event: E, context: C, stateMachine: M)

  /** The progress event published before an action runs: the entry
      `executionContext` is at 1-based position `pos` of a batch of `size`
      entries. Its execution target is `executionContext.action`. */
  datatype ExecActionEvent<A, S, E, C, M> =
    ExecActionEvent(pos: int, size: int, executionContext: ExecutionContext<A, S, E, C, M>)
  {
    /** The "m of n" pair reported to listeners: the position first, then
        the batch size. */
    function MOfN(): (r: seq<int>)
      ensures |r| == 2 && r[0] == pos && r[1] == size
    {
      [pos, size]
    }
  }

  /** What the outside world sees while a batch executes. */
  datatype Observation<A, S, E, C, M> =
    | Published(event: ExecActionEvent<A, S, E, C, M>)
    | Invoked(call: ExecutionContext<A, S, E, C, M>)

  /** Exceptions that escape the executor. */
  datatype ExecError<A, S, E, C, M> =
    | NullAction    // `defer` was handed a null action
    | EmptyStack    // `defer` or `execute` with no open batch
    | ActionFailed(pos: int, failed: ExecutionContext<A, S, E, C, M>)  // an action body threw

  /** Every entry of `batch` runs without throwing. */
  predicate Succeeds<A, S, E, C, M>(batch: seq<ExecutionContext<A, S, E, C, M>>,
                                    fails: (nat, ExecutionContext<A, S, E, C, M>) -> bool)
  {
    forall j :: 0 <= j < |batch| ==> !fails(j, batch[j])
  }

  /** The number of entries of `batch` whose action is started: all of them,
      or up to and including the first one that throws. */
  function Attempted<A, S, E, C, M>(batch: seq<ExecutionContext<A, S, E, C, M>>,
                                    fails: (nat, ExecutionContext<A, S, E, C, M>) -> bool): (k: nat)
    ensures k <= |batch|
    ensures forall j :: 0 <= j < k - 1 ==> !fails(j, batch[j])
    ensures Succeeds(batch, fails) ==> k == |batch|
    ensures !Succeeds(batch, fails) ==> 0 < k && fails(k - 1, batch[k - 1])
  {
    AttemptedFrom(batch, fails, 0)
  }

  /** `Attempted` for the entries from index i on: the loop of `execute`
      having reached entry i without a throw. */
  function AttemptedFrom<A, S, E, C, M>(batch: seq<ExecutionContext<A, S, E, C, M>>,
                                        fails: (nat, ExecutionContext<A, S, E, C, M>) -> bool, i: nat): (k: nat)
    requires i <= |batch|
    ensures i <= k <= |batch|
    ensures forall j :: i <= j < k - 1 ==> !fails(j, batch[j])
    ensures (forall j :: i <= j < |batch| ==> !fails(j, batch[j])) ==> k == |batch|
    ensures (exists j :: i <= j < |batch| && fails(j, batch[j])) ==> i < k && fails(k - 1, batch[k - 1])
    decreases |batch| - i
  {
    if i == |batch| then i
    else if fails(i, batch[i]) then i + 1
    else AttemptedFrom(batch, fails, i + 1)
  }

  /** The observations produced by running the first `n` entries of `batch`:
      for each entry, its progress event and then its invocation. */
  function Trace<A, S, E, C, M>(batch: seq<ExecutionContext<A, S, E, C, M>>, n: nat): (r: seq<Observation<A, S, E, C, M>>)
    requires n <= |batch|
    ensures |r| == 2 * n
  {
    if n == 0 then []
    else Trace(batch, n - 1) + [Published(ExecActionEvent(n, |batch|, batch[n - 1])), Invoked(batch[n - 1])]
  }

  /** The actions invoked in `log`, in the order they ran. */
  function Calls<A, S, E, C, M>(log: seq<Observation<A, S, E, C, M>>): seq<ExecutionContext<A, S, E, C, M>>
  {
    if log == [] then []
    else
      var last := log[|log| - 1];
      Calls(log[..|log| - 1]) + (if last.Invoked? then [last.call] else [])
  }

  lemma {:induction false} CallsAppend<A, S, E, C, M>(a: seq<Observation<A, S, E, C, M>>, b: seq<Observation<A, S, E, C, M>>)
    ensures Calls(a + b) == Calls(a) + Calls(b)
    decreases |b|
  {
    if b != [] {
      var b' := b[..|b| - 1];
      assert (a + b)[..|a + b| - 1] == a + b';
      CallsAppend(a, b');
    } else {
      assert a + b == a;
    }
  }

  /** Entry i of the batch produces its progress event, carrying position
      i + 1 of |batch| and exactly the deferred tuple, immediately followed
      by the invocation of that same tuple. */
  lemma {:induction false} TraceAt<A, S, E, C, M>(batch: seq<ExecutionContext<A, S, E, C, M>>, n: nat, i: nat)
    requires i < n <= |batch|
    ensures Trace(batch, n)[2 * i] == Published(ExecActionEvent(i + 1, |batch|, batch[i]))
    ensures Trace(batch, n)[2 * i].event.MOfN() == [i + 1, |batch|]
    ensures Trace(batch, n)[2 * i + 1] == Invoked(batch[i])
    decreases n
  {
    if i < n - 1 {
      TraceAt(batch, n - 1, i);
    }
  }

  /** Every progress event of a trace has 1 <= pos <= size, and size is
      the length of the batch. */
  lemma {:induction false} TracePositionsInRange<A, S, E, C, M>(batch: seq<ExecutionContext<A, S, E, C, M>>, n: nat)
    requires n <= |batch|
    ensures forall o :: o in Trace(batch, n) && o.Published? ==>
      1 <= o.event.pos <= n && o.event.size == |batch|
    decreases n
  {
    if n > 0 {
      TracePositionsInRange(batch, n - 1);
    }
  }

  /** Running the first n entries invokes exactly those entries, each once,
      in deferral order. */
  lemma {:induction false} CallsOfTrace<A, S, E, C, M>(batch: seq<ExecutionContext<A, S, E, C, M>>, n: nat)
    requires n <= |batch|
    ensures Calls(Trace(batch, n)) == batch[..n]
    decreases n
  {
    if n > 0 {
      var step := [Published(ExecActionEvent(n, |batch|, batch[n - 1])), Invoked(batch[n - 1])];
      CallsOfTrace(batch, n - 1);
      CallsAppend(Trace(batch, n - 1), step);
      assert Calls(step) == [batch[n - 1]] by {
        assert Calls([step[0]]) == [] by {
          assert [step[0]][..0] == [];
        }
        assert step[..1] == [step[0]];
      }
      assert batch[..n] == batch[..n - 1] + [batch[n - 1]];
    }
  }

  /** When no action throws, every entry of the batch runs exactly once, in
      the order it was deferred. */
  lemma RunsWholeBatch<A, S, E, C, M>(batch: seq<ExecutionContext<A, S, E, C, M>>,
                                      fails: (nat, ExecutionContext<A, S, E, C, M>) -> bool)
    requires Succeeds(batch, fails)
    ensures Calls(Trace(batch, Attempted(batch, fails))) == batch
  {
    CallsOfTrace(batch, |batch|);
    assert batch[..|batch|] == batch;
  }

  /** When entry k is the first whose action throws, entries 0..k run and
      nothing after k runs or is announced. */
  lemma StopsAtFirstFailure<A, S, E, C, M>(batch: seq<ExecutionContext<A, S, E, C, M>>,
                                           fails: (nat, ExecutionContext<A, S, E, C, M>) -> bool, k: nat)
    requires k < |batch| && fails(k, batch[k])
    requires forall j :: 0 <= j < k ==> !fails(j, batch[j])
    ensures Attempted(batch, fails) == k + 1
    ensures Calls(Trace(batch, Attempted(batch, fails))) == batch[..k + 1]
    ensures forall o :: o in Trace(batch, Attempted(batch, fails)) && o.Published? ==> o.event.pos <= k + 1
  {
    var a := Attempted(batch, fails);
    assert !Succeeds(batch, fails);
    CallsOfTrace(batch, a);
    TracePositionsInRange(batch, a);
  }

  /** The same entry deferred twice may complete the first time and throw
      the second: both calls are made, and the second one is reported as the
      failure at position 2. */
  lemma RepeatedEntryMayFailOnSecondRun<A, S, E, C, M>(t: ExecutionContext<A, S, E, C, M>)
    ensures var fails := (j: nat, c: ExecutionContext<A, S, E, C, M>) => j == 1;
      && !Succeeds([t, t], fails)
      && Attempted([t, t], fails) == 2
      && Calls(Trace([t, t], Attempted([t, t], fails))) == [t, t]
  {
    var fails := (j: nat, c: ExecutionContext<A, S, E, C, M>) => j == 1;
    StopsAtFirstFailure([t, t], fails, 1);
  }

  /** A stack of batches of deferred actions. The top batch is the last
      element of `stack`. */
  class ActionExecutor<A, S, E, C, M> {
    var stack: seq<seq<ExecutionContext<A, S, E, C, M>>>
    var log: seq<Observation<A, S, E, C, M>>

    constructor ()
      ensures stack == [] && log == []
    {
      stack := [];
      log := [];
    }

    /** Opens a new, empty batch on top of the stack. */
    method Begin()
      modifies this
      ensures stack == old(stack) + [[]]
      ensures log == old(log)
    {
      stack := stack + [[]];
    }

    /** Appends the action and its arguments to the top batch; a null action
        and an empty stack are the two ways it throws. */
    method Defer(action: Option<A>, from: S, to: S, event: E, context: C, stateMachine: M)
      returns (r: Outcome<ExecError<A, S, E, C, M>>)
      modifies this
      ensures log == old(log)
      ensures action.None? ==> r == Fail(NullAction) && stack == old(stack)
      ensures action.Some? && old(stack) == [] ==> r == Fail(EmptyStack) && stack == old(stack)
      ensures action.Some? && old(stack) != [] ==>
        var top := |old(stack)| - 1;
        && r == Pass
        && |stack| == |old(stack)|
        && stack[..top] == old(stack)[..top]
        && stack[top] == old(stack)[top] + [ExecutionContext(action.value, from, to, event, context, stateMachine)]
    {
      if action.None? {
        return Fail(NullAction);
      }
      if stack == [] {
        return Fail(EmptyStack);
      }
      var top := |stack| - 1;
      stack := stack[..top] + [stack[top] + [ExecutionContext(action.value, from, to, event, context, stateMachine)]];
      r := Pass;
    }

    /** Pops the top batch, then for each entry in order publishes its
        progress event and runs its action; the first action that throws
        ends the loop, and its exception is returned. */
    method Execute(fails: (nat, ExecutionContext<A, S, E, C, M>) -> bool)
      returns (r: Outcome<ExecError<A, S, E, C, M>>)
      modifies this
      ensures old(stack) == [] ==> r == Fail(EmptyStack) && stack == old(stack) && log == old(log)
      ensures old(stack) != [] ==>
        var batch := old(stack)[|old(stack)| - 1];
        var k := Attempted(batch, fails);
        && stack == old(stack)[..|old(stack)| - 1]
        && log == old(log) + Trace(batch, k)
        && r == (if Succeeds(batch, fails) then Pass else Fail(ActionFailed(k, batch[k - 1])))
    {
      if stack == [] {
        return Fail(EmptyStack);
      }
      var executionContexts := stack[|stack| - 1];
      stack := stack[..|stack| - 1];
      assert executionContexts == old(stack)[|old(stack)| - 1];
      var i, size := 0, |executionContexts|;
      while i < size
        invariant 0 <= i <= size
        invariant stack == old(stack)[..|old(stack)| - 1]
        invariant log == old(log) + Trace(executionContexts, i)
        invariant forall j :: 0 <= j < i ==> !fails(j, executionContexts[j])
      {
        // publish the progress event, then run the action
        log := log + [Published(ExecActionEvent(i + 1, size, executionContexts[i])), Invoked(executionContexts[i])];
        assert log == old(log) + Trace(executionContexts, i + 1);
        if fails(i, executionContexts[i]) {
          StopsAtFirstFailure(executionContexts, fails, i);
          return Fail(ActionFailed(i + 1, executionContexts[i]));
        }
        i := i + 1;
      }
      assert Succeeds(executionContexts, fails);
      r := Pass;
    }
  }

  /** begin, defer each entry in order, execute: a batch opened on top of
      any stack runs on its own, and afterwards the batches beneath it are
      exactly as they were, whether or not one of its actions throws. */
  method RunNested<A, S, E, C, M>(x: ActionExecutor<A, S, E, C, M>, entries: seq<ExecutionContext<A, S, E, C, M>>,
                                  fails: (nat, ExecutionContext<A, S, E, C, M>) -> bool)
    returns (r: Outcome<ExecError<A, S, E, C, M>>)
    modifies x
    ensures x.stack == old(x.stack)
    ensures x.log == old(x.log) + Trace(entries, Attempted(entries, fails))
    ensures Succeeds(entries, fails) <==> r == Pass
  {
    x.Begin();
    var i := 0;
    while i < |entries|
      invariant 0 <= i <= |entries|
      invariant x.stack == old(x.stack) + [entries[..i]]
      invariant x.log == old(x.log)
    {
      var e := entries[i];
      ghost var before := x.stack;
      var _ := x.Defer(Some(e.action), e.from, e.to, e.event, e.context, e.stateMachine);
      assert entries[..i + 1] == entries[..i] + [e];
      assert x.stack == before[..|before| - 1] + [entries[..i + 1]];
      i := i + 1;
    }
    assert entries[..i] == entries;
    r := x.Execute(fails);
  }

  /** begin; defer a; begin; defer b; execute; execute — the inner batch
      runs first and alone, the outer batch is left intact on top between
      the two executes and runs second: LIFO nesting. */
  method NestedBatches<A, S, E, C, M>(a: ExecutionContext<A, S, E, C, M>, b: ExecutionContext<A, S, E, C, M>)
    returns (inner: seq<Observation<A, S, E, C, M>>, between: seq<seq<ExecutionContext<A, S, E, C, M>>>,
             outer: seq<Observation<A, S, E, C, M>>)
    ensures inner == [Published(ExecActionEvent(1, 1, b)), Invoked(b)]
    ensures between == [[a]]
    ensures outer == [Published(ExecActionEvent(1, 1, a)), Invoked(a)]
  {
    var x := new ActionExecutor<A, S, E, C, M>();
    x.Begin();
    assert x.stack == [[]];
    var _ := x.Defer(Some(a.action), a.from, a.to, a.event, a.context, a.stateMachine);
    assert |x.stack| == 1;
    assert x.stack[0] == [a];
    assert x.stack == [[a]];
    x.Begin();
    var _ := x.Defer(Some(b.action), b.from, b.to, b.event, b.context, b.stateMachine);
    assert x.stack[0] == [a] && x.stack[1] == [b];
    assert x.stack == [[a], [b]];
    var _ := x.Execute(NeverFails);
    inner, between := x.log, x.stack;
    var _ := x.Execute(NeverFails);
    outer := x.log[|inner|..];
  }

  /** The outcome of actions that always complete. */
  function NeverFails<A, S, E, C, M>(i: nat, c: ExecutionContext<A, S, E, C, M>): bool {
    false
  }
}
