# Squirrel state machine: deferred action executor and machine contract

This project models two parts of the squirrel-foundation state machine library in Dafny and proves properties of them.

**The deferred action executor (`ActionExecutorImpl`).** The executor keeps a stack of batches of deferred actions:

- `begin` pushes an empty batch.
- `defer` appends an action and its from, to, event, context and machine arguments to the top batch.
- `execute` pops the top batch. Then, for each entry in order, it publishes an "m of n" progress event and runs the entry's action.

The model is the class `Executor.ActionExecutor`:

- `stack` is a sequence of batches, with the top batch last.
- `log` is a sequence of observations. A `Published` observation is a progress event. An `Invoked` observation is a call to an action.
- An action body is foreign code. The model represents an action as an opaque value. Whether its body throws is given by a pure predicate `fails`, which is passed to `Execute`. It sees the entry and its index in the batch, so the same action deferred twice may complete once and throw the second time.

`Execute` is proved against two specification functions:

- `Trace(batch, n)` is the log of running the first `n` entries.
- `Attempted(batch, fails)` is how many entries start before the first throw.

The lemmas next to these functions state the ordering, position, argument and fail-fast properties.

**The state machine contract (`StateMachine`).** The model is the class `Machine.StateMachine`. It holds:

- the status;
- the current state;
- the initial state;
- a transition table from (state, event) to the target state;
- the sub-state list of each parent state;
- the last active child of each parent state;
- its own `ActionExecutor`.

`Start`, `Fire` and `Terminate` each run one batch. In it they defer entry, exit and transition actions, in order, and then execute it. The action log, `ActionLog()`, is the list of actions the executor has invoked. The getters `getStatus`, `getCurrentState` and `getInitialState` are the fields `status`, `currentState` and `initialState`. `getSubStatesOn` and `getLastActiveChildStateOf` are the functions `GetSubStatesOn` and `GetLastActiveChildStateOf`. A missing entry gives the empty list or `None`.

The machine is flat. Its behaviour comes from the interface's doc comments and from the ATM scenario in `ATMStateMachineTest`:

- `start` enters the initial state and runs its entry action.
- `fire` of a declared event runs exit(source), then the transition action, then entry(target), and moves to the target.
- An undeclared event is declined and changes nothing.
- `terminate` runs the exit action of the current state.
- `terminateWithoutExitStates` runs no action.

The model fixes the following status rules. The interface in `StateMachine.java` states none of them, so they are the model's own choices:

- `start` is accepted only from INITIALIZED and moves to IDLE.
- `fire` is accepted only from IDLE. Otherwise it is rejected with an illegal-state error.
- The status stays BUSY only while a fire is running.
- Once TERMINATED, `start`, `fire` and both terminates are refused.

`terminate` is accepted from INITIALIZED as well as IDLE. The test's teardown (`ATMStateMachineTest.java:57-62`) terminates every machine that is not yet TERMINATED, and the export test never starts its machine. So the code expects `terminate` on a machine that was never started to succeed. With no current state, it runs no exit action.

The module `ATMScenario` holds the test's machine: five states, nine transitions keyed by event name, and Idle as the initial state. It drives the test's walk as a client of the class.

## Model

| member | source | states |
|---|---|---|
| `Executor.ActionExecutor.constructor` | squirrel-foundation/src/main/java/org/squirrelframework/foundation/fsm/impl/ActionExecutorImpl.java:18 | A new executor has an empty stack and has published and run nothing. |
| `Executor.ActionExecutor.Begin` | squirrel-foundation/src/main/java/org/squirrelframework/foundation/fsm/impl/ActionExecutorImpl.java:20-24 | Exactly one new, empty batch is pushed. The depth grows by one and every batch below it is unchanged. Nothing is published or run. |
| `Executor.ActionExecutor.Defer` | squirrel-foundation/src/main/java/org/squirrelframework/foundation/fsm/impl/ActionExecutorImpl.java:35-39 | A null action fails with NullAction, and an empty stack fails with EmptyStack. Both leave the stack unchanged. Otherwise exactly the tuple (action, from, to, event, context, machine) is appended to the end of the top batch. The depth and the lower batches are unchanged. |
| `Executor.ActionExecutor.Execute` | squirrel-foundation/src/main/java/org/squirrelframework/foundation/fsm/impl/ActionExecutorImpl.java:26-33 | An empty stack fails with EmptyStack and changes nothing. Otherwise exactly the top batch is removed, whatever the actions do. The log grows by `Trace` of the attempted entries. The result is Pass when no action throws, and otherwise the 1-based position and tuple of the first action that threw. |
| `Executor.Attempted` | squirrel-foundation/src/main/java/org/squirrelframework/foundation/fsm/impl/ActionExecutorImpl.java:29-32 | The loop starts every entry when none throws. Otherwise it stops right after the first entry that throws, and every entry before that one succeeded. |
| `Executor.AttemptedFrom` | squirrel-foundation/src/main/java/org/squirrelframework/foundation/fsm/impl/ActionExecutorImpl.java:29-32 | Having reached entry i without a throw, the loop starts entries up to the end, or up to and including the first later entry that throws. Every entry in between completes. |
| `Executor.ExecActionEvent.MOfN` | squirrel-foundation/src/main/java/org/squirrelframework/foundation/fsm/impl/ActionExecutorImpl.java:101-103 | The "m of n" pair is exactly two numbers: the 1-based position of the entry, then the size of its batch. |
| `Executor.Trace` | squirrel-foundation/src/main/java/org/squirrelframework/foundation/fsm/impl/ActionExecutorImpl.java:29-31 | Running n entries produces exactly two observations per entry. |
| `Executor.TraceAt` | squirrel-foundation/src/main/java/org/squirrelframework/foundation/fsm/impl/ActionExecutorImpl.java:29-31 | For entry i of an n-entry batch, the progress event carrying (i+1, n) and exactly the deferred tuple comes immediately before the call of that same tuple. |
| `Executor.TracePositionsInRange` | squirrel-foundation/src/main/java/org/squirrelframework/foundation/fsm/impl/ActionExecutorImpl.java:101-103 | Every published position satisfies 1 <= pos <= n, and size equals the batch length. |
| `Executor.CallsOfTrace` | squirrel-foundation/src/main/java/org/squirrelframework/foundation/fsm/impl/ActionExecutorImpl.java:128-130 | The calls made while running the first n entries are exactly those entries: in deferral order, each once, each with its deferred arguments. |
| `Executor.RunsWholeBatch` | squirrel-foundation/src/main/java/org/squirrelframework/foundation/fsm/impl/ActionExecutorImpl.java:29-32 | When no action throws, every deferred action runs exactly once, in deferral order. |
| `Executor.StopsAtFirstFailure` | squirrel-foundation/src/main/java/org/squirrelframework/foundation/fsm/impl/ActionExecutorImpl.java:28-32 | When entry k is the first to throw, exactly entries 0..k run and no progress event for a later position is published. |
| `Executor.RepeatedEntryMayFailOnSecondRun` | squirrel-foundation/src/main/java/org/squirrelframework/foundation/fsm/impl/ActionExecutorImpl.java:29-32 | The same entry deferred twice can complete on its first run and throw on its second. Both calls are made, and the batch fails at position 2. |
| `Executor.RunNested` | squirrel-foundation/src/main/java/org/squirrelframework/foundation/fsm/impl/ActionExecutorImpl.java:21-39 | Begin, defer each entry in order, execute, on top of any stack. The batches beneath are exactly as they were afterwards, and the log grows by the batch's trace up to the first failure. The result is Pass iff no action throws. |
| `Executor.NestedBatches` | squirrel-foundation/src/main/java/org/squirrelframework/foundation/fsm/impl/ActionExecutorImpl.java:21-39 | For `begin; defer a; begin; defer b; execute`, only b is announced and run, and a's batch is left alone and intact on the stack. A second `execute` then runs a: LIFO nesting. |
| `Machine.BatchExtendsActions` | squirrel-foundation/src/main/java/org/squirrelframework/foundation/fsm/impl/ActionExecutorImpl.java:27-32 | Executing a batch whose actions all complete extends the machine's action log by exactly the batch's actions, in deferral order. |
| `Machine.StateMachine.RunBatch` | squirrel-foundation/src/main/java/org/squirrelframework/foundation/fsm/impl/ActionExecutorImpl.java:21-39 | The machine runs each batch as begin, defer each entry in order, then execute. The stack beneath is restored afterwards, and the action log has grown by exactly the batch's actions in order. |
| `Machine.WithSubState` | squirrel-foundation/src/main/java/org/squirrelframework/foundation/fsm/StateMachine.java:59 | After adding s, the list contains s and otherwise only earlier members. The earlier members keep their order, and no duplicate is created. |
| `Machine.WithoutSubState` | squirrel-foundation/src/main/java/org/squirrelframework/foundation/fsm/StateMachine.java:61 | After removing s, the list no longer contains s and holds every other member of the old list and nothing else. No duplicate is created. |
| `Machine.RemoveUndoesAdd` | squirrel-foundation/src/main/java/org/squirrelframework/foundation/fsm/StateMachine.java:59-61 | Adding a state that was not yet a sub-state and then removing it gives back the original list. |
| `Machine.WithoutSubStateAppend` | squirrel-foundation/src/main/java/org/squirrelframework/foundation/fsm/StateMachine.java:61 | Removing from a concatenation removes from each part, so the remaining sub-states keep their relative order. |
| `Machine.RemoveKeepsOrder` | squirrel-foundation/src/main/java/org/squirrelframework/foundation/fsm/StateMachine.java:61 | In a duplicate-free list, removing the state at index i leaves exactly the states before it followed by the states after it. |
| `Machine.NotInUnchanged` | squirrel-foundation/src/main/java/org/squirrelframework/foundation/fsm/StateMachine.java:61 | Removing a state that is not a sub-state leaves the list unchanged. |
| `Machine.StateMachine.constructor` | squirrel-foundation/src/test/java/org/squirrelframework/foundation/fsm/atm/ATMStateMachineTest.java:42-54 | A new machine is INITIALIZED and has no current state. It keeps the given initial state and transition table, its maps are empty and it has run no action. |
| `Machine.StateMachine.Start` | squirrel-foundation/src/main/java/org/squirrelframework/foundation/fsm/StateMachine.java:70-74 | From INITIALIZED the machine enters the initial state, becomes IDLE and runs only the initial state's entry action. From any other status it fails and changes nothing. |
| `Machine.StateMachine.Fire` | squirrel-foundation/src/main/java/org/squirrelframework/foundation/fsm/StateMachine.java:21-26 | When not IDLE, the fire is rejected and nothing changes. With no declared transition it is declined: the state is unchanged and no action runs. Otherwise the log grows by exit(source), transit, entry(target), in that order, and the current state becomes the target. |
| `Machine.StateMachine.Terminate` | squirrel-foundation/src/main/java/org/squirrelframework/foundation/fsm/StateMachine.java:76-80 | The status afterwards is TERMINATED. Terminating a running machine runs exactly the exit action of its current state, and a never-started machine runs none. A second terminate fails and runs nothing. |
| `Machine.StateMachine.TerminateWithoutExitStates` | squirrel-foundation/src/main/java/org/squirrelframework/foundation/fsm/StateMachine.java:82-86 | The status afterwards is TERMINATED and no action at all runs. A second terminate fails. |
| `Machine.StateMachine.GetLastActiveChildStateOf` | squirrel-foundation/src/main/java/org/squirrelframework/foundation/fsm/StateMachine.java:48 | Some(child) exactly when a child was recorded for the parent, and then the recorded child. Otherwise None, standing for Java's null. |
| `Machine.StateMachine.GetSubStatesOn` | squirrel-foundation/src/main/java/org/squirrelframework/foundation/fsm/StateMachine.java:57 | The parent's recorded list, or the empty list when none was set. When every recorded list is free of duplicates, as in a valid machine, so is the result. |
| `Machine.StateMachine.SetLastActiveChildState` | squirrel-foundation/src/main/java/org/squirrelframework/foundation/fsm/StateMachine.java:50-55 | `GetLastActiveChildStateOf(parent)` then returns the child. The records of other parents, the status, the current state and the sub-states are unchanged. |
| `Machine.StateMachine.SetSubState` | squirrel-foundation/src/main/java/org/squirrelframework/foundation/fsm/StateMachine.java:59 | The sub-state is then in `GetSubStatesOn(parent)`. Only that parent's list changes. |
| `Machine.StateMachine.RemoveSubState` | squirrel-foundation/src/main/java/org/squirrelframework/foundation/fsm/StateMachine.java:61 | The sub-state is then not in `GetSubStatesOn(parent)`. Only that parent's list changes. |
| `Machine.StateMachine.RemoveSubStatesOn` | squirrel-foundation/src/main/java/org/squirrelframework/foundation/fsm/StateMachine.java:63 | `GetSubStatesOn(parent)` is then empty, and the lists of other parents are untouched. |
| `ATMScenario.ATMTransitions` | squirrel-foundation/src/test/java/org/squirrelframework/foundation/fsm/atm/ATMStateMachineTest.java:44-52 | The table has exactly the test's nine (source, event) keys, and each key maps to the target the test declares. |
| `ATMScenario.StartedATM` | squirrel-foundation/src/test/java/org/squirrelframework/foundation/fsm/atm/ATMStateMachineTest.java:66-68 | After `start`, the machine is in Idle and the log is exactly "entryIdle". |
| `ATMScenario.IdleToInService` | squirrel-foundation/src/test/java/org/squirrelframework/foundation/fsm/atm/ATMStateMachineTest.java:64-89 | Connected, LoadSuccess, Shutdown, ConnectionLost and ConnectionRestored visit Idle, Loading, InService, OutOfService, Disconnected and InService. Each fire logs exit, transit, entry, as the test asserts. The guarded teardown then ends in TERMINATED after exit(InService). |
| `ATMScenario.UndeclaredEventDeclined` | squirrel-foundation/src/test/java/org/squirrelframework/foundation/fsm/atm/ATMStateMachineTest.java:44-52 | "Startup" has no transition from Loading, so it is declined: the state stays Loading and the log gains nothing. |

## Left out

- Listener wiring is replaced by the appended observation log. This covers `addListener`/`removeListener`, the reflective `EXECUTOR_EVENT_METHOD` and `fireEvent` dispatch (`ActionExecutorImpl.java:41-52`). It is subscriber bookkeeping with no effect on the order of events.
- The listener and event sub-interfaces of `StateMachine.java:93-166` are observer plumbing with no behaviour. `Fire` reports its outcome (transited, declined or rejected) as its result instead.
- The getters of `ExecActionEventImpl` (`ActionExecutorImpl.java:70-98`) are the fields of the `ExecActionEvent` datatype and of its `executionContext` tuple. `getExecutionTarget` is `executionContext.action`, and `getMOfN` is the member function `MOfN`.
- `getRawStateFrom` and `getCurrentRawState`: `ImmutableState` is not part of this model. The machine holds state ids only.
- Hierarchical exit and entry ordering, and history-driven re-entry, are not modelled. The code shown implements neither, so the machine is flat and `SetLastActiveChildState` is plain bookkeeping. Removing a sub-state does not update the last-active-child record.
- Reentrancy from inside an action body is not modelled, because action bodies are opaque. An example is an entry action that fires a nested event. LIFO nesting is shown by sequencing the calls (`Executor.NestedBatches`).
- Machine.StateMachine.Start: its batch runs the machine's own logging actions, which always complete, so a throwing action during `start` is not modelled. The machine implementation that would handle it is not part of this model.
- Machine.StateMachine.Fire: its batch runs actions that always complete. The machine's reaction to a throwing action (a transition-exception notification and the status returned to IDLE) is not part of this model.
- Machine.StateMachine.Terminate: its exit batch runs actions that always complete, for the same reason.
- Machine.StateMachine.RemoveSubState: the interface (`StateMachine.java:61`) does not say whether a sub-state list may hold duplicates. The model keeps each list free of them, so removing every occurrence and removing the first are the same.
- Executor.ActionExecutor.Execute: whether an action throws depends on the entry and its index in the batch. It cannot depend on calls made in earlier batches, which a stateful action body could observe.
- Java's 32-bit `int` for the loop index and batch size is not modelled. A list cannot hold more than `Integer.MAX_VALUE` entries, so `i + 1` never wraps.
- The self-typed machine reference `T` is the machine object itself, of type `object`. Context values are an opaque type parameter, and in the ATM scenario they are `()`, standing for the test's `null` of type `Void`.
- Thread safety is not modelled, because the executor and the machine are used by one thread at a time.
- Out of scope: SCXML export (`ATMStateMachineTest.java:91-97`), converter and post-processor registries (`ATMStateMachineTest.java:26-36`), the builder DSL (its transition table is taken as a given map) and `ItemProvider`, a callback interface with no logic.
