/** The ATM machine of ATMStateMachineTest: five flat states, nine external
    transitions keyed by event name, Idle as the initial state. */
module ATMScenario {
  import opened Wrappers
  import Machine

  datatype ATMState = Idle | Loading | InService | OutOfService | Disconnected

  /** The test's nine external transitions, from (source, event) to target:
      exactly these keys, each with its target. */
  function ATMTransitions(): (t: map<(ATMState, string), ATMState>)
    ensures t.Keys == {(Idle, "Connected"), (Loading, "ConnectionClosed"), (Loading, "LoadSuccess"),
                       (Loading, "LoadFail"), (OutOfService, "ConnectionLost"), (OutOfService, "Startup"),
                       (InService, "Shutdown"), (InService, "ConnectionLost"), (Disconnected, "ConnectionRestored")}
    ensures t[(Idle, "Connected")] == Loading
    ensures t[(Loading, "ConnectionClosed")] == Disconnected
    ensures t[(Loading, "LoadSuccess")] == InService
    ensures t[(Loading, "LoadFail")] == OutOfService
    ensures t[(OutOfService, "ConnectionLost")] == Disconnected
    ensures t[(OutOfService, "Startup")] == InService
    ensures t[(InService, "Shutdown")] == OutOfService
    ensures t[(InService, "ConnectionLost")] == Disconnected
    ensures t[(Disconnected, "ConnectionRestored")] == InService
  {
    map[
      (Idle, "Connected") := Loading,
      (Loading, "ConnectionClosed") := Disconnected,
      (Loading, "LoadSuccess") := InService,
      (Loading, "LoadFail") := OutOfService,
      (OutOfService, "ConnectionLost") := Disconnected,
      (OutOfService, "Startup") := InService,
      (InService, "Shutdown") := OutOfService,
      (InService, "ConnectionLost") := Disconnected,
      (Disconnected, "ConnectionRestored") := InService
    ]
  }

  /** The test's machine, built from the table and started: it is in Idle
      and has run entry(Idle) only. */
  method StartedATM() returns (m: Machine.StateMachine<ATMState, string, ()>)
    ensures fresh(m) && fresh(m.executor)
    ensures m.Valid() && m.transitions == ATMTransitions()
    ensures m.status == Machine.Idle && m.currentState == Some(Idle)
    ensures m.ActionLog() == [Machine.Entry(Idle)]
  {
    m := new Machine.StateMachine<ATMState, string, ()>(Idle, ATMTransitions());
    var _ := m.Start(());
  }

  /** Start, then Connected, LoadSuccess, Shutdown, ConnectionLost and
      ConnectionRestored: the machine visits Idle, Loading, InService,
      OutOfService, Disconnected and ends in InService, and each fire runs
      exit(source), the transition, entry(target). The guarded teardown then
      terminates it, running exit(InService). */
  method IdleToInService() returns (visited: seq<ATMState>, log: seq<Machine.MachineAction<ATMState, string>>,
                                    finalStatus: Machine.StateMachineStatus)
    ensures visited == [Idle, Loading, InService, OutOfService, Disconnected, InService]
    ensures log == [Machine.Entry(Idle)]
      + [Machine.Exit(Idle), Machine.Transit(Idle, Loading, "Connected"), Machine.Entry(Loading)]
      + [Machine.Exit(Loading), Machine.Transit(Loading, InService, "LoadSuccess"), Machine.Entry(InService)]
      + [Machine.Exit(InService), Machine.Transit(InService, OutOfService, "Shutdown"), Machine.Entry(OutOfService)]
      + [Machine.Exit(OutOfService), Machine.Transit(OutOfService, Disconnected, "ConnectionLost"), Machine.Entry(Disconnected)]
      + [Machine.Exit(Disconnected), Machine.Transit(Disconnected, InService, "ConnectionRestored"), Machine.Entry(InService)]
      + [Machine.Exit(InService)]
    ensures finalStatus == Machine.Terminated
  {
    var t := ATMTransitions();
    assert t[(Idle, "Connected")] == Loading;
    assert t[(Loading, "LoadSuccess")] == InService;
    assert t[(InService, "Shutdown")] == OutOfService;
    assert t[(OutOfService, "ConnectionLost")] == Disconnected;
    assert t[(Disconnected, "ConnectionRestored")] == InService;
    var m := StartedATM();
    var s0 := m.currentState.value;
    var _ := m.Fire("Connected", ());
    var s1 := m.currentState.value;
    var _ := m.Fire("LoadSuccess", ());
    var s2 := m.currentState.value;
    var _ := m.Fire("Shutdown", ());
    var s3 := m.currentState.value;
    var _ := m.Fire("ConnectionLost", ());
    var s4 := m.currentState.value;
    var _ := m.Fire("ConnectionRestored", ());
    var s5 := m.currentState.value;
    if m.status != Machine.Terminated {
      var _ := m.Terminate(());
    }
    visited := [s0, s1, s2, s3, s4, s5];
    log, finalStatus := m.ActionLog(), m.status;
  }

  /** An event with no transition from the current state is declined: the
      state stays Loading and no action runs. */
  method UndeclaredEventDeclined() returns (r: Machine.FireResult<ATMState>, state: ATMState,
                                            log: seq<Machine.MachineAction<ATMState, string>>)
    ensures r == Machine.Declined
    ensures state == Loading
    ensures log == [Machine.Entry(Idle), Machine.Exit(Idle), Machine.Transit(Idle, Loading, "Connected"), Machine.Entry(Loading)]
  {
    var m := StartedATM();
    assert ATMTransitions()[(Idle, "Connected")] == Loading;
    var _ := m.Fire("Connected", ());
    assert (Loading, "Startup") !in m.transitions;
    r := m.Fire("Startup", ());
    state, log := m.currentState.value, m.ActionLog();
  }
}
