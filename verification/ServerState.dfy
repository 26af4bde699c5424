/** The atomic state word of the server and the object that guards it
    (witchcraft/server_state.go). */
module ServerState {
  import opened HealthStates

  datatype Word = Idle | Initializing | Running | ShuttingDown

  datatype StartError = AlreadyInitializing | AlreadyRunning | StillShuttingDown | UnknownState

  datatype StartResult = Started | Refused(error: StartError)

  /** A state from which a stop call has something to stop. */
  predicate Stoppable(w: Word) {
    w == Initializing || w == Running
  }

  /** The error reported for the word that is re-read after a lost Idle -> Initializing swap. The
      default branch of the switch is the one taken when the word has become Idle in the meantime. */
  function RefusalFor(seen: Word): StartError {
    match seen
    case Initializing => AlreadyInitializing
    case Running => AlreadyRunning
    case ShuttingDown => StillShuttingDown
    case Idle => UnknownState
  }

  /** What the server answers about itself: the readiness code and the health state. */
  function ReadinessCode(w: Word): int {
    if w == Running then 200 else 503
  }

  function HealthOf(w: Word): HealthState {
    if w == Running then HEALTHY else TERMINAL
  }

  class StateManager {
    var serverRunning: Word

    constructor ()
      ensures serverRunning == Idle
    {
      serverRunning := Idle;
    }

    method CompareAndSwapState(oldState: Word, newState: Word) returns (swapped: bool)
      modifies this
      ensures swapped <==> old(serverRunning) == oldState
      ensures serverRunning == if swapped then newState else old(serverRunning)
    {
      swapped := serverRunning == oldState;
      if swapped {
        serverRunning := newState;
      }
    }

    /** Without interference, Start is granted exactly on an idle server, and a refusal leaves the
        word alone and names it. */
    method Start() returns (r: StartResult)
      modifies this
      ensures r == Started <==> old(serverRunning) == Idle
      ensures serverRunning == if r == Started then Initializing else old(serverRunning)
      ensures r.Refused? ==> r.error != UnknownState
      ensures r == Refused(AlreadyInitializing) <==> old(serverRunning) == Initializing
      ensures r == Refused(AlreadyRunning) <==> old(serverRunning) == Running
      ensures r == Refused(StillShuttingDown) <==> old(serverRunning) == ShuttingDown
    {
      var swapped := CompareAndSwapState(Idle, Initializing);
      if swapped {
        return Started;
      }
      return Refused(RefusalFor(serverRunning));
    }
  }
}
