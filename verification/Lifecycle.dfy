/** The start/stop protocol of the server as a transition system.

    Any number of goroutines call Start, Shutdown or Close on one server. Each atomic load,
    compare-and-swap, store, channel make, channel read, receive and close is one step, and any
    interleaving of the steps is a behaviour (witchcraft/witchcraft.go:715-739, 926-938, 1280-1306).

    Runs are numbered by the winning Idle -> Initializing swap. Run r makes channel r and http
    server r, so a channel or an http server is named by the run that created it. */
module Lifecycle {
  import opened Options
  import opened ServerState

  type Tid = nat
  type RunId = nat

  datatype Pc =
    // Start
    | Calling                                                  // about to swap Idle -> Initializing
    | Denied                                                   // swap lost, about to load the word for the error
    | Rejected(error: StartError)                              // returned the error
    | Making(run: RunId)                                       // about to make shutdownFinished
    | Body(run: RunId)                                         // initialising
    | Ready(run: RunId)                                        // stored httpServer, about to swap to Running
    | Serving(run: RunId)                                      // inside svrStart
    | Reset(run: RunId, loads: nat)                            // deferred loop: about to load the word
    | ResetCas(run: RunId, loads: nat, cur: Word, at: nat)     // deferred loop: about to swap cur -> Idle
    | WaitRead(run: RunId, loads: nat)                         // deferred loop: about to read shutdownFinished
    | Waiting(run: RunId, loads: nat, ch: Option<RunId>)       // deferred loop: receiving from ch
    | Returned(run: RunId, loads: nat)
    // Shutdown and Close
    | Entering                                                 // about to load the word
    | Trying(cur: Word, at: nat)                               // about to swap cur -> ShuttingDown
    | Ignored                                                  // returned: nothing to stop
    | Won(run: RunId, from: Word)                              // swap won, about to test httpServer for nil
    | Found(run: RunId, from: Word)                            // not nil, about to read it again
    | Stopping(run: RunId, from: Word, srv: Option<RunId>)     // inside the stopper
    | Storing(run: RunId, from: Word, srv: Option<RunId>)      // about to store Idle
    | Closing(run: RunId, from: Word, srv: Option<RunId>)      // about to close shutdownFinished
    | Closed(run: RunId, from: Word, srv: Option<RunId>)       // returned
    | Panicked                                                 // closed a nil or closed channel

  /** History of one run: who started it, which stop call won it, and the values its word took. */
  datatype Run = Run(starter: Tid, winner: Option<Tid>, trail: seq<Word>)

  datatype Server = Server(
    word: Word,
    chan: Option<RunId>,
    closed: set<RunId>,
    http: Option<RunId>,
    runs: seq<Run>,
    pc: map<Tid, Pc>,
    fails: map<Tid, nat>,   // failed swaps of each call inside its retry loop
    moves: nat,             // changes of the word so far
    fault: bool)            // see Next

  datatype Action = CallStart(t: Tid) | CallStop(t: Tid) | Step(t: Tid) | Fail(t: Tid)

  function Init(): Server {
    Server(Idle, None, {}, None, [], map[], map[], 0, false)
  }

  function At(s: Server, t: Tid, p: Pc): Server {
    s.(pc := s.pc[t := p])
  }

  function FailsOf(s: Server, t: Tid): nat {
    if t in s.fails then s.fails[t] else 0
  }

  /** The shared-memory effect of one step. */
  datatype Op =
    | Read                            // loads only
    | Begin                           // swap Idle -> Initializing
    | MakeChan(run: RunId)            // shutdownFinished = make(...)
    | StoreHttp(run: RunId)           // s.httpServer = httpServer
    | Swap(run: RunId, to: Word)      // a Start call moves the word for its run
    | Miss                            // a swap in a retry loop fails
    | Win                             // a stop call swaps to ShuttingDown
    | StoreIdle                       // setState(ServerIdle)
    | CloseChan(run: RunId)           // close(shutdownFinished), meant for the channel of the run

  datatype Plan = Plan(op: Op, pc: Pc)

  /** What a call at program counter p does next: nothing when it has ended or is blocked. */
  function PlanOf(s: Server, p: Pc): Option<Plan> {
    match p
    case Calling => Some(if s.word == Idle then Plan(Begin, Making(|s.runs|)) else Plan(Read, Denied))
    case Denied => Some(Plan(Read, Rejected(RefusalFor(s.word))))
    case Making(r) => Some(Plan(MakeChan(r), Body(r)))
    case Body(r) => Some(Plan(StoreHttp(r), Ready(r)))
    case Ready(r) => Some(if s.word == Initializing then Plan(Swap(r, Running), Serving(r))
        else Plan(Read, Reset(r, 0)))
    case Serving(r) => Some(Plan(Read, Reset(r, 0)))
    case Reset(r, n) =>
      (match s.word
       case Idle => Some(Plan(Read, Returned(r, n + 1)))
       case ShuttingDown => Some(Plan(Read, WaitRead(r, n + 1)))
       case _ => Some(Plan(Read, ResetCas(r, n + 1, s.word, s.moves))))
    case ResetCas(r, n, cur, _) =>
      Some(if s.word == cur then Plan(Swap(r, Idle), Returned(r, n)) else Plan(Miss, Reset(r, n)))
    case WaitRead(r, n) => Some(Plan(Read, Waiting(r, n, s.chan)))
    case Waiting(r, n, ch) => if ch.Some? && ch.value in s.closed then Some(Plan(Read, Reset(r, n))) else None
    case Entering => Some(Plan(Read, if Stoppable(s.word) then Trying(s.word, s.moves) else Ignored))
    case Trying(cur, _) => Some(if s.word == cur then Plan(Win, Won(Current(s), cur)) else Plan(Miss, Entering))
    case Won(r, from) => Some(Plan(Read, if s.http.None? then Storing(r, from, None) else Found(r, from)))
    case Found(r, from) => Some(Plan(Read, Stopping(r, from, s.http)))
    case Stopping(r, from, srv) => Some(Plan(Read, Storing(r, from, srv)))
    case Storing(r, from, srv) => Some(Plan(StoreIdle, Closing(r, from, srv)))
    case Closing(r, from, srv) => Some(Plan(CloseChan(r), if Closable(s) then Closed(r, from, srv) else Panicked))
    case _ => None
  }

  /** The run that owns the word: the last one begun. */
  function Current(s: Server): RunId {
    if s.runs == [] then 0 else |s.runs| - 1
  }

  predicate Closable(s: Server) {
    s.chan.Some? && s.chan.value !in s.closed
  }

  /** The runs with w appended to the trail of the current one. */
  function Trailed(runs: seq<Run>, w: Word): seq<Run> {
    if runs == [] then [] else var c := |runs| - 1; runs[c := runs[c].(trail := runs[c].trail + [w])]
  }

  function WonBy(runs: seq<Run>, t: Tid): seq<Run> {
    if runs == [] then [] else var c := |runs| - 1; runs[c := runs[c].(winner := Some(t))]
  }

  /** The effect of an operation by call t. The fault flag records that the protocol went wrong: a
      close hit a nil channel, a closed channel or the channel of a run other than the stopped one,
      or a Start moved the word of a run not its own. */
  function Apply(s: Server, t: Tid, op: Op): Server {
    match op
    case Read => s
    case Begin => s.(word := Initializing, moves := s.moves + 1, runs := s.runs + [Run(t, None, [Idle, Initializing])])
    case MakeChan(r) => s.(chan := Some(r))
    case StoreHttp(r) => s.(http := Some(r))
    case Swap(r, w) => s.(word := w, moves := s.moves + 1, runs := Trailed(s.runs, w), fault := s.fault ||
        r != Current(s))
    case Miss => s.(fails := s.fails[t := FailsOf(s, t) + 1])
    case Win => s.(word := ShuttingDown, moves := s.moves + 1, runs := WonBy(Trailed(s.runs, ShuttingDown), t))
    case StoreIdle => s.(word := Idle, moves := s.moves + 1, runs := Trailed(s.runs, Idle))
    case CloseChan(r) =>
      if Closable(s) then s.(closed := s.closed + {s.chan.value}, fault := s.fault || s.chan.value != r)
      else s.(fault := true)
  }

  /** One step of call t, or None when the call has ended or is blocked. */
  function Next(s: Server, t: Tid): Option<Server>
    requires t in s.pc
  {
    var plan := PlanOf(s, s.pc[t]);
    if plan.None? then None else Some(At(Apply(s, t, plan.value.op), t, plan.value.pc))
  }

  function Do(s: Server, a: Action): Option<Server> {
    match a
    case CallStart(t) => if t in s.pc then None else Some(At(s, t, Calling))
    case CallStop(t) => if t in s.pc then None else Some(At(s, t, Entering))
    case Step(t) => if t in s.pc then Next(s, t) else None
    // initialisation returns an error or panics
    case Fail(t) => if t in s.pc && s.pc[t].Body? then Some(At(s, t, Reset(s.pc[t].run, 0))) else None
  }

  /** The state after a schedule, or None when some action of it is not possible. */
  function Exec(s: Server, actions: seq<Action>): Option<Server>
    decreases |actions|
  {
    if actions == [] then Some(s)
    else
      var next := Do(s, actions[0]);
      if next.None? then None else Exec(next.value, actions[1..])
  }

  // ---------------------------------------------------------------- the two caller disciplines

  /** The last run's Start has returned and the stop that won it, if any, has closed its channel. */
  predicate Quiet(s: Server) {
    s.runs == [] ||
    var last := s.runs[Current(s)];
    && last.starter in s.pc && s.pc[last.starter].Returned?
    && (last.winner.Some? ==> last.winner.value in s.pc && s.pc[last.winner.value].Closed?)
  }

  /** D1: the Idle -> Initializing swap succeeds only on a quiet server. */
  predicate D1(s: Server, a: Action) {
    a.Step? && a.t in s.pc && s.pc[a.t].Calling? && s.word == Idle ==> Quiet(s)
  }

  /** D2: no stop wins between a Start's swap and its channel make. */
  predicate D2(s: Server, a: Action) {
    a.Step? && a.t in s.pc && s.pc[a.t].Trying? && s.word == s.pc[a.t].cur && s.runs != [] ==>
      var starter := s.runs[Current(s)].starter;
      !(starter in s.pc && s.pc[starter].Making?)
  }

  predicate Disciplined(s: Server, a: Action) {
    D1(s, a) && D2(s, a)
  }

  /** Every step of a schedule obeys D1. */
  predicate QuietRun(s: Server, actions: seq<Action>)
    decreases |actions|
  {
    actions != [] ==>
      && D1(s, actions[0])
      && (Do(s, actions[0]).Some? ==> QuietRun(Do(s, actions[0]).value, actions[1..]))
  }

  /** Every step of a schedule obeys both. */
  predicate DisciplinedRun(s: Server, actions: seq<Action>)
    decreases |actions|
  {
    actions != [] ==>
      && Disciplined(s, actions[0])
      && (Do(s, actions[0]).Some? ==> DisciplinedRun(Do(s, actions[0]).value, actions[1..]))
  }

  lemma {:induction false} DisciplinedIsQuiet(s: Server, actions: seq<Action>)
    requires DisciplinedRun(s, actions)
    ensures QuietRun(s, actions)
    decreases |actions|
  {
    if actions != [] && Do(s, actions[0]).Some? {
      DisciplinedIsQuiet(Do(s, actions[0]).value, actions[1..]);
    }
  }

  /** Disciplined callers can lead the server from s to end. */
  ghost predicate Leads(s: Server, end: Server) {
    exists actions :: DisciplinedRun(s, actions) && Exec(s, actions) == Some(end)
  }

  lemma Stays(s: Server)
    ensures Leads(s, s)
  {
    var none: seq<Action> := [];
    assert DisciplinedRun(s, none) && Exec(s, none) == Some(s);
  }

  lemma Prepend(s: Server, a: Action, next: Server, end: Server)
    requires Disciplined(s, a) && Do(s, a) == Some(next) && Leads(next, end)
    ensures Leads(s, end)
  {
    var rest :| DisciplinedRun(next, rest) && Exec(next, rest) == Some(end);
    var actions := [a] + rest;
    assert actions[1..] == rest;
    assert DisciplinedRun(s, actions) && Exec(s, actions) == Some(end);
  }

  lemma {:induction false} ExecConcat(s: Server, a: seq<Action>, b: seq<Action>)
    requires Exec(s, a).Some?
    ensures Exec(s, a + b) == Exec(Exec(s, a).value, b)
    decreases |a|
  {
    if a == [] {
      assert a + b == b;
    } else {
      assert (a + b)[1..] == a[1..] + b;
      ExecConcat(Do(s, a[0]).value, a[1..], b);
    }
  }
}
