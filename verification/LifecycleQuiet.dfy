/** What the start/stop protocol keeps in every interleaving whose callers follow D1 of Lifecycle alone. A stop may
    win before the channel of its run is made; its close can then panic or hit an earlier run's channel, but the
    Start of its run still ends. */
module LifecycleQuiet {
  import opened Options
  import opened HealthStates
  import opened ServerState
  import opened Lifecycle
  import Free = LifecycleFree

  predicate StartOfRun(p: Pc) {
    p.Making? || p.Body? || p.Ready? || p.Serving? || p.Reset? || p.ResetCas? || p.WaitRead? || p.Waiting? ||
        p.Returned?
  }

  predicate StopOfRun(p: Pc) {
    Free.Holding(p) || p.Closing? || p.Closed?
  }

  /** The word history of a run from which a stop wins. */
  function Rising(from: Word): seq<Word> {
    if from == Running then [Idle, Initializing, Running] else [Idle, Initializing]
  }

  /** The current run as its own Start call and its winning stop call see it. */
  ghost predicate CurrentOk(s: Server, c: RunId, sp: Pc, wp: Option<Pc>, trail: seq<Word>) {
    match wp
    case None =>
      && c !in s.closed
      && (match sp
          case Making(_) => s.word == Initializing && trail == Rising(Initializing) && s.chan != Some(c)
          case Body(_) => s.word == Initializing && trail == Rising(Initializing) && s.chan == Some(c)
          case Ready(_) => s.word == Initializing && trail == Rising(Initializing) && s.chan == Some(c) &&
              s.http == Some(c)
          case Serving(_) => s.word == Running && trail == Rising(Running) && s.chan == Some(c) && s.http == Some(c)
          case Reset(_, n) => n == 0 && Up(s, c, trail)
          case ResetCas(_, n, cur, _) => n == 1 && s.word == cur && Up(s, c, trail)
          case Returned(_, n) =>
            n == 1 && s.word == Idle && s.chan == Some(c) &&
                (trail == Rising(Initializing) + [Idle] || trail == Rising(Running) + [Idle])
          case _ => false)
    case Some(w) =>
      && (s.chan == Some(c) <==> !sp.Making?)
      && (c in s.closed ==> w.Closed?)
      && (if w.Panicked? then s.word == Idle && trail == Rising(Initializing) + [ShuttingDown, Idle]
          else WinnerOk(s, c, sp, w, trail))
      && (Misfired(s, c, w) ==> sp.Making? || sp.Body? || sp.Ready? || (sp.Reset? && sp.loads == 0) || sp.Returned?)
      && (match sp
          case Reset(_, n) => n <= 2 && (n == 2 ==> c in s.closed)
          case ResetCas(_, n, _, _) => n == 1
          case WaitRead(_, n) => 1 <= n <= 2
          case Waiting(_, n, ch) => 1 <= n <= 2 && ch == Some(c)
          case Returned(_, n) => n <= 3 && s.word == Idle
          case _ => sp.Making? || sp.Body? || sp.Ready? || sp.Serving?)
  }

  /** A winning stop that has not panicked. */
  ghost predicate WinnerOk(s: Server, c: RunId, sp: Pc, w: Pc, trail: seq<Word>) {
    && StopOfRun(w) && Stoppable(w.from)
    && s.word == (if Free.Holding(w) then ShuttingDown else Idle)
    && (w.from == Running ==> s.http == Some(c) && !sp.Making? && (w.Won? || w.Found? || w.srv == Some(c)))
    && trail == Rising(w.from) + (if Free.Holding(w) then [ShuttingDown] else [ShuttingDown, Idle])
    && (sp.Making? || sp.Body? || sp.Ready? ==> w.from == Initializing)
    && (sp.Serving? ==> w.from == Running)
  }

  /** The winning stop is done without having closed the channel of its run. */
  predicate Misfired(s: Server, c: RunId, w: Pc) {
    w.Panicked? || (w.Closed? && c !in s.closed)
  }

  /** Initialised or serving, and not yet reset. */
  predicate Up(s: Server, c: RunId, trail: seq<Word>) {
    && s.chan == Some(c) && Stoppable(s.word) && trail == Rising(s.word)
    && (s.word == Running ==> s.http == Some(c))
  }

  function WinnerPc(s: Server, r: Run): Option<Pc> {
    if r.winner.Some? && r.winner.value in s.pc then Some(s.pc[r.winner.value]) else None
  }

  /** The complete word histories of a run. */
  predicate IsPath(trail: seq<Word>) {
    || trail == [Idle, Initializing, Idle]
    || trail == [Idle, Initializing, Running, Idle]
    || trail == [Idle, Initializing, ShuttingDown, Idle]
    || trail == [Idle, Initializing, Running, ShuttingDown, Idle]
  }

  /** Run r is over: its Start has returned and its stop, if any, has closed a channel. */
  ghost predicate Finished(s: Server, r: RunId)
    requires r < |s.runs|
  {
    var run := s.runs[r];
    && run.starter in s.pc && s.pc[run.starter].Returned? && s.pc[run.starter].loads <= 3
    && (run.winner.Some? ==>
          && run.winner.value in s.pc && s.pc[run.winner.value].Closed?
          && StopActed(s.pc[run.winner.value], run.trail))
    && IsPath(run.trail)
  }

  /** A stop that won from Running acted on the http server of its own run; one that won from
      Initializing kept its run from ever being Running. */
  predicate StopActed(w: Pc, trail: seq<Word>)
    requires w.Closed?
  {
    && (w.from == Running ==> w.srv == Some(w.run))
    && trail == Rising(w.from) + [ShuttingDown, Idle]
    && Stoppable(w.from)
  }

  /** Every call that belongs to a run is that run's recorded starter or winner, and conversely. */
  ghost predicate Roles(s: Server) {
    && (forall t :: t in s.pc && s.pc[t].Panicked? ==> s.runs != [] && s.runs[Current(s)].winner == Some(t))
    && (forall t :: t in s.pc && StartOfRun(s.pc[t]) ==> s.pc[t].run < |s.runs| && s.runs[s.pc[t].run].starter == t)
    && (forall t :: t in s.pc && StopOfRun(s.pc[t]) ==> s.pc[t].run < |s.runs| && s.runs[s.pc[t].run].winner == Some(t))
    && (forall r :: 0 <= r < |s.runs| ==> HasRoles(s, r))
  }

  ghost predicate HasRoles(s: Server, r: RunId)
    requires r < |s.runs|
  {
    var run := s.runs[r];
    && run.starter in s.pc && StartOfRun(s.pc[run.starter]) && s.pc[run.starter].run == r
    && (run.winner.Some? ==> run.winner.value in s.pc && IsStopOf(s, s.pc[run.winner.value], r))
  }

  /** A stop that won run r, which has panicked only if r is the current run. */
  predicate IsStopOf(s: Server, p: Pc, r: RunId) {
    if p.Panicked? then s.runs != [] && r == Current(s) else StopOfRun(p) && p.run == r
  }

  ghost predicate Shape(s: Server) {
    && (forall c :: c in s.closed ==> c < |s.runs|)
    && (s.chan.Some? ==> s.chan.value < |s.runs|)
    && (s.runs == [] ==> s.word == Idle)
    && (forall r :: 0 <= r < |s.runs| - 1 ==> Finished(s, r))
  }

  ghost predicate Present(s: Server) {
    s.runs != [] ==>
      var run := s.runs[Current(s)];
      run.starter in s.pc && CurrentOk(s, Current(s), s.pc[run.starter], WinnerPc(s, run), run.trail)
  }

  ghost predicate Core(s: Server) {
    Roles(s) && Shape(s) && Present(s)
  }

  ghost predicate Inv(s: Server) {
    Free.Inv(s) && Core(s)
  }

  // ---------------------------------------------------------------- one step of the current run

  /** A step of the Start call of the current run keeps the current run in order. */
  lemma StarterStep(s: Server, t: Tid, wp: Option<Pc>)
    requires t in s.pc && s.runs != [] && StartOfRun(s.pc[t]) && s.pc[t].run == Current(s)
    requires CurrentOk(s, Current(s), s.pc[t], wp, s.runs[Current(s)].trail)
    requires s.pc[t].ResetCas? ==> Stoppable(s.pc[t].cur)
    requires Next(s, t).Some?
    ensures var s' := Next(s, t).value;
            var plan := PlanOf(s, s.pc[t]).value;
            && plan.op != Begin && plan.op != Win && plan.op != StoreIdle && !plan.op.CloseChan?
            && StartOfRun(plan.pc) && plan.pc.run == Current(s)
            && |s'.runs| == |s.runs| && s'.fault == s.fault && s'.closed == s.closed
            && CurrentOk(s', Current(s), plan.pc, wp, s'.runs[Current(s)].trail)
            && s'.chan == (if s.pc[t].Making? then Some(Current(s)) else s.chan)
  {
  }

  /** A step of the winning stop call keeps the current run in order; its close hits the channel in the field, or
      panics. */
  lemma WinnerStep(s: Server, t: Tid, sp: Pc)
    requires t in s.pc && s.runs != [] && StopOfRun(s.pc[t]) && s.pc[t].run == Current(s)
    requires CurrentOk(s, Current(s), sp, Some(s.pc[t]), s.runs[Current(s)].trail)
    requires Next(s, t).Some?
    ensures var s' := Next(s, t).value;
            var plan := PlanOf(s, s.pc[t]).value;
            && plan.op in {Read, StoreIdle, CloseChan(Current(s))}
            && (plan.pc.Panicked? || (StopOfRun(plan.pc) && plan.pc.run == Current(s)))
            && |s'.runs| == |s.runs| && s'.chan == s.chan
            && s'.closed == (if s.pc[t].Closing? && Closable(s) then s.closed + {s.chan.value} else s.closed)
            && CurrentOk(s', Current(s), sp, Some(plan.pc), s'.runs[Current(s)].trail)
  {
    if s.pc[t].Closing? {
      CloseStep(s, t, sp);
    } else {
      HoldStep(s, t, sp);
    }
  }

  lemma HoldStep(s: Server, t: Tid, sp: Pc)
    requires t in s.pc && s.runs != [] && Free.Holding(s.pc[t]) && s.pc[t].run == Current(s)
    requires CurrentOk(s, Current(s), sp, Some(s.pc[t]), s.runs[Current(s)].trail)
    ensures var s' := Next(s, t).value;
            var plan := PlanOf(s, s.pc[t]).value;
            && plan.op in {Read, StoreIdle} && StopOfRun(plan.pc) && plan.pc.run == Current(s)
            && |s'.runs| == |s.runs| && s'.chan == s.chan && s'.closed == s.closed
            && CurrentOk(s', Current(s), sp, Some(plan.pc), s'.runs[Current(s)].trail)
  {
  }

  lemma CloseStep(s: Server, t: Tid, sp: Pc)
    requires t in s.pc && s.runs != [] && s.pc[t].Closing? && s.pc[t].run == Current(s)
    requires CurrentOk(s, Current(s), sp, Some(s.pc[t]), s.runs[Current(s)].trail)
    ensures var s' := Next(s, t).value;
            var plan := PlanOf(s, s.pc[t]).value;
            && s'.runs == s.runs && s'.chan == s.chan
            && s'.closed == (if Closable(s) then s.closed + {s.chan.value} else s.closed)
            && CurrentOk(s', Current(s), sp, Some(plan.pc), s'.runs[Current(s)].trail)
  {
  }

  // ---------------------------------------------------------------- every step

  /** An operation that neither begins a run nor wins one leaves the roles of all runs and the
      histories of past runs alone. */
  lemma RunsFrame(s: Server, t: Tid, op: Op)
    requires op != Begin && op != Win
    ensures SameRoles(s, Apply(s, t, op))
  {
  }

  ghost predicate SameRoles(s: Server, s': Server) {
    && |s'.runs| == |s.runs|
    && (forall r :: 0 <= r < |s.runs| ==>
        s'.runs[r].starter == s.runs[r].starter && s'.runs[r].winner == s.runs[r].winner)
    && (forall r :: 0 <= r < |s.runs| - 1 ==> s'.runs[r] == s.runs[r])
  }

  /** A call keeps its role: none, or starter or winner of the current run. */
  predicate SameRole(s: Server, p: Pc, p': Pc) {
    && !p.Panicked?
    && (StartOfRun(p) <==> StartOfRun(p'))
    && (StopOfRun(p) <==> StopOfRun(p') || p'.Panicked?)
    && (StartOfRun(p) || StopOfRun(p) ==> s.runs != [] && p.run == Current(s) && (p'.Panicked? || p'.run == p.run))
  }

  /** The roles and the past survive when call t of the current run, or of no run, moves on. */
  lemma StepFrame(s: Server, s': Server, t: Tid)
    requires Roles(s) && Shape(s) && SameRoles(s, s')
    requires t in s.pc && t in s'.pc && s'.pc == s.pc[t := s'.pc[t]] && SameRole(s, s.pc[t], s'.pc[t])
    ensures Roles(s')
    ensures forall r :: 0 <= r < |s'.runs| - 1 ==> Finished(s', r)
  {
    forall r | 0 <= r < |s'.runs|
      ensures HasRoles(s', r)
    {
      RoleStays(s, s', t, r);
    }
    forall r | 0 <= r < |s'.runs| - 1
      ensures Finished(s', r)
    {
      assert Finished(s, r) && HasRoles(s, r);
    }
  }

  lemma RoleStays(s: Server, s': Server, t: Tid, r: RunId)
    requires r < |s.runs| && HasRoles(s, r) && SameRoles(s, s')
    requires t in s.pc && t in s'.pc && s'.pc == s.pc[t := s'.pc[t]] && SameRole(s, s.pc[t], s'.pc[t])
    ensures HasRoles(s', r)
  {
  }

  /** The current run only sees the word, the channel, the http server and its own two calls. */
  lemma CurrentFrame(s: Server, s': Server)
    requires s'.word == s.word && s'.chan == s.chan && s'.http == s.http && s'.closed == s.closed && s'.runs == s.runs
    requires Roles(s)
    requires forall t :: t in s.pc && (StartOfRun(s.pc[t]) || StopOfRun(s.pc[t]) || s.pc[t].Panicked?) ==>
               t in s'.pc && s'.pc[t] == s.pc[t]
    ensures Present(s) <==> Present(s')
  {
    if s.runs != [] {
      var run := s.runs[Current(s)];
      assert HasRoles(s, Current(s));
      assert s'.pc[run.starter] == s.pc[run.starter] && WinnerPc(s', run) == WinnerPc(s, run);
    }
  }

  /** Which run a call that can still step belongs to: the current one. */
  lemma StepsAreCurrent(s: Server, t: Tid)
    requires Roles(s) && Shape(s) && t in s.pc && !s.pc[t].Returned? && !s.pc[t].Closed?
    ensures StartOfRun(s.pc[t]) ==> s.runs != [] && s.pc[t].run == Current(s) && s.runs[Current(s)].starter == t
    ensures StopOfRun(s.pc[t]) ==> s.runs != [] && s.pc[t].run == Current(s) && s.runs[Current(s)].winner == Some(t)
  {
    if StartOfRun(s.pc[t]) || StopOfRun(s.pc[t]) {
      var r := s.pc[t].run;
      assert r < |s.runs| - 1 ==> Finished(s, r);
    }
  }

  /** The starter or the winner of the current run moves to p and leaves the run in order. */
  lemma CurrentMoves(s: Server, s': Server, t: Tid, p: Pc)
    requires Core(s) && s.runs != [] && t in s.pc
    requires s.runs[Current(s)].starter == t || s.runs[Current(s)].winner == Some(t)
    requires s'.pc == s.pc[t := p] && SameRoles(s, s') && SameRole(s, s.pc[t], p)
    requires forall r :: r in s'.closed ==> r < |s.runs|
    requires s'.chan.Some? ==> s'.chan.value < |s.runs|
    requires var run := s'.runs[Current(s)];
             run.starter in s'.pc && CurrentOk(s', Current(s), s'.pc[run.starter], WinnerPc(s', run), run.trail)
    ensures Core(s')
  {
    StepFrame(s, s', t);
  }

  lemma StartStepKeepsCore(s: Server, t: Tid)
    requires Core(s) && t in s.pc && StartOfRun(s.pc[t]) && Next(s, t).Some?
    requires s.pc[t].ResetCas? ==> Stoppable(s.pc[t].cur)
    ensures Core(Next(s, t).value)
  {
    assert !s.pc[t].Returned?;
    StepsAreCurrent(s, t);
    var c := Current(s);
    assert HasRoles(s, c);
    StartStepRole(s, Next(s, t).value, t, c);
    StartStepFrame(s, Next(s, t).value, t, c);
    StartStepInOrder(s, Next(s, t).value, t, c);
    CurrentMoves(s, Next(s, t).value, t, PlanOf(s, s.pc[t]).value.pc);
  }

  /** It keeps its role and closes nothing. */
  lemma StartStepRole(s: Server, s': Server, t: Tid, c: RunId)
    requires t in s.pc && s.runs != [] && c == Current(s) && StartOfRun(s.pc[t]) && s.pc[t].run == c
    requires s.chan.Some? ==> s.chan.value < |s.runs|
    requires CurrentOk(s, c, s.pc[t], WinnerPc(s, s.runs[c]), s.runs[c].trail)
    requires s.pc[t].ResetCas? ==> Stoppable(s.pc[t].cur)
    requires Next(s, t) == Some(s')
    ensures PlanOf(s, s.pc[t]).value.op != Begin && PlanOf(s, s.pc[t]).value.op != Win
    ensures SameRole(s, s.pc[t], PlanOf(s, s.pc[t]).value.pc)
    ensures s'.closed == s.closed && (s'.chan.Some? ==> s'.chan.value < |s.runs|)
  {
    StarterStep(s, t, WinnerPc(s, s.runs[c]));
  }

  /** It leaves the current run in order. */
  lemma StartStepInOrder(s: Server, s': Server, t: Tid, c: RunId)
    requires t in s.pc && s.runs != [] && c == Current(s) && StartOfRun(s.pc[t]) && s.pc[t].run == c
    requires CurrentOk(s, c, s.pc[t], WinnerPc(s, s.runs[c]), s.runs[c].trail)
    requires s.pc[t].ResetCas? ==> Stoppable(s.pc[t].cur)
    requires Next(s, t) == Some(s') && |s'.runs| == |s.runs| && s'.pc == s.pc[t := PlanOf(s, s.pc[t]).value.pc]
    requires WinnerPc(s', s'.runs[c]) == WinnerPc(s, s.runs[c])
    ensures CurrentOk(s', c, s'.pc[t], WinnerPc(s', s'.runs[c]), s'.runs[c].trail)
  {
    StarterStep(s, t, WinnerPc(s, s.runs[c]));
  }

  /** It moves no call but its own, so the winner's program counter stays. */
  lemma StartStepFrame(s: Server, s': Server, t: Tid, c: RunId)
    requires t in s.pc && s.runs != [] && c == Current(s) && StartOfRun(s.pc[t])
    requires HasRoles(s, c) && s.runs[c].starter == t
    requires Next(s, t) == Some(s') && PlanOf(s, s.pc[t]).value.op != Begin && PlanOf(s, s.pc[t]).value.op != Win
    ensures s'.pc == s.pc[t := PlanOf(s, s.pc[t]).value.pc] && SameRoles(s, s')
    ensures WinnerPc(s', s'.runs[c]) == WinnerPc(s, s.runs[c])
  {
    RunsFrame(s, t, PlanOf(s, s.pc[t]).value.op);
    Free.NextFrame(s, t);
  }

  lemma StopStepKeepsCore(s: Server, t: Tid)
    requires Core(s) && t in s.pc && StopOfRun(s.pc[t]) && Next(s, t).Some?
    ensures Core(Next(s, t).value)
  {
    assert !s.pc[t].Closed?;
    StepsAreCurrent(s, t);
    var c := Current(s);
    assert HasRoles(s, c);
    StopStepInOrder(s, Next(s, t).value, t, c);
    CurrentMoves(s, Next(s, t).value, t, PlanOf(s, s.pc[t]).value.pc);
  }

  lemma StopStepInOrder(s: Server, s': Server, t: Tid, c: RunId)
    requires t in s.pc && s.runs != [] && c == Current(s) && StopOfRun(s.pc[t]) && s.pc[t].run == c
    requires HasRoles(s, c) && s.runs[c].winner == Some(t)
    requires CurrentOk(s, c, s.pc[s.runs[c].starter], Some(s.pc[t]), s.runs[c].trail)
    requires Next(s, t) == Some(s')
    ensures var p := PlanOf(s, s.pc[t]).value.pc;
            s'.pc == s.pc[t := p] && SameRoles(s, s') && SameRole(s, s.pc[t], p)
    ensures s'.chan == s.chan && (forall r :: r in s'.closed ==> r in s.closed || s.chan == Some(r))
    ensures var run := s'.runs[c];
            run.starter in s'.pc && CurrentOk(s', c, s'.pc[run.starter], WinnerPc(s', run), run.trail)
  {
    WinnerStep(s, t, s.pc[s.runs[c].starter]);
    StopStepFrame(s, s', t, c);
  }

  /** It moves no call but its own, so the starter's program counter stays. */
  lemma StopStepFrame(s: Server, s': Server, t: Tid, c: RunId)
    requires t in s.pc && s.runs != [] && c == Current(s) && StopOfRun(s.pc[t])
    requires HasRoles(s, c) && s.runs[c].winner == Some(t)
    requires Next(s, t) == Some(s') && PlanOf(s, s.pc[t]).value.op != Begin && PlanOf(s, s.pc[t]).value.op != Win
    ensures var p := PlanOf(s, s.pc[t]).value.pc;
            s'.pc == s.pc[t := p] && SameRoles(s, s') && WinnerPc(s', s'.runs[c]) == Some(p)
    ensures s'.runs[c].starter in s'.pc && s'.pc[s'.runs[c].starter] == s.pc[s.runs[c].starter]
  {
    RunsFrame(s, t, PlanOf(s, s.pc[t]).value.op);
    Free.NextFrame(s, t);
  }

  /** D1 at work: a run that begins on a quiet server finds every earlier run finished. */
  lemma BeginKeepsCore(s: Server, t: Tid)
    requires Core(s) && t in s.pc && s.pc[t] == Calling && s.word == Idle && Quiet(s)
    ensures Core(Next(s, t).value)
  {
    var s' := Next(s, t).value;
    var n := |s.runs|;
    BeginState(s, t);
    forall r | 0 <= r < n
      ensures HasRoles(s', r) && Finished(s', r)
    {
      if r == n - 1 {
        QuietIsFinished(s);
      }
      PastStays(s, s', t, r);
    }
    assert HasRoles(s', n);
  }

  lemma BeginState(s: Server, t: Tid)
    requires t in s.pc && s.pc[t] == Calling && s.word == Idle
    ensures Next(s, t) == Some(s.(word := Initializing, moves := s.moves + 1,
              runs := s.runs + [Run(t, None, [Idle, Initializing])], pc := s.pc[t := Making(|s.runs|)]))
  {
  }

  /** A finished run stays so when a call outside of it moves. */
  lemma PastStays(s: Server, s': Server, t: Tid, r: RunId)
    requires r < |s.runs| <= |s'.runs| && s'.runs[r] == s.runs[r] && HasRoles(s, r) && Finished(s, r)
    requires t in s'.pc && s'.pc == s.pc[t := s'.pc[t]] && s.runs[r].starter != t && s.runs[r].winner != Some(t)
    ensures HasRoles(s', r) && Finished(s', r)
  {
  }

  lemma QuietIsFinished(s: Server)
    requires Core(s) && s.runs != [] && Quiet(s)
    ensures Finished(s, Current(s))
  {
    assert HasRoles(s, Current(s));
  }

  /** A stop wins the current run. */
  lemma WinKeepsCore(s: Server, t: Tid)
    requires Core(s) && t in s.pc && s.pc[t].Trying? && s.word == s.pc[t].cur && Stoppable(s.word)
    ensures Core(Next(s, t).value)
  {
    var s', c := Next(s, t).value, Current(s);
    var run := s.runs[c];
    assert HasRoles(s, c);
    WinState(s, t);
    WinCurrent(s, s', c, s.pc[run.starter], run.trail);
    WinFrame(s, s', t);
  }

  lemma WinState(s: Server, t: Tid)
    requires t in s.pc && s.pc[t].Trying? && s.word == s.pc[t].cur && s.runs != []
    ensures var c := Current(s); var run := s.runs[c];
            Next(s, t) == Some(Server(ShuttingDown, s.chan, s.closed, s.http,
              s.runs[c := Run(run.starter, Some(t), run.trail + [ShuttingDown])],
              s.pc[t := Won(c, s.word)], s.fails, s.moves + 1, s.fault))
  {
    var c := Current(s);
    var run := s.runs[c];
    var won := Run(run.starter, Some(t), run.trail + [ShuttingDown]);
    assert WonBy(Trailed(s.runs, ShuttingDown), t) == s.runs[c := won];
  }

  lemma WinFrame(s: Server, s': Server, t: Tid)
    requires Core(s) && s.runs != [] && s.runs[Current(s)].winner.None?
    requires t in s.pc && s.pc[t].Trying? && s'.pc == s.pc[t := Won(Current(s), s.word)]
    requires s'.closed == s.closed && s'.chan == s.chan
    requires |s'.runs| == |s.runs| && s'.runs == s.runs[Current(s) := s'.runs[Current(s)]]
    requires s'.runs[Current(s)].starter == s.runs[Current(s)].starter && s'.runs[Current(s)].winner == Some(t)
    requires var run := s'.runs[Current(s)];
             run.starter in s'.pc && CurrentOk(s', Current(s), s'.pc[run.starter], WinnerPc(s', run), run.trail)
    ensures Core(s')
  {
    forall r | 0 <= r < |s.runs|
      ensures HasRoles(s', r)
      ensures r < |s.runs| - 1 ==> Finished(s', r)
    {
      assert HasRoles(s, r);
      assert r < |s.runs| - 1 ==> Finished(s, r);
    }
  }

  lemma WinCurrent(s: Server, s': Server, c: RunId, sp: Pc, trail: seq<Word>)
    requires Stoppable(s.word)
    requires CurrentOk(s, c, sp, None, trail)
    requires s'.word == ShuttingDown && s'.chan == s.chan && s'.closed == s.closed && s'.http == s.http
    ensures CurrentOk(s', c, sp, Some(Won(c, s.word)), trail + [ShuttingDown])
  {
  }

  /** Steps of calls that own no run only read. */
  lemma OutsiderPlan(s: Server, p: Pc)
    requires !StartOfRun(p) && !StopOfRun(p) && PlanOf(s, p).Some?
    requires p == Calling ==> s.word != Idle
    requires p.Trying? ==> s.word != p.cur
    ensures var plan := PlanOf(s, p).value; plan.op in {Read, Miss} && SameRole(s, p, plan.pc)
  {
  }

  lemma OutsiderStepKeepsCore(s: Server, t: Tid)
    requires Core(s) && t in s.pc && !StartOfRun(s.pc[t]) && !StopOfRun(s.pc[t]) && Next(s, t).Some?
    requires s.pc[t] == Calling ==> s.word != Idle
    requires s.pc[t].Trying? ==> s.word != s.pc[t].cur
    ensures Core(Next(s, t).value)
  {
    OutsiderPlan(s, s.pc[t]);
    var s' := Next(s, t).value;
    StepFrame(s, s', t);
    CurrentFrame(s, s');
  }

  lemma FailKeepsCore(s: Server, t: Tid)
    requires Core(s) && t in s.pc && s.pc[t].Body?
    ensures Core(At(s, t, Reset(s.pc[t].run, 0)))
  {
    StepsAreCurrent(s, t);
    var c, s' := Current(s), At(s, t, Reset(s.pc[t].run, 0));
    assert HasRoles(s, c);
    StepFrame(s, s', t);
    assert WinnerPc(s', s'.runs[c]) == WinnerPc(s, s.runs[c]);
  }

  lemma NewCallKeepsCore(s: Server, t: Tid, p: Pc)
    requires Core(s) && t !in s.pc && (p == Calling || p == Entering)
    ensures Core(At(s, t, p))
  {
    var s' := At(s, t, p);
    forall r | 0 <= r < |s.runs|
      ensures HasRoles(s', r)
      ensures r < |s.runs| - 1 ==> Finished(s', r)
    {
      assert HasRoles(s, r);
      assert r < |s.runs| - 1 ==> Finished(s, r);
    }
    CurrentFrame(s, s');
  }

  lemma StepKeepsCore(s: Server, t: Tid)
    requires Inv(s) && D1(s, Step(t)) && t in s.pc && Next(s, t).Some?
    ensures Core(Next(s, t).value)
  {
    assert Free.Retrying(s.pc[t]) ==> Stoppable(s.pc[t].cur);
    if StartOfRun(s.pc[t]) {
      StartStepKeepsCore(s, t);
    } else if StopOfRun(s.pc[t]) {
      StopStepKeepsCore(s, t);
    } else if s.pc[t] == Calling && s.word == Idle {
      BeginKeepsCore(s, t);
    } else if s.pc[t].Trying? && s.word == s.pc[t].cur {
      WinKeepsCore(s, t);
    } else {
      OutsiderStepKeepsCore(s, t);
    }
  }

  lemma DoKeepsInv(s: Server, a: Action)
    requires Inv(s) && D1(s, a) && Do(s, a).Some?
    ensures Inv(Do(s, a).value)
  {
    Free.DoKeepsInv(s, a);
    match a
    case Step(t) => StepKeepsCore(s, t);
    case Fail(t) => FailKeepsCore(s, t);
    case CallStart(t) => NewCallKeepsCore(s, t, Calling);
    case CallStop(t) => NewCallKeepsCore(s, t, Entering);
  }

  lemma {:induction false} ExecKeepsInv(s: Server, actions: seq<Action>)
    requires Inv(s) && QuietRun(s, actions) && Exec(s, actions).Some?
    ensures Inv(Exec(s, actions).value)
    decreases |actions|
  {
    if actions != [] {
      DoKeepsInv(s, actions[0]);
      ExecKeepsInv(Do(s, actions[0]).value, actions[1..]);
    }
  }

  // ---------------------------------------------------------------- the results

  /** A stop call that has won and not yet closed the channel of run r. */
  predicate Pending(s: Server, t: Tid, r: RunId) {
    t in s.pc && (Free.Holding(s.pc[t]) || s.pc[t].Closing?) && s.pc[t].run == r
  }

  /** A Start blocked on a channel that is not closed waits for its own run's channel, exactly one
      stop call is between its winning swap and its close, and that close will hit that channel. */
  lemma BlockedStartHasOneCloser(actions: seq<Action>, t: Tid)
    requires QuietRun(Init(), actions) && Exec(Init(), actions).Some?
    requires var s := Exec(Init(), actions).value; t in s.pc && s.pc[t].Waiting? && Next(s, t).None?
    ensures var s := Exec(Init(), actions).value;
            && s.pc[t].ch == Some(s.pc[t].run) && s.chan == s.pc[t].ch
            && (exists p :: Pending(s, p, s.pc[t].run))
            && (forall p, q, r, r' :: Pending(s, p, r) && Pending(s, q, r') ==> p == q && r == r')
  {
    Free.InitInv();
    ExecKeepsInv(Init(), actions);
    var s := Exec(Init(), actions).value;
    var c := Current(s);
    StepsAreCurrent(s, t);
    assert HasRoles(s, c);
    assert Pending(s, s.runs[c].winner.value, c);
    forall p: Tid, r: RunId | Pending(s, p, r)
      ensures r == c && s.runs[c].winner == Some(p)
    {
      assert r < |s.runs| - 1 ==> Finished(s, r);
    }
  }

  /** Every run but the last has followed a complete path Idle, Initializing, [Running],
      [ShuttingDown], Idle, and the last one is on a prefix of such a path that ends at the current
      word. */
  lemma RunsFollowPaths(actions: seq<Action>, r: RunId)
    requires QuietRun(Init(), actions) && Exec(Init(), actions).Some?
    requires r < |Exec(Init(), actions).value.runs|
    ensures var s := Exec(Init(), actions).value;
            && (r < |s.runs| - 1 ==> IsPath(s.runs[r].trail))
            && (exists p :: IsPath(p) && s.runs[r].trail <= p)
            && (r == |s.runs| - 1 ==> |s.runs[r].trail| > 0 && s.runs[r].trail[|s.runs[r].trail| - 1] == s.word)
            && (r == |s.runs| - 1 && s.word == Idle ==> IsPath(s.runs[r].trail))
  {
    Free.InitInv();
    ExecKeepsInv(Init(), actions);
    var s := Exec(Init(), actions).value;
    var trail := s.runs[r].trail;
    if r < |s.runs| - 1 {
      assert Finished(s, r);
      assert trail <= trail;
    } else {
      assert HasRoles(s, r);
      CurrentTrail(s, r, s.pc[s.runs[r].starter], WinnerPc(s, s.runs[r]), trail);
    }
  }

  lemma CurrentTrail(s: Server, c: RunId, sp: Pc, wp: Option<Pc>, trail: seq<Word>)
    requires CurrentOk(s, c, sp, wp, trail)
    ensures trail != [] && trail[|trail| - 1] == s.word
    ensures exists p :: IsPath(p) && trail <= p
    ensures s.word == Idle ==> IsPath(trail)
  {
    var short := [Idle, Initializing, ShuttingDown, Idle];
    var long := [Idle, Initializing, Running, ShuttingDown, Idle];
    assert IsPath(short) && IsPath(long);
    if s.word == Idle {
      assert IsPath(trail) && trail <= trail;
    } else {
      assert trail <= short || trail <= long;
    }
  }

  /** A stop is never lost: a stop that won from Running acts on the http server made by the very
      run it won, and a run won while Initializing is never Running. */
  lemma StopsAreNotLost(actions: seq<Action>, t: Tid)
    requires QuietRun(Init(), actions) && Exec(Init(), actions).Some?
    requires var s := Exec(Init(), actions).value; t in s.pc && StopOfRun(s.pc[t])
    ensures var s := Exec(Init(), actions).value;
            var p := s.pc[t];
            && p.run < |s.runs| && s.runs[p.run].winner == Some(t)
            && (p.from == Running && (p.Stopping? || p.Storing? || p.Closing? || p.Closed?) ==> p.srv == Some(p.run))
            && (p.from == Initializing ==> Running !in s.runs[p.run].trail)
            && ShuttingDown in s.runs[p.run].trail
  {
    Free.InitInv();
    ExecKeepsInv(Init(), actions);
    var s := Exec(Init(), actions).value;
    var r := s.pc[t].run;
    assert HasRoles(s, r);
    if r < |s.runs| - 1 {
      assert Finished(s, r);
    }
    assert s.runs[r].trail[|Rising(s.pc[t].from)|] == ShuttingDown;
  }

  /** A server that reports itself ready and healthy is one whose current run has reached Running and has not
      been stopped or reset; its channel and its http server are those of that run, the channel is open and no
      stop has won the run. At every other moment it reports neither. */
  lemma ReadyServerServes(actions: seq<Action>)
    requires QuietRun(Init(), actions) && Exec(Init(), actions).Some?
    ensures var s := Exec(Init(), actions).value;
            var up := s.runs != [] && s.runs[Current(s)].trail == [Idle, Initializing, Running];
            && ReadinessCode(s.word) == (if up then 200 else 503)
            && HealthOf(s.word) == (if up then HEALTHY else TERMINAL)
            && (up ==>
                s.chan == s.http == Some(Current(s)) && Current(s) !in s.closed && s.runs[Current(s)].winner == None)
  {
    Free.InitInv();
    ExecKeepsInv(Init(), actions);
    var s := Exec(Init(), actions).value;
    if s.runs != [] {
      assert HasRoles(s, Current(s));
      RunsFollowPaths(actions, Current(s));
    }
  }

  lemma ReturnStep(s: Server, t: Tid)
    requires t in s.pc && Next(s, t).Some? && t in Next(s, t).value.pc && Next(s, t).value.pc[t].Returned?
    ensures Next(s, t).value.word == Idle
  {
  }

  lemma ReturnedLoads(s: Server, t: Tid)
    requires Core(s) && t in s.pc && s.pc[t].Returned?
    ensures s.pc[t].loads <= 3
  {
    var r := s.pc[t].run;
    assert HasRoles(s, r);
    assert r < |s.runs| - 1 ==> Finished(s, r);
  }

  /** When the Start of a run returns, the word is Idle and its deferred loop has loaded the word at
      most three times. */
  lemma StartReturnsIdle(actions: seq<Action>, t: Tid)
    requires QuietRun(Init(), actions + [Step(t)]) && Exec(Init(), actions).Some?
    requires Exec(Init(), actions + [Step(t)]).Some?
    requires var s' := Exec(Init(), actions + [Step(t)]).value; t in s'.pc && s'.pc[t].Returned?
    ensures var s' := Exec(Init(), actions + [Step(t)]).value; s'.word == Idle && s'.pc[t].loads <= 3
  {
    Free.InitInv();
    ExecKeepsInv(Init(), actions + [Step(t)]);
    ReturnedLoads(Exec(Init(), actions + [Step(t)]).value, t);
    var s := Exec(Init(), actions).value;
    ExecConcat(Init(), actions, [Step(t)]);
    assert Exec(s, [Step(t)]) == Do(s, Step(t)) == Next(s, t);
    ReturnStep(s, t);
  }

  /** In every reachable state, a Start that has returned took at most three turns of its deferred loop. */
  lemma ThreeTurns(actions: seq<Action>, t: Tid)
    requires QuietRun(Init(), actions) && Exec(Init(), actions).Some?
    requires var s := Exec(Init(), actions).value; t in s.pc && s.pc[t].Returned?
    ensures Exec(Init(), actions).value.pc[t].loads <= 3
  {
    Free.InitInv();
    ExecKeepsInv(Init(), actions);
    ReturnedLoads(Exec(Init(), actions).value, t);
  }
}
