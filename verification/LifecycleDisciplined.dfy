/** What the start/stop protocol keeps in every interleaving whose callers follow both disciplines of Lifecycle. All
    that D2 adds to D1 is that the close hits the channel it is meant for. */
module LifecycleDisciplined {
  import opened Options
  import opened ServerState
  import opened Lifecycle
  import Free = LifecycleFree
  import opened LifecycleQuiet

  /** The stop call that won run r has closed its channel and returned. */
  predicate ClosedByWinner(s: Server, r: RunId) {
    r < |s.runs| && var w := WinnerPc(s, s.runs[r]); w.Some? && w.value.Closed?
  }

  /** A run is won only once its channel is made. */
  predicate WonAfterMake(s: Server) {
    s.runs != [] && s.runs[Current(s)].winner.Some? ==>
      var starter := s.runs[Current(s)].starter;
      starter in s.pc && !s.pc[starter].Making?
  }

  /** Nothing has gone wrong, and a channel is closed exactly when the stop that won its run is done. */
  ghost predicate Sound(s: Server) {
    && !s.fault && WonAfterMake(s)
    && (forall t :: t in s.pc ==> !s.pc[t].Panicked?)
    && (forall r :: r in s.closed <==> ClosedByWinner(s, r))
  }

  ghost predicate SoundInv(s: Server) {
    Inv(s) && Sound(s)
  }

  /** A step that closes nothing, wins nothing and begins nothing. */
  lemma OtherStepKeepsSound(s: Server, s': Server, t: Tid)
    requires Core(s) && Sound(s) && SameRoles(s, s') && t in s.pc && t in s'.pc && s'.pc == s.pc[t := s'.pc[t]]
    requires s'.closed == s.closed && s'.fault == s.fault
    requires !s'.pc[t].Panicked? && !s'.pc[t].Closed? && !s.pc[t].Closed? && !s'.pc[t].Making?
    ensures Sound(s')
  {
    forall r: RunId
      ensures ClosedByWinner(s', r) <==> ClosedByWinner(s, r)
    {
      if r < |s.runs| {
        assert HasRoles(s, r);
      }
    }
  }

  /** A new call owns nothing yet. */
  lemma NewCallKeepsSound(s: Server, t: Tid, p: Pc)
    requires Core(s) && Sound(s) && t !in s.pc && (p == Calling || p == Entering)
    ensures Sound(At(s, t, p))
  {
    var s' := At(s, t, p);
    forall r: RunId
      ensures ClosedByWinner(s', r) <==> ClosedByWinner(s, r)
    {
      if r < |s.runs| {
        assert HasRoles(s, r);
      }
    }
    if s.runs != [] {
      assert HasRoles(s, Current(s));
    }
  }

  lemma BeginKeepsSound(s: Server, t: Tid)
    requires Core(s) && Sound(s) && t in s.pc && s.pc[t] == Calling && s.word == Idle
    ensures Sound(Next(s, t).value)
  {
    BeginState(s, t);
    var s' := Next(s, t).value;
    forall r: RunId
      ensures ClosedByWinner(s', r) <==> ClosedByWinner(s, r)
    {
      if r < |s.runs| {
        assert HasRoles(s, r) && s'.runs[r] == s.runs[r];
      }
    }
  }

  /** D2 at work: the channel of the run is made when a stop wins it. */
  lemma WinKeepsSound(s: Server, t: Tid)
    requires Core(s) && Sound(s) && t in s.pc && s.pc[t].Trying? && s.word == s.pc[t].cur && Stoppable(s.word)
    requires D2(s, Step(t))
    ensures Sound(Next(s, t).value)
  {
    var s', c := Next(s, t).value, Current(s);
    assert HasRoles(s, c);
    WinState(s, t);
    forall r: RunId
      ensures ClosedByWinner(s', r) <==> ClosedByWinner(s, r)
    {
      if r < |s.runs| {
        assert HasRoles(s, r);
      }
    }
  }

  /** The close hits the open channel of its own run. */
  lemma CloseKeepsSound(s: Server, t: Tid)
    requires Core(s) && Sound(s) && t in s.pc && s.pc[t].Closing?
    ensures Sound(Next(s, t).value)
  {
    StepsAreCurrent(s, t);
    var s', c := Next(s, t).value, Current(s);
    assert HasRoles(s, c);
    assert s.chan == Some(c) && c !in s.closed;
    assert s' == At(s.(closed := s.closed + {c}), t, Closed(c, s.pc[t].from, s.pc[t].srv));
    forall r: RunId
      ensures ClosedByWinner(s', r) <==> ClosedByWinner(s, r) || r == c
    {
      if r < |s.runs| {
        assert HasRoles(s, r);
      }
    }
  }

  /** The other steps of the calls that own the current run. */
  lemma OwnStepKeepsSound(s: Server, t: Tid)
    requires Core(s) && Sound(s) && t in s.pc && Next(s, t).Some?
    requires StartOfRun(s.pc[t]) || Free.Holding(s.pc[t])
    ensures Sound(Next(s, t).value)
  {
    assert !s.pc[t].Returned? && !s.pc[t].Closed?;
    StepsAreCurrent(s, t);
    OwnEffect(s, t);
    OtherStepKeepsSound(s, Next(s, t).value, t);
  }

  lemma OwnEffect(s: Server, t: Tid)
    requires t in s.pc && Next(s, t).Some?
    requires (StartOfRun(s.pc[t]) || Free.Holding(s.pc[t])) && s.pc[t].run == Current(s)
    ensures var s' := Next(s, t).value;
            && SameRoles(s, s') && t in s'.pc && s'.pc == s.pc[t := s'.pc[t]]
            && s'.closed == s.closed && s'.fault == s.fault
            && !s'.pc[t].Panicked? && !s'.pc[t].Closed? && !s'.pc[t].Making?
  {
    OwnPlan(s, s.pc[t]);
    OpEffect(s, t, PlanOf(s, s.pc[t]).value.op);
  }

  lemma OpEffect(s: Server, t: Tid, op: Op)
    requires op != Begin && op != Win && !op.CloseChan? && (op.Swap? ==> op.run == Current(s))
    ensures var s' := Apply(s, t, op);
            SameRoles(s, s') && s'.pc == s.pc && s'.closed == s.closed && s'.fault == s.fault
  {
    RunsFrame(s, t, op);
  }

  lemma OwnPlan(s: Server, p: Pc)
    requires PlanOf(s, p).Some? && (StartOfRun(p) || Free.Holding(p))
    ensures var plan := PlanOf(s, p).value;
            && plan.op != Begin && plan.op != Win && !plan.op.CloseChan?
            && (plan.op.Swap? ==> plan.op.run == p.run)
            && !plan.pc.Panicked? && !plan.pc.Closed? && !plan.pc.Making?
  {
  }

  lemma StepKeepsSound(s: Server, t: Tid)
    requires SoundInv(s) && Disciplined(s, Step(t)) && t in s.pc && Next(s, t).Some?
    ensures Sound(Next(s, t).value)
  {
    assert Free.Retrying(s.pc[t]) ==> Stoppable(s.pc[t].cur);
    var p := s.pc[t];
    if StartOfRun(p) || Free.Holding(p) {
      OwnStepKeepsSound(s, t);
    } else if p.Closing? {
      CloseKeepsSound(s, t);
    } else if p == Calling && s.word == Idle {
      BeginKeepsSound(s, t);
    } else if p.Trying? && s.word == p.cur {
      WinKeepsSound(s, t);
    } else {
      OutsiderKeepsSound(s, t);
    }
  }

  lemma OutsiderKeepsSound(s: Server, t: Tid)
    requires Core(s) && Sound(s) && t in s.pc && Next(s, t).Some?
    requires !StartOfRun(s.pc[t]) && !StopOfRun(s.pc[t])
    requires s.pc[t] == Calling ==> s.word != Idle
    requires s.pc[t].Trying? ==> s.word != s.pc[t].cur
    ensures Sound(Next(s, t).value)
  {
    OutsiderPlan(s, s.pc[t]);
    var op := PlanOf(s, s.pc[t]).value.op;
    RunsFrame(s, t, op);
    OtherStepKeepsSound(s, Next(s, t).value, t);
  }

  lemma DoKeepsSound(s: Server, a: Action)
    requires SoundInv(s) && Disciplined(s, a) && Do(s, a).Some?
    ensures SoundInv(Do(s, a).value)
  {
    DoKeepsInv(s, a);
    match a
    case Step(t) => StepKeepsSound(s, t);
    case Fail(t) => OtherStepKeepsSound(s, Do(s, a).value, t);
    case CallStart(t) => NewCallKeepsSound(s, t, Calling);
    case CallStop(t) => NewCallKeepsSound(s, t, Entering);
  }

  lemma {:induction false} ExecKeepsSound(s: Server, actions: seq<Action>)
    requires SoundInv(s) && DisciplinedRun(s, actions) && Exec(s, actions).Some?
    ensures SoundInv(Exec(s, actions).value)
    decreases |actions|
  {
    if actions != [] {
      DoKeepsSound(s, actions[0]);
      ExecKeepsSound(Do(s, actions[0]).value, actions[1..]);
    }
  }

  /** The channel protocol is sound: no close ever hits a nil or closed channel or the channel of
      another run, and no Start ever moves the word of another run. A channel is closed exactly
      when the stop that won its run has finished. */
  lemma NoFault(actions: seq<Action>)
    requires DisciplinedRun(Init(), actions) && Exec(Init(), actions).Some?
    ensures var s := Exec(Init(), actions).value;
            && !s.fault
            && (forall t :: t in s.pc ==> !s.pc[t].Panicked?)
            && (forall r :: r in s.closed <==> ClosedByWinner(s, r))
  {
    Free.InitInv();
    ExecKeepsSound(Init(), actions);
  }
}
