/** Which http server a stop acts on. The pointer is never reset (witchcraft/witchcraft.go:1302-1305), so a stop that
    wins while its run is still Initializing may find the server of an earlier run. */
module LifecycleServers {
  import opened Options
  import opened ServerState
  import opened Lifecycle
  import Free = LifecycleFree
  import opened LifecycleQuiet

  /** A stop that has read the pointer. */
  predicate HasRead(p: Pc) {
    p.Stopping? || p.Storing? || p.Closing? || p.Closed?
  }

  /** The pointer and what was read from it name servers of runs that had begun. */
  ghost predicate ServersOk(s: Server) {
    && (s.http.Some? ==> s.http.value < |s.runs|)
    && (forall t :: t in s.pc && HasRead(s.pc[t]) && s.pc[t].srv.Some? ==> s.pc[t].srv.value <= s.pc[t].run)
  }

  /** The step of a call that reads the pointer belongs to the current run. */
  lemma PlanReads(s: Server, p: Pc)
    requires PlanOf(s, p).Some?
    ensures var plan := PlanOf(s, p).value;
            && (HasRead(plan.pc) ==> (HasRead(p) || p.Found? || p.Won?) && plan.pc.run == p.run)
            && (HasRead(plan.pc) ==> plan.pc.srv == (if HasRead(p) then p.srv else if p.Found? then s.http else None))
            && (plan.op.StoreHttp? ==> p.Body? && plan.op.run == p.run)
  {
  }

  lemma OpServer(s: Server, t: Tid, op: Op)
    ensures var s' := Apply(s, t, op);
            s'.pc == s.pc && |s.runs| <= |s'.runs| && s'.http == (if op.StoreHttp? then Some(op.run) else s.http)
  {
  }

  lemma StepKeepsServers(s: Server, t: Tid)
    requires Core(s) && ServersOk(s) && t in s.pc && Next(s, t).Some?
    ensures ServersOk(Next(s, t).value)
  {
    var p := s.pc[t];
    PlanReads(s, p);
    OpServer(s, t, PlanOf(s, p).value.op);
    if p.Found? || p.Body? {
      StepsAreCurrent(s, t);
    }
  }

  lemma DoKeepsServers(s: Server, a: Action)
    requires Core(s) && ServersOk(s) && Do(s, a).Some?
    ensures ServersOk(Do(s, a).value)
  {
    if a.Step? {
      StepKeepsServers(s, a.t);
    }
  }

  lemma {:induction false} ExecKeepsServers(s: Server, actions: seq<Action>)
    requires Inv(s) && ServersOk(s) && QuietRun(s, actions) && Exec(s, actions).Some?
    ensures ServersOk(Exec(s, actions).value)
    decreases |actions|
  {
    if actions != [] {
      DoKeepsInv(s, actions[0]);
      DoKeepsServers(s, actions[0]);
      ExecKeepsServers(Do(s, actions[0]).value, actions[1..]);
    }
  }

  /** Under D1, a stop acts on the server of the run it won or of an earlier one, or on none; if it won from Running,
      on that of the run it won. */
  lemma StopActsOnOwnOrEarlier(actions: seq<Action>, t: Tid)
    requires QuietRun(Init(), actions) && Exec(Init(), actions).Some?
    requires var s := Exec(Init(), actions).value; t in s.pc && HasRead(s.pc[t])
    ensures var p := Exec(Init(), actions).value.pc[t];
            && (p.srv.Some? ==> p.srv.value <= p.run)
            && (p.from == Running ==> p.srv == Some(p.run))
  {
    Free.InitInv();
    ExecKeepsServers(Init(), actions);
    StopsAreNotLost(actions, t);
  }

  // ---------------------------------------------------------------- an earlier server

  predicate StopsEarlier(s: Server) {
    2 in s.pc && s.pc[2] == Stopping(1, Initializing, Some(0))
  }

  /** It does happen, to disciplined callers: run 0 serves and ends by itself, and a stop that wins run 1 before its
      server is stored stops the server of run 0. */
  lemma EarlierServerCanBeStopped()
    ensures exists end :: Leads(Init(), end) && StopsEarlier(end)
  {
    var s1 := At(Init(), 0, Calling);
    var s2 := At(Apply(s1, 0, Begin), 0, Making(0));
    var s3 := At(Apply(s2, 0, MakeChan(0)), 0, Body(0));
    var s4 := At(Apply(s3, 0, StoreHttp(0)), 0, Ready(0));
    FirstRunEnds(s4);
    var end :| Leads(s4, end) && StopsEarlier(end);
    Prepend(s3, Step(0), s4, end);
    Prepend(s2, Step(0), s3, end);
    Prepend(s1, Step(0), s2, end);
    Prepend(Init(), CallStart(0), s1, end);
  }

  lemma FirstRunEnds(s: Server)
    requires 0 in s.pc && 1 !in s.pc && 2 !in s.pc && s.pc[0] == Ready(0) && s.word == Initializing && s.http == Some(0)
    requires |s.runs| == 1 && s.runs[0].starter == 0 && s.runs[0].winner == None
    ensures exists end :: Leads(s, end) && StopsEarlier(end)
  {
    var s1 := At(Apply(s, 0, Swap(0, Running)), 0, Serving(0));
    var s2 := At(s1, 0, Reset(0, 0));
    FirstRunResets(s2);
    var end :| Leads(s2, end) && StopsEarlier(end);
    Prepend(s1, Step(0), s2, end);
    Prepend(s, Step(0), s1, end);
  }

  lemma FirstRunResets(s: Server)
    requires 0 in s.pc && 1 !in s.pc && 2 !in s.pc && s.pc[0] == Reset(0, 0) && s.word == Running && s.http == Some(0)
    requires |s.runs| == 1 && s.runs[0].starter == 0 && s.runs[0].winner == None
    ensures exists end :: Leads(s, end) && StopsEarlier(end)
  {
    var s1 := At(s, 0, ResetCas(0, 1, Running, s.moves));
    var s2 := At(Apply(s1, 0, Swap(0, Idle)), 0, Returned(0, 1));
    SecondRun(s2);
    var end :| Leads(s2, end) && StopsEarlier(end);
    Prepend(s1, Step(0), s2, end);
    Prepend(s, Step(0), s1, end);
  }

  lemma SecondRun(s: Server)
    requires 0 in s.pc && 1 !in s.pc && 2 !in s.pc && s.pc[0] == Returned(0, 1) && s.word == Idle && s.http == Some(0)
    requires |s.runs| == 1 && s.runs[0].starter == 0 && s.runs[0].winner == None
    ensures exists end :: Leads(s, end) && StopsEarlier(end)
  {
    var s1 := At(s, 1, Calling);
    var s2 := At(Apply(s1, 1, Begin), 1, Making(1));
    var s3 := At(Apply(s2, 1, MakeChan(1)), 1, Body(1));
    StopWins(s3);
    var end :| Leads(s3, end) && StopsEarlier(end);
    Prepend(s2, Step(1), s3, end);
    Prepend(s1, Step(1), s2, end);
    Prepend(s, CallStart(1), s1, end);
  }

  lemma StopWins(s: Server)
    requires 1 in s.pc && 2 !in s.pc && s.pc[1] == Body(1) && s.word == Initializing && s.http == Some(0)
    requires |s.runs| == 2 && s.runs[1].starter == 1
    ensures exists end :: Leads(s, end) && StopsEarlier(end)
  {
    var s1 := At(s, 2, Entering);
    var s2 := At(s1, 2, Trying(Initializing, s.moves));
    StopActs(s2);
    var end :| Leads(s2, end) && StopsEarlier(end);
    Prepend(s1, Step(2), s2, end);
    Prepend(s, CallStop(2), s1, end);
  }

  lemma StopActs(s: Server)
    requires 1 in s.pc && 2 in s.pc && s.pc[1] == Body(1) && s.pc[2] == Trying(Initializing, s.moves)
    requires s.word == Initializing && s.http == Some(0) && |s.runs| == 2 && s.runs[1].starter == 1
    ensures exists end :: Leads(s, end) && StopsEarlier(end)
  {
    var s1 := At(Apply(s, 2, Win), 2, Won(1, Initializing));
    var s2 := At(s1, 2, Found(1, Initializing));
    var end := At(s2, 2, Stopping(1, Initializing, Some(0)));
    Stays(end);
    Prepend(s2, Step(2), end, end);
    Prepend(s1, Step(2), s2, end);
    Prepend(s, Step(2), s1, end);
  }
}
