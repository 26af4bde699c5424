/** The two disciplines are exact: one step that breaks D1 or D2 is enough for the protocol to go
    wrong later, even if every call follows both disciplines from then on. */
module LifecycleNecessity {
  import opened Options
  import opened ServerState
  import opened Lifecycle
  import Free = LifecycleFree
  import opened LifecycleQuiet
  import opened LifecycleDisciplined

  /** Disciplined callers can lead the server from s to a fault. */
  ghost predicate CanFault(s: Server) {
    exists end :: Leads(s, end) && end.fault
  }

  lemma EndsWrong(s: Server, a: Action)
    requires Disciplined(s, a) && Do(s, a).Some? && Do(s, a).value.fault
    ensures CanFault(s)
  {
    var end := Do(s, a).value;
    Stays(end);
    Prepend(s, a, end, end);
  }

  lemma GoesWrong(s: Server, a: Action, next: Server)
    requires Disciplined(s, a) && Do(s, a) == Some(next) && CanFault(next)
    ensures CanFault(s)
  {
    var end :| Leads(next, end) && end.fault;
    Prepend(s, a, next, end);
  }

  function StopRank(p: Pc): nat {
    match p
    case Won(_, _) => 4
    case Found(_, _) => 3
    case Stopping(_, _, _) => 2
    case Storing(_, _, _) => 1
    case _ => 0
  }

  /** A winning stop whose run's channel is not the one in the field, run to its close. */
  lemma DriveStop(s: Server, t: Tid)
    requires t in s.pc && (Free.Holding(s.pc[t]) || s.pc[t].Closing?)
    requires s.chan != Some(s.pc[t].run)
    ensures CanFault(s)
    decreases StopRank(s.pc[t])
  {
    if s.pc[t].Closing? {
      EndsWrong(s, Step(t));
    } else {
      DriveStop(Next(s, t).value, t);
      GoesWrong(s, Step(t), Next(s, t).value);
    }
  }

  /** A Start of an earlier run that has not returned, while a later run is Initializing. */
  predicate Stale(s: Server, p: Pc) {
    && StartOfRun(p) && p.run != Current(s) && !p.Making? && !p.Returned?
    && s.word == Initializing
    && (p.ResetCas? ==> Stoppable(p.cur))
    && (p.WaitRead? ==> s.chan.Some? && s.chan.value in s.closed)
    && (p.Waiting? ==> p.ch.Some? && p.ch.value in s.closed)
  }

  function StartRank(p: Pc): nat {
    match p
    case WaitRead(_, _) => 4
    case Waiting(_, _, _) => 3
    case ResetCas(_, _, cur, _) => if cur == Initializing then 0 else 2
    case Reset(_, _) => 1
    case Ready(_) => 0
    case _ => 2
  }

  /** The stale Start takes the later run's word for its own and moves it. */
  lemma DriveStart(s: Server, t: Tid)
    requires t in s.pc && Stale(s, s.pc[t])
    ensures CanFault(s)
    decreases StartRank(s.pc[t])
  {
    var p := s.pc[t];
    if p.Ready? || (p.ResetCas? && p.cur == Initializing) {
      EndsWrong(s, Step(t));
    } else {
      var a := if p.Body? then Fail(t) else Step(t);
      DriveStart(Do(s, a).value, t);
      GoesWrong(s, a, Do(s, a).value);
    }
  }

  /** D2 broken: a stop wins before the channel of the run is made. */
  lemma BreakingD2(s: Server, t: Tid)
    requires SoundInv(s) && t in s.pc && s.pc[t].Trying? && !Disciplined(s, Step(t))
    ensures CanFault(Next(s, t).value)
  {
    assert HasRoles(s, Current(s));
    DriveStop(Next(s, t).value, t);
  }

  /** D1 broken: a run begins although the last one is not over. */
  lemma BreakingD1(s: Server, t: Tid)
    requires SoundInv(s) && t in s.pc && s.pc[t].Calling? && !Disciplined(s, Step(t))
    ensures CanFault(Next(s, t).value)
  {
    var c, s1 := Current(s), Next(s, t).value;
    var run := s.runs[c];
    assert HasRoles(s, c);
    assert Current(s1) == c + 1 && s1.pc[t] == Making(c + 1);
    var w := run.winner.value;
    if s.pc[w].Closing? {
      var s2 := At(s1.(chan := Some(c + 1)), t, Body(c + 1));
      DriveStop(s2, w);
      GoesWrong(s1, Step(t), s2);
    } else {
      assert Free.Retrying(s.pc[run.starter]) ==> Stoppable(s.pc[run.starter].cur);
      DriveStart(s1, run.starter);
    }
  }

  /** D1 and D2 are exactly what the protocol needs. After any disciplined history, a further step
      obeys the disciplines if and only if no disciplined continuation of it ever faults. */
  lemma DisciplineIsExact(history: seq<Action>, a: Action)
    requires DisciplinedRun(Init(), history) && Exec(Init(), history).Some?
    requires Do(Exec(Init(), history).value, a).Some?
    ensures var s := Exec(Init(), history).value;
            Disciplined(s, a) <==> !CanFault(Do(s, a).value)
  {
    Free.InitInv();
    ExecKeepsSound(Init(), history);
    var s := Exec(Init(), history).value;
    if Disciplined(s, a) {
      forall end | Leads(Do(s, a).value, end)
        ensures !end.fault
      {
        var later :| DisciplinedRun(Do(s, a).value, later) && Exec(Do(s, a).value, later) == Some(end);
        DoKeepsSound(s, a);
        ExecKeepsSound(Do(s, a).value, later);
      }
    } else if s.pc[a.t].Calling? {
      BreakingD1(s, a.t);
    } else {
      BreakingD2(s, a.t);
    }
  }

  /** A winning stop whose run's channel is open in the field closes it within five steps of its
      own, and nothing else moves meanwhile but the word, which ends Idle. */
  lemma DriveToClose(s: Server, t: Tid) returns (actions: seq<Action>)
    requires t in s.pc && (Free.Holding(s.pc[t]) || s.pc[t].Closing?)
    requires s.chan == Some(s.pc[t].run) && s.pc[t].run !in s.closed
    requires s.pc[t].Closing? ==> s.word == Idle
    ensures DisciplinedRun(s, actions) && Exec(s, actions).Some? && |actions| <= StopRank(s.pc[t]) + 1
    ensures var s' := Exec(s, actions).value;
            && s'.closed == s.closed + {s.pc[t].run} && s'.word == Idle
            && (forall u :: u in s.pc && u != t ==> u in s'.pc && s'.pc[u] == s.pc[u])
    decreases StopRank(s.pc[t])
  {
    var s' := Next(s, t).value;
    if s.pc[t].Closing? {
      actions := [Step(t)];
      assert Exec(s, actions) == Exec(s', []);
    } else {
      var rest := DriveToClose(s', t);
      actions := [Step(t)] + rest;
      assert actions[1..] == rest;
    }
  }

  /** A blocked Start is never stuck, under D1 alone: from every state in which a Start waits on an open channel there
      is a disciplined continuation of at most seven steps after which that Start has returned. */
  lemma BlockedStartCanReturn(history: seq<Action>, t: Tid) returns (later: seq<Action>)
    requires QuietRun(Init(), history) && Exec(Init(), history).Some?
    requires var s := Exec(Init(), history).value; t in s.pc && s.pc[t].Waiting? && Next(s, t).None?
    ensures var s := Exec(Init(), history).value;
            && |later| <= 7 && DisciplinedRun(s, later) && Exec(s, later).Some?
            && t in Exec(s, later).value.pc && Exec(s, later).value.pc[t].Returned?
  {
    BlockedStartHasOneCloser(history, t);
    var s := Exec(Init(), history).value;
    assert Inv(s) by {
      Free.InitInv();
      ExecKeepsInv(Init(), history);
    }
    StepsAreCurrent(s, t);
    var r := s.pc[t].run;
    assert HasRoles(s, r);
    var closing := DriveToClose(s, s.runs[r].winner.value);
    var tail := [Step(t), Step(t)];
    ReleasedStartReturns(Exec(s, closing).value, t);
    ExecConcat(s, closing, tail);
    DisciplinedConcat(s, closing, tail);
    later := closing + tail;
  }

  lemma ReleasedStartReturns(s: Server, t: Tid)
    requires t in s.pc && s.pc[t].Waiting? && s.pc[t].ch.Some? && s.pc[t].ch.value in s.closed && s.word == Idle
    ensures var tail := [Step(t), Step(t)];
            && DisciplinedRun(s, tail) && Exec(s, tail).Some?
            && t in Exec(s, tail).value.pc && Exec(s, tail).value.pc[t].Returned?
  {
    var tail := [Step(t), Step(t)];
    var s1 := Next(s, t).value;
    assert tail[1..] == [Step(t)] && Exec(s, tail) == Exec(s1, [Step(t)]);
    assert Exec(s1, [Step(t)]) == Next(s1, t);
  }

  lemma {:induction false} DisciplinedConcat(s: Server, a: seq<Action>, b: seq<Action>)
    requires Exec(s, a).Some? && DisciplinedRun(s, a) && DisciplinedRun(Exec(s, a).value, b)
    ensures DisciplinedRun(s, a + b)
    decreases |a|
  {
    if a == [] {
      assert a + b == b;
    } else {
      assert (a + b)[1..] == a[1..] + b;
      DisciplinedConcat(Do(s, a[0]).value, a[1..], b);
    }
  }
}
