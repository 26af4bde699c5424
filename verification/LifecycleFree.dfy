/** What the start/stop protocol keeps in every interleaving, with no assumption on its callers. */
module LifecycleFree {
  import opened ServerState
  import opened Lifecycle

  /** A stop call that has won its swap and has not yet stored Idle. */
  predicate Holding(p: Pc) {
    p.Won? || p.Found? || p.Stopping? || p.Storing?
  }

  predicate Held(s: Server, t: Tid) {
    t in s.pc && Holding(s.pc[t])
  }

  /** The word a call is about to swap out of, and the number of word changes when it was loaded. */
  predicate Retrying(p: Pc) {
    p.ResetCas? || p.Trying?
  }

  ghost predicate OneOwner(s: Server) {
    && (s.word == ShuttingDown <==> exists t :: Held(s, t))
    && (forall t, u :: Held(s, t) && Held(s, u) ==> t == u)
  }

  /** Every loaded word is stoppable, and it is either still current or out of date by at least one
      change; a call has failed no more often than the word had changed at its latest load. */
  ghost predicate Counted(s: Server) {
    && (forall t :: t in s.pc && Retrying(s.pc[t]) ==>
          && Stoppable(s.pc[t].cur)
          && FailsOf(s, t) <= s.pc[t].at <= s.moves
          && (s.word == s.pc[t].cur || s.pc[t].at < s.moves))
    && (forall t :: FailsOf(s, t) <= s.moves)
  }

  ghost predicate Inv(s: Server) {
    && (s.word != Idle ==> s.runs != [])
    && OneOwner(s)
    && Counted(s)
  }

  lemma InitInv()
    ensures Inv(Init())
  {
  }

  /** A step touches the program counter and the failure count of its own call only. */
  lemma NextFrame(s: Server, t: Tid)
    requires t in s.pc && Next(s, t).Some?
    ensures var s' := Next(s, t).value;
            && t in s'.pc && s'.pc == s.pc[t := s'.pc[t]]
            && (s'.fails == s.fails || s'.fails == s.fails[t := FailsOf(s, t) + 1])
            && (s'.moves == s.moves ==> s'.word == s.word)
            && s.moves <= s'.moves <= s.moves + 1
            && (s'.fails != s.fails ==> PlanOf(s, s.pc[t]).value.op == Miss)
  {
  }

  /** The word after an operation. */
  function WordAfter(s: Server, op: Op): Word {
    match op
    case Begin => Initializing
    case Swap(_, w) => w
    case Win => ShuttingDown
    case StoreIdle => Idle
    case _ => s.word
  }

  /** How a step that comes from a stoppable loaded word moves ownership of ShuttingDown. */
  lemma PlanOwnership(s: Server, p: Pc)
    requires PlanOf(s, p).Some?
    requires Retrying(p) ==> Stoppable(p.cur)
    requires p.Storing? ==> s.word == ShuttingDown
    ensures var plan := PlanOf(s, p).value;
            var w := WordAfter(s, plan.op);
            && (Holding(p) && Holding(plan.pc) ==> w == s.word)
            && (Holding(p) && !Holding(plan.pc) ==> p.Storing? && w == Idle)
            && (!Holding(p) && Holding(plan.pc) ==> s.word != ShuttingDown && w == ShuttingDown)
            && (!Holding(p) && !Holding(plan.pc) ==> (s.word == ShuttingDown <==> w == ShuttingDown))
            && (s.word == Idle ==> w == Idle || plan.op == Begin)
  {
  }

  lemma NextOwnership(s: Server, t: Tid)
    requires t in s.pc && Next(s, t).Some?
    ensures var s' := Next(s, t).value;
            var plan := PlanOf(s, s.pc[t]).value;
            && s'.word == WordAfter(s, plan.op) && s'.pc[t] == plan.pc
            && (s'.runs == [] <==> s.runs == [] && plan.op != Begin)
  {
    ApplyOwnership(s, t, PlanOf(s, s.pc[t]).value.op);
  }

  lemma ApplyOwnership(s: Server, t: Tid, op: Op)
    ensures var s' := Apply(s, t, op);
            s'.word == WordAfter(s, op) && (s'.runs == [] <==> s.runs == [] && op != Begin)
  {
  }

  lemma NextKeepsOneOwner(s: Server, t: Tid)
    requires Inv(s) && t in s.pc && Next(s, t).Some?
    ensures OneOwner(Next(s, t).value)
    ensures Next(s, t).value.word != Idle ==> Next(s, t).value.runs != []
  {
    var s' := Next(s, t).value;
    assert s.pc[t].Storing? ==> Held(s, t);
    NextFrame(s, t);
    PlanOwnership(s, s.pc[t]);
    NextOwnership(s, t);
    OwnershipMoves(s, s', t);
  }

  lemma OwnershipMoves(s: Server, s': Server, t: Tid)
    requires OneOwner(s) && t in s.pc && t in s'.pc && s'.pc == s.pc[t := s'.pc[t]]
    requires Holding(s.pc[t]) && Holding(s'.pc[t]) ==> s'.word == s.word
    requires Holding(s.pc[t]) && !Holding(s'.pc[t]) ==> s'.word == Idle
    requires !Holding(s.pc[t]) && Holding(s'.pc[t]) ==> s.word != ShuttingDown && s'.word == ShuttingDown
    requires !Holding(s.pc[t]) && !Holding(s'.pc[t]) ==> (s.word == ShuttingDown <==> s'.word == ShuttingDown)
    ensures OneOwner(s')
  {
    assert forall u :: u != t ==> (Held(s, u) <==> Held(s', u));
    assert Held(s, t) <==> Holding(s.pc[t]);
    assert Held(s', t) <==> Holding(s'.pc[t]);
  }

  /** A swap fails only when the loaded word is out of date, and a word is stoppable when loaded. */
  lemma PlanRetry(s: Server, p: Pc)
    requires PlanOf(s, p).Some?
    ensures var plan := PlanOf(s, p).value;
            && (plan.op == Miss ==> Retrying(p) && s.word != p.cur && !Retrying(plan.pc))
            && (Retrying(plan.pc) ==>
                plan.op == Read && Stoppable(s.word) && plan.pc.cur == s.word && plan.pc.at == s.moves)
  {
  }

  lemma NextKeepsCounted(s: Server, t: Tid)
    requires Inv(s) && t in s.pc && Next(s, t).Some?
    ensures Counted(Next(s, t).value)
  {
    NextFrame(s, t);
    PlanRetry(s, s.pc[t]);
    var s' := Next(s, t).value;
    assert forall u :: u != t ==> FailsOf(s', u) == FailsOf(s, u);
    assert FailsOf(s', t) <= s'.moves;
  }

  lemma DoKeepsInv(s: Server, a: Action)
    requires Inv(s) && Do(s, a).Some?
    ensures Inv(Do(s, a).value)
  {
    match a
    case Step(t) =>
      NextKeepsOneOwner(s, t);
      NextKeepsCounted(s, t);
    case _ =>
      var s' := Do(s, a).value;
      assert forall t :: Held(s, t) <==> Held(s', t);
      assert forall t :: FailsOf(s', t) == FailsOf(s, t);
  }

  lemma {:induction false} ExecKeepsInv(s: Server, actions: seq<Action>)
    requires Inv(s) && Exec(s, actions).Some?
    ensures Inv(Exec(s, actions).value)
    decreases |actions|
  {
    if actions != [] {
      DoKeepsInv(s, actions[0]);
      ExecKeepsInv(Do(s, actions[0]).value, actions[1..]);
    }
  }

  /** In every interleaving of any number of Starts and stops: the word is ShuttingDown exactly while
      one stop call is between its winning swap and its store, that call is unique, and a call about
      to store Idle finds the word at ShuttingDown, so the store needs no swap. */
  lemma ShuttingDownHasOneOwner(actions: seq<Action>)
    requires Exec(Init(), actions).Some?
    ensures var s := Exec(Init(), actions).value;
            && (s.word == ShuttingDown <==> exists t :: Held(s, t))
            && (forall t, u :: Held(s, t) && Held(s, u) ==> t == u)
            && (forall t :: t in s.pc && s.pc[t].Storing? ==> s.word == ShuttingDown)
  {
    InitInv();
    ExecKeepsInv(Init(), actions);
    var s := Exec(Init(), actions).value;
    assert forall t :: t in s.pc && s.pc[t].Storing? ==> Held(s, t);
  }

  /** In every interleaving, the only step that leaves ShuttingDown is the owner's store, which goes
      to Idle. */
  lemma OnlyTheStoreLeavesShuttingDown(actions: seq<Action>, a: Action)
    requires Exec(Init(), actions).Some?
    requires var s := Exec(Init(), actions).value; s.word == ShuttingDown && Do(s, a).Some?
    ensures var s := Exec(Init(), actions).value;
            var s' := Do(s, a).value;
            s'.word != ShuttingDown ==> a.Step? && s.pc[a.t].Storing? && Held(s, a.t) && s'.word == Idle
  {
    InitInv();
    ExecKeepsInv(Init(), actions);
    var s := Exec(Init(), actions).value;
    if a.Step? {
      assert s.pc[a.t].Storing? ==> Held(s, a.t);
      PlanOwnership(s, s.pc[a.t]);
      NextOwnership(s, a.t);
    }
  }

  /** The counters mean what they are called: the failed swaps of a call in its retry loop, the changes of the word,
      and the loads of a Start in its deferred loop. */
  lemma CountersAreExact(actions: seq<Action>, t: Tid)
    requires Exec(Init(), actions).Some?
    requires var s := Exec(Init(), actions).value; t in s.pc && Next(s, t).Some?
    ensures var s := Exec(Init(), actions).value;
            var s', p := Next(s, t).value, s.pc[t];
            && FailsOf(s', t) == FailsOf(s, t) + (if (p.Trying? || p.ResetCas?) && s.word != p.cur then 1 else 0)
            && s'.moves == s.moves + (if s'.word != s.word then 1 else 0)
            && (Looping(p) ==> Looping(s'.pc[t]) && s'.pc[t].loads == p.loads + if p.Reset? then 1 else 0)
  {
    InitInv();
    ExecKeepsInv(Init(), actions);
    var s := Exec(Init(), actions).value;
    assert s.pc[t].Storing? ==> Held(s, t);
    PlanCounts(s, s.pc[t]);
    OpCounts(s, t, PlanOf(s, s.pc[t]).value.op);
    NextOwnership(s, t);
  }

  lemma PlanCounts(s: Server, p: Pc)
    requires PlanOf(s, p).Some? && (p.Storing? ==> s.word == ShuttingDown)
    requires Retrying(p) ==> p.cur != Idle && p.cur != ShuttingDown
    ensures var plan := PlanOf(s, p).value;
            var op := plan.op;
            && (op == Miss <==> Retrying(p) && s.word != p.cur)
            && (op == Begin || op.Swap? || op == Win || op == StoreIdle <==> WordAfter(s, op) != s.word)
            && (Looping(p) ==> Looping(plan.pc) && plan.pc.loads == p.loads + if p.Reset? then 1 else 0)
  {
  }

  /** A Start in its deferred loop, or returned from it. */
  predicate Looping(p: Pc) {
    p.Reset? || p.ResetCas? || p.WaitRead? || p.Waiting? || p.Returned?
  }

  lemma OpCounts(s: Server, t: Tid, op: Op)
    ensures var s' := Apply(s, t, op);
            && FailsOf(s', t) == FailsOf(s, t) + (if op == Miss then 1 else 0)
            && s'.moves == s.moves + (if op == Begin || op.Swap? || op == Win || op == StoreIdle then 1 else 0)
  {
  }

  /** Every failed swap in a retry loop is paid for by a change of the word: no call ever fails more
      often than the word has changed. */
  lemma RetriesAreBounded(actions: seq<Action>, t: Tid)
    requires Exec(Init(), actions).Some?
    ensures var s := Exec(Init(), actions).value; FailsOf(s, t) <= s.moves
  {
    InitInv();
    ExecKeepsInv(Init(), actions);
  }

  // ---------------------------------------------------------------- closes

  /** The stop calls that have closed a channel. */
  function Closers(s: Server): set<Tid> {
    set t | t in s.pc && s.pc[t].Closed?
  }

  lemma StepKeepsCloses(s: Server, t: Tid)
    requires |Closers(s)| == |s.closed| && t in s.pc && Next(s, t).Some?
    ensures |Closers(Next(s, t).value)| == |Next(s, t).value.closed|
  {
    var s' := Next(s, t).value;
    NextFrame(s, t);
    NextCloses(s, t);
    assert Closers(s') == if s'.pc[t].Closed? then Closers(s) + {t} else Closers(s);
  }

  lemma NextCloses(s: Server, t: Tid)
    requires t in s.pc && Next(s, t).Some?
    ensures var s' := Next(s, t).value;
            && !s.pc[t].Closed? && t in s'.pc
            && (if s'.pc[t].Closed? then exists c :: c !in s.closed && s'.closed == s.closed + {c}
                else s'.closed == s.closed)
  {
  }

  lemma {:induction false} ExecKeepsCloses(s: Server, actions: seq<Action>)
    requires |Closers(s)| == |s.closed| && Exec(s, actions).Some?
    ensures |Closers(Exec(s, actions).value)| == |Exec(s, actions).value.closed|
    decreases |actions|
  {
    if actions != [] {
      var a, next := actions[0], Do(s, actions[0]).value;
      if a.Step? {
        StepKeepsCloses(s, a.t);
      } else {
        assert Closers(next) == Closers(s);
      }
      ExecKeepsCloses(next, actions[1..]);
    }
  }

  /** In every interleaving, every stop call that has finished has closed a channel that nobody had closed before:
      there are as many closed channels as such calls. */
  lemma EveryCloseCounts(actions: seq<Action>)
    requires Exec(Init(), actions).Some?
    ensures var s := Exec(Init(), actions).value; |set t | t in s.pc && s.pc[t].Closed?| == |s.closed|
  {
    ExecKeepsCloses(Init(), actions);
    var s := Exec(Init(), actions).value;
    assert Closers(s) == set t | t in s.pc && s.pc[t].Closed?;
  }
}
