/** The error of a Start that loses its swap: it is computed from a second load of the word
    (witchcraft/server_state.go:55-72), so it need not name the word the swap was lost to. */
module LifecycleRefusal {
  import opened Options
  import opened ServerState
  import opened Lifecycle

  /** The refusal names the word of the second load, and is the default one exactly when that is Idle. */
  lemma RefusalNamesSecondLoad(s: Server, t: Tid)
    requires t in s.pc && s.pc[t].Denied?
    ensures Next(s, t).Some? && Next(s, t).value.pc[t] == Rejected(RefusalFor(s.word))
    ensures Next(s, t).value.pc[t] == Rejected(UnknownState) <==> s.word == Idle
  {
  }

  /** Since a swap lost when the word was w and had changed m times: t has not reported the default error, or
      the word has changed. */
  predicate LostTo(s: Server, t: Tid, w: Word, m: nat) {
    && t in s.pc && (s.pc[t].Denied? || s.pc[t].Rejected?)
    && s.moves >= m && (s.moves == m ==> s.word == w)
    && (s.pc[t] == Rejected(UnknownState) ==> s.moves > m)
  }

  lemma DoKeepsLostTo(s: Server, t: Tid, w: Word, m: nat, a: Action)
    requires LostTo(s, t, w, m) && w != Idle && Do(s, a).Some?
    ensures LostTo(Do(s, a).value, t, w, m)
  {
  }

  lemma {:induction false} ExecKeepsLostTo(s: Server, t: Tid, w: Word, m: nat, actions: seq<Action>)
    requires LostTo(s, t, w, m) && w != Idle && Exec(s, actions).Some?
    ensures LostTo(Exec(s, actions).value, t, w, m)
    decreases |actions|
  {
    if actions != [] {
      DoKeepsLostTo(s, t, w, m, actions[0]);
      ExecKeepsLostTo(Do(s, actions[0]).value, t, w, m, actions[1..]);
    }
  }

  /** In every interleaving, a Start that reports the default error has seen the word change after its lost
      swap: the run it lost to, or a later one, has ended. */
  lemma DefaultErrorNeedsChange(s: Server, t: Tid, later: seq<Action>)
    requires t in s.pc && s.pc[t].Calling? && s.word != Idle && Exec(s, [Step(t)] + later).Some?
    requires var end := Exec(s, [Step(t)] + later).value; t in end.pc && end.pc[t] == Rejected(UnknownState)
    ensures Exec(s, [Step(t)] + later).value.moves > s.moves
  {
    assert ([Step(t)] + later)[1..] == later;
    ExecKeepsLostTo(Next(s, t).value, t, s.word, s.moves, later);
  }

  predicate EndsInDefaultError(s: Server) {
    1 in s.pc && s.pc[1] == Rejected(UnknownState)
  }

  /** It does happen, to disciplined callers too: Start 1 loses to run 0, whose initialisation fails, and loads
      the word after run 0 has reset it. */
  lemma DefaultErrorCanHappen()
    ensures exists end :: Leads(Init(), end) && EndsInDefaultError(end)
  {
    var s1 := At(Init(), 0, Calling);
    var s2 := At(s1, 1, Calling);
    var s3 := At(Apply(s2, 0, Begin), 0, Making(0));
    var s4 := At(s3, 1, Denied);
    var s5 := At(Apply(s4, 0, MakeChan(0)), 0, Body(0));
    RunFails(s5);
    var end :| Leads(s5, end) && EndsInDefaultError(end);
    Prepend(s4, Step(0), s5, end);
    Prepend(s3, Step(1), s4, end);
    Prepend(s2, Step(0), s3, end);
    Prepend(s1, CallStart(1), s2, end);
    Prepend(Init(), CallStart(0), s1, end);
  }

  lemma RunFails(s: Server)
    requires s.pc.Keys == {0, 1} && s.pc[0] == Body(0) && s.pc[1] == Denied && s.word == Initializing
    ensures exists end :: Leads(s, end) && EndsInDefaultError(end)
  {
    var s1 := At(s, 0, Reset(0, 0));
    var s2 := At(s1, 0, ResetCas(0, 1, Initializing, s.moves));
    var s3 := At(Apply(s2, 0, Swap(0, Idle)), 0, Returned(0, 1));
    var end := At(s3, 1, Rejected(UnknownState));
    Stays(end);
    Prepend(s3, Step(1), end, end);
    Prepend(s2, Step(0), s3, end);
    Prepend(s1, Step(0), s2, end);
    Prepend(s, Fail(0), s1, end);
  }
}
