/** When a stop call may give up, and when it must win (witchcraft/witchcraft.go:1280-1293), with no assumption on the
    callers. Everything is stated on words, program counters and runs. */
module LifecycleStops {
  import opened Options
  import opened ServerState
  import opened Lifecycle
  import Free = LifecycleFree

  lemma {:induction false} ExecLast(s: Server, actions: seq<Action>, a: Action)
    requires Exec(s, actions + [a]).Some?
    ensures Exec(s, actions).Some? && Do(Exec(s, actions).value, a) == Exec(s, actions + [a])
    decreases |actions|
  {
    if actions == [] {
      assert actions + [a] == [a] && [a][1..] == [];
    } else {
      assert (actions + [a])[1..] == actions[1..] + [a];
      ExecLast(Do(s, actions[0]).value, actions[1..], a);
    }
  }

  /** The i-th action is a load of the word by stop call t, which finds Idle or ShuttingDown and returns. */
  ghost predicate GivesUpAt(actions: seq<Action>, i: int, t: Tid) {
    && 0 <= i < |actions| && actions[i] == Step(t)
    && Exec(Init(), actions[..i]).Some? && Exec(Init(), actions[..i + 1]).Some?
    && var s, s' := Exec(Init(), actions[..i]).value, Exec(Init(), actions[..i + 1]).value;
    && t in s.pc && s.pc[t] == Entering && (s.word == Idle || s.word == ShuttingDown)
    && t in s'.pc && s'.pc[t] == Ignored
  }

  lemma OneGivesUp(s: Server, a: Action, t: Tid)
    requires Do(s, a).Some? && t in Do(s, a).value.pc && Do(s, a).value.pc[t] == Ignored
    ensures t in s.pc && (s.pc[t] == Ignored ||
                          (a == Step(t) && s.pc[t] == Entering && (s.word == Idle || s.word == ShuttingDown)))
  {
  }

  /** In every interleaving, a stop call that returned without stopping anything had just loaded Idle or
      ShuttingDown. */
  lemma {:induction false} OnlyGivesUpOnStopped(actions: seq<Action>, t: Tid)
    requires Exec(Init(), actions).Some?
    requires var s := Exec(Init(), actions).value; t in s.pc && s.pc[t] == Ignored
    ensures exists i :: GivesUpAt(actions, i, t)
    decreases |actions|
  {
    var n := |actions| - 1;
    var before := actions[..n];
    assert actions == before + [actions[n]];
    ExecLast(Init(), before, actions[n]);
    var s := Exec(Init(), before).value;
    OneGivesUp(s, actions[n], t);
    if t in s.pc && s.pc[t] == Ignored {
      OnlyGivesUpOnStopped(before, t);
      var i :| GivesUpAt(before, i, t);
      assert before[..i] == actions[..i] && before[..i + 1] == actions[..i + 1];
      assert GivesUpAt(actions, i, t);
    } else {
      assert actions[..n + 1] == actions;
      assert GivesUpAt(actions, n, t);
    }
  }

  /** After any history, a stop call that loads Initializing or Running and then swaps undisturbed takes the word to
      ShuttingDown and is recorded as the winner of the current run. */
  lemma StopOfLiveServerWins(history: seq<Action>, t: Tid)
    requires Exec(Init(), history).Some?
    requires var s := Exec(Init(), history).value;
             t in s.pc && s.pc[t] == Entering && (s.word == Initializing || s.word == Running)
    ensures var s := Exec(Init(), history).value;
            var end := Exec(s, [Step(t), Step(t)]);
            && end.Some? && end.value.word == ShuttingDown && |s.runs| > 0 && |end.value.runs| == |s.runs|
            && end.value.pc == s.pc[t := Won(|s.runs| - 1, s.word)]
            && end.value.runs[|s.runs| - 1].winner == Some(t)
  {
    Free.InitInv();
    Free.ExecKeepsInv(Init(), history);
    var s := Exec(Init(), history).value;
    var tried := At(s, t, Trying(s.word, s.moves));
    var two := [Step(t), Step(t)];
    assert two[1..] == [Step(t)] && [Step(t)][1..] == [];
    assert Do(s, Step(t)) == Some(tried);
    assert Exec(s, two) == Exec(tried, [Step(t)]) == Do(tried, Step(t));
    assert Do(tried, Step(t)).value.pc == s.pc[t := Won(|s.runs| - 1, s.word)];
  }
}
