/** How far the limiter's health can be from the counter once nobody is in the middle of an increment or a
    decrement. The status is read and set in separate steps (witchcraft/ratelimit/middleware.go:91-115), so a
    late write can overrule a newer one, in both directions; for which limits is settled exactly. */
module LimiterLag {
  import opened Limiter

  /** Nobody is in the middle of an increment or a decrement. */
  predicate Settled(s: State) {
    forall r :: r in s.pc ==> s.pc[r].Admitted? || s.pc[r].Throttled? || s.pc[r] == Done
  }

  /** The counter is above the limit, yet the component says HEALTHY. */
  predicate Lags(s: State) {
    Settled(s) && s.counter > Clamp(s.limit) && s.health == Healthy
  }

  /** The counter is below the limit, yet the component says REPAIRING. */
  predicate Sticks(s: State) {
    Settled(s) && s.counter < Clamp(s.limit) && s.health == Repairing
  }

  // ---------------------------------------------------------------- no slot at all

  /** Without a slot nobody heals, so a request that is throttled has left REPAIRING behind. */
  ghost predicate NeverHeals(s: State) {
    && s.limit < 1
    && (forall r :: r in s.pc ==> !s.pc[r].Checking? && !s.pc[r].Healing?)
    && (forall r :: r in s.pc && s.pc[r].Subtracted? ==> s.pc[r].left >= 0)
    && (forall r :: r in s.pc && s.pc[r].Throttled? ==> s.health == Repairing || !s.monitored)
  }

  lemma DoKeepsNeverHeals(s: State, a: Action)
    requires Inv(s) && NeverHeals(s) && !a.SetLimit?
    ensures NeverHeals(Do(s, a))
  {
    if a.Step? && a.id in s.pc && Counted(s.pc[a.id]) {
      assert a.id in InFlight(s);
    }
  }

  lemma {:induction false} ExecKeepsNeverHeals(s: State, actions: seq<Action>)
    requires Inv(s) && NeverHeals(s) && FixedLimit(actions)
    ensures NeverHeals(Exec(s, actions)) && Exec(s, actions).monitored == s.monitored
    decreases |actions|
  {
    if actions != [] {
      DoKeepsInv(s, actions[0]);
      DoKeepsNeverHeals(s, actions[0]);
      ExecKeepsNeverHeals(Do(s, actions[0]), actions[1..]);
    }
  }

  // ---------------------------------------------------------------- schedules

  /** Some schedule that sets no limit leads from one state to the other. */
  ghost predicate Reaches(s: State, s': State) {
    exists actions :: FixedLimit(actions) && Exec(s, actions) == s'
  }

  lemma {:induction false} ExecConcat(s: State, a: seq<Action>, b: seq<Action>)
    ensures Exec(s, a + b) == Exec(Exec(s, a), b)
    decreases |a|
  {
    if a == [] {
      assert a + b == b;
    } else {
      assert (a + b)[1..] == a[1..] + b;
      ExecConcat(Do(s, a[0]), a[1..], b);
    }
  }

  lemma Then(s: State, s': State, s'': State)
    requires Reaches(s, s') && Reaches(s', s'')
    ensures Reaches(s, s'')
  {
    var a :| FixedLimit(a) && Exec(s, a) == s';
    var b :| FixedLimit(b) && Exec(s', b) == s'';
    ExecConcat(s, a, b);
    assert FixedLimit(a + b);
  }

  lemma OneStep(s: State, a: Action)
    requires !a.SetLimit?
    ensures Reaches(s, Do(s, a))
  {
    var rest := Before(s, a, Do(s, a), [], Do(s, a));
  }

  /** The state with one more request in flight. */
  function Joined(s: State, r: Id, p: Pc): State {
    At(s.(counter := s.counter + 1, stamps := s.stamps + 1), r, p)
  }

  /** A request arrives and is admitted, or finds itself over the limit. */
  lemma Joins(s: State, r: Id)
    requires r !in s.pc && s.monitored
    ensures var n, lim := s.counter + 1, Clamp(s.limit);
            Reaches(s, Joined(s, r, if n <= lim then Admitted(s.stamps, n, lim) else Over(s.stamps, n, lim)))
  {
    var added := Joined(s, r, Added(s.stamps, s.counter + 1));
    OneStep(s, Arrive(r, true));
    OneStep(added, Step(r));
    Then(s, added, Do(added, Step(r)));
  }

  /** A request arrives over the limit and finds REPAIRING set, or is about to set it. */
  lemma JoinsOver(s: State, r: Id)
    requires r !in s.pc && s.monitored && s.counter + 1 > Clamp(s.limit)
    ensures var k, n, lim := s.stamps, s.counter + 1, Clamp(s.limit);
            Reaches(s, Joined(s, r, if s.health == Repairing then Throttled(k, n, lim) else Marking(k, n, lim)))
  {
    Joins(s, r);
    var over := Joined(s, r, Over(s.stamps, s.counter + 1, Clamp(s.limit)));
    OneStep(over, Step(r));
    Then(s, over, Do(over, Step(r)));
  }

  /** The state with one request less in flight. */
  function Left(s: State, r: Id, p: Pc): State {
    At(s.(counter := s.counter - 1), r, p)
  }

  /** A request leaves; one that finds the counter below the limit goes on to look at the health. */
  lemma Leaves(s: State, r: Id)
    requires r in s.pc && s.monitored && (s.pc[r].Admitted? || s.pc[r].Throttled?)
    ensures var n := s.counter - 1;
            Reaches(s, Left(s, r, if n < Clamp(s.limit) then Checking(n) else Done))
  {
    var mid := Left(s, r, Subtracted(s.counter - 1));
    OneStep(s, Step(r));
    OneStep(mid, Step(r));
    Then(s, mid, Do(mid, Step(r)));
  }

  /** Requests 0 to k - 1 are admitted under limit n and nothing else has happened. */
  ghost predicate Filled(s: State, n: nat, k: nat) {
    && s.counter == k && s.limit == n && s.monitored && s.health == Healthy
    && (forall r: Id :: r in s.pc <==> r < k)
    && (forall r :: r in s.pc ==> s.pc[r].Admitted?)
  }

  lemma {:induction false} FillUp(n: nat, k: nat)
    requires k <= n
    ensures exists s :: Reaches(Init(n, true), s) && Filled(s, n, k)
    decreases k
  {
    if k == 0 {
      var s := Init(n, true);
      var none: seq<Action> := [];
      assert FixedLimit(none) && Exec(s, none) == s;
      assert Reaches(Init(n, true), s) && Filled(s, n, 0);
    } else {
      FillUp(n, k - 1);
      var before :| Reaches(Init(n, true), before) && Filled(before, n, k - 1);
      Joins(before, k - 1);
      var s := Joined(before, k - 1, Admitted(before.stamps, k, n));
      Then(Init(n, true), before, s);
    }
  }

  // ---------------------------------------------------------------- HEALTHY above the limit

  /** All n slots are taken. One more request is throttled and marks REPAIRING. It leaves, and so does request
      0, which finds the counter below the limit and REPAIRING set and is about to set HEALTHY. */
  lemma AboutToHeal(s: State, n: nat)
    requires n >= 1 && Filled(s, n, n)
    ensures exists end :: Reaches(s, end) && Healer(end, n)
  {
    JoinsOver(s, n);
    var marking := Joined(s, n, Marking(s.stamps, n + 1, n));
    var marked := At(marking.(health := Repairing), n, Throttled(s.stamps, n + 1, n));
    OneStep(marking, Step(n));
    Then(s, marking, marked);
    BothLeave(marked, n);
    var end :| Reaches(marked, end) && Healer(end, n);
    Then(s, marked, end);
  }

  lemma BothLeave(s: State, n: nat)
    requires n >= 1 && s.counter == n + 1 && s.limit == n && s.monitored && s.health == Repairing
    requires (forall r: Id :: r in s.pc <==> r <= n) && (forall r :: r in s.pc && r < n ==> s.pc[r].Admitted?) &&
             s.pc[n].Throttled?
    ensures exists end :: Reaches(s, end) && Healer(end, n)
  {
    Leaves(s, n);
    var one := Left(s, n, Done);
    Leaves(one, 0);
    var two := Left(one, 0, Checking(n - 1));
    Then(s, one, two);
    var end := At(two, 0, Healing(n - 1));
    OneStep(two, Step(0));
    Then(s, two, end);
  }

  ghost predicate Healer(s: State, n: nat) {
    && n >= 1 && s.counter == n - 1 && s.limit == n && s.monitored && s.health == Repairing
    && 0 in s.pc && s.pc[0].Healing?
    && (forall r :: r in s.pc ==> r <= n)
    && (forall r :: r in s.pc && r != 0 ==> s.pc[r].Admitted? || s.pc[r] == Done)
  }

  /** Two requests arrive first, and the second finds REPAIRING set. */
  lemma LateHealing(s: State, n: nat)
    requires Healer(s, n)
    ensures exists end :: Reaches(s, end) && Lags(end)
  {
    var b, c := n + 1, n + 2;
    Joins(s, b);
    var one := Joined(s, b, Admitted(s.stamps, n, n));
    JoinsOver(one, c);
    var two := Joined(one, c, Throttled(one.stamps, n + 1, n));
    Then(s, one, two);
    var end := At(two.(health := Healthy), 0, Done);
    OneStep(two, Step(0));
    Then(s, two, end);
  }

  /** Without a slot nobody is admitted, so whoever is counted at rest is throttled and REPAIRING is set. */
  lemma NobodyAdmitted(limit: int, actions: seq<Action>)
    requires limit < 1 && FixedLimit(actions)
    ensures !Lags(Exec(Init(limit, true), actions))
  {
    var s := Exec(Init(limit, true), actions);
    ExecKeepsNeverHeals(Init(limit, true), actions);
    CounterIsInFlight(limit, true, actions);
    ConstantLimitBound(limit, true, actions);
    assert forall r :: r in s.pc ==> r !in AdmittedSet(s);
    if s.counter > 0 && Settled(s) {
      assert InFlight(s) != {};
      var r :| r in InFlight(s);
      assert s.pc[r].Throttled?;
    }
  }

  ghost predicate NeverLags(limit: int) {
    forall actions :: FixedLimit(actions) ==> !Lags(Exec(Init(limit, true), actions))
  }

  /** Under a fixed limit, a counter above the limit with nobody in the middle of a step means REPAIRING in
      every interleaving exactly when the limit leaves no slot. */
  lemma LagIsExact(limit: int)
    ensures limit < 1 <==> NeverLags(limit)
  {
    if limit < 1 {
      forall actions | FixedLimit(actions)
        ensures !Lags(Exec(Init(limit, true), actions))
      {
        NobodyAdmitted(limit, actions);
      }
    } else {
      FillUp(limit, limit);
      var full :| Reaches(Init(limit, true), full) && Filled(full, limit, limit);
      AboutToHeal(full, limit);
      var healer :| Reaches(full, healer) && Healer(healer, limit);
      LateHealing(healer, limit);
      var end :| Reaches(healer, end) && Lags(end);
      Then(Init(limit, true), full, healer);
      Then(Init(limit, true), healer, end);
    }
  }

  // ---------------------------------------------------------------- REPAIRING below the limit

  /** All n slots are taken, and one more request is about to mark REPAIRING. Requests 0 and 1 leave first. */
  lemma LateMarking(s: State, n: nat)
    requires n >= 2 && Filled(s, n, n)
    ensures exists end :: Reaches(s, end) && Sticks(end)
  {
    JoinsOver(s, n);
    var marking := Joined(s, n, Marking(s.stamps, n + 1, n));
    TwoLeave(marking, n);
    var left := marking.(counter := n - 1, pc := marking.pc[0 := Done][1 := Done]);
    Then(s, marking, left);
    var end := At(left.(health := Repairing), n, Throttled(s.stamps, n + 1, n));
    OneStep(left, Step(n));
    Then(s, left, end);
  }

  lemma TwoLeave(s: State, n: nat)
    requires n >= 2 && s.counter == n + 1 && s.limit == n && s.monitored && s.health == Healthy
    requires 0 in s.pc && s.pc[0].Admitted? && 1 in s.pc && s.pc[1].Admitted?
    ensures Reaches(s, s.(counter := n - 1, pc := s.pc[0 := Done][1 := Done]))
  {
    Leaves(s, 0);
    var one := Left(s, 0, Done);
    Leaves(one, 1);
    var two := Left(one, 1, Checking(n - 1));
    Then(s, one, two);
    var end := At(two, 1, Done);
    OneStep(two, Step(1));
    Then(s, two, end);
    assert end.pc == s.pc[0 := Done][1 := Done];
  }

  ghost predicate NeverSticks(limit: int) {
    forall actions :: FixedLimit(actions) ==> !Sticks(Exec(Init(limit, true), actions))
  }

  /** Under a fixed limit, a counter below the limit with nobody in the middle of a step means HEALTHY in every
      interleaving exactly when there is at most one slot: below one slot there is nobody left. */
  lemma StickIsExact(limit: int)
    ensures limit <= 1 <==> NeverSticks(limit)
  {
    if limit <= 1 {
      forall actions | FixedLimit(actions)
        ensures !Sticks(Exec(Init(limit, true), actions))
      {
        NobodyLeft(limit, actions);
      }
    } else {
      FillUp(limit, limit);
      var full :| Reaches(Init(limit, true), full) && Filled(full, limit, limit);
      LateMarking(full, limit);
      var end :| Reaches(full, end) && Sticks(end);
      Then(Init(limit, true), full, end);
    }
  }

  lemma NobodyLeft(limit: int, actions: seq<Action>)
    requires limit <= 1 && FixedLimit(actions)
    ensures !Sticks(Exec(Init(limit, true), actions))
  {
    var s := Exec(Init(limit, true), actions);
    ExecSeen(Init(limit, true), actions);
    ExecKeepsInv(Init(limit, true), actions);
    if Sticks(s) {
      assert InFlight(s) == {};
      assert forall r :: r in s.pc ==> r !in InFlight(s);
      ExecKeepsHealable(Init(limit, true), actions);
    }
  }
}
