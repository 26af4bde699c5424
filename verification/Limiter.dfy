/** The in-flight request limiter (witchcraft/ratelimit/middleware.go) as a transition system.

    Every request that matches the filter adds one to an atomic counter, reads the refreshable limit
    in a separate step, is admitted or throttled, and subtracts one on the way out. Reading and
    setting the health component are separate steps too, and the limit may change at any time. */
module Limiter {
  datatype Health = Healthy | Repairing

  type Id = nat

  datatype Pc =
    | Unmatched                                             // filtered out: never counted
    | Added(stamp: nat, ticket: int)                        // counter read back as ticket, about to read the limit
    | Admitted(stamp: nat, ticket: int, seen: int)          // ticket within the limit seen: inside next
    | Over(stamp: nat, ticket: int, seen: int)              // throttled, about to read the health status
    | Marking(stamp: nat, ticket: int, seen: int)           // throttled, about to set REPAIRING
    | Throttled(stamp: nat, ticket: int, seen: int)         // 429 written
    | Subtracted(left: int)                                 // counter read back as left, about to read the limit
    | Checking(left: int)                                   // below the limit, about to read the health status
    | Healing(left: int)                                    // about to set HEALTHY
    | Done

  datatype State = State(
    counter: int,
    limit: int,
    monitored: bool,      // a health component is configured
    health: Health,
    stamps: nat,          // number of increments so far
    pc: map<Id, Pc>)

  datatype Action = Arrive(id: Id, matched: bool) | Step(id: Id) | SetLimit(value: int)

  /** A negative limit counts as zero. */
  function Clamp(limit: int): int {
    if limit < 0 then 0 else limit
  }

  function Init(limit: int, monitored: bool): State {
    State(0, limit, monitored, Healthy, 0, map[])
  }

  function At(s: State, r: Id, p: Pc): State {
    s.(pc := s.pc[r := p])
  }

  /** Between the increment and the deferred decrement. */
  predicate Counted(p: Pc) {
    p.Added? || p.Admitted? || p.Over? || p.Marking? || p.Throttled?
  }

  function Next(s: State, r: Id): State
    requires r in s.pc
  {
    match s.pc[r]
    case Added(k, n) =>
      var lim := Clamp(s.limit);
      At(s, r, if n <= lim then Admitted(k, n, lim) else if s.monitored then Over(k, n, lim) else Throttled(k, n, lim))
    case Over(k, n, lim) => At(s, r, if s.health != Repairing then Marking(k, n, lim) else Throttled(k, n, lim))
    case Marking(k, n, lim) => At(s.(health := Repairing), r, Throttled(k, n, lim))
    case Admitted(_, _, _) => At(s.(counter := s.counter - 1), r, Subtracted(s.counter - 1))
    case Throttled(_, _, _) => At(s.(counter := s.counter - 1), r, Subtracted(s.counter - 1))
    case Subtracted(n) => At(s, r, if n < Clamp(s.limit) && s.monitored then Checking(n) else Done)
    case Checking(n) => At(s, r, if s.health != Healthy then Healing(n) else Done)
    case Healing(_) => At(s.(health := Healthy), r, Done)
    case Unmatched => At(s, r, Done)
    case Done => s
  }

  /** An action that is not possible leaves the state alone. */
  function Do(s: State, a: Action): State {
    match a
    case Arrive(r, matched) =>
      if r in s.pc then s
      else if !matched then At(s, r, Unmatched)
      else At(s.(counter := s.counter + 1, stamps := s.stamps + 1), r, Added(s.stamps, s.counter + 1))
    case Step(r) => if r in s.pc then Next(s, r) else s
    case SetLimit(n) => s.(limit := n)
  }

  function Exec(s: State, actions: seq<Action>): State
    decreases |actions|
  {
    if actions == [] then s else Exec(Do(s, actions[0]), actions[1..])
  }

  // ---------------------------------------------------------------- the ticket-order invariant

  function InFlight(s: State): set<Id> {
    set r | r in s.pc && Counted(s.pc[r])
  }

  function AdmittedSet(s: State): set<Id> {
    set r | r in s.pc && s.pc[r].Admitted?
  }

  /** The requests in flight that were counted no later than stamp k. */
  function Upto(s: State, k: nat): set<Id> {
    set r | r in s.pc && Counted(s.pc[r]) && s.pc[r].stamp <= k
  }

  ghost predicate TicketOk(s: State, r: Id)
    requires r in s.pc
  {
    Counted(s.pc[r]) ==>
      && s.pc[r].stamp < s.stamps
      && |Upto(s, s.pc[r].stamp)| <= s.pc[r].ticket
      && (s.pc[r].Admitted? ==> s.pc[r].ticket <= s.pc[r].seen)
      && (!s.pc[r].Admitted? && !s.pc[r].Added? ==> s.pc[r].ticket > s.pc[r].seen)
  }

  ghost predicate Inv(s: State) {
    && s.counter == |InFlight(s)|
    && (forall r :: r in s.pc ==> TicketOk(s, r))
  }

  lemma SubsetSize<T>(a: set<T>, b: set<T>)
    requires a <= b
    ensures |a| <= |b|
    decreases |a|
  {
    if a != {} {
      var x :| x in a;
      SubsetSize(a - {x}, b - {x});
    }
  }

  /** A request joins with a fresh stamp: its ticket counts everyone in flight, and nobody else's
      elders change. */
  lemma ArriveKeepsInv(s: State, r: Id)
    requires Inv(s) && r !in s.pc
    ensures Inv(Do(s, Arrive(r, true)))
  {
    var s' := Do(s, Arrive(r, true));
    assert InFlight(s') == InFlight(s) + {r};
    forall q | q in s'.pc
      ensures TicketOk(s', q)
    {
      if q == r {
        SubsetSize(Upto(s', s.stamps), InFlight(s'));
      } else if Counted(s.pc[q]) {
        assert TicketOk(s, q);
        assert Upto(s', s.pc[q].stamp) == Upto(s, s.pc[q].stamp);
      }
    }
  }

  /** The program counter of r after a step keeps its stamp and ticket while it is counted. */
  predicate StepOk(s: State, s': State, p: Pc, p': Pc) {
    && s'.stamps == s.stamps
    && s'.counter == (if Counted(p) && !Counted(p') then s.counter - 1 else s.counter)
    && (Counted(p') ==> Counted(p) && p'.stamp == p.stamp && p'.ticket == p.ticket && !p'.Added?)
    && (p'.Admitted? ==> p'.ticket <= p'.seen)
    && (Counted(p') && !p'.Admitted? ==> p'.ticket > p'.seen)
  }

  lemma NextIsStep(s: State, r: Id)
    requires r in s.pc && TicketOk(s, r)
    ensures var s' := Next(s, r);
            r in s'.pc && s'.pc == s.pc[r := s'.pc[r]] && StepOk(s, s', s.pc[r], s'.pc[r])
  {
  }

  /** A step that stays in flight keeps its stamp and ticket; one that leaves only thins the elders
      of the others. */
  lemma StepKeepsInv(s: State, s': State, r: Id)
    requires Inv(s) && r in s.pc && r in s'.pc && s'.pc == s.pc[r := s'.pc[r]] && StepOk(s, s', s.pc[r], s'.pc[r])
    ensures Inv(s')
  {
    assert InFlight(s') == if Counted(s.pc[r]) && !Counted(s'.pc[r]) then InFlight(s) - {r} else InFlight(s);
    forall q | q in s'.pc
      ensures TicketOk(s', q)
    {
      assert TicketOk(s, q) && TicketOk(s, r);
      if Counted(s'.pc[q]) {
        SubsetSize(Upto(s', s'.pc[q].stamp), Upto(s, s'.pc[q].stamp));
      }
    }
  }

  lemma DoKeepsInv(s: State, a: Action)
    requires Inv(s)
    ensures Inv(Do(s, a))
  {
    match a
    case Arrive(r, matched) =>
      if r !in s.pc && matched {
        ArriveKeepsInv(s, r);
      } else if r !in s.pc {
        var s' := Do(s, a);
        assert InFlight(s') == InFlight(s);
        forall q | q in s'.pc
          ensures TicketOk(s', q)
        {
          if q != r {
            assert TicketOk(s, q);
            assert Counted(s.pc[q]) ==> Upto(s', s.pc[q].stamp) == Upto(s, s.pc[q].stamp);
          }
        }
      }
    case Step(r) =>
      if r in s.pc {
        assert TicketOk(s, r);
        NextIsStep(s, r);
        StepKeepsInv(s, Next(s, r), r);
      }
    case SetLimit(n) =>
      var s' := Do(s, a);
      assert InFlight(s') == InFlight(s);
      forall q | q in s'.pc
        ensures TicketOk(s', q)
      {
        assert TicketOk(s, q);
        assert Counted(s.pc[q]) ==> Upto(s', s.pc[q].stamp) == Upto(s, s.pc[q].stamp);
      }
  }

  lemma {:induction false} ExecKeepsInv(s: State, actions: seq<Action>)
    requires Inv(s)
    ensures Inv(Exec(s, actions))
    decreases |actions|
  {
    if actions != [] {
      DoKeepsInv(s, actions[0]);
      ExecKeepsInv(Do(s, actions[0]), actions[1..]);
    }
  }

  /** In every interleaving, with the limit changing freely: the counter is the number of matched
      requests between their increment and their decrement, and the admitted requests in flight
      never outnumber the limit that the youngest of them read. */
  lemma AdmissionBound(limit: int, monitored: bool, actions: seq<Action>, youngest: Id)
    requires var s := Exec(Init(limit, monitored), actions);
             && youngest in AdmittedSet(s)
             && forall r :: r in AdmittedSet(s) ==> s.pc[r].stamp <= s.pc[youngest].stamp
    ensures var s := Exec(Init(limit, monitored), actions);
            |AdmittedSet(s)| <= s.pc[youngest].ticket <= s.pc[youngest].seen
  {
    ExecKeepsInv(Init(limit, monitored), actions);
    var s := Exec(Init(limit, monitored), actions);
    assert TicketOk(s, youngest);
    SubsetSize(AdmittedSet(s), Upto(s, s.pc[youngest].stamp));
  }

  lemma CounterIsInFlight(limit: int, monitored: bool, actions: seq<Action>)
    ensures var s := Exec(Init(limit, monitored), actions); s.counter == |InFlight(s)|
  {
    ExecKeepsInv(Init(limit, monitored), actions);
  }

  predicate FixedLimit(actions: seq<Action>) {
    forall i :: 0 <= i < |actions| ==> !actions[i].SetLimit?
  }

  /** Under a limit that never changes, no more than that many requests are ever admitted at once. */
  lemma ConstantLimitBound(limit: int, monitored: bool, actions: seq<Action>)
    requires FixedLimit(actions)
    ensures |AdmittedSet(Exec(Init(limit, monitored), actions))| <= if limit < 0 then 0 else limit
  {
    var s := Exec(Init(limit, monitored), actions);
    ExecSeen(Init(limit, monitored), actions);
    if AdmittedSet(s) != {} {
      var y := Youngest(s, AdmittedSet(s));
      AdmissionBound(limit, monitored, actions, y);
    }
  }

  lemma {:induction false} ExecSeen(s: State, actions: seq<Action>)
    requires FixedLimit(actions) && forall r :: r in AdmittedSet(s) ==> s.pc[r].seen == Clamp(s.limit)
    ensures var s' := Exec(s, actions); s'.limit == s.limit && forall r :: r in AdmittedSet(s') ==>
            s'.pc[r].seen == Clamp(s.limit)
    decreases |actions|
  {
    if actions != [] {
      ExecSeen(Do(s, actions[0]), actions[1..]);
    }
  }

  lemma Youngest(s: State, among: set<Id>) returns (y: Id)
    requires among != {} && among <= AdmittedSet(s)
    ensures y in among && forall r :: r in among ==> s.pc[r].stamp <= s.pc[y].stamp
    decreases |among|
  {
    y :| y in among;
    if among != {y} {
      var rest := among - {y};
      assert among == rest + {y};
      assert rest != {};
      var z := Youngest(s, rest);
      if s.pc[z].stamp > s.pc[y].stamp {
        y := z;
      }
    }
  }

  // ---------------------------------------------------------------- one request

  lemma {:induction false} OthersLeave(s: State, r: Id, actions: seq<Action>)
    requires r in s.pc && Step(r) !in actions
    ensures r in Exec(s, actions).pc && Exec(s, actions).pc[r] == s.pc[r]
    decreases |actions|
  {
    if actions != [] {
      assert Step(r) !in actions[1..] && actions[0] != Step(r);
      OthersLeave(Do(s, actions[0]), r, actions[1..]);
    }
  }

  /** With or without a health component and whatever the others do meanwhile: a matched request is counted and then
      admitted exactly when the counter it read back is within the limit it reads later, a negative one taken as zero;
      an unmatched one is never counted and goes through. */
  lemma JudgedAtItsReading(s: State, r: Id, matched: bool, others: seq<Action>)
    requires r !in s.pc && Step(r) !in others
    ensures var arrived := Do(s, Arrive(r, matched));
            var met := Exec(arrived, others);
            var end := Do(met, Step(r));
            && r in end.pc && end.counter == met.counter
            && arrived.counter == s.counter + (if matched then 1 else 0) && arrived.health == s.health
            && (matched ==>
                  if s.counter + 1 <= (if met.limit < 0 then 0 else met.limit) then end.pc[r].Admitted?
                  else if s.monitored then end.pc[r].Over? else end.pc[r].Throttled?)
            && (!matched ==> end.pc[r] == Done && end.health == met.health)
  {
    var arrived := Do(s, Arrive(r, matched));
    OthersLeave(arrived, r, others);
    MonitoredStays(arrived, others);
  }

  lemma {:induction false} MonitoredStays(s: State, actions: seq<Action>)
    ensures Exec(s, actions).monitored == s.monitored
    decreases |actions|
  {
    if actions != [] {
      MonitoredStays(Do(s, actions[0]), actions[1..]);
    }
  }

  // ---------------------------------------------------------------- health

  /** A call that has seen the counter empty and has not yet looked at, or repaired, the health. */
  predicate WillHeal(p: Pc) {
    (p.Subtracted? && p.left == 0) || p.Checking? || p.Healing?
  }

  ghost predicate Healable(s: State) {
    s.health == Repairing ==> InFlight(s) != {} || exists r :: r in s.pc && WillHeal(s.pc[r])
  }

  predicate PositiveLimits(actions: seq<Action>) {
    forall i :: 0 <= i < |actions| ==> actions[i].SetLimit? ==> actions[i].value >= 1
  }

  lemma DoKeepsHealable(s: State, a: Action)
    requires Inv(s) && Healable(s) && s.monitored && s.limit >= 1
    ensures Healable(Do(s, a))
  {
    var s' := Do(s, a);
    match a
    case Arrive(r, matched) =>
      if r !in s.pc {
        assert forall q :: q in s.pc ==> q in s'.pc && s'.pc[q] == s.pc[q];
        assert InFlight(s) <= InFlight(s');
      }
    case SetLimit(_) =>
      assert InFlight(s') == InFlight(s);
    case Step(r) =>
      if r in s.pc {
        assert TicketOk(s, r);
        NextIsStep(s, r);
        StepKeepsInv(s, s', r);
        NextHeals(s, r);
        StepKeepsHealable(s, s', r);
      }
  }

  /** Only a counted request sets REPAIRING, and the one that would heal goes on to heal. */
  lemma NextHeals(s: State, r: Id)
    requires r in s.pc && s.monitored && s.limit >= 1
    ensures var s' := Next(s, r);
            && r in s'.pc
            && (s'.health == Repairing && s.health != Repairing ==> Counted(s'.pc[r]))
            && (s'.health == Repairing && WillHeal(s.pc[r]) ==> WillHeal(s'.pc[r]))
            && (Counted(s.pc[r]) && !Counted(s'.pc[r]) ==> s'.pc[r] == Subtracted(s'.counter))
  {
  }

  lemma StepKeepsHealable(s: State, s': State, r: Id)
    requires Inv(s) && Inv(s') && Healable(s) && r in s.pc && r in s'.pc && s'.pc == s.pc[r := s'.pc[r]]
    requires s'.health == Repairing && s.health != Repairing ==> Counted(s'.pc[r])
    requires s'.health == Repairing && WillHeal(s.pc[r]) ==> WillHeal(s'.pc[r])
    requires Counted(s.pc[r]) && !Counted(s'.pc[r]) ==> s'.pc[r] == Subtracted(s'.counter)
    ensures Healable(s')
  {
    if s'.health == Repairing && InFlight(s') == {} {
      assert r !in InFlight(s');
      if Counted(s.pc[r]) {
        assert WillHeal(s'.pc[r]);
      } else {
        assert forall q :: q in InFlight(s) ==> q in InFlight(s');
        var q :| q in s.pc && WillHeal(s.pc[q]);
        assert q in s'.pc && WillHeal(s'.pc[q]);
      }
    }
  }

  lemma {:induction false} ExecKeepsHealable(s: State, actions: seq<Action>)
    requires Inv(s) && Healable(s) && s.monitored && s.limit >= 1 && PositiveLimits(actions)
    ensures Healable(Exec(s, actions))
    decreases |actions|
  {
    if actions != [] {
      DoKeepsInv(s, actions[0]);
      DoKeepsHealable(s, actions[0]);
      assert Do(s, actions[0]).limit >= 1;
      ExecKeepsHealable(Do(s, actions[0]), actions[1..]);
    }
  }

  /** Every request has run to completion. */
  predicate Drained(s: State) {
    forall r :: r in s.pc ==> s.pc[r] == Done
  }

  /** In every interleaving, however the limit moves: if it is always at least one, the health
      component is HEALTHY whenever all requests have completed. The bound is exact: with an initial
      limit below one there is a schedule that drains and leaves REPAIRING behind. */
  lemma DrainingRestoresHealth(limit: int)
    ensures limit >= 1 <==> forall actions :: PositiveLimits(actions) && Drained(Exec(Init(limit, true), actions)) ==>
                                                Exec(Init(limit, true), actions).health == Healthy
  {
    if limit >= 1 {
      forall actions | PositiveLimits(actions) && Drained(Exec(Init(limit, true), actions))
        ensures Exec(Init(limit, true), actions).health == Healthy
      {
        ExecKeepsHealable(Init(limit, true), actions);
      }
    } else {
      StuckRepairing(limit);
    }
  }

  /** One throttled request under a zero limit: its own decrement finds 0 < 0 false. */
  lemma StuckRepairing(limit: int)
    requires limit < 1
    ensures exists actions :: PositiveLimits(actions) && Drained(Exec(Init(limit, true), actions)) &&
                              Exec(Init(limit, true), actions).health == Repairing
  {
    var s0 := Init(limit, true);
    var s1 := At(s0.(counter := 1, stamps := 1), 0, Added(0, 1));
    var s2 := At(s1, 0, Over(0, 1, 0));
    var s3 := At(s2, 0, Marking(0, 1, 0));
    var s4 := At(s3.(health := Repairing), 0, Throttled(0, 1, 0));
    var s5 := At(s4.(counter := 0), 0, Subtracted(0));
    var s6 := At(s5, 0, Done);
    var rest: seq<Action> := [];
    assert Exec(s6, rest) == s6;
    rest := Before(s5, Step(0), s6, rest, s6);
    rest := Before(s4, Step(0), s5, rest, s6);
    rest := Before(s3, Step(0), s4, rest, s6);
    rest := Before(s2, Step(0), s3, rest, s6);
    rest := Before(s1, Step(0), s2, rest, s6);
    rest := Before(s0, Arrive(0, true), s1, rest, s6);
    assert Drained(s6);
  }

  /** Puts one action in front of a schedule that sets no limit. */
  lemma Before(s: State, a: Action, next: State, rest: seq<Action>, end: State) returns (actions: seq<Action>)
    requires Do(s, a) == next && Exec(next, rest) == end && FixedLimit(rest) && !a.SetLimit?
    ensures Exec(s, actions) == end && FixedLimit(actions)
  {
    actions := [a] + rest;
    assert actions[1..] == rest;
  }
}
