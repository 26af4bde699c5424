/** Evaluations of the dependency check on values. Every count reads the clock anew: a host is judged by six
    counts for its activity and three for its health, at nine readings in order, and hosts and services are
    judged one after the other (witchcraft/internal/dependencyhealth/host_metrics.go:103-114, healthcheck.go:90-142).
    What evaluations within a stretch of time can find, and when all of them give the report of its start, is
    settled exactly. */
module DependencyEvaluation {
  import opened TimeBuckets
  import opened DependencyReport

  /** The hosts that have answered, and how many responses of each class are in the window at an instant. */
  datatype Counts = Counts(hosts: set<(string, string)>, count: (string, string, Kind, int) -> nat) {
    ghost predicate Active(s: string, h: string, t: int) {
      exists k :: count(s, h, k, t) > 0
    }

    /** The 2xx responses at one instant are no fewer than the 5xx responses and errors at another. */
    predicate Good(s: string, h: string, ok: int, bad: int) {
      count(s, h, K2xx, ok) >= count(s, h, K5xx, bad) + count(s, h, KErr, bad)
    }

    ghost predicate Working(s: string, h: string, t: int) {
      Active(s, h, t) && Good(s, h, t, t)
    }

    ghost predicate Failing(s: string, h: string, t: int) {
      Active(s, h, t) && !Good(s, h, t, t)
    }

    /** As time passes responses only leave the window, and only known hosts have any. */
    ghost predicate Valid() {
      && (forall s, h, k, t, t' :: t <= t' ==> count(s, h, k, t') <= count(s, h, k, t))
      && (forall s, h, k, t :: count(s, h, k, t) > 0 ==> (s, h) in hosts)
    }
  }

  ghost function FailingAt(c: Counts, t: int): Finding {
    (s, h) => c.Failing(s, h, t)
  }

  ghost function WorkingAt(c: Counts, t: int): Finding {
    (s, h) => c.Working(s, h, t)
  }

  /** The report called for at one instant. */
  ghost predicate ReportAt(r: Report, c: Counts, t: int) {
    (r.NoReport? <==> c.hosts == {}) && ReportSays(r, FailingAt(c, t), WorkingAt(c, t))
  }

  ghost predicate WarnsAt(c: Counts, t: int) {
    AnyFailed(FailingAt(c, t), WorkingAt(c, t))
  }

  // ---------------------------------------------------------------- readings

  /** The nine clock readings at which one host is judged: when each bucket is counted for activity, and when the
      successes, the 5xx responses and the errors are counted for health. Readings that a short-circuit skips do not
      matter. */
  datatype Readings = Readings(
    a2xx: int, a3xx: int, a4xx: int, a5xx: int, aErr: int, aOther: int,
    ok: int, bad: int, err: int)
  {
    function Activity(k: Kind): int {
      match k
      case K2xx => a2xx
      case K3xx => a3xx
      case K4xx => a4xx
      case K5xx => a5xx
      case KErr => aErr
      case KOther => aOther
    }
  }

  predicate Within(at: Readings, t0: int, t1: int) {
    t0 <= at.a2xx <= at.a3xx <= at.a4xx <= at.a5xx <= at.aErr <= at.aOther <= at.ok <= at.bad <= at.err <= t1
  }

  ghost predicate FoundActive(c: Counts, s: string, h: string, at: Readings) {
    exists k :: c.count(s, h, k, at.Activity(k)) > 0
  }

  /** Three counts for activity come first and three later. */
  lemma ActivityIsSix(c: Counts, s: string, h: string, at: Readings, first: bool, later: bool)
    requires first <==>
             || c.count(s, h, K2xx, at.a2xx) > 0
             || c.count(s, h, K3xx, at.a3xx) > 0
             || c.count(s, h, K4xx, at.a4xx) > 0
    requires first ||
             (later <==>
              || c.count(s, h, K5xx, at.a5xx) > 0
              || c.count(s, h, KErr, at.aErr) > 0
              || c.count(s, h, KOther, at.aOther) > 0)
    ensures FoundActive(c, s, h, at) <==> first || later
  {
    assert at.Activity(K2xx) == at.a2xx && at.Activity(K3xx) == at.a3xx && at.Activity(K4xx) == at.a4xx;
    assert at.Activity(K5xx) == at.a5xx && at.Activity(KErr) == at.aErr && at.Activity(KOther) == at.aOther;
  }

  /** The successes are counted first, then the 5xx responses, then the errors. */
  predicate FoundHealthy(c: Counts, s: string, h: string, at: Readings) {
    c.count(s, h, K2xx, at.ok) >= c.count(s, h, K5xx, at.bad) + c.count(s, h, KErr, at.err)
  }

  ghost predicate FoundWorking(c: Counts, s: string, h: string, at: Readings) {
    FoundActive(c, s, h, at) && FoundHealthy(c, s, h, at)
  }

  ghost predicate FoundFailing(c: Counts, s: string, h: string, at: Readings) {
    FoundActive(c, s, h, at) && !FoundHealthy(c, s, h, at)
  }

  // ---------------------------------------------------------------- one host

  /** Active at the start, with its successes then no fewer than its failures at the end. */
  ghost predicate MayWork(c: Counts, s: string, h: string, t0: int, t1: int) {
    c.Active(s, h, t0) && c.Good(s, h, t0, t1)
  }

  /** Failing at some instant. */
  ghost predicate MayFail(c: Counts, s: string, h: string, t0: int, t1: int) {
    exists t :: t0 <= t <= t1 && c.Failing(s, h, t)
  }

  lemma FoundActiveBounds(c: Counts, s: string, h: string, at: Readings, t0: int, t1: int)
    requires c.Valid() && Within(at, t0, t1)
    ensures c.Active(s, h, t1) ==> FoundActive(c, s, h, at)
    ensures FoundActive(c, s, h, at) ==> c.Active(s, h, t0)
  {
    if k :| c.count(s, h, k, t1) > 0 {
      assert c.count(s, h, k, at.Activity(k)) > 0;
    }
    if k :| c.count(s, h, k, at.Activity(k)) > 0 {
      assert c.count(s, h, k, t0) > 0;
    }
  }

  /** A host found unhealthy was failing at the instant when its successes were counted. */
  lemma UnhealthyWasFailing(c: Counts, s: string, h: string, at: Readings, t0: int, t1: int)
    requires c.Valid() && Within(at, t0, t1) && !FoundHealthy(c, s, h, at)
    ensures c.Failing(s, h, at.ok) && MayFail(c, s, h, t0, t1)
  {
    assert c.count(s, h, K5xx, at.bad) <= c.count(s, h, K5xx, at.ok);
    assert c.count(s, h, KErr, at.err) <= c.count(s, h, KErr, at.ok);
    assert !c.Good(s, h, at.ok, at.ok);
    assert c.Active(s, h, at.ok) by {
      assert c.count(s, h, K5xx, at.ok) > 0 || c.count(s, h, KErr, at.ok) > 0;
    }
    assert c.Failing(s, h, at.ok) && t0 <= at.ok <= t1;
  }

  lemma HealthyMayWork(c: Counts, s: string, h: string, at: Readings, t0: int, t1: int)
    requires c.Valid() && Within(at, t0, t1) && FoundWorking(c, s, h, at)
    ensures MayWork(c, s, h, t0, t1)
  {
    FoundActiveBounds(c, s, h, at, t0, t1);
    assert c.count(s, h, K2xx, at.ok) <= c.count(s, h, K2xx, t0);
    assert c.count(s, h, K5xx, t1) <= c.count(s, h, K5xx, at.bad);
    assert c.count(s, h, KErr, t1) <= c.count(s, h, KErr, at.err);
  }

  /** All nine readings at one instant. */
  function AllAt(t: int): Readings {
    Readings(t, t, t, t, t, t, t, t, t)
  }

  /** The failures read at the end, everything else at the start. */
  function Spread(t0: int, t1: int): Readings {
    AllAt(t0).(bad := t1, err := t1)
  }

  lemma ActiveAtOnce(c: Counts, s: string, h: string, at: Readings, t: int)
    requires forall k :: at.Activity(k) == t
    ensures FoundActive(c, s, h, at) <==> c.Active(s, h, t)
  {
    assert forall k :: c.count(s, h, k, at.Activity(k)) == c.count(s, h, k, t);
  }

  /** Some readings within a stretch of time find the host like that. */
  ghost predicate CanBe(c: Counts, s: string, h: string, t0: int, t1: int, active: bool, healthy: bool) {
    exists at :: Within(at, t0, t1) && FoundActive(c, s, h, at) == active &&
        (active ==> FoundHealthy(c, s, h, at) == healthy)
  }

  /** It can be found inactive exactly when it is inactive at the end, healthy exactly when it is active at the
      start with successes then no fewer than its failures at the end, and unhealthy exactly when it is failing at
      some instant. */
  lemma HostIsExact(c: Counts, s: string, h: string, t0: int, t1: int)
    requires c.Valid() && t0 <= t1
    ensures CanBe(c, s, h, t0, t1, false, false) <==> !c.Active(s, h, t1)
    ensures CanBe(c, s, h, t0, t1, true, true) <==> MayWork(c, s, h, t0, t1)
    ensures CanBe(c, s, h, t0, t1, true, false) <==> MayFail(c, s, h, t0, t1)
  {
    HostReaches(c, s, h, t0, t1);
    forall at | Within(at, t0, t1)
      ensures !FoundActive(c, s, h, at) ==> !c.Active(s, h, t1)
      ensures FoundWorking(c, s, h, at) ==> MayWork(c, s, h, t0, t1)
      ensures FoundFailing(c, s, h, at) ==> MayFail(c, s, h, t0, t1)
    {
      HostBounds(c, s, h, at, t0, t1);
    }
  }

  /** Whenever the three counts are made, the host comes out healthy exactly when it is good at every instant, and
      unhealthy exactly when not even its successes at the start make up for its failures at the end. */
  lemma HealthIsExact(c: Counts, s: string, h: string, t0: int, t1: int)
    requires c.Valid() && t0 <= t1
    ensures (forall at :: Within(at, t0, t1) ==> FoundHealthy(c, s, h, at)) <==>
            (forall t :: t0 <= t <= t1 ==> c.Good(s, h, t, t))
    ensures (forall at :: Within(at, t0, t1) ==> !FoundHealthy(c, s, h, at)) <==> !c.Good(s, h, t0, t1)
  {
    forall at | Within(at, t0, t1)
      ensures !FoundHealthy(c, s, h, at) ==> !c.Good(s, h, at.ok, at.ok)
      ensures FoundHealthy(c, s, h, at) ==> c.Good(s, h, t0, t1)
    {
      assert c.count(s, h, K5xx, at.bad) <= c.count(s, h, K5xx, at.ok) &&
          c.count(s, h, KErr, at.err) <= c.count(s, h, KErr, at.ok);
      assert c.count(s, h, K5xx, t1) <= c.count(s, h, K5xx, at.bad) &&
          c.count(s, h, KErr, t1) <= c.count(s, h, KErr, at.err);
      assert c.count(s, h, K2xx, at.ok) <= c.count(s, h, K2xx, t0);
    }
    forall t | t0 <= t <= t1
      ensures Within(AllAt(t), t0, t1) && (FoundHealthy(c, s, h, AllAt(t)) <==> c.Good(s, h, t, t))
    {
    }
    assert Within(Spread(t0, t1), t0, t1) && (FoundHealthy(c, s, h, Spread(t0, t1)) <==> c.Good(s, h, t0, t1));
  }

  lemma HostBounds(c: Counts, s: string, h: string, at: Readings, t0: int, t1: int)
    requires c.Valid() && Within(at, t0, t1)
    ensures !FoundActive(c, s, h, at) ==> !c.Active(s, h, t1)
    ensures FoundWorking(c, s, h, at) ==> MayWork(c, s, h, t0, t1)
    ensures FoundFailing(c, s, h, at) ==> MayFail(c, s, h, t0, t1)
  {
    FoundActiveBounds(c, s, h, at, t0, t1);
    if FoundWorking(c, s, h, at) {
      HealthyMayWork(c, s, h, at, t0, t1);
    }
    if FoundFailing(c, s, h, at) {
      UnhealthyWasFailing(c, s, h, at, t0, t1);
    }
  }

  /** Readings that find a host inactive, working or failing. */
  lemma HostReaches(c: Counts, s: string, h: string, t0: int, t1: int)
    requires c.Valid() && t0 <= t1
    ensures Within(AllAt(t1), t0, t1) && (FoundActive(c, s, h, AllAt(t1)) <==> c.Active(s, h, t1))
    ensures Within(Spread(t0, t1), t0, t1)
    ensures MayWork(c, s, h, t0, t1) ==> FoundWorking(c, s, h, Spread(t0, t1))
    ensures forall t :: t0 <= t <= t1 && c.Failing(s, h, t) ==>
                Within(AllAt(t), t0, t1) && FoundFailing(c, s, h, AllAt(t))
  {
    ActiveAtOnce(c, s, h, AllAt(t1), t1);
    ActiveAtOnce(c, s, h, Spread(t0, t1), t0);
    forall t | t0 <= t <= t1 && c.Failing(s, h, t)
      ensures FoundFailing(c, s, h, AllAt(t))
    {
      ActiveAtOnce(c, s, h, AllAt(t), t);
    }
  }

  // ---------------------------------------------------------------- whole evaluations

  /** The readings for each host of a service, and for each service. */
  type Round = map<string, Readings>

  type Evaluation = map<string, Round>

  predicate Before(x: Readings, y: Readings) {
    x.err <= y.a2xx
  }

  predicate RoundBefore(x: Round, y: Round) {
    forall g, h :: g in x && h in y ==> Before(x[g], y[h])
  }

  /** The hosts of a round are judged one after the other. */
  predicate Timed(round: Round, t0: int, t1: int) {
    && (forall h :: h in round ==> Within(round[h], t0, t1))
    && (forall g, h :: g in round && h in round && g != h ==> Before(round[g], round[h]) || Before(round[h], round[g]))
  }

  lemma TimedNext(round: Round, t0: int, t: int, h: string, at: Readings, t1: int)
    requires Timed(round, t0, t) && t0 <= t && Within(at, t, t1)
    ensures Timed(round[h := at], t0, t1)
  {
  }

  /** So are the services of an evaluation. */
  predicate TimedAll(e: Evaluation, t0: int, t1: int) {
    && (forall s :: s in e ==> Timed(e[s], t0, t1))
    && (forall s, s' :: s in e && s' in e && s != s' ==> RoundBefore(e[s], e[s']) || RoundBefore(e[s'], e[s]))
  }

  lemma TimedAllNext(e: Evaluation, t0: int, t: int, s: string, round: Round, t1: int)
    requires TimedAll(e, t0, t) && t0 <= t && Timed(round, t, t1) && t <= t1 && s !in e
    ensures TimedAll(e[s := round], t0, t1)
  {
    forall x | x in e
      ensures Timed(e[x], t0, t1) && RoundBefore(e[x], round)
    {
      assert Timed(e[x], t0, t);
    }
    assert Timed(round, t0, t1);
  }

  /** Every known host of a service is judged. */
  ghost predicate IsRound(round: Round, c: Counts, s: string, t0: int, t1: int) {
    (forall h :: h in round <==> (s, h) in c.hosts) && Timed(round, t0, t1)
  }

  ghost predicate KnownService(c: Counts, s: string) {
    exists h :: (s, h) in c.hosts
  }

  /** Every known service is judged. */
  ghost predicate IsEvaluation(e: Evaluation, c: Counts, t0: int, t1: int) {
    && (forall s :: s in e <==> KnownService(c, s))
    && (forall s, h :: s in e ==> (h in e[s] <==> (s, h) in c.hosts))
    && TimedAll(e, t0, t1)
  }

  ghost function FailingIn(c: Counts, e: Evaluation): Finding {
    (s, h) => s in e && h in e[s] && FoundFailing(c, s, h, e[s][h])
  }

  ghost function WorkingIn(c: Counts, e: Evaluation): Finding {
    (s, h) => s in e && h in e[s] && FoundWorking(c, s, h, e[s][h])
  }

  /** The report of an evaluation. */
  ghost predicate ReportOf(r: Report, c: Counts, e: Evaluation) {
    (r.NoReport? <==> c.hosts == {}) && ReportSays(r, FailingIn(c, e), WorkingIn(c, e))
  }

  ghost predicate WarnsIn(c: Counts, e: Evaluation) {
    AnyFailed(FailingIn(c, e), WorkingIn(c, e))
  }

  /** An evaluation finds the hosts failing that fail at t, and warns exactly when a WARNING is due at t. */
  ghost predicate AsAt(c: Counts, e: Evaluation, t: int) {
    (forall s, h :: FailingIn(c, e)(s, h) <==> c.Failing(s, h, t)) && (WarnsIn(c, e) <==> WarnsAt(c, t))
  }

  /** That is, its report is the one the log calls for at t. */
  lemma ReportIsAsAt(r: Report, c: Counts, e: Evaluation, t: int)
    requires ReportOf(r, c, e) && c.hosts != {}
    ensures ReportAt(r, c, t) <==> AsAt(c, e, t)
  {
    SameReport(r, FailingIn(c, e), WorkingIn(c, e), FailingAt(c, t), WorkingAt(c, t));
    assert forall s, h :: FailingAt(c, t)(s, h) <==> c.Failing(s, h, t);
  }

  /** What every evaluation within a stretch of time must find. */
  lemma EvaluationBounds(c: Counts, e: Evaluation, t0: int, t1: int, s: string, h: string)
    requires c.Valid() && IsEvaluation(e, c, t0, t1) && t0 <= t1
    ensures FailingIn(c, e)(s, h) ==> MayFail(c, s, h, t0, t1)
    ensures WorkingIn(c, e)(s, h) ==> MayWork(c, s, h, t0, t1)
    ensures c.Active(s, h, t1) ==> FailingIn(c, e)(s, h) || WorkingIn(c, e)(s, h)
  {
    if (s, h) in c.hosts {
      assert KnownService(c, s);
      HostBounds(c, s, h, e[s][h], t0, t1);
    }
  }

  // ---------------------------------------------------------------- every evaluation as at the start

  /** Nobody comes to fail; whoever fails stays active and fails even with its successes counted at the start and
      its failures at the end; and unless a WARNING is due, every service with a failing host has one that is active
      to the end and not failing. */
  ghost predicate Steadfast(c: Counts, t0: int, t1: int) {
    && (forall s, h :: MayFail(c, s, h, t0, t1) ==> c.Failing(s, h, t0))
    && (forall s, h :: c.Failing(s, h, t0) ==> c.Active(s, h, t1) && !c.Good(s, h, t0, t1))
    && (WarnsAt(c, t0) || forall s :: Any(FailingAt(c, t0), s) ==> HasOther(c, s, t0, t1))
  }

  ghost predicate HasOther(c: Counts, s: string, t0: int, t1: int) {
    exists h :: c.Active(s, h, t1) && !c.Failing(s, h, t0)
  }

  ghost predicate AlwaysAsAtStart(c: Counts, t0: int, t1: int) {
    forall e :: IsEvaluation(e, c, t0, t1) ==> AsAt(c, e, t0)
  }

  /** All evaluations within a stretch of time give the report the log calls for at its start exactly when the log
      is steadfast. */
  lemma ReportIsExact(c: Counts, t0: int, t1: int)
    requires c.Valid() && t0 <= t1
    ensures AlwaysAsAtStart(c, t0, t1) <==> Steadfast(c, t0, t1)
  {
    if Steadfast(c, t0, t1) {
      forall e | IsEvaluation(e, c, t0, t1)
        ensures AsAt(c, e, t0)
      {
        SteadfastIsAsAt(c, e, t0, t1);
      }
    }
    if AlwaysAsAtStart(c, t0, t1) {
      forall s, h
        ensures MayFail(c, s, h, t0, t1) ==> c.Failing(s, h, t0)
        ensures c.Failing(s, h, t0) ==> c.Active(s, h, t1) && !c.Good(s, h, t0, t1)
      {
        NobodyComesToFail(c, t0, t1, s, h);
        if c.Failing(s, h, t0) {
          WhoFailsGoesOn(c, t0, t1, s, h);
        }
      }
      forall s | !WarnsAt(c, t0) && Any(FailingAt(c, t0), s)
        ensures HasOther(c, s, t0, t1)
      {
        NoFalseWarning(c, t0, t1, s);
      }
    }
  }

  lemma SteadfastIsAsAt(c: Counts, e: Evaluation, t0: int, t1: int)
    requires c.Valid() && Steadfast(c, t0, t1) && IsEvaluation(e, c, t0, t1) && t0 <= t1
    ensures AsAt(c, e, t0)
  {
    var failing, working, active := FailingIn(c, e), WorkingIn(c, e), ActiveAt(c, t1);
    forall s, h
      ensures failing(s, h) <==> FailingAt(c, t0)(s, h)
      ensures working(s, h) ==> WorkingAt(c, t0)(s, h)
      ensures active(s, h) && !FailingAt(c, t0)(s, h) ==> working(s, h)
    {
      EvaluationBounds(c, e, t0, t1, s, h);
    }
    forall s | !WarnsAt(c, t0) && Any(FailingAt(c, t0), s)
      ensures exists h :: active(s, h) && !FailingAt(c, t0)(s, h)
    {
      var h :| c.Active(s, h, t1) && !c.Failing(s, h, t0);
      assert active(s, h) && !FailingAt(c, t0)(s, h);
    }
    SameWarning(failing, working, FailingAt(c, t0), WorkingAt(c, t0), active);
  }

  ghost function ActiveAt(c: Counts, t: int): Finding {
    (s, h) => c.Active(s, h, t)
  }

  /** The same hosts fail, no more hosts work, and unless a WARNING is due a failing host has a working neighbour. */
  lemma SameWarning(f: Finding, w: Finding, f0: Finding, w0: Finding, active: Finding)
    requires forall s, h :: f(s, h) <==> f0(s, h)
    requires forall s, h :: w(s, h) ==> w0(s, h)
    requires forall s, h :: active(s, h) && !f0(s, h) ==> w(s, h)
    requires AnyFailed(f0, w0) || forall s :: Any(f0, s) ==> exists h :: active(s, h) && !f0(s, h)
    ensures AnyFailed(f, w) <==> AnyFailed(f0, w0)
  {
    assert forall s :: Any(f, s) <==> Any(f0, s);
    if AnyFailed(f0, w0) {
      var s :| Failed(f0, w0, s);
      assert Failed(f, w, s);
    } else {
      forall s | Any(f, s)
        ensures Any(w, s)
      {
      }
    }
  }

  // ---------------------------------------------------------------- evaluations to order

  ghost function HostsOf(c: Counts, s: string): set<string> {
    set p | p in c.hosts && p.0 == s :: p.1
  }

  ghost function ServicesOf(c: Counts): set<string> {
    set p | p in c.hosts :: p.0
  }

  ghost function RoundAt(c: Counts, s: string, t: int): Round {
    map h | h in HostsOf(c, s) :: AllAt(t)
  }

  /** The evaluation with every reading at one instant. */
  ghost function EvaluationAt(c: Counts, t: int): Evaluation {
    map s | s in ServicesOf(c) :: RoundAt(c, s, t)
  }

  lemma ServicesAreKnown(c: Counts, s: string)
    ensures s in ServicesOf(c) <==> KnownService(c, s)
  {
    if s in ServicesOf(c) {
      var p :| p in c.hosts && p.0 == s;
      assert p == (s, p.1);
    }
    if h :| (s, h) in c.hosts {
      assert (s, h).0 == s;
    }
  }

  lemma HostsAreKnown(c: Counts, s: string, h: string)
    ensures h in HostsOf(c, s) <==> (s, h) in c.hosts
  {
    assert (s, h).0 == s && (s, h).1 == h;
    if h in HostsOf(c, s) {
      var p :| p in c.hosts && p.0 == s && p.1 == h;
      assert p == (s, h);
    }
  }

  /** A round with one host at given readings and the others at the end. */
  lemma RoundIs(c: Counts, s: string, round: Round, t0: int, t1: int, h: string)
    requires t0 <= t1 && round.Keys == HostsOf(c, s)
    requires forall g :: g in round ==> Within(round[g], t0, t1)
    requires forall g :: g in round && g != h ==> round[g] == AllAt(t1)
    ensures IsRound(round, c, s, t0, t1)
  {
    forall g
      ensures g in round <==> (s, g) in c.hosts
    {
      HostsAreKnown(c, s, g);
    }
  }

  lemma EvaluationAtIs(c: Counts, t0: int, t1: int)
    requires t0 <= t1
    ensures IsEvaluation(EvaluationAt(c, t1), c, t0, t1)
  {
    var e := EvaluationAt(c, t1);
    forall s
      ensures s in e <==> KnownService(c, s)
    {
      ServicesAreKnown(c, s);
    }
    forall s | s in e
      ensures IsRound(e[s], c, s, t0, t1)
    {
      RoundIs(c, s, RoundAt(c, s, t1), t0, t1, "");
    }
    forall s, s' | s in e && s' in e
      ensures RoundBefore(e[s], e[s'])
    {
      RoundsMeet(c, s, s', t1);
    }
  }

  lemma RoundsMeet(c: Counts, s: string, s': string, t: int)
    ensures RoundBefore(RoundAt(c, s, t), RoundAt(c, s', t))
  {
  }

  /** The evaluation that judges one host at the given readings and then everything else at the end. */
  ghost function First(c: Counts, s: string, h: string, at: Readings, t1: int): Evaluation {
    EvaluationAt(c, t1)[s := RoundAt(c, s, t1)[h := at]]
  }

  lemma FirstIs(c: Counts, s: string, h: string, at: Readings, t0: int, t1: int)
    requires Within(at, t0, t1) && (s, h) in c.hosts
    ensures IsEvaluation(First(c, s, h, at, t1), c, t0, t1)
  {
    EvaluationAtIs(c, t0, t1);
    HostsAreKnown(c, s, h);
    assert KnownService(c, s);
    var e, round := EvaluationAt(c, t1), RoundAt(c, s, t1)[h := at];
    assert round.Keys == HostsOf(c, s);
    RoundIs(c, s, round, t0, t1, h);
    assert forall x, g :: x in e && g in e[x] ==> e[x][g] == AllAt(t1);
    Replaced(e, c, s, round, t0, t1);
  }

  lemma Replaced(e: Evaluation, c: Counts, s: string, round: Round, t0: int, t1: int)
    requires IsEvaluation(e, c, t0, t1) && s in e && IsRound(round, c, s, t0, t1)
    requires forall x :: x in e ==> RoundBefore(round, e[x])
    ensures IsEvaluation(e[s := round], c, t0, t1)
  {
  }

  lemma FirstFinds(c: Counts, s: string, h: string, at: Readings, t1: int)
    ensures FailingIn(c, First(c, s, h, at, t1))(s, h) <==> FoundFailing(c, s, h, at)
  {
  }

  lemma NobodyComesToFail(c: Counts, t0: int, t1: int, s: string, h: string)
    requires c.Valid() && t0 <= t1 && AlwaysAsAtStart(c, t0, t1)
    ensures MayFail(c, s, h, t0, t1) ==> c.Failing(s, h, t0)
  {
    if MayFail(c, s, h, t0, t1) {
      var t :| t0 <= t <= t1 && c.Failing(s, h, t);
      HostReaches(c, s, h, t0, t1);
      MustFindFailing(c, t0, t1, s, h, AllAt(t));
    }
  }

  /** What one evaluation finds of a host is what it is at the start. */
  lemma MustFindFailing(c: Counts, t0: int, t1: int, s: string, h: string, at: Readings)
    requires AlwaysAsAtStart(c, t0, t1) && (s, h) in c.hosts && Within(at, t0, t1)
    ensures FoundFailing(c, s, h, at) <==> c.Failing(s, h, t0)
  {
    FirstIs(c, s, h, at, t0, t1);
    FirstFinds(c, s, h, at, t1);
    assert AsAt(c, First(c, s, h, at, t1), t0);
  }

  lemma WhoFailsGoesOn(c: Counts, t0: int, t1: int, s: string, h: string)
    requires c.Valid() && t0 <= t1 && AlwaysAsAtStart(c, t0, t1) && c.Failing(s, h, t0)
    ensures c.Active(s, h, t1) && !c.Good(s, h, t0, t1)
  {
    HostReaches(c, s, h, t0, t1);
    MustFindFailing(c, t0, t1, s, h, AllAt(t1));
    MustFindFailing(c, t0, t1, s, h, Spread(t0, t1));
  }

  /** Without a WARNING due, an evaluation at the end alone finds a working host wherever it finds a failing one. */
  lemma NoFalseWarning(c: Counts, t0: int, t1: int, s: string)
    requires t0 <= t1 && AlwaysAsAtStart(c, t0, t1) && !WarnsAt(c, t0) && Any(FailingAt(c, t0), s)
    ensures HasOther(c, s, t0, t1)
  {
    var e := EvaluationAt(c, t1);
    EvaluationAtIs(c, t0, t1);
    assert AsAt(c, e, t0);
    var failing, working := FailingIn(c, e), WorkingIn(c, e);
    var h :| FailingAt(c, t0)(s, h);
    assert failing(s, h);
    assert !Failed(failing, working, s);
    var g :| working(s, g);
    WorkingAtEnd(c, t1, s, g);
    assert !failing(s, g);
  }

  lemma WorkingAtEnd(c: Counts, t: int, s: string, h: string)
    requires WorkingIn(c, EvaluationAt(c, t))(s, h)
    ensures c.Active(s, h, t) && !FailingIn(c, EvaluationAt(c, t))(s, h)
  {
    var e := EvaluationAt(c, t);
    assert s in e && h in e[s] && e[s][h] == AllAt(t);
    assert FoundWorking(c, s, h, AllAt(t));
    assert FailingIn(c, e)(s, h) <==> FoundFailing(c, s, h, AllAt(t));
    ActiveAtOnce(c, s, h, AllAt(t), t);
  }

  /** Counts that do not change are steadfast. */
  lemma ConstantIsSteadfast(c: Counts, t0: int, t1: int)
    requires t0 <= t1 && forall s, h, k, t :: t0 <= t <= t1 ==> c.count(s, h, k, t) == c.count(s, h, k, t0)
    ensures Steadfast(c, t0, t1)
  {
    forall s, h, t | t0 <= t <= t1
      ensures c.Active(s, h, t) == c.Active(s, h, t0)
      ensures c.Good(s, h, t, t) == c.Good(s, h, t0, t0) && c.Good(s, h, t0, t) == c.Good(s, h, t0, t0)
    {
      assert forall k :: c.count(s, h, k, t) == c.count(s, h, k, t0);
    }
    forall s | !WarnsAt(c, t0) && Any(FailingAt(c, t0), s)
      ensures HasOther(c, s, t0, t1)
    {
      assert !Failed(FailingAt(c, t0), WorkingAt(c, t0), s);
      var h :| WorkingAt(c, t0)(s, h);
      assert c.Active(s, h, t1) && !c.Failing(s, h, t0);
    }
  }
}
