/** Two logs on which the dependency check reports what no instant calls for: a WARNING although some host works at
    every instant, and none although one is due at every instant
    (witchcraft/internal/dependencyhealth/host_metrics.go:103-114, healthcheck.go:90-142). */
module DependencyTearing {
  import opened Strings
  import opened TimeBuckets
  import opened DependencyReport
  import opened DependencyEvaluation
  import opened DependencyLog

  // ---------------------------------------------------------------- a WARNING that is never due

  /** A service with two hosts, of which one works at every instant; yet the first fails at the start and the
      second at the end. */
  ghost predicate Torn(c: Counts, s: string, a: string, b: string, t0: int, t1: int) {
    && a != b && c.hosts == {(s, a), (s, b)} && t0 <= t1
    && c.Failing(s, a, t0) && c.Failing(s, b, t1)
    && (forall t :: t0 <= t <= t1 ==> c.Working(s, a, t) || c.Working(s, b, t))
  }

  /** The first host is judged at the start and the second at the end. */
  function TornRound(a: string, b: string, t0: int, t1: int): Round {
    map[a := AllAt(t0), b := AllAt(t1)]
  }

  function TornEvaluation(s: string, a: string, b: string, t0: int, t1: int): Evaluation {
    map[s := TornRound(a, b, t0, t1)]
  }

  lemma TornIsEvaluation(c: Counts, s: string, a: string, b: string, t0: int, t1: int)
    requires Torn(c, s, a, b, t0, t1)
    ensures IsEvaluation(TornEvaluation(s, a, b, t0, t1), c, t0, t1)
  {
    var e := TornEvaluation(s, a, b, t0, t1);
    assert (s, a) in c.hosts;
    assert forall x :: x in e <==> KnownService(c, x);
    assert IsRound(e[s], c, s, t0, t1);
  }

  /** Both hosts are found failing. */
  lemma TornFindings(c: Counts, s: string, a: string, b: string, t0: int, t1: int, x: string, h: string)
    requires Torn(c, s, a, b, t0, t1)
    ensures FailingIn(c, TornEvaluation(s, a, b, t0, t1))(x, h) <==> x == s && (h == a || h == b)
    ensures !WorkingIn(c, TornEvaluation(s, a, b, t0, t1))(x, h)
  {
    ActiveAtOnce(c, s, a, AllAt(t0), t0);
    ActiveAtOnce(c, s, b, AllAt(t1), t1);
    assert FoundFailing(c, s, a, AllAt(t0)) && FoundFailing(c, s, b, AllAt(t1));
    var e := TornEvaluation(s, a, b, t0, t1);
    assert e[s][a] == AllAt(t0) && e[s][b] == AllAt(t1);
    if x in e && h in e[x] {
      assert FoundFailing(c, x, h, e[x][h]) && !FoundWorking(c, x, h, e[x][h]);
    }
  }

  /** Such an evaluation reports a WARNING with both hosts, though no instant calls for one. */
  lemma FalseWarning(c: Counts, s: string, a: string, b: string, t0: int, t1: int)
    requires c.Valid() && Torn(c, s, a, b, t0, t1)
    ensures var e := TornEvaluation(s, a, b, t0, t1);
      && IsEvaluation(e, c, t0, t1)
      && ReportOf(Report(true, ServiceFailed, map[s := Sort([a, b])]), c, e)
    ensures forall t :: t0 <= t <= t1 ==> !WarnsAt(c, t)
  {
    TornIsEvaluation(c, s, a, b, t0, t1);
    var e := TornEvaluation(s, a, b, t0, t1);
    var failing, working := FailingIn(c, e), WorkingIn(c, e);
    forall x, h
      ensures failing(x, h) <==> x == s && (h == a || h == b)
      ensures !working(x, h)
    {
      TornFindings(c, s, a, b, t0, t1, x, h);
    }
    BothListed(s, a, b, failing, working);
    forall t | t0 <= t <= t1
      ensures !WarnsAt(c, t)
    {
      OneWorks(c, s, a, b, t0, t1, t);
    }
  }

  lemma BothListed(s: string, a: string, b: string, failing: Finding, working: Finding)
    requires a != b && forall x, h :: failing(x, h) <==> x == s && (h == a || h == b)
    requires forall x, h :: !working(x, h)
    ensures ReportSays(Report(true, ServiceFailed, map[s := Sort([a, b])]), failing, working)
  {
    var hosts, params := Sort([a, b]), map[s := Sort([a, b])];
    assert forall h :: h in [a, b] <==> h == a || h == b;
    SortKeepsSet([a, b]);
    assert Lists(hosts, failing, s);
    assert failing(s, a) && s in params;
    assert Any(failing, s) && Failed(failing, working, s);
  }

  lemma OneWorks(c: Counts, s: string, a: string, b: string, t0: int, t1: int, t: int)
    requires Torn(c, s, a, b, t0, t1) && c.Valid() && t0 <= t <= t1
    ensures !WarnsAt(c, t)
  {
    var failing, working := FailingAt(c, t), WorkingAt(c, t);
    forall x | Any(failing, x)
      ensures Any(working, x)
    {
      var h :| failing(x, h);
      assert (x, h) in c.hosts && x == s;
      assert working(s, a) || working(s, b);
    }
  }

  // ---------------------------------------------------------------- a WARNING that is due and missed

  /** The only host fails at every instant; yet its successes at the start are no fewer than its failures at the
      end. */
  ghost predicate Missed(c: Counts, s: string, h: string, t0: int, t1: int) {
    && c.hosts == {(s, h)} && t0 <= t1
    && (forall t :: t0 <= t <= t1 ==> c.Failing(s, h, t))
    && c.Good(s, h, t0, t1)
  }

  function MissedEvaluation(s: string, h: string, t0: int, t1: int): Evaluation {
    map[s := map[h := Spread(t0, t1)]]
  }

  /** An evaluation that counts its failures at the end reports all healthy, though every instant calls for a
      WARNING. */
  lemma MissedWarning(c: Counts, s: string, h: string, t0: int, t1: int)
    requires c.Valid() && Missed(c, s, h, t0, t1)
    ensures var e := MissedEvaluation(s, h, t0, t1);
      && IsEvaluation(e, c, t0, t1)
      && ReportOf(Report(false, AllHealthy, map[]), c, e)
    ensures forall t :: t0 <= t <= t1 ==> WarnsAt(c, t)
  {
    var e := MissedEvaluation(s, h, t0, t1);
    assert (s, h) in c.hosts;
    assert forall x :: x in e <==> KnownService(c, x);
    ActiveAtOnce(c, s, h, Spread(t0, t1), t0);
    assert c.Failing(s, h, t0);
    assert FoundWorking(c, s, h, Spread(t0, t1)) && !FoundFailing(c, s, h, Spread(t0, t1));
    var failing, working := FailingIn(c, e), WorkingIn(c, e);
    forall x, y
      ensures !failing(x, y)
    {
      if x in e && y in e[x] {
        assert !FoundFailing(c, x, y, e[x][y]);
      }
    }
    forall t | t0 <= t <= t1
      ensures WarnsAt(c, t)
    {
      assert FailingAt(c, t)(s, h);
      assert forall x, y :: WorkingAt(c, t)(x, y) ==> (x, y) in c.hosts;
      assert Failed(FailingAt(c, t), WorkingAt(c, t), s);
    }
  }

  // ---------------------------------------------------------------- one host

  /** With a single host, an evaluation is as at an instant exactly when both find it failing or neither does. */
  lemma OneHostAsAt(c: Counts, s: string, h: string, e: Evaluation, t: int)
    requires c.Valid() && c.hosts == {(s, h)}
    requires s in e && h in e[s] && forall x, y :: x in e && y in e[x] ==> x == s && y == h
    ensures AsAt(c, e, t) <==> (FoundFailing(c, s, h, e[s][h]) <==> c.Failing(s, h, t))
  {
    var failing, working := FailingIn(c, e), WorkingIn(c, e);
    assert failing(s, h) <==> FoundFailing(c, s, h, e[s][h]);
    assert working(s, h) <==> FoundWorking(c, s, h, e[s][h]);
    OneHostWarns(s, h, failing, working);
    OneHostWarns(s, h, FailingAt(c, t), WorkingAt(c, t));
  }

  lemma OneHostWarns(s: string, h: string, failing: Finding, working: Finding)
    requires forall x, y :: failing(x, y) || working(x, y) ==> x == s && y == h
    requires !(failing(s, h) && working(s, h))
    ensures AnyFailed(failing, working) <==> failing(s, h)
  {
    if failing(s, h) {
      assert Failed(failing, working, s);
    }
  }

  /** Every evaluation gives the report of some instant. */
  ghost predicate AlwaysSomeInstant(c: Counts, t0: int, t1: int) {
    forall e :: IsEvaluation(e, c, t0, t1) ==> exists t :: t0 <= t <= t1 && AsAt(c, e, t)
  }

  /** With a single host the report is always that of some instant exactly when no WARNING can be missed. */
  lemma SomeInstantIsExact(c: Counts, s: string, h: string, t0: int, t1: int)
    requires c.Valid() && c.hosts == {(s, h)} && t0 <= t1
    ensures AlwaysSomeInstant(c, t0, t1) <==> !Missed(c, s, h, t0, t1)
  {
    if Missed(c, s, h, t0, t1) {
      MissedWarning(c, s, h, t0, t1);
      var e := MissedEvaluation(s, h, t0, t1);
      forall t | t0 <= t <= t1
        ensures !AsAt(c, e, t)
      {
        OneHostAsAt(c, s, h, e, t);
        ActiveAtOnce(c, s, h, Spread(t0, t1), t0);
      }
    } else {
      forall e | IsEvaluation(e, c, t0, t1)
        ensures exists t :: t0 <= t <= t1 && AsAt(c, e, t)
      {
        InstantOf(c, s, h, e, t0, t1);
      }
    }
  }

  /** The instant whose report an evaluation of a single host gives. */
  lemma InstantOf(c: Counts, s: string, h: string, e: Evaluation, t0: int, t1: int)
    requires c.Valid() && c.hosts == {(s, h)} && t0 <= t1 && !Missed(c, s, h, t0, t1) && IsEvaluation(e, c, t0, t1)
    ensures exists t :: t0 <= t <= t1 && AsAt(c, e, t)
  {
    assert (s, h) in c.hosts && KnownService(c, s);
    var at := e[s][h];
    HostBounds(c, s, h, at, t0, t1);
    var t := t1;
    if FoundFailing(c, s, h, at) {
      UnhealthyWasFailing(c, s, h, at, t0, t1);
      t := at.ok;
    } else if FoundActive(c, s, h, at) {
      t :| t0 <= t <= t1 && !c.Failing(s, h, t);
    }
    assert forall x, y :: x in e && y in e[x] ==> (x, y) in c.hosts;
    OneHostAsAt(c, s, h, e, t);
  }

  // ---------------------------------------------------------------- both happen

  lemma CountOne(x: int, horizon: int)
    ensures CountAfter([x], horizon) == if x > horizon then 1 else 0
  {
    assert [x][1..] == [];
  }

  lemma CountTwo(x: int, y: int, horizon: int)
    ensures CountAfter([x, y], horizon) == (if x > horizon then 1 else 0) + if y > horizon then 1 else 0
  {
    assert [x, y][1..] == [y];
    CountOne(y, horizon);
  }

  lemma MarksOfThree(log: seq<Event>, o: Owner)
    requires |log| == 3
    ensures MarksOf(log, o) == MarkOf(log[0], o) + MarkOf(log[1], o) + MarkOf(log[2], o)
  {
    MarksAppend(log[..2], log[2], o);
    MarksAppend(log[..1], log[1], o);
    MarksAppend([], log[0], o);
    assert log == log[..2] + [log[2]] && log[..2] == log[..1] + [log[1]] && log[..1] == [] + [log[0]];
  }

  lemma MarksOfFour(log: seq<Event>, o: Owner)
    requires |log| == 4
    ensures MarksOf(log, o) == MarkOf(log[0], o) + MarkOf(log[1], o) + MarkOf(log[2], o) + MarkOf(log[3], o)
  {
    MarksAppend(log[..3], log[3], o);
    MarksOfThree(log[..3], o);
    assert log == log[..3] + [log[3]];
  }

  /** a fails at 1 and redirects at 2; b succeeds at 1 and fails at 2. */
  predicate TornLog(log: seq<Event>, s: string, a: string, b: string) {
    && |log| == 4
    && log[0] == Event(Owner(s, a, KErr), 1) && log[1] == Event(Owner(s, b, K2xx), 1)
    && log[2] == Event(Owner(s, a, K3xx), 2) && log[3] == Event(Owner(s, b, KErr), 2)
  }

  lemma MarksOfFirst(log: seq<Event>, s: string, a: string, b: string, k: Kind)
    requires TornLog(log, s, a, b) && a != b
    ensures MarksOf(log, Owner(s, a, k)) == if k == KErr then [1] else if k == K3xx then [2] else []
  {
    var o := Owner(s, a, k);
    MarksOfFour(log, o);
    assert MarkOf(log[1], o) == [] && MarkOf(log[3], o) == [];
  }

  lemma MarksOfSecond(log: seq<Event>, s: string, a: string, b: string, k: Kind)
    requires TornLog(log, s, a, b) && a != b
    ensures MarksOf(log, Owner(s, b, k)) == if k == K2xx then [1] else if k == KErr then [2] else []
  {
    var o := Owner(s, b, k);
    MarksOfFour(log, o);
    assert MarkOf(log[0], o) == [] && MarkOf(log[2], o) == [];
  }

  /** What a host's marks count at window and at window + 1. */
  lemma CountsAround(log: seq<Event>, window: int, s: string, h: string, k: Kind, x: int)
    requires MarksOf(log, Owner(s, h, k)) == [x]
    ensures CountsOf(log, window).count(s, h, k, window) == if x > 0 then 1 else 0
    ensures CountsOf(log, window).count(s, h, k, window + 1) == if x > 1 then 1 else 0
  {
    CountOne(x, 0);
    CountOne(x, 1);
  }

  lemma CountsNone(log: seq<Event>, window: int, s: string, h: string, k: Kind)
    requires MarksOf(log, Owner(s, h, k)) == []
    ensures forall t :: CountsOf(log, window).count(s, h, k, t) == 0
  {
  }

  lemma FirstCounts(log: seq<Event>, window: int, s: string, a: string, b: string, k: Kind)
    requires TornLog(log, s, a, b) && a != b
    ensures CountsOf(log, window).count(s, a, k, window) == if k == KErr || k == K3xx then 1 else 0
    ensures CountsOf(log, window).count(s, a, k, window + 1) == if k == K3xx then 1 else 0
  {
    MarksOfFirst(log, s, a, b, k);
    if k == KErr || k == K3xx {
      CountsAround(log, window, s, a, k, if k == KErr then 1 else 2);
    } else {
      CountsNone(log, window, s, a, k);
    }
  }

  lemma SecondCounts(log: seq<Event>, window: int, s: string, a: string, b: string, k: Kind)
    requires TornLog(log, s, a, b) && a != b
    ensures CountsOf(log, window).count(s, b, k, window) == if k == KErr || k == K2xx then 1 else 0
    ensures CountsOf(log, window).count(s, b, k, window + 1) == if k == KErr then 1 else 0
  {
    MarksOfSecond(log, s, a, b, k);
    if k == KErr || k == K2xx {
      CountsAround(log, window, s, b, k, if k == KErr then 2 else 1);
    } else {
      CountsNone(log, window, s, b, k);
    }
  }

  lemma FirstRecovers(c: Counts, s: string, a: string, t0: int, t1: int)
    requires c.count(s, a, KErr, t0) == 1 && c.count(s, a, K2xx, t0) == 0
    requires c.count(s, a, K3xx, t1) == 1 && c.count(s, a, K5xx, t1) == 0 && c.count(s, a, KErr, t1) == 0
    ensures c.Failing(s, a, t0) && c.Working(s, a, t1)
  {
  }

  lemma SecondBreaks(c: Counts, s: string, b: string, t0: int, t1: int)
    requires c.count(s, b, K2xx, t0) == 1 && c.count(s, b, KErr, t0) == 1 && c.count(s, b, K5xx, t0) == 0
    requires c.count(s, b, KErr, t1) == 1 && c.count(s, b, K2xx, t1) == 0
    ensures c.Working(s, b, t0) && c.Failing(s, b, t1)
  {
  }

  lemma FirstHost(log: seq<Event>, window: int, s: string, a: string, b: string)
    requires TornLog(log, s, a, b) && a != b
    ensures CountsOf(log, window).Failing(s, a, window) && CountsOf(log, window).Working(s, a, window + 1)
  {
    FirstCounts(log, window, s, a, b, KErr);
    FirstCounts(log, window, s, a, b, K3xx);
    FirstCounts(log, window, s, a, b, K2xx);
    FirstCounts(log, window, s, a, b, K5xx);
    FirstRecovers(CountsOf(log, window), s, a, window, window + 1);
  }

  lemma SecondHost(log: seq<Event>, window: int, s: string, a: string, b: string)
    requires TornLog(log, s, a, b) && a != b
    ensures CountsOf(log, window).Working(s, b, window) && CountsOf(log, window).Failing(s, b, window + 1)
  {
    SecondCounts(log, window, s, a, b, KErr);
    SecondCounts(log, window, s, a, b, K2xx);
    SecondCounts(log, window, s, a, b, K5xx);
    SecondBreaks(CountsOf(log, window), s, b, window, window + 1);
  }

  /** Whatever the window, the service and the two hosts, there is a false WARNING when the first response of
      either host leaves the window. With a window of at least two all responses precede the evaluation. */
  lemma FalseWarningHappens(log: seq<Event>, window: int, s: string, a: string, b: string)
    requires TornLog(log, s, a, b) && a != b
    ensures Torn(CountsOf(log, window), s, a, b, window, window + 1)
  {
    FirstHost(log, window, s, a, b);
    SecondHost(log, window, s, a, b);
    TornHosts(log, s, a, b);
    TornAcross(CountsOf(log, window), s, a, b, window);
  }

  lemma TornAcross(c: Counts, s: string, a: string, b: string, t: int)
    requires a != b && c.hosts == {(s, a), (s, b)}
    requires c.Failing(s, a, t) && c.Working(s, b, t) && c.Working(s, a, t + 1) && c.Failing(s, b, t + 1)
    ensures Torn(c, s, a, b, t, t + 1)
  {
  }

  lemma TornHosts(log: seq<Event>, s: string, a: string, b: string)
    requires TornLog(log, s, a, b)
    ensures HostsIn(log) == {(s, a), (s, b)}
  {
    assert (log[0].owner.service, log[0].owner.host) == (s, a);
    assert (log[1].owner.service, log[1].owner.host) == (s, b);
  }

  /** So the check reports it, though no instant calls for one. */
  lemma TornLogWarns(log: seq<Event>, window: int, s: string, a: string, b: string)
    requires TornLog(log, s, a, b) && a != b
    ensures var c, e := CountsOf(log, window), TornEvaluation(s, a, b, window, window + 1);
      && IsEvaluation(e, c, window, window + 1)
      && ReportOf(Report(true, ServiceFailed, map[s := Sort([a, b])]), c, e)
      && forall t :: window <= t <= window + 1 ==> !WarnsAt(c, t)
  {
    CountsAreValid(log, window);
    FalseWarningHappens(log, window, s, a, b);
    FalseWarning(CountsOf(log, window), s, a, b, window, window + 1);
  }

  /** h succeeds and fails at 1 and fails again at 2. */
  predicate MissedLog(log: seq<Event>, s: string, h: string) {
    && |log| == 3
    && log[0] == Event(Owner(s, h, K2xx), 1) && log[1] == Event(Owner(s, h, K5xx), 1) &&
        log[2] == Event(Owner(s, h, K5xx), 2)
  }

  lemma MissedCounts(log: seq<Event>, window: int, s: string, h: string)
    requires MissedLog(log, s, h)
    ensures var c := CountsOf(log, window);
      && c.count(s, h, K2xx, window) == 1 && c.count(s, h, K2xx, window + 1) == 0
      && c.count(s, h, K5xx, window) == 2 && c.count(s, h, K5xx, window + 1) == 1
      && c.count(s, h, KErr, window) == 0 && c.count(s, h, KErr, window + 1) == 0
  {
    MarksOfThree(log, Owner(s, h, K2xx));
    MarksOfThree(log, Owner(s, h, K5xx));
    MarksOfThree(log, Owner(s, h, KErr));
    assert MarksOf(log, Owner(s, h, K2xx)) == [1] && MarksOf(log, Owner(s, h, K5xx)) == [1, 2];
    assert MarksOf(log, Owner(s, h, KErr)) == [];
    CountsAround(log, window, s, h, K2xx, 1);
    CountTwo(1, 2, 0);
    CountTwo(1, 2, 1);
  }

  /** Whatever the window, the service and the host, a WARNING is missed when the success leaves the window. */
  lemma MissedWarningHappens(log: seq<Event>, window: int, s: string, h: string)
    requires MissedLog(log, s, h)
    ensures Missed(CountsOf(log, window), s, h, window, window + 1)
  {
    MissedCounts(log, window, s, h);
    assert (log[0].owner.service, log[0].owner.host) == (s, h);
    assert HostsIn(log) == {(s, h)};
    MissedAcross(CountsOf(log, window), s, h, window);
  }

  lemma MissedAcross(c: Counts, s: string, h: string, t: int)
    requires c.hosts == {(s, h)}
    requires c.count(s, h, K2xx, t) == 1 && c.count(s, h, K5xx, t) == 2
    requires c.count(s, h, K2xx, t + 1) == 0 && c.count(s, h, K5xx, t + 1) == 1 && c.count(s, h, KErr, t + 1) == 0
    ensures Missed(c, s, h, t, t + 1)
  {
    assert c.Failing(s, h, t) && c.Failing(s, h, t + 1);
  }

  /** So the check reports all healthy, though every instant calls for a WARNING. */
  lemma MissedLogIsSilent(log: seq<Event>, window: int, s: string, h: string)
    requires MissedLog(log, s, h)
    ensures var c, e := CountsOf(log, window), MissedEvaluation(s, h, window, window + 1);
      && IsEvaluation(e, c, window, window + 1)
      && ReportOf(Report(false, AllHealthy, map[]), c, e)
      && forall t :: window <= t <= window + 1 ==> WarnsAt(c, t)
  {
    CountsAreValid(log, window);
    MissedWarningHappens(log, window, s, h);
    MissedWarning(CountsOf(log, window), s, h, window, window + 1);
  }
}
