/** What the full log of classified responses counts
    (witchcraft/internal/dependencyhealth/host_metrics.go:103-138). */
module DependencyLog {
  import opened TimeBuckets
  import opened DependencyEvaluation

  /** One classified response and when it was counted. */
  datatype Event = Event(owner: Owner, time: int)

  function MarksOf(log: seq<Event>, o: Owner): seq<int> {
    if log == [] then []
    else MarksOf(log[..|log| - 1], o) + MarkOf(log[|log| - 1], o)
  }

  function MarkOf(e: Event, o: Owner): seq<int> {
    if e.owner == o then [e.time] else []
  }

  /** The responses of one class from one host in the window that ends at t. */
  function Responses(log: seq<Event>, window: int, o: Owner, t: int): nat {
    CountAfter(MarksOf(log, o), t - window)
  }

  /** The host has answered. */
  ghost predicate Known(log: seq<Event>, s: string, h: string) {
    exists i :: 0 <= i < |log| && log[i].owner.service == s && log[i].owner.host == h
  }

  ghost function HostsIn(log: seq<Event>): set<(string, string)> {
    set i | 0 <= i < |log| :: (log[i].owner.service, log[i].owner.host)
  }

  /** What the log counts. */
  ghost function CountsOf(log: seq<Event>, window: int): Counts {
    Counts(HostsIn(log), (s, h, k, t) => Responses(log, window, Owner(s, h, k), t))
  }

  lemma {:induction false} MarksAreEvents(log: seq<Event>, o: Owner, x: int)
    ensures x in MarksOf(log, o) <==> exists i :: 0 <= i < |log| && log[i] == Event(o, x)
    decreases |log|
  {
    if log != [] {
      var rest := log[..|log| - 1];
      MarksAreEvents(rest, o, x);
      if i :| 0 <= i < |log| && log[i] == Event(o, x) {
        assert i < |rest| ==> rest[i] == log[i];
      }
      if i :| 0 <= i < |rest| && rest[i] == Event(o, x) {
        assert log[i] == rest[i];
      }
    }
  }

  lemma MarksAppend(log: seq<Event>, e: Event, o: Owner)
    ensures MarksOf(log + [e], o) == MarksOf(log, o) + MarkOf(e, o)
  {
    assert (log + [e])[..|log|] == log;
  }

  lemma KnownAppend(log: seq<Event>, e: Event, s: string, h: string)
    ensures Known(log + [e], s, h) <==> Known(log, s, h) || (e.owner.service == s && e.owner.host == h)
  {
    var longer := log + [e];
    assert longer[|log|] == e;
    assert forall i :: 0 <= i < |log| ==> longer[i] == log[i];
  }

  lemma KnownIsHost(log: seq<Event>, s: string, h: string)
    ensures Known(log, s, h) <==> (s, h) in HostsIn(log)
  {
  }

  /** The responses of one class from one host in the window, by their places in the log. */
  ghost function InWindow(log: seq<Event>, window: int, o: Owner, t: int): set<int> {
    set i | 0 <= i < |log| && log[i].owner == o && log[i].time > t - window
  }

  lemma InWindowAppend(log: seq<Event>, e: Event, window: int, o: Owner, t: int)
    ensures |InWindow(log + [e], window, o, t)| ==
            |InWindow(log, window, o, t)| + if e.owner == o && e.time > t - window then 1 else 0
  {
    var longer := log + [e];
    assert longer[|log|] == e && forall i :: 0 <= i < |log| ==> longer[i] == log[i];
    assert InWindow(longer, window, o, t) ==
           InWindow(log, window, o, t) + if e.owner == o && e.time > t - window then {|log|} else {};
  }

  lemma ResponsesAppend(log: seq<Event>, e: Event, window: int, o: Owner, t: int)
    ensures Responses(log + [e], window, o, t) ==
            Responses(log, window, o, t) + if e.owner == o && e.time > t - window then 1 else 0
  {
    MarksAppend(log, e, o);
    CountAppend(MarksOf(log, o), e.time, t - window);
    assert MarksOf(log, o) + [] == MarksOf(log, o);
  }

  /** A bucket counts each response of its class in the window once. */
  lemma {:induction false} CountsAreLogged(log: seq<Event>, window: int, o: Owner, t: int)
    ensures Responses(log, window, o, t) == |InWindow(log, window, o, t)|
    decreases |log|
  {
    if log != [] {
      var rest, last := log[..|log| - 1], log[|log| - 1];
      CountsAreLogged(rest, window, o, t);
      InWindowAppend(rest, last, window, o, t);
      ResponsesAppend(rest, last, window, o, t);
      assert rest + [last] == log;
    }
  }

  /** At an instant a host works or fails by the responses the log has of it in the window: it answered at all, and
      the 2xx responses are no fewer, or fewer, than the 5xx responses and errors together. */
  lemma VerdictIsLogged(log: seq<Event>, window: int, s: string, h: string, t: int)
    ensures var c := CountsOf(log, window);
            var active := exists i :: 0 <= i < |log| && log[i].owner.service == s && log[i].owner.host == h &&
                                      log[i].time > t - window;
            var good := |InWindow(log, window, Owner(s, h, K2xx), t)| >=
                        |InWindow(log, window, Owner(s, h, K5xx), t)| + |InWindow(log, window, Owner(s, h, KErr), t)|;
            && (c.Working(s, h, t) <==> active && good)
            && (c.Failing(s, h, t) <==> active && !good)
  {
    ActiveIsLogged(log, window, s, h, t);
    CountsAreLogged(log, window, Owner(s, h, K2xx), t);
    CountsAreLogged(log, window, Owner(s, h, K5xx), t);
    CountsAreLogged(log, window, Owner(s, h, KErr), t);
  }

  /** A bucket counts something exactly when the log has a response of its class in the window. */
  lemma CountedIsLogged(log: seq<Event>, window: int, o: Owner, t: int)
    ensures Responses(log, window, o, t) > 0 <==>
            exists i :: 0 <= i < |log| && log[i].owner == o && log[i].time > t - window
  {
    CountsAreLogged(log, window, o, t);
    if i :| 0 <= i < |log| && log[i].owner == o && log[i].time > t - window {
      assert i in InWindow(log, window, o, t);
    } else {
      assert InWindow(log, window, o, t) == {};
    }
  }

  /** A host is active, by its six buckets, exactly when the log has a response of it in the window. */
  lemma ActiveIsLogged(log: seq<Event>, window: int, s: string, h: string, t: int)
    ensures CountsOf(log, window).Active(s, h, t) <==>
            exists i :: 0 <= i < |log| && log[i].owner.service == s && log[i].owner.host == h &&
                log[i].time > t - window
  {
    var c := CountsOf(log, window);
    if i :| 0 <= i < |log| && log[i].owner.service == s && log[i].owner.host == h && log[i].time > t - window {
      CountedIsLogged(log, window, log[i].owner, t);
      assert c.count(s, h, log[i].owner.kind, t) > 0;
    }
    if k :| c.count(s, h, k, t) > 0 {
      CountedIsLogged(log, window, Owner(s, h, k), t);
    }
  }

  /** What a log counts only shrinks as time passes, and only known hosts are counted. */
  lemma CountsAreValid(log: seq<Event>, window: int)
    ensures CountsOf(log, window).Valid()
  {
    var c := CountsOf(log, window);
    forall s, h, k, t, t' | t <= t'
      ensures c.count(s, h, k, t') <= c.count(s, h, k, t)
    {
      CountShrinks(MarksOf(log, Owner(s, h, k)), t - window, t' - window);
    }
    forall s, h, k, t | c.count(s, h, k, t) > 0
      ensures (s, h) in c.hosts
    {
      CountedIsLogged(log, window, Owner(s, h, k), t);
    }
  }

  /** No response leaves the window between the two instants. */
  predicate SteadyLog(log: seq<Event>, window: int, t0: int, t1: int) {
    forall i :: 0 <= i < |log| ==> !(t0 - window < log[i].time <= t1 - window)
  }

  lemma SteadyCounts(log: seq<Event>, window: int, o: Owner, t0: int, t: int, t1: int)
    requires SteadyLog(log, window, t0, t1) && t0 <= t <= t1
    ensures Responses(log, window, o, t) == Responses(log, window, o, t0)
  {
    var marks := MarksOf(log, o);
    forall i | 0 <= i < |marks|
      ensures !(t0 - window < marks[i] <= t1 - window)
    {
      MarksAreEvents(log, o, marks[i]);
    }
    SteadyCount(marks, window, t0, t, t1);
  }

  /** Whenever the log is steadfast, and only then, all evaluations within a stretch of time give the report it
      calls for at the start. */
  lemma LogIsExact(log: seq<Event>, window: int, t0: int, t1: int)
    requires t0 <= t1
    ensures AlwaysAsAtStart(CountsOf(log, window), t0, t1) <==> Steadfast(CountsOf(log, window), t0, t1)
  {
    CountsAreValid(log, window);
    ReportIsExact(CountsOf(log, window), t0, t1);
  }

  /** A log from which no response leaves the window is steadfast; so every evaluation gives the report of the
      start. */
  lemma SteadyIsSteadfast(log: seq<Event>, window: int, t0: int, t1: int)
    requires SteadyLog(log, window, t0, t1) && t0 <= t1
    ensures Steadfast(CountsOf(log, window), t0, t1) && AlwaysAsAtStart(CountsOf(log, window), t0, t1)
  {
    var c := CountsOf(log, window);
    LogIsExact(log, window, t0, t1);
    forall s, h, k, t | t0 <= t <= t1
      ensures c.count(s, h, k, t) == c.count(s, h, k, t0)
    {
      SteadyCounts(log, window, Owner(s, h, k), t0, t, t1);
    }
    ConstantIsSteadfast(c, t0, t1);
  }
}
