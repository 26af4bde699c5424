/** The SERVICE_DEPENDENCY health check: responses of remote hosts are classified and counted in time
    buckets, and the check judges every service by its recently used hosts
    (witchcraft/internal/dependencyhealth/host_metrics.go, healthcheck.go). Every count reads the clock anew; the
    methods hand out their readings as ghost results, and what they compute from pruned buckets is what the full
    log gives at those readings. */
module DependencyHealth {
  import opened Options
  import opened Strings
  import opened TimeBuckets
  import opened DependencyReport
  import opened DependencyEvaluation
  import opened DependencyLog

  // ---------------------------------------------------------------- one host

  class HostStatus {
    const meter2xx: TimeBucket
    const meter3xx: TimeBucket
    const meter4xx: TimeBucket
    const meter5xx: TimeBucket
    const meterErr: TimeBucket
    const meterOther: TimeBucket
    ghost const window: int
    ghost const service: string
    ghost const host: string

    function Meter(k: Kind): TimeBucket {
      match k
      case K2xx => meter2xx
      case K3xx => meter3xx
      case K4xx => meter4xx
      case K5xx => meter5xx
      case KErr => meterErr
      case KOther => meterOther
    }

    function Buckets(): (s: set<TimeBucket>)
      ensures forall k :: Meter(k) in s
    {
      {meter2xx, meter3xx, meter4xx, meter5xx, meterErr, meterOther}
    }

    constructor (window: int, ghost service: string, ghost host: string)
      ensures fresh(Buckets())
      ensures this.window == window && this.service == service && this.host == host
      ensures forall k :: Meter(k).owner == Owner(service, host, k) && Meter(k).bucket == window
      ensures forall k :: Meter(k).slice == [] && Meter(k).marks == []
    {
      this.window := window;
      this.service := service;
      this.host := host;
      meter2xx := new TimeBucket(window, Owner(service, host, K2xx));
      meter3xx := new TimeBucket(window, Owner(service, host, K3xx));
      meter4xx := new TimeBucket(window, Owner(service, host, K4xx));
      meter5xx := new TimeBucket(window, Owner(service, host, K5xx));
      meterErr := new TimeBucket(window, Owner(service, host, KErr));
      meterOther := new TimeBucket(window, Owner(service, host, KOther));
    }

    /** Every bucket holds what the log says about this host. */
    ghost predicate Tracks(log: seq<Event>, now: int)
      reads Buckets()
    {
      forall k :: BucketTracks(Meter(k), window, Owner(service, host, k), log, now)
    }

    /** The buckets belong to this host. */
    ghost predicate Owned() {
      forall k :: Meter(k).owner == Owner(service, host, k)
    }

    lemma OwnersOfBuckets()
      requires Owned()
      ensures forall b :: b in Buckets() ==> b.owner.service == service && b.owner.host == host
    {
      assert meter2xx == Meter(K2xx) && meter3xx == Meter(K3xx) && meter4xx == Meter(K4xx);
      assert meter5xx == Meter(K5xx) && meterErr == Meter(KErr) && meterOther == Meter(KOther);
    }

    lemma TracksLater(log: seq<Event>, t: int, t': int)
      requires Tracks(log, t) && t <= t'
      ensures Tracks(log, t')
    {
    }

    lemma TracksOther(log: seq<Event>, e: Event, t: int, t': int)
      requires Tracks(log, t) && t <= t' && (e.owner.service != service || e.owner.host != host)
      ensures Tracks(log + [e], t')
    {
      TracksLater(log, t, t');
      forall k
        ensures BucketTracks(Meter(k), window, Owner(service, host, k), log + [e], t')
      {
        assert BucketTracks(Meter(k), window, Owner(service, host, k), log, t');
        MarksAppend(log, e, Owner(service, host, k));
      }
    }

    /** Counts one response of this host. */
    method Mark(kind: Kind, clock: Clock, ghost log: seq<Event>)
      requires Tracks(log, clock.time)
      modifies clock, Meter(kind)
      ensures old(clock.time) <= clock.time
      ensures Tracks(log + [Event(Owner(service, host, kind), clock.time)], clock.time)
    {
      var bucket := Meter(kind);
      assert BucketTracks(bucket, window, Owner(service, host, kind), log, clock.time);
      ghost var before := clock.time;
      bucket.Mark(clock);
      ghost var e := Event(Owner(service, host, kind), clock.time);
      MarksAppend(log, e, Owner(service, host, kind));
      forall j | j != kind
        ensures BucketTracks(Meter(j), window, Owner(service, host, j), log + [e], clock.time)
      {
        assert old(BucketTracks(Meter(j), window, Owner(service, host, j), log, clock.time));
        assert Meter(j) != bucket;
        assert BucketTracks(Meter(j), window, Owner(service, host, j), log, before);
        MarksAppend(log, e, Owner(service, host, j));
      }
    }

    /** The responses of one class in the window, at the clock reading of the count. */
    method CountOf(k: Kind, clock: Clock, ghost log: seq<Event>) returns (n: int)
      requires Tracks(log, clock.time)
      modifies clock, Buckets()`slice
      ensures old(clock.time) <= clock.time && Tracks(log, clock.time)
      ensures n == CountsOf(log, window).count(service, host, k, clock.time)
    {
      n := CountBucket(k, clock, log);
    }

    /** One bucket is pruned and counted, and the others stay. */
    method CountBucket(k: Kind, clock: Clock, ghost log: seq<Event>) returns (n: int)
      requires Tracks(log, clock.time)
      modifies clock, Meter(k)`slice
      ensures old(clock.time) <= clock.time && Tracks(log, clock.time)
      ensures n == Responses(log, window, Owner(service, host, k), clock.time)
    {
      assert BucketTracks(Meter(k), window, Owner(service, host, k), log, clock.time);
      ghost var before := clock.time;
      n := Meter(k).Count(clock);
      forall j | j != k
        ensures BucketTracks(Meter(j), window, Owner(service, host, j), log, clock.time)
      {
        assert old(BucketTracks(Meter(j), window, Owner(service, host, j), log, clock.time));
        assert Meter(j) != Meter(k);
        assert BucketTracks(Meter(j), window, Owner(service, host, j), log, before);
      }
    }

    /** Three counts of the short-circuit disjunction. */
    method CountsAny(k1: Kind, k2: Kind, k3: Kind, clock: Clock, ghost log: seq<Event>)
        returns (any: bool, ghost t1: int, ghost t2: int, ghost t3: int)
      requires Tracks(log, clock.time)
      modifies clock, Buckets()`slice
      ensures old(clock.time) <= t1 <= t2 <= t3 <= clock.time && Tracks(log, clock.time)
      ensures any <==>
              || CountsOf(log, window).count(service, host, k1, t1) > 0
              || CountsOf(log, window).count(service, host, k2, t2) > 0
              || CountsOf(log, window).count(service, host, k3, t3) > 0
    {
      var n := CountOf(k1, clock, log);
      t1, t2, t3 := clock.time, clock.time, clock.time;
      if n > 0 {
        return true, t1, t2, t3;
      }
      n := CountOf(k2, clock, log);
      t2, t3 := clock.time, clock.time;
      if n > 0 {
        return true, t1, t2, t3;
      }
      n := CountOf(k3, clock, log);
      t3 := clock.time;
      return n > 0, t1, t2, t3;
    }

    /** Whether a response of the log is in the window, at the readings of the six counts. */
    method IsActive(clock: Clock, ghost log: seq<Event>) returns (active: bool, ghost at: Readings)
      requires Tracks(log, clock.time)
      modifies clock, Buckets()`slice
      ensures Within(at, old(clock.time), clock.time) && Tracks(log, clock.time)
      ensures active <==> FoundActive(CountsOf(log, window), service, host, at)
    {
      ghost var t1, t2, t3;
      active, t1, t2, t3 := CountsAny(K2xx, K3xx, K4xx, clock, log);
      ghost var now := clock.time;
      at := Readings(t1, t2, t3, now, now, now, now, now, now);
      ghost var first := active;
      if !active {
        ghost var t4, t5, t6;
        active, t4, t5, t6 := CountsAny(K5xx, KErr, KOther, clock, log);
        now := clock.time;
        at := Readings(t1, t2, t3, t4, t5, t6, now, now, now);
      }
      ActivityIsSix(CountsOf(log, window), service, host, at, first, active);
    }

    /** Whether the successes at one reading are no fewer than the failures at two later ones. */
    method IsHealthy(clock: Clock, ghost log: seq<Event>)
        returns (healthy: bool, ghost ok: int, ghost bad: int, ghost err: int)
      requires Tracks(log, clock.time)
      modifies clock, Buckets()`slice
      ensures old(clock.time) <= ok <= bad <= err == clock.time && Tracks(log, clock.time)
      ensures var c := CountsOf(log, window);
        healthy <==> c.count(service, host, K2xx, ok) >= c.count(service, host, K5xx, bad) + c.count(service, host,
            KErr, err)
    {
      var successes := CountOf(K2xx, clock, log);
      ok := clock.time;
      var failures := CountOf(K5xx, clock, log);
      bad := clock.time;
      var errors := CountOf(KErr, clock, log);
      err := clock.time;
      healthy := successes >= failures + errors;
    }

    /** The two questions the check asks about a host, the second only about an active one. */
    method Judge(clock: Clock, ghost log: seq<Event>) returns (active: bool, healthy: bool, ghost at: Readings)
      requires Tracks(log, clock.time)
      modifies clock, Buckets()`slice
      ensures Within(at, old(clock.time), clock.time) && Tracks(log, clock.time)
      ensures Judged(CountsOf(log, window), service, host, at, active, healthy)
    {
      active, at := IsActive(clock, log);
      healthy := false;
      if active {
        ghost var ok, bad, err;
        healthy, ok, bad, err := IsHealthy(clock, log);
        ghost var c := CountsOf(log, window);
        SameActivity(c, service, host, at, at.(ok := ok, bad := bad, err := err));
        at := at.(ok := ok, bad := bad, err := err);
      }
    }
  }

  /** The answers are those of the counts at the readings. */
  ghost predicate Judged(c: Counts, s: string, h: string, at: Readings, active: bool, healthy: bool) {
    (active <==> FoundActive(c, s, h, at)) && (active ==> (healthy <==> FoundHealthy(c, s, h, at)))
  }

  lemma SameActivity(c: Counts, s: string, h: string, x: Readings, y: Readings)
    requires y == x.(ok := y.ok, bad := y.bad, err := y.err)
    ensures FoundActive(c, s, h, x) <==> FoundActive(c, s, h, y)
  {
    assert forall k :: x.Activity(k) == y.Activity(k);
  }

  /** A host that has never answered. */
  method NewHost(window: int, service: string, host: string, ghost log: seq<Event>, ghost now: int)
      returns (status: HostStatus)
    requires forall k :: MarksOf(log, Owner(service, host, k)) == []
    ensures fresh(status.Buckets()) && status.Owned() && status.Tracks(log, now)
    ensures status.service == service && status.host == host && status.window == window
  {
    status := new HostStatus(window, service, host);
  }

  ghost predicate BucketTracks(b: TimeBucket, window: int, o: Owner, log: seq<Event>, now: int)
    reads b
  {
    b.owner == o && b.bucket == window && b.Valid(now) && b.marks == MarksOf(log, o)
  }

  // ---------------------------------------------------------------- the registry and the check

  /** The class of a response: network errors first, then missing or odd status codes, then the code. */
  function Classify(netError: bool, status: Option<int>): (k: Kind)
    ensures k == KErr <==> netError
    ensures !netError && status.None? ==> k == KOther
    ensures !netError && status.Some? ==>
              match k
              case K2xx => status.value / 100 == 2
              case K3xx => status.value / 100 == 3
              case K4xx => status.value / 100 == 4
              case K5xx => status.value / 100 == 5
              case KErr => false
              case KOther => status.value / 100 < 2 || status.value / 100 > 5
  {
    if netError then KErr
    else if status.None? || status.value < 200 || status.value > 599 then KOther
    else if status.value < 300 then K2xx
    else if status.value < 400 then K3xx
    else if status.value < 500 then K4xx
    else K5xx
  }

  class HostRegistry {
    var registry: map<string, map<string, HostStatus>>
    const windowSize: int
    ghost var log: seq<Event>         // every response ever counted
    ghost var repr: set<TimeBucket>   // the buckets of all registered hosts

    constructor (windowSize: int)
      ensures registry == map[] && log == [] && repr == {} && this.windowSize == windowSize
      ensures Exact() && forall now :: Valid(now)
    {
      this.windowSize := windowSize;
      registry, log, repr := map[], [], {};
      new;
      assert forall s, h :: !Has(s, h) && !Known(log, s, h);
    }

    ghost predicate Has(service: string, host: string)
      reads this
    {
      service in registry && host in registry[service]
    }

    ghost predicate HostOk(s: string, h: string, now: int)
      requires Has(s, h)
      reads this, repr
    {
      HostTracks(s, h, log, now)
    }

    ghost predicate HostTracks(s: string, h: string, upTo: seq<Event>, now: int)
      requires Has(s, h)
      reads this, repr
    {
      var status := registry[s][h];
      && status.service == s && status.host == h && status.window == windowSize
      && status.Owned() && status.Buckets() <= repr && status.Tracks(upTo, now)
    }

    /** Every registered host's buckets hold exactly what the log says about that host. */
    ghost predicate Valid(now: int)
      reads this, repr
    {
      && (forall s, h :: Has(s, h) ==> HostOk(s, h, now))
      && (forall s, h :: Known(log, s, h) ==> Has(s, h))
    }

    /** Only hosts that have answered are registered. */
    ghost predicate Exact()
      reads this
    {
      && (forall s, h :: Has(s, h) ==> Known(log, s, h))
      && (forall s :: s in registry ==> registry[s] != map[])
    }

    /** Finds the status of a host, or registers a new one. */
    method HostMetrics(service: string, host: string, ghost now: int) returns (status: HostStatus)
      requires Valid(now)
      modifies this`registry, this`repr
      ensures Valid(now) && Has(service, host) && registry[service][host] == status
      ensures forall s, h :: Has(s, h) <==> old(Has(s, h)) || (s == service && h == host)
      ensures forall s :: s in registry ==> s in old(registry) || s == service
      ensures forall s :: s in old(registry) && s != service ==> s in registry && registry[s] == old(registry[s])
      ensures fresh(repr - old(repr))
    {
      if service in registry && host in registry[service] {
        return registry[service][host];
      }
      NeverSeen(service, host);
      status := NewHost(windowSize, service, host, log, now);
      Register(service, host, status, now);
    }

    method Register(service: string, host: string, status: HostStatus, ghost now: int)
      requires Valid(now) && !Has(service, host)
      requires status.service == service && status.host == host && status.window == windowSize
      requires status.Owned() && status.Tracks(log, now)
      modifies this`registry, this`repr
      ensures Valid(now) && Has(service, host) && registry[service][host] == status
      ensures forall s, h :: Has(s, h) <==> old(Has(s, h)) || (s == service && h == host)
      ensures forall s :: s in registry ==> s in old(registry) || s == service
      ensures forall s :: s in old(registry) && s != service ==> s in registry && registry[s] == old(registry[s])
      ensures repr == old(repr) + status.Buckets()
    {
      var hosts: map<string, HostStatus> := if service in registry then registry[service] else map[];
      registry := registry[service := hosts[host := status]];
      repr := repr + status.Buckets();
      forall s, h | Has(s, h)
        ensures HostOk(s, h, now)
      {
        if s != service || h != host {
          assert old(Has(s, h)) && old(HostOk(s, h, now)) && registry[s][h] == old(registry[s][h]);
        }
      }
    }

    lemma NeverSeen(service: string, host: string)
      requires !Known(log, service, host)
      ensures forall k :: MarksOf(log, Owner(service, host, k)) == []
    {
      forall k
        ensures MarksOf(log, Owner(service, host, k)) == []
      {
        var marks := MarksOf(log, Owner(service, host, k));
        if marks != [] {
          MarksAreEvents(log, Owner(service, host, k), marks[0]);
        }
      }
    }

    /** The buckets of different hosts are different objects. */
    lemma HostsAreApart(service: string, host: string, now: int)
      requires Valid(now) && Has(service, host)
      ensures forall s, h :: Has(s, h) && (s != service || h != host) ==>
              registry[s][h].Buckets() !! registry[service][host].Buckets()
    {
      assert HostOk(service, host, now);
      registry[service][host].OwnersOfBuckets();
      forall s, h | Has(s, h) && (s != service || h != host)
        ensures registry[s][h].Buckets() !! registry[service][host].Buckets()
      {
        assert HostOk(s, h, now);
        registry[s][h].OwnersOfBuckets();
      }
    }

    /** The verdict on one host leaves every other host as the log has it. */
    method Judge(service: string, host: string, clock: Clock) returns (active: bool, healthy: bool, ghost at: Readings)
      requires Valid(clock.time) && Has(service, host)
      modifies clock, repr`slice
      ensures Within(at, old(clock.time), clock.time) && Valid(clock.time)
      ensures Judged(CountsOf(log, windowSize), service, host, at, active, healthy)
    {
      var status := registry[service][host];
      assert HostOk(service, host, clock.time);
      HostsAreApart(service, host, clock.time);
      active, healthy, at := status.Judge(clock, log);
      forall s, h | Has(s, h)
        ensures HostOk(s, h, clock.time)
      {
        assert old(HostOk(s, h, clock.time));
        if s != service || h != host {
          var other := registry[s][h];
          assert old(other.Tracks(log, clock.time));
          assert other.Tracks(log, old(clock.time));
          other.TracksLater(log, old(clock.time), clock.time);
        }
      }
    }

    /** Counts one response of a registered host. */
    method MarkHost(service: string, host: string, kind: Kind, clock: Clock)
      requires Valid(clock.time) && Has(service, host)
      modifies this`log, clock, repr
      ensures old(clock.time) <= clock.time && Valid(clock.time)
      ensures log == old(log) + [Event(Owner(service, host, kind), clock.time)]
    {
      ghost var before := clock.time;
      MarkBucket(service, host, kind, clock);
      ghost var e := Event(Owner(service, host, kind), clock.time);
      OthersRecord(service, host, e, before, clock.time);
      Record(e, clock.time);
    }

    /** The bucket of the host is marked, and the other hosts stay as they are. */
    method MarkBucket(service: string, host: string, kind: Kind, clock: Clock)
      requires Valid(clock.time) && Has(service, host)
      modifies clock, repr
      ensures old(clock.time) <= clock.time
      ensures HostTracks(service, host, log + [Event(Owner(service, host, kind), clock.time)], clock.time)
      ensures forall s, h :: Has(s, h) && (s != service || h != host) ==> HostTracks(s, h, log, old(clock.time))
    {
      var status := registry[service][host];
      assert HostOk(service, host, clock.time);
      HostsAreApart(service, host, clock.time);
      status.Mark(kind, clock, log);
      forall s, h | Has(s, h) && (s != service || h != host)
        ensures HostTracks(s, h, log, old(clock.time))
      {
        var other := registry[s][h];
        assert old(HostOk(s, h, clock.time));
        assert old(other.Tracks(log, clock.time));
        assert status.Meter(kind) !in other.Buckets();
        assert other.Tracks(log, old(clock.time));
      }
    }

    lemma OthersRecord(service: string, host: string, e: Event, t: int, t': int)
      requires forall s, h :: Has(s, h) && (s != service || h != host) ==> HostTracks(s, h, log, t)
      requires t <= t' && e.owner.service == service && e.owner.host == host
      ensures forall s, h :: Has(s, h) && (s != service || h != host) ==> HostTracks(s, h, log + [e], t')
    {
      forall s, h | Has(s, h) && (s != service || h != host)
        ensures HostTracks(s, h, log + [e], t')
      {
        registry[s][h].TracksOther(log, e, t, t');
      }
    }

    ghost method Record(e: Event, now: int)
      requires forall s, h :: Has(s, h) ==> HostTracks(s, h, log + [e], now)
      requires Has(e.owner.service, e.owner.host) && forall s, h :: Known(log, s, h) ==> Has(s, h)
      modifies this`log
      ensures Valid(now) && log == old(log) + [e]
    {
      forall s, h | Known(log + [e], s, h)
        ensures Has(s, h)
      {
        KnownAppend(log, e, s, h);
      }
      log := log + [e];
      assert forall s, h :: Has(s, h) ==> old(HostTracks(s, h, log + [e], now)) ==> HostOk(s, h, now);
    }

    /** Counts one response of a host, unless the client has no service name or the request no URL. */
    method RoundTrip(clock: Clock, service: string, host: Option<string>, netError: bool, status: Option<int>)
      requires Valid(clock.time) && Exact()
      modifies this`registry, this`log, this`repr, clock, repr
      ensures old(clock.time) <= clock.time && Valid(clock.time) && Exact()
      ensures log == if service == "" || host.None? then old(log)
                     else old(log) + [Event(Owner(service, host.value, Classify(netError, status)), clock.time)]
      ensures fresh(repr - old(repr))
    {
      if service == "" || host.None? {
        return;
      }
      var metric := HostMetrics(service, host.value, clock.time);
      MarkHost(service, host.value, Classify(netError, status), clock);
      forall s, h
        ensures Known(log, s, h) <==> Known(old(log), s, h) || (s == service && h == host.value)
      {
        KnownAppend(old(log), log[|log| - 1], s, h);
      }
    }

    /** The hosts of a service found working and those found failing, each in order: what the log gives at the
        readings of the round. */
    method CollectServiceStatus(service: string, clock: Clock)
        returns (healthy: seq<string>, unhealthy: seq<string>, ghost round: Round)
      requires Valid(clock.time) && service in registry
      modifies clock, repr`slice
      ensures old(clock.time) <= clock.time && Valid(clock.time)
      ensures round.Keys == registry[service].Keys && Timed(round, old(clock.time), clock.time)
      ensures ListsRound(healthy, round, WorksBy(CountsOf(log, windowSize), service))
      ensures ListsRound(unhealthy, round, FailsBy(CountsOf(log, windowSize), service))
    {
      healthy, unhealthy, round := [], [], map[];
      var left := registry[service].Keys;
      while left != {}
        invariant left <= registry[service].Keys
        invariant forall h :: h in registry[service] ==> (h in round <==> h !in left)
        invariant round.Keys <= registry[service].Keys
        invariant old(clock.time) <= clock.time && Valid(clock.time) && Timed(round, old(clock.time), clock.time)
        invariant SortsRound(healthy, round, WorksBy(CountsOf(log, windowSize), service))
        invariant SortsRound(unhealthy, round, FailsBy(CountsOf(log, windowSize), service))
        decreases |left|
      {
        var host :| host in left;
        healthy, unhealthy, round := CollectHost(service, host, healthy, unhealthy, clock, old(clock.time), round);
        left := left - {host};
      }
      SortAll(healthy, round, WorksBy(CountsOf(log, windowSize), service));
      SortAll(unhealthy, round, FailsBy(CountsOf(log, windowSize), service));
      healthy, unhealthy := Sort(healthy), Sort(unhealthy);
    }

    /** One turn of the loop over the hosts. */
    method CollectHost(service: string, host: string, xs: seq<string>, ys: seq<string>, clock: Clock,
                       ghost since: int, ghost sofar: Round)
        returns (healthy: seq<string>, unhealthy: seq<string>, ghost round: Round)
      requires Valid(clock.time) && Has(service, host) && host !in sofar && since <= clock.time &&
               Timed(sofar, since, clock.time)
      requires SortsRound(xs, sofar, WorksBy(CountsOf(log, windowSize), service))
      requires SortsRound(ys, sofar, FailsBy(CountsOf(log, windowSize), service))
      modifies clock, repr`slice
      ensures old(clock.time) <= clock.time && Valid(clock.time)
      ensures round.Keys == sofar.Keys + {host} && Timed(round, since, clock.time)
      ensures SortsRound(healthy, round, WorksBy(CountsOf(log, windowSize), service))
      ensures SortsRound(unhealthy, round, FailsBy(CountsOf(log, windowSize), service))
    {
      healthy, unhealthy := xs, ys;
      ghost var before := clock.time;
      var active, good;
      ghost var at;
      active, good, at := Judge(service, host, clock);
      TimedNext(sofar, since, before, host, at, clock.time);
      round := sofar[host := at];
      ghost var c := CountsOf(log, windowSize);
      VerdictOf(c, service, host, at, active, good);
      SortOne(xs, sofar, host, at, WorksBy(c, service));
      SortOne(ys, sofar, host, at, FailsBy(c, service));
      if active && good {
        healthy := healthy + [host];
      } else if active {
        unhealthy := unhealthy + [host];
      }
    }

    /** The check computed from the pruned buckets is the report of an evaluation of the full log, at the clock
        readings made on the way. */
    method HealthStatus(clock: Clock) returns (r: Report, ghost e: Evaluation)
      requires Valid(clock.time) && Exact()
      modifies clock, repr`slice
      ensures old(clock.time) <= clock.time && Valid(clock.time)
      ensures IsEvaluation(e, CountsOf(log, windowSize), old(clock.time), clock.time)
      ensures ReportOf(r, CountsOf(log, windowSize), e)
    {
      HostsAreLogged();
      if registry == map[] {
        e := map[];
        return NoReport, e;
      }
      r, e := JudgeServices(clock);
      RegistryIsEvaluation(e, old(clock.time), clock.time);
    }

    lemma HostsAreLogged()
      requires Exact() && forall s, h :: Known(log, s, h) ==> Has(s, h)
      ensures forall s, h :: (s, h) in HostsIn(log) <==> Has(s, h)
      ensures HostsIn(log) == {} <==> registry == map[]
    {
      forall s, h
        ensures (s, h) in HostsIn(log) <==> Has(s, h)
      {
        KnownIsHost(log, s, h);
      }
      if registry != map[] {
        var s :| s in registry;
        var h :| h in registry[s];
        assert Has(s, h) && (s, h) in HostsIn(log);
      }
      if p :| p in HostsIn(log) {
        assert Has(p.0, p.1);
      }
    }

    lemma RegistryIsEvaluation(e: Evaluation, t0: int, t1: int)
      requires Exact() && e.Keys == registry.Keys && TimedAll(e, t0, t1)
      requires forall s :: s in e ==> e[s].Keys == registry[s].Keys
      requires forall s, h :: (s, h) in HostsIn(log) <==> Has(s, h)
      ensures IsEvaluation(e, CountsOf(log, windowSize), t0, t1)
    {
      var c := CountsOf(log, windowSize);
      forall s
        ensures s in e <==> KnownService(c, s)
      {
        if s in e {
          var h :| h in registry[s];
          assert Has(s, h);
        }
        if h :| (s, h) in c.hosts {
          assert Has(s, h);
        }
      }
    }

    method JudgeServices(clock: Clock) returns (r: Report, ghost e: Evaluation)
      requires Valid(clock.time)
      modifies clock, repr`slice
      ensures old(clock.time) <= clock.time && Valid(clock.time) && r.Report?
      ensures TimedAll(e, old(clock.time), clock.time) && e.Keys == registry.Keys
      ensures forall s :: s in e ==> e[s].Keys == registry[s].Keys
      ensures ReportSays(r, FailingIn(CountsOf(log, windowSize), e), WorkingIn(CountsOf(log, windowSize), e))
    {
      r, e := Report(false, AllHealthy, map[]), map[];
      NothingJudged(FailingIn(CountsOf(log, windowSize), e), WorkingIn(CountsOf(log, windowSize), e));
      r, e := JudgeRest(registry.Keys, r, clock, clock.time, e);
      AllJudged(r, FailingIn(CountsOf(log, windowSize), e), WorkingIn(CountsOf(log, windowSize), e));
      if r.warning {
        r := r.(message := ServiceFailed);
      }
    }

    /** The services of an evaluation so far are registered ones with all their hosts. */
    ghost predicate Covers(e: Evaluation, left: set<string>)
      reads this
    {
      && left <= registry.Keys && e.Keys == registry.Keys - left
      && (forall s :: s in e ==> e[s].Keys == registry[s].Keys)
    }

    /** The loop over the services. */
    method JudgeRest(services: set<string>, sofar: Report, clock: Clock, ghost since: int, ghost judged: Evaluation)
        returns (r: Report, ghost e: Evaluation)
      requires Valid(clock.time) && Covers(judged, services) && since <= clock.time &&
               TimedAll(judged, since, clock.time)
      requires Judging(sofar, FailingIn(CountsOf(log, windowSize), judged),
               WorkingIn(CountsOf(log, windowSize), judged))
      modifies clock, repr`slice
      ensures old(clock.time) <= clock.time && Valid(clock.time) && Covers(e, {}) && TimedAll(e, since, clock.time)
      ensures Judging(r, FailingIn(CountsOf(log, windowSize), e), WorkingIn(CountsOf(log, windowSize), e))
    {
      r, e := sofar, judged;
      var left := services;
      while left != {}
        invariant Covers(e, left)
        invariant old(clock.time) <= clock.time && Valid(clock.time) && TimedAll(e, since, clock.time)
        invariant Judging(r, FailingIn(CountsOf(log, windowSize), e), WorkingIn(CountsOf(log, windowSize), e))
        decreases |left|
      {
        var service :| service in left;
        r, e := JudgeService(r, service, clock, since, e, left);
        left := left - {service};
      }
    }

    /** One turn of the loop over the services. */
    method JudgeService(sofar: Report, service: string, clock: Clock, ghost since: int, ghost judged: Evaluation,
        ghost left: set<string>)
        returns (r: Report, ghost e: Evaluation)
      requires Valid(clock.time) && service in left && Covers(judged, left)
      requires since <= clock.time && TimedAll(judged, since, clock.time)
      requires Judging(sofar, FailingIn(CountsOf(log, windowSize), judged),
               WorkingIn(CountsOf(log, windowSize), judged))
      modifies clock, repr`slice
      ensures old(clock.time) <= clock.time && Valid(clock.time)
      ensures Covers(e, left - {service}) && TimedAll(e, since, clock.time)
      ensures Judging(r, FailingIn(CountsOf(log, windowSize), e), WorkingIn(CountsOf(log, windowSize), e))
    {
      ghost var before := clock.time;
      var healthy, unhealthy;
      ghost var round;
      healthy, unhealthy, round := CollectServiceStatus(service, clock);
      e := judged[service := round];
      TimedAllNext(judged, since, before, service, round, clock.time);
      RoundJudged(CountsOf(log, windowSize), judged, service, round, sofar, healthy, unhealthy);
      r := sofar;
      if unhealthy != [] {
        r := Report(r.warning || healthy == [], SomeImpaired, r.params[service := unhealthy]);
      }
    }
  }

  // ---------------------------------------------------------------- lists

  /** Which readings find a host of a service working, or failing. */
  ghost function WorksBy(c: Counts, s: string): (string, Readings) -> bool {
    (h, at) => FoundWorking(c, s, h, at)
  }

  ghost function FailsBy(c: Counts, s: string): (string, Readings) -> bool {
    (h, at) => FoundFailing(c, s, h, at)
  }

  /** The hosts of a round that pass, each once. */
  ghost predicate SortsRound(xs: seq<string>, round: Round, passes: (string, Readings) -> bool) {
    NoDuplicates(xs) && forall h :: h in xs <==> h in round && passes(h, round[h])
  }

  ghost predicate ListsRound(xs: seq<string>, round: Round, passes: (string, Readings) -> bool) {
    Sorted(xs) && SortsRound(xs, round, passes)
  }

  lemma SortOne(xs: seq<string>, round: Round, h: string, at: Readings, passes: (string, Readings) -> bool)
    requires SortsRound(xs, round, passes) && h !in round
    ensures SortsRound(if passes(h, at) then xs + [h] else xs, round[h := at], passes)
  {
  }

  lemma SortAll(xs: seq<string>, round: Round, passes: (string, Readings) -> bool)
    requires SortsRound(xs, round, passes)
    ensures ListsRound(Sort(xs), round, passes)
  {
    SortKeepsSet(xs);
  }

  lemma VerdictOf(c: Counts, s: string, h: string, at: Readings, active: bool, healthy: bool)
    requires Judged(c, s, h, at, active, healthy)
    ensures WorksBy(c, s)(h, at) <==> active && healthy
    ensures FailsBy(c, s)(h, at) <==> active && !healthy
  {
  }

  lemma RoundJudged(c: Counts, e: Evaluation, s: string, round: Round, r: Report, healthy: seq<string>,
      unhealthy: seq<string>)
    requires s !in e && Judging(r, FailingIn(c, e), WorkingIn(c, e))
    requires ListsRound(healthy, round, WorksBy(c, s)) && ListsRound(unhealthy, round, FailsBy(c, s))
    ensures var e' := e[s := round];
      Judging(if unhealthy == [] then r else Report(r.warning || healthy == [], SomeImpaired, r.params[s := unhealthy]),
              FailingIn(c, e'), WorkingIn(c, e'))
  {
    var e' := e[s := round];
    RoundLists(c, e, s, round, healthy, unhealthy);
    JudgeOne(r, FailingIn(c, e), WorkingIn(c, e), FailingIn(c, e'), WorkingIn(c, e'), s, healthy, unhealthy);
  }

  lemma RoundLists(c: Counts, e: Evaluation, s: string, round: Round, healthy: seq<string>, unhealthy: seq<string>)
    requires s !in e && ListsRound(healthy, round, WorksBy(c, s)) && ListsRound(unhealthy, round, FailsBy(c, s))
    ensures var e' := e[s := round];
      && Lists(healthy, WorkingIn(c, e'), s) && Lists(unhealthy, FailingIn(c, e'), s)
      && Extends(FailingIn(c, e), FailingIn(c, e'), s) && Extends(WorkingIn(c, e), WorkingIn(c, e'), s)
  {
    forall h
      ensures h in healthy <==> h in round && FoundWorking(c, s, h, round[h])
      ensures h in unhealthy <==> h in round && FoundFailing(c, s, h, round[h])
    {
      assert h in round ==> (WorksBy(c, s)(h, round[h]) <==> FoundWorking(c, s, h, round[h]));
      assert h in round ==> (FailsBy(c, s)(h, round[h]) <==> FoundFailing(c, s, h, round[h]));
    }
  }
}
