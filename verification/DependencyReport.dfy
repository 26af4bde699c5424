/** The report of the dependency check, as a function of which hosts are found failing and which working
    (witchcraft/internal/dependencyhealth/healthcheck.go:90-124). */
module DependencyReport {
  import opened Strings

  datatype Message = AllHealthy | SomeImpaired | ServiceFailed

  datatype Report = NoReport | Report(warning: bool, message: Message, params: map<string, seq<string>>)

  /** Which host of which service is found in some state. */
  type Finding = (string, string) -> bool

  ghost predicate Any(found: Finding, s: string) {
    exists h :: found(s, h)
  }

  /** A service with a failing host and no working one. */
  ghost predicate Failed(failing: Finding, working: Finding, s: string) {
    Any(failing, s) && !Any(working, s)
  }

  ghost predicate AnyFailed(failing: Finding, working: Finding) {
    exists s :: Failed(failing, working, s)
  }

  /** The hosts found in some state, each once and in order. */
  ghost predicate Lists(hosts: seq<string>, found: Finding, s: string) {
    Sorted(hosts) && NoDuplicates(hosts) && forall h :: h in hosts <==> found(s, h)
  }

  /** A WARNING exactly when some service has a failing host and no working one; the parameters list the failing
      hosts of exactly the services that have any. */
  ghost predicate ReportSays(r: Report, failing: Finding, working: Finding) {
    r.Report? ==>
      && (r.warning <==> AnyFailed(failing, working))
      && (r.message == ServiceFailed <==> r.warning)
      && (r.message == AllHealthy <==> r.params == map[])
      && (forall s :: s in r.params <==> Any(failing, s))
      && (forall s :: s in r.params ==> Lists(r.params[s], failing, s))
  }

  /** The report says the same of two sets of findings exactly when the same hosts fail and a WARNING is due for
      both or neither. */
  lemma SameReport(r: Report, f: Finding, w: Finding, f': Finding, w': Finding)
    requires r.Report? && ReportSays(r, f, w)
    ensures ReportSays(r, f', w') <==> (forall s, h :: f(s, h) == f'(s, h)) && (AnyFailed(f, w) <==> AnyFailed(f', w'))
  {
    if ReportSays(r, f', w') {
      forall s, h
        ensures f(s, h) == f'(s, h)
      {
        assert s in r.params <==> Any(f, s);
        assert s in r.params <==> Any(f', s);
      }
    } else if forall s, h :: f(s, h) == f'(s, h) {
      assert forall s :: Any(f, s) == Any(f', s);
      assert forall s, hosts :: Lists(hosts, f, s) == Lists(hosts, f', s);
    }
  }

  /** The report while services are still being judged: the message is not final. */
  ghost predicate Judging(r: Report, failing: Finding, working: Finding) {
    && r.Report?
    && (r.warning <==> AnyFailed(failing, working))
    && r.message == (if r.params == map[] then AllHealthy else SomeImpaired)
    && (forall s :: s in r.params <==> Any(failing, s))
    && (forall s :: s in r.params ==> Lists(r.params[s], failing, s))
  }

  /** The findings with those of one more service. */
  ghost predicate Extends(f: Finding, f': Finding, s: string) {
    (forall h :: !f(s, h)) && forall x, h :: x != s ==> f'(x, h) == f(x, h)
  }

  lemma ListedIsAny(hosts: seq<string>, found: Finding, s: string)
    requires Lists(hosts, found, s)
    ensures hosts == [] <==> !Any(found, s)
  {
    if hosts != [] {
      assert hosts[0] in hosts;
    }
  }

  lemma OthersStay(f: Finding, f': Finding, s: string, x: string)
    requires Extends(f, f', s) && x != s
    ensures Any(f', x) <==> Any(f, x)
    ensures forall hosts :: Lists(hosts, f', x) <==> Lists(hosts, f, x)
  {
    assert forall h :: f'(x, h) == f(x, h);
  }

  /** One more service is judged. */
  lemma JudgeOne(r: Report, f: Finding, w: Finding, f': Finding, w': Finding, s: string, healthy: seq<string>,
      unhealthy: seq<string>)
    requires Judging(r, f, w) && Extends(f, f', s) && Extends(w, w', s)
    requires Lists(healthy, w', s) && Lists(unhealthy, f', s)
    ensures Judging(if unhealthy == [] then r
            else Report(r.warning || healthy == [], SomeImpaired, r.params[s := unhealthy]), f', w')
  {
    ListedIsAny(healthy, w', s);
    ListedIsAny(unhealthy, f', s);
    forall x | x != s
      ensures Any(f', x) <==> Any(f, x)
      ensures Any(w', x) <==> Any(w, x)
      ensures forall hosts :: Lists(hosts, f', x) <==> Lists(hosts, f, x)
    {
      OthersStay(f, f', s, x);
      OthersStay(w, w', s, x);
    }
    assert !Any(f, s);
    WarningGrows(f, w, f', w', s);
    if unhealthy != [] {
      var params := r.params[s := unhealthy];
      assert s in params;
    }
  }

  lemma WarningGrows(f: Finding, w: Finding, f': Finding, w': Finding, s: string)
    requires !Any(f, s) && forall x :: x != s ==> (Any(f', x) <==> Any(f, x)) && (Any(w', x) <==> Any(w, x))
    ensures AnyFailed(f', w') <==> AnyFailed(f, w) || Failed(f', w', s)
  {
    if x :| Failed(f, w, x) {
      assert Failed(f', w', x);
    }
    if x :| Failed(f', w', x) {
      assert x != s ==> Failed(f, w, x);
    }
  }

  lemma NothingJudged(f: Finding, w: Finding)
    requires forall s, h :: !f(s, h)
    ensures Judging(Report(false, AllHealthy, map[]), f, w)
  {
  }

  /** When all services are judged the message becomes final. */
  lemma AllJudged(r: Report, f: Finding, w: Finding)
    requires Judging(r, f, w)
    ensures ReportSays(if r.warning then r.(message := ServiceFailed) else r, f, w)
  {
    if r.warning {
      var s :| Failed(f, w, s);
      assert s in r.params;
    }
  }
}
