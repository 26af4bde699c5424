/** The ENDPOINT_FIVE_HUNDREDS health check: a shifting array of window flags per endpoint
    (witchcraft/internal/middleware/endpoint_five_hundreds.go). */
module FiveHundreds {
  import opened Options
  import opened Strings

  // ---------------------------------------------------------------- the full history

  datatype Event = Responded(endpoint: string, code: int) | Tick

  /** A 500 or a code below 400; every other code is ignored. */
  predicate Decisive(ev: Event, e: string) {
    ev.Responded? && ev.endpoint == e && (ev.code == 500 || ev.code < 400)
  }

  /** In the window at the end of the log, the last decisive response of e was a 500. */
  ghost predicate WindowFailed(log: seq<Event>, e: string) {
    exists i :: 0 <= i < |log| && log[i] == Responded(e, 500) &&
                forall j :: i < j < |log| ==> log[j] != Tick && !Decisive(log[j], e)
  }

  /** The log up to the k-th tick from its end. */
  function Before(log: seq<Event>, k: nat): Option<seq<Event>>
    decreases |log|
  {
    if k == 0 then Some(log)
    else if log == [] then None
    else Before(log[..|log| - 1], if log[|log| - 1] == Tick then k - 1 else k)
  }

  /** There is a k-th completed window from the end, and it failed. */
  ghost predicate CompletedFailed(log: seq<Event>, k: nat, e: string) {
    Before(log, k).Some? && WindowFailed(Before(log, k).value, e)
  }

  /** Each of the last five completed windows failed. */
  ghost predicate InError(log: seq<Event>, e: string) {
    forall k :: 1 <= k <= WINDOW_COUNT ==> CompletedFailed(log, k, e)
  }

  const WINDOW_COUNT := 5

  ghost predicate EverSucceeded(log: seq<Event>, e: string) {
    exists i :: 0 <= i < |log| && log[i].Responded? && log[i].endpoint == e && log[i].code < 400
  }

  ghost predicate Called(log: seq<Event>, e: string) {
    exists i :: 0 <= i < |log| && log[i].Responded? && log[i].endpoint == e
  }

  /** The flags of an endpoint say what the log says: flag 0 is the running window, flag k the k-th
      completed one. */
  ghost predicate Reflects(w: seq<bool>, hadSuccess: bool, log: seq<Event>, e: string) {
    && |w| == 1 + WINDOW_COUNT
    && (forall k :: 0 <= k <= WINDOW_COUNT ==> (w[k] <==> CompletedFailed(log, k, e)))
    && (hadSuccess <==> EverSucceeded(log, e))
  }

  lemma WindowAppend(log: seq<Event>, ev: Event, e: string)
    ensures WindowFailed(log + [ev], e) <==>
            ev == Responded(e, 500) || (ev != Tick && !Decisive(ev, e) && WindowFailed(log, e))
  {
    var longer := log + [ev];
    assert forall i :: 0 <= i < |log| ==> longer[i] == log[i];
    assert longer[|log|] == ev;
    if i :| 0 <= i < |log| && log[i] == Responded(e, 500) && forall j :: i < j < |log| ==>
        log[j] != Tick && !Decisive(log[j], e) {
      if ev != Tick && !Decisive(ev, e) {
        assert longer[i] == Responded(e, 500);
      }
    }
    if i :| 0 <= i < |longer| && longer[i] == Responded(e, 500) && forall j :: i < j < |longer| ==>
        longer[j] != Tick && !Decisive(longer[j], e) {
      if i < |log| {
        assert log[i] == Responded(e, 500) && longer[|log|] == ev;
      }
    }
  }

  lemma BeforeAppend(log: seq<Event>, ev: Event, k: nat)
    ensures Before(log + [ev], k) == if k == 0 then Some(log + [ev]) else Before(log, if ev == Tick then k - 1 else k)
  {
  }

  lemma SuccessAppend(log: seq<Event>, ev: Event, e: string)
    ensures EverSucceeded(log + [ev], e) <==>
                EverSucceeded(log, e) || (ev.Responded? && ev.endpoint == e && ev.code < 400)
    ensures Called(log + [ev], e) <==> Called(log, e) || (ev.Responded? && ev.endpoint == e)
  {
    var longer := log + [ev];
    assert forall i :: 0 <= i < |log| ==> longer[i] == log[i];
    assert longer[|log|] == ev;
  }

  // ---------------------------------------------------------------- the flag against its documentation

  /** A 500 of e occurred in the window at the end of the log, which is what the flag is documented to say. */
  ghost predicate WindowHolds500(log: seq<Event>, e: string) {
    exists i :: 0 <= i < |log| && log[i] == Responded(e, 500) && forall j :: i < j < |log| ==> log[j] != Tick
  }

  predicate Succeeds(ev: Event, e: string) {
    ev.Responded? && ev.endpoint == e && ev.code < 400
  }

  /** i is the last 500 of e in the window at the end of the log. */
  ghost predicate LastFailure(log: seq<Event>, e: string, i: int) {
    0 <= i < |log| && log[i] == Responded(e, 500) && forall j :: i < j < |log| ==>
        log[j] != Tick && log[j] != Responded(e, 500)
  }

  /** A code below 400 follows the last 500 of the window. */
  ghost predicate RecoversInWindow(log: seq<Event>, e: string) {
    exists i, j :: LastFailure(log, e, i) && i < j < |log| && Succeeds(log[j], e)
  }

  lemma {:induction false} LastFailureExists(log: seq<Event>, e: string, from: nat)
    requires from < |log| && log[from] == Responded(e, 500) && forall j :: from < j < |log| ==> log[j] != Tick
    ensures exists i :: LastFailure(log, e, i)
    decreases |log| - from
  {
    if j :| from < j < |log| && log[j] == Responded(e, 500) {
      LastFailureExists(log, e, j);
    } else {
      assert LastFailure(log, e, from);
    }
  }

  /** The flag of a window is raised exactly when a 500 occurred in it and no code below 400 followed the last
      one; so a raised flag means what it is documented to mean, and a lowered one may not. */
  lemma FlagAgainst500(log: seq<Event>, e: string)
    ensures WindowFailed(log, e) ==> WindowHolds500(log, e)
    ensures WindowHolds500(log, e) ==> (!WindowFailed(log, e) <==> RecoversInWindow(log, e))
  {
    if WindowHolds500(log, e) {
      var from :| 0 <= from < |log| && log[from] == Responded(e, 500) && forall j :: from < j < |log| ==>
          log[j] != Tick;
      LastFailureExists(log, e, from);
      var i :| LastFailure(log, e, i);
      assert forall k :: LastFailure(log, e, k) ==> k == i;
      if j :| i < j < |log| && Succeeds(log[j], e) {
        assert RecoversInWindow(log, e);
        assert Decisive(log[j], e);
      } else {
        assert forall j :: i < j < |log| ==> !Decisive(log[j], e);
      }
    }
  }

  /** e answered with a code other than 500, which is what its success is documented to be. */
  ghost predicate AnsweredOther(log: seq<Event>, e: string) {
    exists i :: 0 <= i < |log| && log[i].Responded? && log[i].endpoint == e && log[i].code != 500
  }

  ghost predicate OnlyErrors(log: seq<Event>, e: string) {
    forall i :: 0 <= i < |log| && log[i].Responded? && log[i].endpoint == e ==> log[i].code >= 400
  }

  /** What the check lists as broken. */
  ghost predicate Broken(log: seq<Event>, e: string) {
    InError(log, e) && !EverSucceeded(log, e)
  }

  /** An endpoint that has answered with another code than 500 is listed as broken all the same exactly when it is in
      error and every code it ever answered with is 400 or more. */
  lemma BrokenAgainst500(log: seq<Event>, e: string)
    ensures EverSucceeded(log, e) ==> AnsweredOther(log, e)
    ensures AnsweredOther(log, e) ==> (Broken(log, e) <==> InError(log, e) && OnlyErrors(log, e))
  {
  }

  /** A 500 followed by a success: the window holds a 500 and its flag is down. */
  lemma LoweredFlagHappens(e: string)
    ensures var log := [Responded(e, 500), Responded(e, 200)];
      WindowHolds500(log, e) && !WindowFailed(log, e)
  {
    var log := [Responded(e, 500), Responded(e, 200)];
    assert log[0] == Responded(e, 500) && log[1] == Responded(e, 200);
    assert Decisive(log[1], e);
  }

  /** The flags after a response. */
  function AfterResponse(w: seq<bool>, code: int): seq<bool>
    requires |w| > 0
  {
    if code == 500 then w[0 := true] else if code < 400 then w[0 := false] else w
  }

  /** Every flag moves one window back and a fresh window begins. */
  function Shifted(w: seq<bool>): seq<bool>
    requires |w| > 0
  {
    [false] + w[..|w| - 1]
  }

  lemma ResponseReflects(w: seq<bool>, hadSuccess: bool, log: seq<Event>, e: string, ev: Event)
    requires Reflects(w, hadSuccess, log, e) && ev.Responded?
    ensures if ev.endpoint == e then Reflects(AfterResponse(w, ev.code), hadSuccess || ev.code < 400, log + [ev], e)
            else Reflects(w, hadSuccess, log + [ev], e)
  {
    SuccessAppend(log, ev, e);
    WindowAppend(log, ev, e);
    forall k: nat | k <= WINDOW_COUNT
      ensures CompletedFailed(log + [ev], k, e) <==> if k == 0 then WindowFailed(log + [ev], e)
              else CompletedFailed(log, k, e)
    {
      BeforeAppend(log, ev, k);
    }
    assert w[0] <==> CompletedFailed(log, 0, e);
  }

  lemma TickReflects(w: seq<bool>, hadSuccess: bool, log: seq<Event>, e: string)
    requires Reflects(w, hadSuccess, log, e)
    ensures Reflects(Shifted(w), hadSuccess, log + [Tick], e)
  {
    SuccessAppend(log, Tick, e);
    WindowAppend(log, Tick, e);
    forall k: nat | k <= WINDOW_COUNT
      ensures CompletedFailed(log + [Tick], k, e) <==> if k == 0 then false else CompletedFailed(log, k - 1, e)
    {
      BeforeAppend(log, Tick, k);
    }
  }

  lemma {:induction false} BeforeIsPrefix(log: seq<Event>, k: nat)
    ensures Before(log, k).Some? ==> Before(log, k).value <= log
    decreases |log|
  {
    if k > 0 && log != [] {
      BeforeIsPrefix(log[..|log| - 1], if log[|log| - 1] == Tick then k - 1 else k);
    }
  }

  /** An endpoint that was never called has all flags down. */
  lemma UncalledReflects(log: seq<Event>, e: string)
    requires !Called(log, e)
    ensures Reflects(seq(1 + WINDOW_COUNT, i => false), false, log, e)
  {
    forall k: nat
      ensures !CompletedFailed(log, k, e)
    {
      BeforeIsPrefix(log, k);
      assert Before(log, k).Some? ==> forall i :: 0 <= i < |Before(log, k).value| ==> Before(log, k).value[i] == log[i];
    }
  }

  /** A log, and then n windows that end in a 500 of e. */
  function ThenFailing(log: seq<Event>, e: string, n: nat): seq<Event> {
    if n == 0 then log else ThenFailing(log, e, n - 1) + [Responded(e, 500)] + [Tick]
  }

  /** The last n completed windows have failed, and the ones before are those of the log. */
  lemma {:induction false} ThenFailingWindows(log: seq<Event>, e: string, n: nat, k: nat)
    requires k > 0
    ensures CompletedFailed(ThenFailing(log, e, n), k, e) <==> k <= n || CompletedFailed(log, k - n, e)
    decreases n
  {
    if n > 0 {
      var before := ThenFailing(log, e, n - 1);
      WindowAppend(before, Responded(e, 500), e);
      BeforeAppend(before + [Responded(e, 500)], Tick, k);
      BeforeAppend(before, Responded(e, 500), k - 1);
      if k > 1 {
        ThenFailingWindows(log, e, n - 1, k - 1);
      }
    }
  }

  /** In any log, an endpoint is in error if and only if each of the five windows that the last five ticks completed
      is there and its last decisive response was a 500. */
  lemma ErrorIsFiveWindows(log: seq<Event>, e: string)
    ensures InError(log, e) <==>
            && Before(log, 1).Some? && WindowFailed(Before(log, 1).value, e)
            && Before(log, 2).Some? && WindowFailed(Before(log, 2).value, e)
            && Before(log, 3).Some? && WindowFailed(Before(log, 3).value, e)
            && Before(log, 4).Some? && WindowFailed(Before(log, 4).value, e)
            && Before(log, 5).Some? && WindowFailed(Before(log, 5).value, e)
  {
    if InError(log, e) {
      assert CompletedFailed(log, 1, e) && CompletedFailed(log, 2, e) && CompletedFailed(log, 3, e);
      assert CompletedFailed(log, 4, e) && CompletedFailed(log, 5, e);
    }
  }

  /** After any log and a window that ended well, four failed windows do not make an error and five do. */
  lemma FiveInARow(log: seq<Event>, e: string, n: nat)
    ensures InError(ThenFailing(log + [Responded(e, 200)] + [Tick], e, n), e) <==> n >= 5
  {
    var well := log + [Responded(e, 200)];
    var after := ThenFailing(well + [Tick], e, n);
    WindowAppend(log, Responded(e, 200), e);
    BeforeAppend(well, Tick, 1);
    assert !CompletedFailed(well + [Tick], 1, e);
    forall k: nat | 1 <= k
      ensures CompletedFailed(after, k, e) <==> k <= n || CompletedFailed(well + [Tick], k - n, e)
    {
      ThenFailingWindows(well + [Tick], e, n, k);
    }
    if n < 5 {
      assert !CompletedFailed(after, n + 1, e);
    }
  }

  /** An endpoint that answered with a 404 is listed as broken. */
  lemma BrokenAfter404(e: string)
    ensures var log := ThenFailing([Responded(e, 404)], e, 5); Broken(log, e) && AnsweredOther(log, e)
  {
    var log := ThenFailing([Responded(e, 404)], e, 5);
    forall k: nat | 1 <= k <= 5
      ensures CompletedFailed(log, k, e)
    {
      ThenFailingWindows([Responded(e, 404)], e, 5, k);
    }
    ThenFailingAnswers([Responded(e, 404)], e, 5);
    assert [Responded(e, 404)][0] == Responded(e, 404) && log[0] == Responded(e, 404);
  }

  lemma {:induction false} ThenFailingAnswers(log: seq<Event>, e: string, n: nat)
    ensures log <= ThenFailing(log, e, n)
    ensures EverSucceeded(ThenFailing(log, e, n), e) <==> EverSucceeded(log, e)
  {
    if n > 0 {
      ThenFailingAnswers(log, e, n - 1);
      SuccessAppend(ThenFailing(log, e, n - 1), Responded(e, 500), e);
      SuccessAppend(ThenFailing(log, e, n - 1) + [Responded(e, 500)], Tick, e);
    }
  }

  // ---------------------------------------------------------------- one endpoint

  class EndpointStatus {
    const windows: array<bool>
    var hadSuccessEver: bool
    ghost const name: string

    constructor (ghost name: string)
      ensures fresh(windows) && windows.Length == 1 + WINDOW_COUNT && this.name == name
      ensures windows[..] == seq(1 + WINDOW_COUNT, i => false) && !hadSuccessEver
    {
      this.name := name;
      windows := new bool[1 + WINDOW_COUNT](i => false);
      hadSuccessEver := false;
    }

    method MarkError()
      requires windows.Length == 1 + WINDOW_COUNT
      modifies windows
      ensures windows[..] == old(windows[..])[0 := true]
    {
      windows[0] := true;
    }

    method MarkSuccess()
      requires windows.Length == 1 + WINDOW_COUNT
      modifies windows, this`hadSuccessEver
      ensures windows[..] == old(windows[..])[0 := false] && hadSuccessEver
    {
      windows[0] := false;
      hadSuccessEver := true;
    }

    method IsError() returns (error: bool)
      requires windows.Length == 1 + WINDOW_COUNT
      ensures error <==> forall k :: 1 <= k <= WINDOW_COUNT ==> windows[k]
    {
      var i := 1;
      while i < windows.Length
        invariant 1 <= i <= windows.Length
        invariant forall k :: 1 <= k < i ==> windows[k]
      {
        if !windows[i] {
          return false;
        }
        i := i + 1;
      }
      return true;
    }

    /** The in-place shift, from the far end down. */
    method Shift()
      requires windows.Length == 1 + WINDOW_COUNT
      modifies windows
      ensures windows[..] == Shifted(old(windows[..]))
    {
      var i := windows.Length - 1;
      while i > 0
        invariant 0 <= i < windows.Length
        invariant forall k :: 0 <= k <= i ==> windows[k] == old(windows[k])
        invariant forall k :: i < k < windows.Length ==> windows[k] == old(windows[k - 1])
      {
        windows[i] := windows[i - 1];
        i := i - 1;
      }
      windows[0] := false;
    }
  }

  // ---------------------------------------------------------------- the check

  datatype Status =
    | NoStatus
    | Fine
    | Trouble(warning: bool, mentionsBroken: bool, broken: seq<string>, failing: seq<string>)

  ghost predicate Lists(xs: seq<string>, members: set<string>) {
    Sorted(xs) && NoDuplicates(xs) && forall e :: e in xs <==> e in members
  }

  /** The status the full history calls for: trouble when an endpoint is in error, with the endpoints in
      error listed as broken when they never succeeded and as failing otherwise. */
  ghost predicate StatusOf(log: seq<Event>, alwaysHealthy: bool, r: Status) {
    && (r.NoStatus? <==> forall e :: !Called(log, e))
    && (r.Trouble? <==> exists e :: InError(log, e))
    && (r.Trouble? ==>
          && r.warning == !alwaysHealthy
          && Sorted(r.broken) && NoDuplicates(r.broken) && Sorted(r.failing) && NoDuplicates(r.failing)
          && (forall e :: e in r.broken <==> InError(log, e) && !EverSucceeded(log, e))
          && (forall e :: e in r.failing <==> InError(log, e) && EverSucceeded(log, e))
          && (r.mentionsBroken <==> r.broken != []))
  }

  class EndpointHealthCheck {
    var endpoints: map<string, EndpointStatus>
    const alwaysHealthy: bool
    ghost var log: seq<Event>      // every response and tick so far
    ghost var statuses: set<EndpointStatus>
    ghost var arrays: set<array<bool>>

    constructor (alwaysHealthy: bool)
      ensures Valid() && log == [] && statuses == {} && arrays == {} && this.alwaysHealthy == alwaysHealthy
    {
      this.alwaysHealthy := alwaysHealthy;
      endpoints, log, statuses, arrays := map[], [], {}, {};
    }

    ghost predicate Owns(e: string)
      requires e in endpoints
      reads this
    {
      var s := endpoints[e];
      s.name == e && s in statuses && s.windows in arrays && s.windows.Length == 1 + WINDOW_COUNT
    }

    ghost predicate EndpointOk(e: string, upTo: seq<Event>)
      requires e in endpoints
      reads this, statuses, arrays
    {
      Owns(e) && Reflects(endpoints[e].windows[..], endpoints[e].hadSuccessEver, upTo, e)
    }

    ghost predicate Separate()
      reads this
    {
      && (forall e :: e in endpoints ==> Owns(e))
      && (forall e1, e2 :: e1 in endpoints && e2 in endpoints && e1 != e2 ==>
          endpoints[e1].windows != endpoints[e2].windows)
    }

    ghost predicate Valid()
      reads this, statuses, arrays
    {
      && Separate()
      && (forall e :: e in endpoints ==> EndpointOk(e, log))
      && (forall e :: e in endpoints <==> Called(log, e))
    }

    /** Finds the status of an endpoint or stores a new one, then marks it. */
    method MarkResponse(endpoint: string, code: int)
      requires Valid()
      modifies this`endpoints, this`log, this`statuses, this`arrays, statuses, arrays
      ensures Valid() && log == old(log) + [Responded(endpoint, code)]
      ensures fresh(statuses - old(statuses)) && fresh(arrays - old(arrays))
    {
      LoadOrStore(endpoint);
      Mark(endpoint, code);
    }

    ghost predicate AllOk()
      reads this, statuses, arrays
    {
      Separate() && forall e :: e in endpoints ==> EndpointOk(e, log)
    }

    method LoadOrStore(endpoint: string)
      requires Valid()
      modifies this`endpoints, this`statuses, this`arrays
      ensures AllOk() && endpoints.Keys == old(endpoints).Keys + {endpoint}
      ensures fresh(statuses - old(statuses)) && fresh(arrays - old(arrays))
    {
      if endpoint in endpoints {
        return;
      }
      UncalledReflects(log, endpoint);
      var added := new EndpointStatus(endpoint);
      endpoints := endpoints[endpoint := added];
      statuses, arrays := statuses + {added}, arrays + {added.windows};
      forall e | e in endpoints
        ensures EndpointOk(e, log)
      {
        assert e != endpoint ==> old(EndpointOk(e, log));
      }
    }

    method Mark(endpoint: string, code: int)
      requires endpoint in endpoints && AllOk()
      requires forall e :: e in endpoints <==> Called(log, e) || e == endpoint
      modifies this`log, statuses, arrays
      ensures Valid() && log == old(log) + [Responded(endpoint, code)]
    {
      var status, ev := endpoints[endpoint], Responded(endpoint, code);
      if code == 500 {
        status.MarkError();
      } else if code < 400 {
        status.MarkSuccess();
      }
      log := log + [ev];
      forall e | e in endpoints
        ensures EndpointOk(e, log)
      {
        assert old(EndpointOk(e, log));
        ResponseReflects(old(endpoints[e].windows[..]), old(endpoints[e].hadSuccessEver), old(log), e, ev);
      }
      forall e
        ensures Called(log, e) <==> e in endpoints
      {
        SuccessAppend(old(log), ev, e);
      }
    }

    /** Shifts the windows of every endpoint. */
    method ShiftWindow()
      requires Valid()
      modifies this`log, statuses, arrays
      ensures Valid() && log == old(log) + [Tick]
    {
      ShiftAll();
      RecordTick();
    }

    /** The loop over the endpoints. */
    method ShiftAll()
      requires AllOk()
      modifies arrays
      ensures Shifting({})
    {
      var left := endpoints.Keys;
      while left != {}
        invariant left <= endpoints.Keys && Shifting(left)
        decreases |left|
      {
        var e :| e in left;
        ShiftOne(e, left);
        left := left - {e};
      }
    }

    ghost method RecordTick()
      requires Shifting({}) && forall e :: e in endpoints <==> Called(log, e)
      modifies this`log
      ensures Valid() && log == old(log) + [Tick]
    {
      forall e
        ensures Called(log + [Tick], e) <==> Called(log, e)
      {
        SuccessAppend(log, Tick, e);
      }
      assert forall e :: e in endpoints ==> EndpointOk(e, log + [Tick]);
      log := log + [Tick];
      assert forall e :: e in endpoints ==> old(EndpointOk(e, log + [Tick])) ==> EndpointOk(e, log);
    }

    /** The endpoints in left have yet to see the tick. */
    ghost predicate Shifting(left: set<string>)
      reads this, statuses, arrays
    {
      Separate() && forall e :: e in endpoints ==> EndpointOk(e, if e in left then log else log + [Tick])
    }

    method ShiftOne(e: string, ghost left: set<string>)
      requires e in endpoints && e in left && Shifting(left)
      modifies arrays
      ensures Shifting(left - {e})
    {
      assert EndpointOk(e, log);
      endpoints[e].Shift();
      TickReflects(old(endpoints[e].windows[..]), endpoints[e].hadSuccessEver, log, e);
      forall x | x in endpoints
        ensures EndpointOk(x, if x in left - {e} then log else log + [Tick])
      {
        assert x != e ==> old(EndpointOk(x, if x in left then log else log + [Tick]));
      }
    }

    /** Whether an endpoint is in error and has ever succeeded. */
    method Judge(e: string) returns (error: bool, hadSuccess: bool)
      requires Valid() && e in endpoints
      ensures error <==> InError(log, e)
      ensures hadSuccess <==> EverSucceeded(log, e)
    {
      var status := endpoints[e];
      assert EndpointOk(e, log);
      error := status.IsError();
      assert forall k :: 1 <= k <= WINDOW_COUNT ==> status.windows[k] == status.windows[..][k];
      hadSuccess := status.hadSuccessEver;
    }

    /** The endpoints in error without, and with, any earlier success. */
    ghost function Broken(): set<string>
      reads this
    {
      set e | e in endpoints.Keys && InError(log, e) && !EverSucceeded(log, e)
    }

    ghost function Failing(): set<string>
      reads this
    {
      set e | e in endpoints.Keys && InError(log, e) && EverSucceeded(log, e)
    }

    /** Puts one endpoint on the list it belongs to, if any. */
    method CollectOne(e: string, xs: seq<string>, ys: seq<string>, ghost seen: set<string>)
        returns (broken: seq<string>, failing: seq<string>)
      requires Valid() && e in endpoints && e !in seen && Splitting(xs, ys, seen, Broken(), Failing())
      ensures Splitting(broken, failing, seen + {e}, Broken(), Failing())
    {
      broken, failing := xs, ys;
      var error, hadSuccess := Judge(e);
      SplitOne(xs, ys, seen, e, Broken(), Failing());
      if error {
        if hadSuccess {
          failing := failing + [e];
        } else {
          broken := broken + [e];
        }
      }
    }

    /** Collects them, each list in order. */
    method CollectErrors() returns (broken: seq<string>, failing: seq<string>)
      requires Valid()
      ensures Lists(broken, Broken()) && Lists(failing, Failing())
    {
      broken, failing := [], [];
      var left := endpoints.Keys;
      ghost var seen: set<string> := {};
      while left != {}
        invariant left <= endpoints.Keys && forall e :: e in endpoints ==> (e in seen <==> e !in left)
        invariant Splitting(broken, failing, seen, Broken(), Failing())
        decreases |left|
      {
        var e :| e in left;
        broken, failing := CollectOne(e, broken, failing, seen);
        left, seen := left - {e}, seen + {e};
      }
      SortKeepsSet(broken);
      SortKeepsSet(failing);
      broken, failing := Sort(broken), Sort(failing);
    }

    /** The status computed from the window arrays is the one the full history calls for. */
    method CurrentStatus() returns (r: Status)
      requires Valid()
      ensures StatusOf(log, alwaysHealthy, r)
    {
      var broken, failing := CollectErrors();
      ErrorsAreCalled(log);
      ListsSettle(log, endpoints.Keys, broken, failing, alwaysHealthy);
      if endpoints.Keys == {} {
        r := NoStatus;
      } else if |failing| > 0 || |broken| > 0 {
        r := Trouble(!alwaysHealthy, |broken| > 0, broken, failing);
      } else {
        r := Fine;
      }
    }
  }

  lemma ErrorsAreCalled(log: seq<Event>)
    ensures forall e :: InError(log, e) ==> Called(log, e)
  {
    forall e | InError(log, e)
      ensures Called(log, e)
    {
      assert CompletedFailed(log, 1, e);
      BeforeIsPrefix(log, 1);
      assert forall i :: 0 <= i < |Before(log, 1).value| ==> Before(log, 1).value[i] == log[i];
    }
  }

  /** The two lists and the set of called endpoints settle the status. */
  lemma ListsSettle(log: seq<Event>, called: set<string>, broken: seq<string>, failing: seq<string>,
      alwaysHealthy: bool)
    requires forall e :: e in called <==> Called(log, e)
    requires forall e :: InError(log, e) ==> Called(log, e)
    requires Lists(broken, set e | e in called && InError(log, e) && !EverSucceeded(log, e))
    requires Lists(failing, set e | e in called && InError(log, e) && EverSucceeded(log, e))
    ensures StatusOf(log, alwaysHealthy,
                     if called == {} then NoStatus
                     else if |failing| > 0 || |broken| > 0 then Trouble(!alwaysHealthy, |broken| > 0, broken, failing)
                     else Fine)
  {
    assert forall e :: e in broken <==> InError(log, e) && !EverSucceeded(log, e);
    assert forall e :: e in failing <==> InError(log, e) && EverSucceeded(log, e);
    if |failing| > 0 {
      assert failing[0] in failing;
    }
    if |broken| > 0 {
      assert broken[0] in broken;
    }
  }

  ghost predicate Splitting(xs: seq<string>, ys: seq<string>, seen: set<string>, inXs: set<string>, inYs: set<string>) {
    && NoDuplicates(xs) && NoDuplicates(ys)
    && (forall e :: e in xs <==> e in seen && e in inXs)
    && (forall e :: e in ys <==> e in seen && e in inYs)
  }

  lemma SplitOne(xs: seq<string>, ys: seq<string>, seen: set<string>, x: string, inXs: set<string>, inYs: set<string>)
    requires Splitting(xs, ys, seen, inXs, inYs) && x !in seen
    ensures Splitting(if x in inXs then xs + [x] else xs, if x in inYs then ys + [x] else ys, seen + {x}, inXs, inYs)
  {
  }
}
