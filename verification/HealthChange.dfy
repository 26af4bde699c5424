/** Detecting changes of the health status between health requests (status/status.go:52-95). */
module HealthChange {
  import opened Options
  import opened HealthStates

  /** A check's result: its state, and the message and parameters that change detection ignores. */
  datatype Result = Result(state: HealthState, detail: string)

  type Checks = map<string, Result>

  function States(checks: Checks): map<string, HealthState> {
    map name | name in checks :: checks[name].state
  }

  /** Two finite sets of which one holds the other and which have the same size are equal. */
  lemma SameSizeSubset(a: set<string>, b: set<string>)
    requires a <= b && |a| == |b|
    ensures a == b
  {
    assert b == a + (b - a);
    assert |b - a| == 0;
  }

  /** A loop over the previous checks alone, and a comparison of sizes, tell whether the two maps from check
      to state differ. */
  method ChecksDiffer(previous: Checks, current: Checks) returns (differ: bool)
    ensures differ <==> States(previous) != States(current)
    ensures differ <==> previous.Keys != current.Keys ||
                        exists name :: name in previous && name in current &&
                                       previous[name].state != current[name].state
  {
    if |previous| != |current| {
      SizeOfStates(previous);
      SizeOfStates(current);
      return true;
    }
    var left := previous.Keys;
    while left != {}
      invariant left <= previous.Keys
      invariant forall name :: name in previous && name !in left ==>
                    name in current && current[name].state == previous[name].state
      decreases |left|
    {
      var name :| name in left;
      if name !in current {
        assert name in States(previous) && name !in States(current);
        return true;
      }
      if previous[name].state != current[name].state {
        assert States(previous)[name] != States(current)[name];
        return true;
      }
      left := left - {name};
    }
    SameSizeSubset(previous.Keys, current.Keys);
    assert States(previous) == States(current);
    return false;
  }

  lemma SizeOfStates(checks: Checks)
    ensures |States(checks)| == |checks|
  {
    assert States(checks).Keys == checks.Keys;
    assert |States(checks)| == |States(checks).Keys| && |checks| == |checks.Keys|;
  }

  // ---------------------------------------------------------------- whole runs

  /** A notification of the change handlers. */
  datatype Change = Change(previous: Checks, current: Checks)

  /** The notifications for a sequence of statuses. */
  function Changes(h: seq<Checks>): seq<Change> {
    if |h| < 2 then []
    else
      var before, last := h[|h| - 2], h[|h| - 1];
      Changes(h[..|h| - 1]) + if States(before) != States(last) then [Change(before, last)] else []
  }

  predicate ChangesAt(h: seq<Checks>, i: int) {
    0 <= i < |h| - 1 && States(h[i]) != States(h[i + 1])
  }

  /** The positions where a status differs from the next one. */
  function Positions(h: seq<Checks>): seq<int> {
    if |h| < 2 then []
    else Positions(h[..|h| - 1]) + if ChangesAt(h, |h| - 2) then [|h| - 2] else []
  }

  /** They are increasing, and exactly those of adjacent statuses whose maps from check to state are unequal. */
  lemma {:induction false} PositionsAreExact(h: seq<Checks>)
    ensures forall i :: i in Positions(h) <==> ChangesAt(h, i)
    ensures forall k, l :: 0 <= k < l < |Positions(h)| ==> Positions(h)[k] < Positions(h)[l]
  {
    if |h| >= 2 {
      var shorter := h[..|h| - 1];
      PositionsAreExact(shorter);
      assert forall i :: 0 <= i < |h| - 2 ==> (ChangesAt(shorter, i) <==> ChangesAt(h, i));
      assert forall k :: 0 <= k < |Positions(shorter)| ==> Positions(shorter)[k] in Positions(shorter);
    }
  }

  /** The k-th notification tells of the two statuses that meet at the k-th position. */
  ghost predicate TellsOf(h: seq<Checks>, c: Change, i: int) {
    0 <= i < |h| - 1 && c == Change(h[i], h[i + 1])
  }

  /** The handlers are notified once for each position, in order, with the two statuses that meet there. */
  lemma {:induction false} FiresExactlyAtChanges(h: seq<Checks>)
    ensures |Changes(h)| == |Positions(h)|
    ensures forall k :: 0 <= k < |Positions(h)| ==> TellsOf(h, Changes(h)[k], Positions(h)[k])
  {
    if |h| >= 2 {
      var shorter := h[..|h| - 1];
      FiresExactlyAtChanges(shorter);
      forall k | 0 <= k < |Positions(shorter)|
        ensures TellsOf(h, Changes(shorter)[k], Positions(shorter)[k])
      {
        assert TellsOf(shorter, Changes(shorter)[k], Positions(shorter)[k]);
      }
    }
  }

  /** Each notification starts from the states at which the one before it ended; the first starts from the
      first status and the last ends at the latest. */
  lemma {:induction false} NotificationsChain(h: seq<Checks>)
    requires |h| > 0
    ensures var c := Changes(h);
      && (forall k :: 0 <= k < |c| - 1 ==> States(c[k].current) == States(c[k + 1].previous))
      && (if c == [] then States(h[0]) == States(h[|h| - 1])
          else States(c[0].previous) == States(h[0]) && States(c[|c| - 1].current) == States(h[|h| - 1]))
  {
    if |h| >= 2 {
      NotificationsChain(h[..|h| - 1]);
    }
  }

  // ---------------------------------------------------------------- the handler

  datatype Response = Unauthorized | PermissionDenied | Served(checks: Checks)

  class HealthHandler {
    var previousHealth: Checks
    var notified: seq<Change>       // what the change handlers were told
    ghost var served: seq<Checks>   // the empty status, then every status served

    constructor ()
      ensures Valid() && served == [map[]] && notified == []
    {
      previousHealth, notified, served := map[], [], [map[]];
    }

    ghost predicate Valid()
      reads this
    {
      |served| > 0 && previousHealth == served[|served| - 1] && notified == Changes(served)
    }

    /** Refuses a request without the secret, and otherwise notifies on a change and serves the status. */
    method ServeHTTP(secret: string, token: Option<string>, checks: Checks) returns (r: Response)
      requires Valid()
      modifies this
      ensures Valid()
      ensures r == if secret == "" || token == Some(secret) then Served(checks)
                   else if token == None then Unauthorized else PermissionDenied
      ensures served == if r.Served? then old(served) + [checks] else old(served)
      ensures !r.Served? ==> notified == old(notified) && previousHealth == old(previousHealth)
    {
      if secret != "" {
        if token.None? {
          return Unauthorized;
        }
        if token.value != secret {
          return PermissionDenied;
        }
      }
      var differ := ChecksDiffer(previousHealth, checks);
      if differ {
        notified := notified + [Change(previousHealth, checks)];
      }
      previousHealth := checks;
      served := served + [checks];
      assert served[..|served| - 1] == old(served);
      return Served(checks);
    }
  }
}
