/** What a visit of the registry to a metric leaves in the log (witchcraft/server_metrics.go:131-187), whatever other
    emitters do meanwhile. The blocklists are spelled out. */
module EmissionVisits {
  import opened Options
  import opened Emission

  /** vals holds exactly the readings of m whose metric and key are on no blocklist. */
  ghost predicate Passing(c: Config, m: Metric, raw: Values, vals: Values) {
    forall k ::
      && (k in vals <==> k in raw && m.id !in c.blockedMetrics &&
                         !(m.ty in c.blockedValues && k in c.blockedValues[m.ty]))
      && (k in vals ==> k in raw && vals[k] == raw[k])
  }

  /** The lines that the steps of emitter e append. */
  function LinesOf(c: Config, s: State, actions: seq<Action>, e: Eid): seq<Line>
    decreases |actions|
  {
    if actions == [] then []
    else
      var next := Do(c, s, actions[0]);
      (if actions[0] == Step(e) && |s.log| <= |next.log| then next.log[|s.log|..] else []) +
      LinesOf(c, next, actions[1..], e)
  }

  /** Emitter e is busy before every action and at rest after the last. */
  ghost predicate RestsAfter(c: Config, s: State, actions: seq<Action>, e: Eid)
    decreases |actions|
  {
    if actions == [] then PcOf(s, e) == Resting
    else PcOf(s, e) != Resting && RestsAfter(c, Do(c, s, actions[0]), actions[1..], e)
  }

  /** The lines of one visit: the readings, after the explicit zero line or not; the zero line alone when it says the
      same. Only meters, timers and histograms have a zero line. */
  ghost predicate VisitLines(c: Config, m: Metric, vals: Values, lines: seq<Line>) {
    || lines == [Line(m, vals, false)]
    || (m.ty in c.zeros && exists zero ::
          && Passing(c, m, c.zeros[m.ty], zero)
          && lines == [Line(m, zero, true)] + if zero == vals then [] else [Line(m, vals, false)])
  }

  /** The lines still due at a program counter. */
  ghost predicate Due(c: Config, p: Pc, lines: seq<Line>) {
    match p
    case Resting => lines == []
    case WantLock(m, vals) => VisitLines(c, m, vals, lines)
    case Looking(m, vals) => VisitLines(c, m, vals, lines)
    case Zeroing(m, vals) =>
      NeedsZero(c, m) && lines == [Line(m, Zero(c, m), true)] + Rest(m, vals, Some(Zero(c, m)))
    case Recording(m, vals) => NeedsZero(c, m) && lines == Rest(m, vals, Some(Zero(c, m)))
    case Leaving(m, vals, logged) => lines == Rest(m, vals, logged)
    case Reporting(m, vals) => lines == [Line(m, vals, false)]
  }

  function Rest(m: Metric, vals: Values, logged: Option<Values>): seq<Line> {
    if logged == Some(vals) then [] else [Line(m, vals, false)]
  }

  /** A program counter between the lookup and the release is of a metric with a zero line. */
  predicate Keyed(c: Config, p: Pc) {
    p.Zeroing? || p.Recording? ==> NeedsZero(c, p.m)
  }

  lemma OthersLeave(c: Config, s: State, a: Action, e: Eid)
    requires PcOf(s, e) != Resting && a != Step(e)
    ensures PcOf(Do(c, s, a), e) == PcOf(s, e)
  {
  }

  /** One step of e appends the first of the lines due. */
  lemma StepIsDue(c: Config, s: State, e: Eid, lines: seq<Line>)
    requires PcOf(s, e) != Resting && Keyed(c, PcOf(s, e))
    requires var s' := Do(c, s, Step(e)); Due(c, PcOf(s', e), lines)
    ensures var s' := Do(c, s, Step(e));
            && |s.log| <= |s'.log| && Keyed(c, PcOf(s', e))
            && Due(c, PcOf(s, e), s'.log[|s.log|..] + lines)
  {
    var s', p := Do(c, s, Step(e)), PcOf(s, e);
    var added := s'.log[|s.log|..];
    if !p.Zeroing? && !p.Reporting? {
      assert added == [] && added + lines == lines;
    }
    if p.Looking? && NeedsZero(c, p.m) {
      assert Passing(c, p.m, c.zeros[p.m.ty], Zero(c, p.m));
    }
  }

  lemma {:induction false} LinesAreDue(c: Config, s: State, actions: seq<Action>, e: Eid)
    requires RestsAfter(c, s, actions, e) && Keyed(c, PcOf(s, e))
    ensures Due(c, PcOf(s, e), LinesOf(c, s, actions, e))
    decreases |actions|
  {
    if actions != [] {
      var next := Do(c, s, actions[0]);
      var rest := LinesOf(c, next, actions[1..], e);
      if actions[0] == Step(e) {
        StepIsKeyed(c, s, e);
        LinesAreDue(c, next, actions[1..], e);
        StepIsDue(c, s, e, rest);
      } else {
        OthersLeave(c, s, actions[0], e);
        LinesAreDue(c, next, actions[1..], e);
        assert [] + rest == rest;
      }
    }
  }

  lemma StepIsKeyed(c: Config, s: State, e: Eid)
    requires Keyed(c, PcOf(s, e))
    ensures Keyed(c, PcOf(Do(c, s, Step(e)), e))
  {
  }

  /** In every interleaving and from every state: an emitter that is handed the readings of a metric and comes back to
      rest has logged exactly the passing readings, preceded by the explicit zero line or replaced by it when it says
      the same; nothing when no reading passes or the logger is not there yet. */
  lemma VisitIsLogged(c: Config, s: State, e: Eid, m: Metric, raw: Values, ready: bool, later: seq<Action>)
    requires PcOf(s, e) == Resting
    requires RestsAfter(c, Do(c, s, Visit(e, m, raw, ready)), later, e)
    ensures exists vals ::
              && Passing(c, m, raw, vals)
              && var lines := LinesOf(c, Do(c, s, Visit(e, m, raw, ready)), later, e);
                 if vals == map[] || !ready then lines == [] else VisitLines(c, m, vals, lines)
  {
    var s' := Do(c, s, Visit(e, m, raw, ready));
    LinesAreDue(c, s', later, e);
    assert Passing(c, m, raw, Allowed(c, m, raw));
  }

  /** The lines of an emitter are in the log, in order, among those appended since. */
  lemma {:induction false} LinesAreInLog(c: Config, s: State, actions: seq<Action>, e: Eid, l: Line)
    requires l in LinesOf(c, s, actions, e)
    ensures |s.log| <= |Exec(c, s, actions).log| && l in Exec(c, s, actions).log[|s.log|..]
    decreases |actions|
  {
    var next := Do(c, s, actions[0]);
    LogGrows(c, next, actions[1..]);
    var end := Exec(c, s, actions).log;
    assert next.log <= end && s.log <= next.log;
    if l in LinesOf(c, next, actions[1..], e) {
      LinesAreInLog(c, next, actions[1..], e, l);
      var i :| 0 <= i < |end| - |next.log| && end[|next.log|..][i] == l;
      assert end[|s.log|..][|next.log| - |s.log| + i] == l;
    } else {
      var i :| 0 <= i < |next.log| - |s.log| && next.log[|s.log|..][i] == l;
      assert end[|s.log|..][i] == l;
    }
  }

  lemma {:induction false} LogGrows(c: Config, s: State, actions: seq<Action>)
    ensures s.log <= Exec(c, s, actions).log
    decreases |actions|
  {
    if actions != [] {
      LogGrows(c, Do(c, s, actions[0]), actions[1..]);
    }
  }
}
