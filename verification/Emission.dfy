/** Metric emission by any number of concurrent emitters (the ticker goroutine and the final emission
    at shutdown) that share one locked set of seen keys (witchcraft/server_metrics.go:122-254). */
module Emission {
  import opened Options

  datatype Metric = Metric(id: string, ty: string, tags: map<string, string>)

  type Values = map<string, int>

  /** What an emission depends on: the two blocklists, the values of a fresh metric of each type for
      which a zero line is due, and the key under which a metric is remembered. */
  datatype Config = Config(
    blockedMetrics: set<string>,
    blockedValues: map<string, set<string>>,
    zeros: map<string, Values>,
    key: Metric -> string)

  /** Meters, timers and histograms. */
  predicate NeedsZero(c: Config, m: Metric) {
    m.ty in c.zeros
  }

  predicate Blocked(c: Config, m: Metric, k: string) {
    m.id in c.blockedMetrics || (m.ty in c.blockedValues && k in c.blockedValues[m.ty])
  }

  /** The readings that may be emitted. */
  function Allowed(c: Config, m: Metric, raw: Values): Values {
    map k | k in raw && !Blocked(c, m, k) :: raw[k]
  }

  function Zero(c: Config, m: Metric): Values
    requires NeedsZero(c, m)
  {
    Allowed(c, m, c.zeros[m.ty])
  }

  /** The visiting loop over the keys of a metric. */
  method CollectMetricValues(c: Config, m: Metric, raw: Values) returns (vals: Values)
    ensures vals == Allowed(c, m, raw)
  {
    vals := map[];
    if m.id in c.blockedMetrics {
      return;
    }
    var left := raw.Keys;
    while left != {}
      invariant left <= raw.Keys
      invariant vals == map k | k in raw && k !in left && !Blocked(c, m, k) :: raw[k]
      decreases |left|
    {
      var k :| k in left;
      left := left - {k};
      if m.ty in c.blockedValues && k in c.blockedValues[m.ty] {
        continue;
      }
      vals := vals[k := raw[k]];
    }
  }

  datatype Line = Line(metric: Metric, values: Values, explicitZero: bool)

  type Eid = nat

  datatype Pc =
    | Resting
    | WantLock(m: Metric, vals: Values)                        // about to acquire the lock
    | Looking(m: Metric, vals: Values)                         // lock held, about to look the key up
    | Zeroing(m: Metric, vals: Values)                         // lock held, about to log the zero line
    | Recording(m: Metric, vals: Values)                       // lock held, about to record the key
    | Leaving(m: Metric, vals: Values, logged: Option<Values>) // about to release the lock and return
    | Reporting(m: Metric, vals: Values)                       // about to log the values

  datatype State = State(seen: set<string>, lock: Option<Eid>, log: seq<Line>, pc: map<Eid, Pc>)

  datatype Action =
    | Visit(e: Eid, m: Metric, raw: Values, ready: bool)  // the registry hands the emitter a metric and its readings
    | Step(e: Eid)

  function Init(): State {
    State({}, None, [], map[])
  }

  function PcOf(s: State, e: Eid): Pc {
    if e in s.pc then s.pc[e] else Resting
  }

  function At(s: State, e: Eid, p: Pc): State {
    s.(pc := s.pc[e := p])
  }

  /** An action that is not possible leaves the state alone. */
  function Do(c: Config, s: State, a: Action): State {
    match a
    case Visit(e, m, raw, ready) =>
      var vals := Allowed(c, m, raw);
      if !PcOf(s, e).Resting? || vals == map[] || !ready then s
      else At(s, e, if NeedsZero(c, m) then WantLock(m, vals) else Reporting(m, vals))
    case Step(e) =>
      match PcOf(s, e)
      case Resting => s
      case WantLock(m, vals) => if s.lock.Some? then s else At(s.(lock := Some(e)), e, Looking(m, vals))
      case Looking(m, vals) =>
        At(s, e, if c.key(m) in s.seen || !NeedsZero(c, m) || Zero(c, m) == map[] then Leaving(m, vals, None)
            else Zeroing(m, vals))
      case Zeroing(m, vals) =>
        At(s.(log := s.log + [Line(m, if NeedsZero(c, m) then Zero(c, m) else map[], true)]), e, Recording(m, vals))
      case Recording(m, vals) =>
        At(s.(seen := s.seen + {c.key(m)}), e, Leaving(m, vals, Some(if NeedsZero(c, m) then Zero(c, m) else map[])))
      case Leaving(m, vals, logged) => At(s.(lock := None), e, if logged == Some(vals) then Resting
          else Reporting(m, vals))
      case Reporting(m, vals) => At(s.(log := s.log + [Line(m, vals, false)]), e, Resting)
  }

  function Exec(c: Config, s: State, actions: seq<Action>): State
    decreases |actions|
  {
    if actions == [] then s else Exec(c, Do(c, s, actions[0]), actions[1..])
  }

  /** Every visit to a metric that needs a zero line is to one of ms, and its readings have the keys of
      a fresh metric of the same type. */
  ghost predicate Visits(c: Config, actions: seq<Action>, ms: set<Metric>) {
    forall i :: 0 <= i < |actions| && actions[i].Visit? && NeedsZero(c, actions[i].m) ==>
      actions[i].m in ms && actions[i].raw.Keys == c.zeros[actions[i].m.ty].Keys
  }

  // ---------------------------------------------------------------- the log

  /** The first line for m. */
  function FirstLine(log: seq<Line>, m: Metric): Option<Line> {
    if log == [] then None
    else if log[0].metric == m then Some(log[0])
    else FirstLine(log[1..], m)
  }

  function ZeroLines(log: seq<Line>, m: Metric): nat {
    if log == [] then 0
    else ZeroLines(log[..|log| - 1], m) + (var l := log[|log| - 1]; if l.metric == m && l.explicitZero then 1 else 0)
  }

  lemma {:induction false} FirstLineAppend(log: seq<Line>, l: Line, m: Metric)
    ensures FirstLine(log + [l], m) == if FirstLine(log, m).Some? then FirstLine(log, m) else if l.metric == m
            then Some(l) else None
  {
    if log == [] {
      assert log + [l] == [l];
    } else {
      assert (log + [l])[1..] == log[1..] + [l];
      FirstLineAppend(log[1..], l, m);
    }
  }

  lemma ZeroLinesAppend(log: seq<Line>, l: Line, m: Metric)
    ensures ZeroLines(log + [l], m) == ZeroLines(log, m) + if l.metric == m && l.explicitZero then 1 else 0
  {
  }

  // ---------------------------------------------------------------- the zero-value-first rule

  /** The rule for one metric: its first line, if any, is the explicit zero line with exactly the
      allowed zero values, and there is at most one explicit zero line. */
  ghost predicate Rule(c: Config, log: seq<Line>, m: Metric)
    requires NeedsZero(c, m)
  {
    && (FirstLine(log, m).Some? ==> FirstLine(log, m).value == Line(m, Zero(c, m), true))
    && ZeroLines(log, m) <= 1
  }

  predicate HoldsLock(p: Pc) {
    p.Looking? || p.Zeroing? || p.Recording? || p.Leaving?
  }

  ghost predicate Injective(c: Config, ms: set<Metric>) {
    forall m1, m2 :: m1 in ms && m2 in ms && c.key(m1) == c.key(m2) ==> m1 == m2
  }

  ghost predicate PcOk(c: Config, ms: set<Metric>, s: State, e: Eid) {
    var p := PcOf(s, e);
    && (HoldsLock(p) <==> s.lock == Some(e))
    && (!p.Resting? ==>
          && p.vals != map[]
          && (forall k :: k in p.vals ==> !Blocked(c, p.m, k))
          && (p.Reporting? || NeedsZero(c, p.m))
          && (NeedsZero(c, p.m) ==> p.m in ms && Zero(c, p.m) != map[]))
    && (p.Zeroing? ==> c.key(p.m) !in s.seen)
    && (p.Recording? ==> c.key(p.m) !in s.seen && FirstLine(s.log, p.m).Some?)
    && (p.Leaving? ==> c.key(p.m) in s.seen)
    && (p.Reporting? && NeedsZero(c, p.m) ==> FirstLine(s.log, p.m).Some?)
  }

  /** What the log and the seen set say about one metric. */
  ghost predicate MetricOk(c: Config, s: State, m: Metric)
    requires NeedsZero(c, m)
  {
    && Rule(c, s.log, m)
    && (c.key(m) in s.seen ==> FirstLine(s.log, m).Some?)
    && (ZeroLines(s.log, m) > 0 ==>
        c.key(m) in s.seen || (s.lock.Some? && PcOf(s, s.lock.value).Recording? && PcOf(s, s.lock.value).m == m))
  }

  ghost predicate LinesOk(c: Config, s: State) {
    forall i :: 0 <= i < |s.log| ==> forall k :: k in s.log[i].values ==> !Blocked(c, s.log[i].metric, k)
  }

  ghost predicate Inv(c: Config, ms: set<Metric>, s: State) {
    && (forall e :: PcOk(c, ms, s, e))
    && (forall m :: m in ms && NeedsZero(c, m) ==> MetricOk(c, s, m))
    && LinesOk(c, s)
  }

  lemma InitInv(c: Config, ms: set<Metric>)
    ensures Inv(c, ms, Init())
  {
  }

  /** The readings of a metric keep an allowed key exactly when a fresh metric of its type does. */
  lemma SameKeysAllowed(c: Config, m: Metric, raw: Values)
    requires NeedsZero(c, m) && raw.Keys == c.zeros[m.ty].Keys && Allowed(c, m, raw) != map[]
    ensures Zero(c, m) != map[]
  {
  }

  lemma VisitKeepsInv(c: Config, ms: set<Metric>, s: State, a: Action)
    requires Inv(c, ms, s) && a.Visit?
    requires NeedsZero(c, a.m) ==> a.m in ms && a.raw.Keys == c.zeros[a.m.ty].Keys
    ensures Inv(c, ms, Do(c, s, a))
  {
    var s', vals := Do(c, s, a), Allowed(c, a.m, a.raw);
    if s' != s {
      if NeedsZero(c, a.m) {
        SameKeysAllowed(c, a.m, a.raw);
      }
      forall e
        ensures PcOk(c, ms, s', e)
      {
        assert PcOk(c, ms, s, e);
      }
      forall m | m in ms && NeedsZero(c, m)
        ensures MetricOk(c, s', m)
      {
        assert MetricOk(c, s, m);
        assert s.lock.Some? ==> PcOk(c, ms, s, s.lock.value) && PcOf(s', s.lock.value) == PcOf(s, s.lock.value);
      }
    }
  }

  /** A step that does not log and does not record. */
  lemma QuietStepKeepsInv(c: Config, ms: set<Metric>, s: State, e: Eid)
    requires Inv(c, ms, s) && (PcOf(s, e).WantLock? || PcOf(s, e).Looking? || PcOf(s, e).Leaving?)
    ensures Inv(c, ms, Do(c, s, Step(e)))
  {
    var s' := Do(c, s, Step(e));
    assert PcOk(c, ms, s, e);
    forall u
      ensures PcOk(c, ms, s', u)
    {
      assert PcOk(c, ms, s, u);
      if u == e && !PcOf(s, e).WantLock? {
        assert MetricOk(c, s, PcOf(s, e).m);
      }
    }
    forall m | m in ms && NeedsZero(c, m)
      ensures MetricOk(c, s', m)
    {
      assert MetricOk(c, s, m);
    }
  }

  lemma LoggingStepKeepsInv(c: Config, ms: set<Metric>, s: State, e: Eid)
    requires Inv(c, ms, s) && (PcOf(s, e).Zeroing? || PcOf(s, e).Reporting?)
    ensures Inv(c, ms, Do(c, s, Step(e)))
  {
    var s' := Do(c, s, Step(e));
    assert PcOk(c, ms, s, e);
    var p := PcOf(s, e);
    var l := s'.log[|s.log|];
    assert s'.log == s.log + [l];
    forall m
      ensures FirstLine(s.log, m).Some? ==> FirstLine(s'.log, m) == FirstLine(s.log, m)
    {
      FirstLineAppend(s.log, l, m);
    }
    FirstLineAppend(s.log, l, p.m);
    forall u
      ensures PcOk(c, ms, s', u)
    {
      assert PcOk(c, ms, s, u);
    }
    forall m | m in ms && NeedsZero(c, m)
      ensures MetricOk(c, s', m)
    {
      LoggingStepKeepsMetric(c, ms, s, e, m);
    }
  }

  lemma LoggingStepKeepsMetric(c: Config, ms: set<Metric>, s: State, e: Eid, m: Metric)
    requires PcOk(c, ms, s, e) && m in ms && NeedsZero(c, m) && MetricOk(c, s, m)
    requires PcOf(s, e).Zeroing? || PcOf(s, e).Reporting?
    ensures MetricOk(c, Do(c, s, Step(e)), m)
  {
    var s', p := Do(c, s, Step(e)), PcOf(s, e);
    var l := s'.log[|s.log|];
    assert s'.log == s.log + [l];
    FirstLineAppend(s.log, l, m);
    ZeroLinesAppend(s.log, l, m);
    if p.Zeroing? {
      assert s'.lock == Some(e) && PcOf(s', e) == Recording(p.m, p.vals);
    } else {
      assert s'.lock == s.lock && s.lock != Some(e);
      assert s.lock.Some? ==> PcOf(s', s.lock.value) == PcOf(s, s.lock.value);
    }
  }

  /** Recording the key is where injectivity is needed: no other metric becomes seen with it. */
  lemma RecordingStepKeepsInv(c: Config, ms: set<Metric>, s: State, e: Eid)
    requires Inv(c, ms, s) && Injective(c, ms) && PcOf(s, e).Recording?
    ensures Inv(c, ms, Do(c, s, Step(e)))
  {
    var s' := Do(c, s, Step(e));
    assert PcOk(c, ms, s, e);
    forall u
      ensures PcOk(c, ms, s', u)
    {
      assert PcOk(c, ms, s, u);
    }
    forall m | m in ms && NeedsZero(c, m)
      ensures MetricOk(c, s', m)
    {
      assert MetricOk(c, s, m);
    }
  }

  lemma DoKeepsInv(c: Config, ms: set<Metric>, s: State, a: Action)
    requires Inv(c, ms, s) && Injective(c, ms) && Visits(c, [a], ms)
    ensures Inv(c, ms, Do(c, s, a))
  {
    match a
    case Visit(_, _, _, _) =>
      assert [a][0] == a;
      VisitKeepsInv(c, ms, s, a);
    case Step(e) =>
      var p := PcOf(s, e);
      if p.Zeroing? || p.Reporting? {
        LoggingStepKeepsInv(c, ms, s, e);
      } else if p.Recording? {
        RecordingStepKeepsInv(c, ms, s, e);
      } else if !p.Resting? {
        QuietStepKeepsInv(c, ms, s, e);
      }
  }

  lemma {:induction false} ExecKeepsInv(c: Config, ms: set<Metric>, s: State, actions: seq<Action>)
    requires Inv(c, ms, s) && Injective(c, ms) && Visits(c, actions, ms)
    ensures Inv(c, ms, Exec(c, s, actions))
    decreases |actions|
  {
    if actions != [] {
      DoKeepsInv(c, ms, s, actions[0]);
      ExecKeepsInv(c, ms, Do(c, s, actions[0]), actions[1..]);
    }
  }

  /** No line ever carries a blocklisted key, in any interleaving and for any key function. */
  lemma NothingBlockedIsLogged(c: Config, actions: seq<Action>, i: nat, k: string)
    requires var log := Exec(c, Init(), actions).log; i < |log| && k in log[i].values
    ensures !Blocked(c, Exec(c, Init(), actions).log[i].metric, k)
  {
    ExecKeepsLines(c, Init(), actions);
  }

  ghost predicate ValsOk(c: Config, s: State) {
    && LinesOk(c, s)
    && (forall e :: !PcOf(s, e).Resting? ==> forall k :: k in PcOf(s, e).vals ==> !Blocked(c, PcOf(s, e).m, k))
  }

  lemma DoKeepsLines(c: Config, s: State, a: Action)
    requires ValsOk(c, s)
    ensures ValsOk(c, Do(c, s, a))
  {
    var s' := Do(c, s, a);
    forall e | e != a.e
      ensures PcOf(s', e) == PcOf(s, e)
    {
    }
  }

  lemma {:induction false} ExecKeepsLines(c: Config, s: State, actions: seq<Action>)
    requires ValsOk(c, s)
    ensures ValsOk(c, Exec(c, s, actions))
    decreases |actions|
  {
    if actions != [] {
      DoKeepsLines(c, s, actions[0]);
      ExecKeepsLines(c, Do(c, s, actions[0]), actions[1..]);
    }
  }

  // ---------------------------------------------------------------- the rule is exact

  /** The first line for m, if any, carries exactly the allowed zero values of its type. */
  ghost predicate ZeroFirst(c: Config, log: seq<Line>, m: Metric) {
    NeedsZero(c, m) && FirstLine(log, m).Some? ==> FirstLine(log, m).value.values == Zero(c, m)
  }

  ghost predicate AlwaysZeroFirst(c: Config, ms: set<Metric>) {
    forall actions, m :: Visits(c, actions, ms) && m in ms ==> ZeroFirst(c, Exec(c, Init(), actions).log, m)
  }

  /** In every interleaving of any number of emitters over the metrics ms, if the keys of ms are
      pairwise distinct: the first line of each metric is its explicit zero line, which is logged at
      most once. */
  lemma ZeroLineComesFirst(c: Config, ms: set<Metric>, actions: seq<Action>, m: Metric)
    requires Injective(c, ms) && Visits(c, actions, ms) && m in ms && NeedsZero(c, m)
    ensures Rule(c, Exec(c, Init(), actions).log, m)
  {
    InitInv(c, ms);
    ExecKeepsInv(c, ms, Init(), actions);
    assert MetricOk(c, Exec(c, Init(), actions), m);
  }

  /** Distinct keys are exactly what the zero-value-first rule needs. */
  lemma RuleIsExact(c: Config, ms: set<Metric>)
    requires forall m :: m in ms ==> NeedsZero(c, m) && Zero(c, m) != map[]
    ensures Injective(c, ms) <==> AlwaysZeroFirst(c, ms)
  {
    if Injective(c, ms) {
      forall actions, m | Visits(c, actions, ms) && m in ms
        ensures ZeroFirst(c, Exec(c, Init(), actions).log, m)
      {
        ZeroLineComesFirst(c, ms, actions, m);
      }
    } else {
      var m1, m2 :| m1 in ms && m2 in ms && c.key(m1) == c.key(m2) && m1 != m2;
      Collision(c, ms, m1, m2);
    }
  }

  /** Some schedule of visits to ms leads from s to a log whose first line for m is not its zero line. */
  ghost predicate Breaks(c: Config, ms: set<Metric>, s: State, m: Metric) {
    exists actions :: Visits(c, actions, ms) && !ZeroFirst(c, Exec(c, s, actions).log, m)
  }

  lemma BreaksBefore(c: Config, ms: set<Metric>, s: State, a: Action, next: State, m: Metric)
    requires Do(c, s, a) == next && Breaks(c, ms, next, m)
    requires a.Visit? && NeedsZero(c, a.m) ==> a.m in ms && a.raw.Keys == c.zeros[a.m.ty].Keys
    ensures Breaks(c, ms, s, m)
  {
    var rest :| Visits(c, rest, ms) && !ZeroFirst(c, Exec(c, next, rest).log, m);
    var actions := [a] + rest;
    assert actions[1..] == rest;
    forall i | 0 <= i < |actions| && actions[i].Visit? && NeedsZero(c, actions[i].m)
      ensures actions[i].m in ms && actions[i].raw.Keys == c.zeros[actions[i].m.ty].Keys
    {
      assert i > 0 ==> actions[i] == rest[i - 1];
    }
    assert !ZeroFirst(c, Exec(c, s, actions).log, m);
  }

  /** Two metrics under one key: the first uses up the zero line of the second. */
  lemma Collision(c: Config, ms: set<Metric>, m1: Metric, m2: Metric)
    requires m1 in ms && m2 in ms && m1 != m2 && c.key(m1) == c.key(m2)
    requires NeedsZero(c, m1) && NeedsZero(c, m2) && Zero(c, m1) != map[] && Zero(c, m2) != map[]
    ensures Breaks(c, ms, Init(), m2)
  {
    var z := Zero(c, m1);
    var s0 := Init();
    var s1 := At(s0, 0, WantLock(m1, z));
    var s2 := At(s1.(lock := Some(0)), 0, Looking(m1, z));
    var s3 := At(s2, 0, Zeroing(m1, z));
    FirstMetric(c, ms, s3, m1, m2);
    BreaksBefore(c, ms, s2, Step(0), s3, m2);
    BreaksBefore(c, ms, s1, Step(0), s2, m2);
    BreaksBefore(c, ms, s0, Visit(0, m1, c.zeros[m1.ty], true), s1, m2);
  }

  /** The first metric logs its zero line and records the key. */
  lemma FirstMetric(c: Config, ms: set<Metric>, s: State, m1: Metric, m2: Metric)
    requires m2 in ms && m1 != m2 && c.key(m1) == c.key(m2)
    requires NeedsZero(c, m1) && NeedsZero(c, m2) && Zero(c, m2) != map[]
    requires PcOf(s, 0) == Zeroing(m1, Zero(c, m1)) && s.log == [] && s.seen == {}
    ensures Breaks(c, ms, s, m2)
  {
    var z := Zero(c, m1);
    var s1 := At(s.(log := [Line(m1, z, true)]), 0, Recording(m1, z));
    var s2 := At(s1.(seen := {c.key(m1)}), 0, Leaving(m1, z, Some(z)));
    var s3 := At(s2.(lock := None), 0, Resting);
    SecondMetric(c, ms, s3, m2);
    BreaksBefore(c, ms, s2, Step(0), s3, m2);
    BreaksBefore(c, ms, s1, Step(0), s2, m2);
    BreaksBefore(c, ms, s, Step(0), s1, m2);
  }

  /** A metric whose key is already seen is reported without a zero line. */
  lemma SecondMetric(c: Config, ms: set<Metric>, s: State, m: Metric)
    requires m in ms && NeedsZero(c, m) && Zero(c, m) != map[]
    requires PcOf(s, 0) == Resting && s.lock == None && c.key(m) in s.seen && FirstLine(s.log, m).None?
    ensures Breaks(c, ms, s, m)
  {
    var k :| k in Zero(c, m);
    var raw := c.zeros[m.ty][k := c.zeros[m.ty][k] + 1];
    var vals := Allowed(c, m, raw);
    assert k in vals && vals[k] != Zero(c, m)[k];
    var s1 := At(s, 0, WantLock(m, vals));
    var s2 := At(s1.(lock := Some(0)), 0, Looking(m, vals));
    var s3 := At(s2, 0, Leaving(m, vals, None));
    UnzeroedLine(c, ms, s3, m, vals);
    BreaksBefore(c, ms, s2, Step(0), s3, m);
    BreaksBefore(c, ms, s1, Step(0), s2, m);
    BreaksBefore(c, ms, s, Visit(0, m, raw, true), s1, m);
  }

  lemma UnzeroedLine(c: Config, ms: set<Metric>, s: State, m: Metric, vals: Values)
    requires NeedsZero(c, m) && vals != Zero(c, m) && PcOf(s, 0) == Leaving(m, vals, None) && FirstLine(s.log, m).None?
    ensures Breaks(c, ms, s, m)
  {
    var s1 := At(s.(lock := None), 0, Reporting(m, vals));
    var end := At(s1.(log := s.log + [Line(m, vals, false)]), 0, Resting);
    FirstLineAppend(s.log, Line(m, vals, false), m);
    assert !ZeroFirst(c, Exec(c, end, []).log, m);
    BreaksBefore(c, ms, s1, Step(0), end, m);
    BreaksBefore(c, ms, s, Step(0), s1, m);
  }
}
