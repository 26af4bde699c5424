/** Merging fills tag maps in place, so evaluating a service's configuration can change what later
    evaluations answer. When it cannot, exactly. */
module StaleTags {
  import opened Options
  import opened ServiceConfigs

  /** One evaluation: of which service, under which runtime configuration. */
  datatype Request = Request(name: string, runtime: Services)

  /** What the overrides hold after a sequence of evaluations. */
  function After(extra: Services, requests: seq<Request>): Services {
    if requests == [] then extra
    else
      var last := requests[|requests| - 1];
      Evaluate(Some(After(extra, requests[..|requests| - 1])), last.name, last.runtime).extra.value
  }

  ghost predicate SameAnswer(a: Services, b: Services, name: string, runtime: Services) {
    Content(Evaluate(Some(a), name, runtime).result.tags) == Content(Evaluate(Some(b), name, runtime).result.tags)
  }

  /** No earlier evaluation, of any service and under any runtime configuration, changes an answer for name. */
  ghost predicate NeverStale(extra: Services, name: string) {
    forall requests: seq<Request>, runtime: Services :: SameAnswer(After(extra, requests), extra, name, runtime)
  }

  lemma {:induction false} WithoutMapsNothingChanges(extra: Services, name: string, requests: seq<Request>)
    requires extra.default.tags.None? && At(extra.services, name).tags.None?
    ensures After(extra, requests).default == extra.default &&
            At(After(extra, requests).services, name) == At(extra.services, name)
  {
    if requests != [] {
      WithoutMapsNothingChanges(extra, name, requests[..|requests| - 1]);
    }
  }

  lemma {:induction false} LongestKey(keys: set<string>) returns (n: nat)
    ensures forall key :: key in keys ==> |key| <= n
  {
    if keys == {} {
      return 0;
    }
    var key :| key in keys;
    n := LongestKey(keys - {key});
    n := if |key| > n then |key| else n;
  }

  lemma UnusedKey(a: Tags, b: Tags) returns (key: string)
    ensures key !in a && key !in b
  {
    var n := LongestKey(a.Keys + b.Keys);
    key := seq(n + 1, i => 'x');
    assert key !in a.Keys + b.Keys;
  }

  /** A runtime configuration whose default has one tag. */
  function OneTag(key: string): Services {
    Services(Config(map[], Some(map[key := ""])), map[])
  }

  const NO_RUNTIME := Services(EMPTY_CONFIG, map[])

  /** A tag of the runtime configuration that ended up in an override's map outlives its removal from the
      runtime configuration. */
  lemma TagOutlivesItsRemoval(extra: Services, name: string, key: string)
    requires extra.default.tags.Some? || At(extra.services, name).tags.Some?
    requires key !in Content(extra.default.tags) && key !in Content(At(extra.services, name).tags)
    ensures !SameAnswer(After(extra, [Request(name, OneTag(key))]), extra, name, NO_RUNTIME)
  {
  }

  /** Evaluations never disturb each other exactly when neither the default override nor the service's own
      override holds a tag map. */
  lemma NeverStaleIsExact(extra: Services, name: string)
    ensures NeverStale(extra, name) <==> extra.default.tags.None? && At(extra.services, name).tags.None?
  {
    if extra.default.tags.None? && At(extra.services, name).tags.None? {
      forall requests: seq<Request>, runtime: Services
        ensures SameAnswer(After(extra, requests), extra, name, runtime)
      {
        WithoutMapsNothingChanges(extra, name, requests);
      }
    } else {
      var key := UnusedKey(Content(extra.default.tags), Content(At(extra.services, name).tags));
      TagOutlivesItsRemoval(extra, name, key);
    }
  }

  /** An evaluation before the first override is given fills the runtime configuration's own tag map. */
  ghost predicate EarlyIsHarmless(name: string, runtime: Services) {
    forall extra: Services ::
      Content(Evaluate(Some(extra), name, Evaluate(None, name, runtime).runtime).result.tags) ==
      Content(Evaluate(Some(extra), name, runtime).result.tags)
  }

  /** Otherwise a default tag of the runtime configuration wins over a default override given later. */
  lemma RuntimeDefaultWins(name: string, runtime: Services, key: string)
    requires At(runtime.services, name).tags.Some? && key !in At(runtime.services, name).tags.value
    requires key in Content(runtime.default.tags)
    ensures !EarlyIsHarmless(name, runtime)
  {
    var value := Content(runtime.default.tags)[key];
    var extra := Services(Config(map[], Some(map[key := value + "x"])), map[]);
    EarlyFills(name, runtime, key);
    var later := Evaluate(None, name, runtime).runtime;
    EvaluateGet(MetricTags, Some(extra), name, runtime, key);
    EvaluateGet(MetricTags, Some(extra), name, later, key);
    assert |value + "x"| > |value|;
  }

  /** The early evaluation puts a default tag into the service's own map. */
  lemma EarlyFills(name: string, runtime: Services, key: string)
    requires At(runtime.services, name).tags.Some? && key !in At(runtime.services, name).tags.value
    requires key in Content(runtime.default.tags)
    ensures var later := Evaluate(None, name, runtime).runtime;
      Get(Content(At(later.services, name).tags), key) == Some(Content(runtime.default.tags)[key])
  {
    MergeGet(MetricTags, At(runtime.services, name), runtime.default, key);
  }

  /** It cannot change any later answer exactly when the service has no tag map there or that map already has
      every default tag. */
  lemma EarlyIsExact(name: string, runtime: Services)
    ensures EarlyIsHarmless(name, runtime) <==>
            var own := At(runtime.services, name).tags;
            own.None? || Content(runtime.default.tags).Keys <= own.value.Keys
  {
    var own := At(runtime.services, name).tags;
    var later := Evaluate(None, name, runtime).runtime;
    if own.None? || Content(runtime.default.tags).Keys <= own.value.Keys {
      assert own.Some? ==> Content(runtime.default.tags) + own.value == own.value;
      assert later == runtime by {
        assert later.services == runtime.services;
      }
    } else {
      var key :| key in Content(runtime.default.tags) && key !in own.value;
      RuntimeDefaultWins(name, runtime, key);
    }
  }

  // ---------------------------------------------------------------- the order of precedence for tags

  /** The configuration calls of a run, without its evaluations. */
  function Calls(ops: seq<Op>): seq<Op> {
    if ops == [] then []
    else Calls(ops[..|ops| - 1]) + if ops[|ops| - 1].Evaluated? then [] else [ops[|ops| - 1]]
  }

  lemma {:induction false} CallsConcat(a: seq<Op>, b: seq<Op>)
    ensures Calls(a + b) == Calls(a) + Calls(b)
  {
    if b == [] {
      assert a + b == a;
    } else {
      assert (a + b)[..|a + b| - 1] == a + b[..|b| - 1];
      CallsConcat(a, b[..|b| - 1]);
    }
  }

  lemma {:induction false} CallsOfCalls(ops: seq<Op>)
    requires forall i :: 0 <= i < |ops| ==> !ops[i].Evaluated?
    ensures Calls(ops) == ops
  {
    if ops != [] {
      CallsOfCalls(ops[..|ops| - 1]);
    }
  }

  lemma {:induction false} NoneGivenInCalls(ops: seq<Op>, name: string)
    requires NoneGiven(Calls(ops), name)
    ensures NoneGiven(ops, name)
  {
    if ops != [] {
      var fewer, last := ops[..|ops| - 1], ops[|ops| - 1];
      var calls := Calls(fewer);
      assert forall i :: 0 <= i < |calls| ==> Calls(ops)[i] == calls[i];
      NoneGivenInCalls(fewer, name);
      if !last.Evaluated? {
        assert Calls(ops)[|calls|] == last;
      }
    }
  }

  /** Every tag of a service's configuration follows the order of precedence. */
  ghost predicate TagLaw(ops: seq<Op>, name: string) {
    forall runtime, key :: TagFollows(ops, name, runtime, key)
  }

  predicate TagFollows(ops: seq<Op>, name: string, runtime: Services, key: string) {
    Get(Content(Evaluate(Run(ops), name, runtime).result.tags), key) == FirstDefined(MetricTags,
        Layers(ops, name, runtime), key)
  }

  /** A key that no configuration call uses as a tag. */
  predicate Unused(ops: seq<Op>, key: string) {
    forall i :: 0 <= i < |ops| && !ops[i].Evaluated? ==> key !in Content(ops[i].cfg.tags)
  }

  lemma {:induction false} LongestTag(ops: seq<Op>) returns (n: nat)
    ensures forall i, key :: 0 <= i < |ops| && !ops[i].Evaluated? && key in Content(ops[i].cfg.tags) ==> |key| <= n
  {
    if ops == [] {
      return 0;
    }
    var last := ops[|ops| - 1];
    n := LongestTag(ops[..|ops| - 1]);
    if !last.Evaluated? {
      var m := LongestKey(Content(last.cfg.tags).Keys);
      n := if m > n then m else n;
    }
  }

  lemma UnusedTag(ops: seq<Op>) returns (key: string)
    ensures Unused(ops, key)
  {
    var n := LongestTag(ops);
    key := seq(n + 1, i => 'x');
    assert |key| > n;
  }

  lemma {:induction false} UnusedIsUndefined(ops: seq<Op>, name: string, key: string)
    requires Unused(ops, key)
    ensures FirstDefined(MetricTags, DefaultLayers(ops), key) == None &&
            FirstDefined(MetricTags, ServiceLayers(ops, name), key) == None
  {
    if ops != [] {
      var fewer := ops[..|ops| - 1];
      assert forall i :: 0 <= i < |fewer| ==> fewer[i] == ops[i];
      UnusedIsUndefined(fewer, name, key);
      var last := ops[|ops| - 1];
      if !last.Evaluated? {
        FirstDefinedConcat(MetricTags, [last.cfg], DefaultLayers(fewer), key);
        FirstDefinedConcat(MetricTags, [last.cfg], ServiceLayers(fewer, name), key);
        assert FirstDefined(MetricTags, [last.cfg], key) == None;
      }
      assert [] + DefaultLayers(fewer) == DefaultLayers(fewer) &&
          [] + ServiceLayers(fewer, name) == ServiceLayers(fewer, name);
    }
  }

  /** A tag has got into a map of the overrides that concern a service. */
  predicate Holds(extra: Option<Services>, name: string, key: string) {
    extra.Some? && (key in Content(extra.value.default.tags) || key in Content(At(extra.value.services, name).tags))
  }

  /** Further configuration calls do not get it out again. */
  lemma {:induction false} HoldsOn(ops: seq<Op>, more: seq<Op>, name: string, key: string)
    requires Holds(Run(ops), name, key) && forall i :: 0 <= i < |more| ==> !more[i].Evaluated?
    ensures Holds(Run(ops + more), name, key)
  {
    if more == [] {
      assert ops + more == ops;
    } else {
      assert (ops + more)[..|ops + more| - 1] == ops + more[..|more| - 1];
      HoldsOn(ops, more[..|more| - 1], name, key);
    }
  }

  /** A call that gives a tag map leaves one behind. */
  lemma GivenMapIsThere(ops: seq<Op>, name: string)
    requires ops != [] && Concerns(ops[|ops| - 1], name) && ops[|ops| - 1].cfg.tags.Some?
    ensures !NoTagMaps(Run(ops), name)
  {
  }

  /** An evaluation under a runtime default puts its tag there. */
  lemma EvaluationFills(extra: Services, name: string, key: string)
    requires !NoTagMaps(Some(extra), name)
    ensures Holds(Evaluate(Some(extra), name, OneTag(key)).extra, name, key)
  {
    var runtime := OneTag(key);
    EvaluateGet(MetricTags, Some(extra), name, runtime, key);
    MergeGet(MetricTags, extra.default, runtime.default, key);
  }

  lemma CallsSkip(first: seq<Op>, evaluated: Op)
    requires evaluated.Evaluated?
    ensures Calls(first + [evaluated]) == Calls(first)
  {
    assert (first + [evaluated])[..|first|] == first;
  }

  lemma CallsAround(first: seq<Op>, evaluated: Op, rest: seq<Op>)
    requires Calls(first) == first && Calls(rest) == rest && evaluated.Evaluated?
    ensures Calls(first + [evaluated] + rest) == first + rest
  {
    CallsSkip(first, evaluated);
    CallsConcat(first + [evaluated], rest);
  }

  /** The evaluation after a call that gives a tag map. */
  lemma FilledAfter(first: seq<Op>, name: string, key: string)
    requires first != [] && Concerns(first[|first| - 1], name) && first[|first| - 1].cfg.tags.Some?
    ensures Holds(Run(first + [Evaluated(name, OneTag(key))]), name, key)
  {
    GivenMapIsThere(first, name);
    EvaluationFills(Run(first).value, name, key);
    var middle := first + [Evaluated(name, OneTag(key))];
    assert middle[..|middle| - 1] == first;
  }

  /** The calls with one evaluation after the i-th, by which a tag of the runtime configuration gets stuck. */
  lemma TagGetsStuck(calls: seq<Op>, i: nat, name: string) returns (ops: seq<Op>)
    requires forall j :: 0 <= j < |calls| ==> !calls[j].Evaluated?
    requires i < |calls| && Concerns(calls[i], name) && calls[i].cfg.tags.Some?
    ensures Calls(ops) == calls && !TagLaw(ops, name)
  {
    var key := UnusedTag(calls);
    var evaluated := Evaluated(name, OneTag(key));
    var first, rest := calls[..i + 1], calls[i + 1..];
    ops := first + [evaluated] + rest;
    CallsOfCalls(first);
    CallsOfCalls(rest);
    CallsAround(first, evaluated, rest);
    assert first + rest == calls;
    FilledAfter(first, name, key);
    HoldsOn(first + [evaluated], rest, name, key);
    UnusedAround(first, evaluated, rest, key);
    StuckTagShows(ops, name, key);
  }

  lemma UnusedAround(first: seq<Op>, evaluated: Op, rest: seq<Op>, key: string)
    requires Unused(first + rest, key) && evaluated.Evaluated?
    ensures Unused(first + [evaluated] + rest, key)
  {
    var calls, ops := first + rest, first + [evaluated] + rest;
    assert forall i :: 0 <= i < |first| ==> ops[i] == calls[i];
    assert forall i :: |first| < i < |ops| ==> ops[i] == calls[i - 1];
  }

  lemma StuckTagShows(ops: seq<Op>, name: string, key: string)
    requires Holds(Run(ops), name, key) && Unused(ops, key)
    ensures !TagFollows(ops, name, NO_RUNTIME, key)
  {
    EvaluateGet(MetricTags, Run(ops), name, NO_RUNTIME, key);
    UnusedIsUndefined(ops, name, key);
    var own, default := ServiceLayers(ops, name), DefaultLayers(ops);
    FirstDefinedConcat(MetricTags, own + [EMPTY_CONFIG] + default, [EMPTY_CONFIG], key);
    FirstDefinedConcat(MetricTags, own + [EMPTY_CONFIG], default, key);
    FirstDefinedConcat(MetricTags, own, [EMPTY_CONFIG], key);
    assert FirstDefined(MetricTags, [EMPTY_CONFIG], key) == None;
  }

  /** For tags the order of precedence survives every placing of evaluations among the configuration calls
      exactly when no call that concerns the service gives a tag map. */
  lemma TagLawIsExact(calls: seq<Op>, name: string)
    requires forall i :: 0 <= i < |calls| ==> !calls[i].Evaluated?
    ensures NoneGiven(calls, name) <==> forall ops :: Calls(ops) == calls ==> TagLaw(ops, name)
  {
    if NoneGiven(calls, name) {
      forall ops, runtime, key | Calls(ops) == calls
        ensures TagFollows(ops, name, runtime, key)
      {
        NoneGivenInCalls(ops, name);
        EffectiveIsFirstDefined(MetricTags, ops, name, runtime, key);
      }
    } else {
      var i :| 0 <= i < |calls| && Concerns(calls[i], name) && calls[i].cfg.tags.Some?;
      var ops := TagGetsStuck(calls, i, name);
    }
  }

  // ---------------------------------------------------------------- answers already given

  /** What an answer's tags have become: the answer is the service's own map when it has one, and a copy
      otherwise. */
  function TagsNow(given: Option<Tags>, extra: Services, later: Services, name: string): Option<Tags> {
    if At(extra.services, name).tags.Some? then At(later.services, name).tags else given
  }

  ghost predicate StaysPut(extra: Services, name: string, runtime: Services) {
    var given := Evaluate(Some(extra), name, runtime);
    forall requests: seq<Request> ::
      Content(TagsNow(given.result.tags, extra, After(given.extra.value, requests), name)) == Content(given.result.tags)
  }

  /** An answer already given is never changed by later evaluations exactly when the service's own override
      holds no tag map. */
  lemma StaysPutIsExact(extra: Services, name: string, runtime: Services)
    ensures StaysPut(extra, name, runtime) <==> At(extra.services, name).tags.None?
  {
    var given := Evaluate(Some(extra), name, runtime);
    if At(extra.services, name).tags.Some? {
      var key := UnusedKey(Content(given.result.tags), map[]);
      var request := Request(name, OneTag(key));
      var requests := [request];
      assert requests[..|requests| - 1] == [] && After(given.extra.value, []) == given.extra.value;
      EvaluateGet(MetricTags, given.extra, name, request.runtime, key);
      assert key in Content(At(After(given.extra.value, requests).services, name).tags);
    }
  }
}
