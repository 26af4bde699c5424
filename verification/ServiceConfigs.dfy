/** Layered client configuration for discovered services, on values: what the overrides and the runtime
    configuration come to (witchcraft/service_discovery.go:121-182 and the merge it calls,
    vendor/github.com/palantir/conjure-go-runtime/v3/conjure-go-client/httpclient/config.go:150-258). */
module ServiceConfigs {
  import opened Options

  type Tags = map<string, string>

  /** A client configuration: its defined fields, and its metric tags, which may be a nil map. */
  datatype Config = Config(fields: map<string, string>, tags: Option<Tags>)

  datatype Services = Services(default: Config, services: map<string, Config>)

  const EMPTY_CONFIG := Config(map[], None)

  function At(services: map<string, Config>, name: string): Config {
    if name in services then services[name] else EMPTY_CONFIG
  }

  function Content(tags: Option<Tags>): Tags {
    if tags.Some? then tags.value else map[]
  }

  /** The tags of a merged configuration: a nil map stays nil when there is nothing to add. */
  function MergeTags(conf: Option<Tags>, defaults: Option<Tags>): Option<Tags> {
    if Content(defaults) == map[] then conf else Some(Content(defaults) + Content(conf))
  }

  /** Field by field and tag by tag, what conf defines wins. */
  function Merge(conf: Config, defaults: Config): Config {
    Config(defaults.fields + conf.fields, MergeTags(conf.tags, defaults.tags))
  }

  function WithDefault(extra: Option<Services>, cfg: Config): Option<Services> {
    if extra.None? then Some(Services(cfg, map[]))
    else Some(extra.value.(default := Merge(cfg, extra.value.default)))
  }

  function WithService(extra: Option<Services>, name: string, cfg: Config): Option<Services> {
    if extra.None? then Some(Services(EMPTY_CONFIG, map[name := cfg]))
    else
      var all := extra.value.services;
      Some(extra.value.(services := all[name := if name in all then Merge(cfg, all[name]) else cfg]))
  }

  /** An evaluation: its result, and what it leaves in the tag maps of the overrides and of the runtime
      configuration, which merging fills in place. */
  datatype Evaluation = Evaluation(result: Config, extra: Option<Services>, runtime: Services)

  function Filled(cfg: Config, tags: Option<Tags>): Config {
    if cfg.tags.Some? then cfg.(tags := tags) else cfg
  }

  function Evaluate(extra: Option<Services>, name: string, runtime: Services): Evaluation {
    if extra.None? then
      var own := At(runtime.services, name);
      var result := Merge(own, runtime.default);
      Evaluation(result, None, runtime.(services := Refilled(runtime.services, name, result.tags)))
    else
      var default := Merge(extra.value.default, runtime.default);
      var result := Merge(Merge(At(extra.value.services, name), At(runtime.services, name)), default);
      Evaluation(result,
                 Some(Services(Filled(extra.value.default, default.tags),
                     Refilled(extra.value.services, name, result.tags))),
                 runtime)
  }

  function Refilled(services: map<string, Config>, name: string, tags: Option<Tags>): map<string, Config> {
    if name in services then services[name := Filled(services[name], tags)] else services
  }

  // ---------------------------------------------------------------- the order of precedence

  /** The two things a configuration defines. */
  datatype Aspect = Fields | MetricTags

  function Of(aspect: Aspect, cfg: Config): map<string, string> {
    if aspect == Fields then cfg.fields else Content(cfg.tags)
  }

  datatype Op =
    | DefaultConfig(cfg: Config)
    | ServiceConfig(name: string, cfg: Config)
    | Evaluated(name: string, runtime: Services)

  /** The overrides after a sequence of calls. */
  function Run(ops: seq<Op>): Option<Services> {
    if ops == [] then None
    else
      var before := Run(ops[..|ops| - 1]);
      match ops[|ops| - 1]
      case DefaultConfig(cfg) => WithDefault(before, cfg)
      case ServiceConfig(name, cfg) => WithService(before, name, cfg)
      case Evaluated(name, runtime) => Evaluate(before, name, runtime).extra
  }

  /** The configurations given for all services, newest first. */
  function DefaultLayers(ops: seq<Op>): seq<Config> {
    if ops == [] then []
    else
      var last := ops[|ops| - 1];
      (if last.DefaultConfig? then [last.cfg] else []) + DefaultLayers(ops[..|ops| - 1])
  }

  /** The configurations given for one service, newest first. */
  function ServiceLayers(ops: seq<Op>, name: string): seq<Config> {
    if ops == [] then []
    else
      var last := ops[|ops| - 1];
      (if last.ServiceConfig? && last.name == name then [last.cfg] else []) + ServiceLayers(ops[..|ops| - 1], name)
  }

  function Layers(ops: seq<Op>, name: string, runtime: Services): seq<Config> {
    ServiceLayers(ops, name) + [At(runtime.services, name)] + DefaultLayers(ops) + [runtime.default]
  }

  /** The value of a key in the first layer that defines it. */
  function FirstDefined(aspect: Aspect, layers: seq<Config>, key: string): Option<string> {
    if layers == [] then None
    else if key in Of(aspect, layers[0]) then Some(Of(aspect, layers[0])[key])
    else FirstDefined(aspect, layers[1..], key)
  }

  function Get(m: map<string, string>, key: string): Option<string> {
    if key in m then Some(m[key]) else None
  }

  function OrElse(a: Option<string>, b: Option<string>): Option<string> {
    if a.Some? then a else b
  }

  lemma MergeGet(aspect: Aspect, a: Config, b: Config, key: string)
    ensures Get(Of(aspect, Merge(a, b)), key) == OrElse(Get(Of(aspect, a), key), Get(Of(aspect, b), key))
  {
  }

  lemma SameGets(a: map<string, string>, b: map<string, string>)
    requires forall key :: Get(a, key) == Get(b, key)
    ensures a == b
  {
    forall key
      ensures key in a <==> key in b
      ensures key in a ==> a[key] == b[key]
    {
      assert Get(a, key) == Get(b, key);
    }
  }

  lemma {:induction false} FirstDefinedConcat(aspect: Aspect, xs: seq<Config>, ys: seq<Config>, key: string)
    ensures FirstDefined(aspect, xs + ys, key) == OrElse(FirstDefined(aspect, xs, key), FirstDefined(aspect, ys, key))
  {
    if xs == [] {
      assert xs + ys == ys;
    } else {
      FirstDefinedConcat(aspect, xs[1..], ys, key);
      assert (xs + ys)[1..] == xs[1..] + ys;
    }
  }

  /** Evaluations leave alone what the overrides define for a service: always for fields, and for tags when
      there are no evaluations or when no override that concerns the service has a tag map. */
  predicate Undisturbed(aspect: Aspect, ops: seq<Op>, name: string) {
    || aspect == Fields
    || (forall i :: 0 <= i < |ops| ==> !ops[i].Evaluated?)
    || NoneGiven(ops, name)
  }

  /** A default override or an override of the service. */
  predicate Concerns(op: Op, name: string) {
    op.DefaultConfig? || (op.ServiceConfig? && op.name == name)
  }

  predicate NoneGiven(ops: seq<Op>, name: string) {
    forall i :: 0 <= i < |ops| && Concerns(ops[i], name) ==> ops[i].cfg.tags.None?
  }

  predicate NoTagMaps(extra: Option<Services>, name: string) {
    extra.Some? ==> extra.value.default.tags.None? && At(extra.value.services, name).tags.None?
  }

  lemma EvaluateKeeps(aspect: Aspect, extra: Services, name: string, runtime: Services, n: string)
    requires aspect == Fields || NoTagMaps(Some(extra), n)
    ensures var after := Evaluate(Some(extra), name, runtime).extra.value;
      && Of(aspect, after.default) == Of(aspect, extra.default)
      && Of(aspect, At(after.services, n)) == Of(aspect, At(extra.services, n))
      && (NoTagMaps(Some(extra), n) ==> NoTagMaps(Some(after), n))
  {
  }

  lemma {:induction false} NoTagMapsAppear(ops: seq<Op>, name: string)
    requires NoneGiven(ops, name)
    ensures NoTagMaps(Run(ops), name)
  {
    if ops != [] {
      var fewer, last := ops[..|ops| - 1], ops[|ops| - 1];
      assert forall i :: 0 <= i < |fewer| ==> fewer[i] == ops[i];
      NoTagMapsAppear(fewer, name);
      if last.Evaluated? && Run(fewer).Some? {
        EvaluateKeeps(MetricTags, Run(fewer).value, last.name, last.runtime, name);
      }
    }
  }

  /** The merged overrides define what the layers given so far define. */
  ghost predicate Follows(aspect: Aspect, extra: Option<Services>, default: seq<Config>, own: seq<Config>,
      name: string, key: string) {
    if extra.None? then default == [] && own == []
    else
      && Get(Of(aspect, extra.value.default), key) == FirstDefined(aspect, default, key)
      && Get(Of(aspect, At(extra.value.services, name)), key) == FirstDefined(aspect, own, key)
  }

  lemma DefaultFollows(aspect: Aspect, extra: Option<Services>, default: seq<Config>, own: seq<Config>, name: string,
      key: string, cfg: Config)
    requires Follows(aspect, extra, default, own, name, key)
    ensures Follows(aspect, WithDefault(extra, cfg), [cfg] + default, own, name, key)
  {
  }

  lemma ServiceFollows(aspect: Aspect, extra: Option<Services>, default: seq<Config>, own: seq<Config>, name: string,
      key: string, n: string, cfg: Config)
    requires Follows(aspect, extra, default, own, name, key)
    ensures Follows(aspect, WithService(extra, n, cfg), default, if n == name then [cfg] + own else own, name, key)
  {
  }

  lemma EvaluatedFollows(aspect: Aspect, extra: Option<Services>, default: seq<Config>, own: seq<Config>, name: string,
      key: string, n: string, runtime: Services)
    requires Follows(aspect, extra, default, own, name, key)
    requires aspect == Fields || NoTagMaps(extra, name)
    ensures Follows(aspect, Evaluate(extra, n, runtime).extra, default, own, name, key)
  {
    if extra.Some? {
      EvaluateKeeps(aspect, extra.value, n, runtime, name);
    }
  }

  /** The layers after one more call. */
  lemma LayersGrow(ops: seq<Op>, name: string)
    requires ops != []
    ensures var fewer, last := ops[..|ops| - 1], ops[|ops| - 1];
      && DefaultLayers(ops) == (if last.DefaultConfig? then [last.cfg] + DefaultLayers(fewer) else DefaultLayers(fewer))
      && ServiceLayers(ops, name) ==
         (if last.ServiceConfig? && last.name == name then [last.cfg] + ServiceLayers(fewer, name)
             else ServiceLayers(fewer, name))
  {
  }

  lemma {:induction false} OverridesFollowLayers(aspect: Aspect, ops: seq<Op>, name: string, key: string)
    requires Undisturbed(aspect, ops, name)
    ensures Follows(aspect, Run(ops), DefaultLayers(ops), ServiceLayers(ops, name), name, key)
  {
    if ops != [] {
      var fewer, last := ops[..|ops| - 1], ops[|ops| - 1];
      assert forall i :: 0 <= i < |fewer| ==> fewer[i] == ops[i];
      OverridesFollowLayers(aspect, fewer, name, key);
      LayersGrow(ops, name);
      var default, own := DefaultLayers(fewer), ServiceLayers(fewer, name);
      match last {
        case DefaultConfig(cfg) => DefaultFollows(aspect, Run(fewer), default, own, name, key, cfg);
        case ServiceConfig(n, cfg) => ServiceFollows(aspect, Run(fewer), default, own, name, key, n, cfg);
        case Evaluated(n, runtime) =>
          if aspect != Fields {
            NoTagMapsAppear(fewer, name);
          }
          EvaluatedFollows(aspect, Run(fewer), default, own, name, key, n, runtime);
      }
    }
  }

  lemma EvaluateGet(aspect: Aspect, extra: Option<Services>, name: string, runtime: Services, key: string)
    ensures Get(Of(aspect, Evaluate(extra, name, runtime).result), key) ==
            OrElse(OrElse(OrElse(if extra.None? then None else Get(Of(aspect, At(extra.value.services, name)), key),
                                 Get(Of(aspect, At(runtime.services, name)), key)),
                          if extra.None? then None else Get(Of(aspect, extra.value.default), key)),
                   Get(Of(aspect, runtime.default), key))
  {
  }

  /** After undisturbed calls, each field or tag of the effective configuration is the first one defined by: the
      service's overrides newest to oldest, the runtime configuration of the service, the default overrides newest
      to oldest, the runtime default. */
  lemma EffectiveIsFirstDefined(aspect: Aspect, ops: seq<Op>, name: string, runtime: Services, key: string)
    requires Undisturbed(aspect, ops, name)
    ensures Get(Of(aspect, Evaluate(Run(ops), name, runtime).result), key) == FirstDefined(aspect,
            Layers(ops, name, runtime), key)
  {
    var own, default := ServiceLayers(ops, name), DefaultLayers(ops);
    var runtimeOwn, runtimeDefault := [At(runtime.services, name)], [runtime.default];
    OverridesFollowLayers(aspect, ops, name, key);
    EvaluateGet(aspect, Run(ops), name, runtime, key);
    FirstDefinedConcat(aspect, own + runtimeOwn + default, runtimeDefault, key);
    FirstDefinedConcat(aspect, own + runtimeOwn, default, key);
    FirstDefinedConcat(aspect, own, runtimeOwn, key);
    assert FirstDefined(aspect, runtimeOwn, key) == Get(Of(aspect, runtimeOwn[0]), key);
    assert FirstDefined(aspect, runtimeDefault, key) == Get(Of(aspect, runtimeDefault[0]), key);
  }

  /** For fields this holds after any sequence of calls and evaluations. */
  lemma FieldsAreFirstDefined(ops: seq<Op>, name: string, runtime: Services, field: string)
    ensures Get(Evaluate(Run(ops), name, runtime).result.fields, field) == FirstDefined(Fields,
            Layers(ops, name, runtime), field)
  {
    EffectiveIsFirstDefined(Fields, ops, name, runtime, field);
  }
}
