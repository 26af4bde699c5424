/** Service discovery with its overrides, whose tag maps are shared, mutable objects
    (witchcraft/service_discovery.go:66-182). */
module ServiceDiscovery {
  import opened Options
  import opened ServiceConfigs

  /** A metric tag map; configurations are copied, tag maps are not. */
  class TagMap {
    var entries: Tags

    constructor ()
      ensures entries == map[]
    {
      entries := map[];
    }
  }

  datatype ClientConfig = ClientConfig(serviceName: string, fields: map<string, string>, tags: TagMap?)

  datatype ServicesConfig = ServicesConfig(default: ClientConfig, services: map<string, ClientConfig>)

  const ZERO_CONFIG := ClientConfig("", map[], null)

  function Entries(t: TagMap?): Option<Tags>
    reads t
  {
    if t == null then None else Some(t.entries)
  }

  function Value(c: ClientConfig): Config
    reads c.tags
  {
    Config(c.fields, Entries(c.tags))
  }

  ghost function MapOf(c: ClientConfig): set<TagMap> {
    if c.tags == null then {} else {c.tags}
  }

  /** Adds to conf what only defaults has. The tags go into conf's own map when it has one. */
  method MergeClientConfig(conf: ClientConfig, defaults: ClientConfig) returns (r: ClientConfig)
    modifies MapOf(conf)
    ensures Value(r) == Merge(old(Value(conf)), old(Value(defaults))) && r.serviceName == conf.serviceName
    ensures conf.tags != null ==> r.tags == conf.tags
    ensures conf.tags == null && r.tags != null ==> fresh(r.tags)
  {
    r := conf.(fields := defaults.fields + conf.fields);
    if defaults.tags == null || defaults.tags.entries == map[] {
      return;
    }
    if conf.tags == null {
      var added := new TagMap();
      r := r.(tags := added);
    }
    FillTags(r.tags, defaults.tags.entries);
  }

  /** The loop that adds the missing tags. */
  method FillTags(into: TagMap, from: Tags)
    modifies into
    ensures into.entries == from + old(into.entries)
  {
    ghost var was := into.entries;
    var left := from.Keys;
    while left != {}
      invariant left <= from.Keys && Filling(into.entries, was, from, left)
      decreases |left|
    {
      var k :| k in left;
      FillOne(into.entries, was, from, left, k);
      if k !in into.entries {
        into.entries := into.entries[k := from[k]];
      }
      left := left - {k};
    }
    SameGets(into.entries, from + was);
  }

  /** All tags but those in left have been looked at. */
  ghost predicate Filling(now: Tags, was: Tags, from: Tags, left: set<string>) {
    forall k :: Get(now, k) == OrElse(Get(was, k), if k in left then None else Get(from, k))
  }

  lemma FillOne(now: Tags, was: Tags, from: Tags, left: set<string>, k: string)
    requires Filling(now, was, from, left) && k in left && k in from
    ensures Filling(if k in now then now else now[k := from[k]], was, from, left - {k})
  {
  }

  ghost function MapsOf(s: ServicesConfig): set<TagMap> {
    MapOf(s.default) + set n | n in s.services && s.services[n].tags != null :: s.services[n].tags
  }

  function ServicesValue(s: ServicesConfig): Services
    reads MapsOf(s)
  {
    Services(Value(s.default), map n | n in s.services :: Value(s.services[n]))
  }

  /** No tag map is used twice. */
  ghost predicate Separate(s: ServicesConfig) {
    && (forall n :: n in s.services ==> MapOf(s.services[n]) !! MapOf(s.default))
    && (forall m, n :: m in s.services && n in s.services && m != n ==> MapOf(s.services[m]) !! MapOf(s.services[n]))
  }

  ghost predicate SameBut(now: map<string, ClientConfig>, was: map<string, ClientConfig>, name: string) {
    forall n :: n != name ==> (n in now <==> n in was) && (n in now ==> now[n] == was[n])
  }

  class Discovery {
    var extra: Option<ServicesConfig>

    constructor ()
      ensures extra == None
    {
      extra := None;
    }

    ghost function Maps(): set<TagMap>
      reads this
    {
      if extra.Some? then MapsOf(extra.value) else {}
    }

    function Overrides(): Option<Services>
      reads this, Maps()
    {
      if extra.Some? then Some(ServicesValue(extra.value)) else None
    }

    /** No two overrides share a tag map. */
    ghost predicate Unshared()
      reads this
    {
      extra.Some? ==> Separate(extra.value)
    }

    /** The default layer becomes the new one put before the old; every other override is the same object as
        before. With tag maps of their own, that is all that changes. */
    method WithDefaultConfig(defaults: ClientConfig)
      modifies this, MapOf(defaults)
      ensures extra.Some? && extra.value.services == if old(extra).Some? then old(extra).value.services else map[]
      ensures Value(extra.value.default) == WithDefault(old(Overrides()), old(Value(defaults))).value.default
      ensures old(Unshared()) && MapOf(defaults) !! old(Maps()) ==>
                Unshared() && Overrides() == WithDefault(old(Overrides()), old(Value(defaults)))
    {
      if extra.None? {
        extra := Some(ServicesConfig(defaults, map[]));
      } else {
        ghost var was := extra.value;
        var merged := MergeClientConfig(defaults, extra.value.default);
        extra := Some(extra.value.(default := merged));
        if old(Unshared()) && MapOf(defaults) !! old(Maps()) {
          assert ServicesValue(was) == old(ServicesValue(extra.value));
          assert Overrides().value.services == ServicesValue(was).services;
        }
      }
    }

    /** The same for one service. */
    method WithServiceConfig(name: string, cfg: ClientConfig)
      modifies this, MapOf(cfg)
      ensures extra.Some? && extra.value.default == (if old(extra).Some? then old(extra).value.default else ZERO_CONFIG)
      ensures name in extra.value.services &&
              SameBut(extra.value.services, if old(extra).Some? then old(extra).value.services else map[], name)
      ensures Value(extra.value.services[name]) == WithService(old(Overrides()), name,
              old(Value(cfg))).value.services[name]
      ensures old(Unshared()) && MapOf(cfg) !! old(Maps()) ==>
                Unshared() && Overrides() == WithService(old(Overrides()), name, old(Value(cfg)))
    {
      var more;
      if extra.None? {
        more := ServicesConfig(ZERO_CONFIG, map[name := cfg]);
        OneService(name, cfg);
      } else {
        more := AddTo(extra.value, name, cfg);
      }
      SetExtra(more);
    }

    method SetExtra(more: ServicesConfig)
      modifies this
      ensures extra == Some(more) && Overrides() == Some(old(ServicesValue(more)))
    {
      ghost var value := ServicesValue(more);
      extra := Some(more);
      assert ServicesValue(more) == value;
    }

    /** The view's mapping function. The answer is the one on values, whatever tag maps are shared. It is the
        service's own tag map when there is one, and otherwise a new one; and without shared maps, what is left
        in the maps it was built from is what is left on values. */
    method ServiceConfig(name: string, runtime: ServicesConfig) returns (r: ClientConfig)
      modifies if extra.Some? then Maps() else MapsOf(runtime)
      ensures r.serviceName == name
      ensures Value(r) == Evaluate(old(Overrides()), name, old(ServicesValue(runtime))).result
      ensures var own := if extra.Some? then Find(extra.value, name) else Find(runtime, name);
        if own.tags != null then r.tags == own.tags else r.tags == null || fresh(r.tags)
      ensures Unshared() && Separate(runtime) && Maps() !! MapsOf(runtime) ==>
                Evaluation(Value(r), Overrides(), ServicesValue(runtime)) == Evaluate(old(Overrides()), name,
                    old(ServicesValue(runtime)))
    {
      if extra.None? {
        r := RuntimeConfig(name, runtime);
      } else {
        r := OverriddenConfig(name, extra.value, runtime);
      }
    }

    /** Two services given one tag map are answered with that map: whatever the first answer put there shows in
        the second, before anything that the second service's runtime configuration or the defaults say. */
    method SharedMapsMix(a: string, b: string, runtimeA: ServicesConfig, runtimeB: ServicesConfig)
        returns (ra: ClientConfig, ghost tagsA: Tags, rb: ClientConfig)
      requires extra.Some? && Find(extra.value, a).tags != null &&
               Find(extra.value, a).tags == Find(extra.value, b).tags
      modifies Maps()
      ensures tagsA == Content(Evaluate(old(Overrides()), a, old(ServicesValue(runtimeA))).result.tags)
      ensures ra.tags == rb.tags && forall key :: key in tagsA ==>
              Get(Content(Entries(rb.tags)), key) == Get(tagsA, key)
    {
      ra := ServiceConfig(a, runtimeA);
      tagsA := Content(Entries(ra.tags));
      ghost var middle, runtime := Overrides(), ServicesValue(runtimeB);
      assert At(middle.value.services, b).tags == Entries(ra.tags);
      rb := ServiceConfig(b, runtimeB);
      forall key | key in tagsA
        ensures Get(Content(Entries(rb.tags)), key) == Get(tagsA, key)
      {
        EvaluateGet(MetricTags, middle, b, runtime, key);
      }
    }
  }

  /** The configurations with cfg put before what a service has. */
  method AddTo(s: ServicesConfig, name: string, cfg: ClientConfig) returns (more: ServicesConfig)
    modifies MapOf(cfg)
    ensures more.default == s.default && name in more.services && SameBut(more.services, s.services, name)
    ensures Value(more.services[name]) == WithService(Some(old(ServicesValue(s))), name,
            old(Value(cfg))).value.services[name]
    ensures Separate(s) && MapOf(cfg) !! MapsOf(s) ==>
              Separate(more) && Some(ServicesValue(more)) == WithService(Some(old(ServicesValue(s))), name,
                  old(Value(cfg)))
  {
    var added := cfg;
    if name in s.services {
      added := MergeClientConfig(cfg, s.services[name]);
    }
    more := s.(services := s.services[name := added]);
    if Separate(s) && MapOf(cfg) !! MapsOf(s) {
      assert ServicesValue(s) == old(ServicesValue(s));
      Inserted(s, name, added);
    }
  }

  lemma OneService(name: string, cfg: ClientConfig)
    ensures var only := ServicesConfig(ZERO_CONFIG, map[name := cfg]);
      Separate(only) && Some(ServicesValue(only)) == WithService(None, name, Value(cfg))
  {
    assert ServicesValue(ServicesConfig(ZERO_CONFIG, map[name := cfg])).services == map[name := Value(cfg)];
  }

  lemma Inserted(s: ServicesConfig, name: string, added: ClientConfig)
    requires Separate(s) && MapOf(added) !! MapsOf(s)
    ensures var more := s.(services := s.services[name := added]);
      Separate(more) && ServicesValue(more) == ServicesValue(s).(services :=
          ServicesValue(s).services[name := Value(added)])
  {
  }

  /** ClientConfig of the runtime configuration alone. */
  method RuntimeConfig(name: string, runtime: ServicesConfig) returns (r: ClientConfig)
    modifies MapsOf(runtime)
    ensures r.serviceName == name
    ensures Value(r) == Evaluate(None, name, old(ServicesValue(runtime))).result
    ensures if Find(runtime, name).tags != null then r.tags == Find(runtime, name).tags
            else r.tags == null || fresh(r.tags)
    ensures Separate(runtime) ==> ServicesValue(runtime) == Evaluate(None, name, old(ServicesValue(runtime))).runtime
  {
    var conf := Find(runtime, name);
    r := MergeClientConfig(conf.(serviceName := name), runtime.default);
    if Separate(runtime) {
      OneRefilled(ServicesValue(runtime).services, old(ServicesValue(runtime)).services, name, Entries(r.tags));
    }
  }

  lemma OneRefilled(now: map<string, Config>, was: map<string, Config>, name: string, tags: Option<Tags>)
    requires now.Keys == was.Keys
    requires forall n :: n in now && n != name ==> now[n] == was[n]
    requires name in now ==> now[name] == Filled(was[name], tags)
    ensures now == Refilled(was, name, tags)
  {
  }

  /** The three merges, on the four configurations they work with. Whichever of them share a tag map, the result
      is the merge of their values. */
  method MergeLayers(own: ClientConfig, runtimeOwn: ClientConfig, default: ClientConfig, runtimeDefault: ClientConfig)
      returns (r: ClientConfig)
    modifies MapOf(own), MapOf(default)
    ensures var merged := Merge(old(Value(default)), old(Value(runtimeDefault)));
      && Value(r) == Merge(Merge(old(Value(own)), old(Value(runtimeOwn))), merged)
      && (MapOf(own) !! MapOf(default) && MapOf(own) + MapOf(default) !! MapOf(runtimeOwn) + MapOf(runtimeDefault) ==>
            Value(default) == Filled(old(Value(default)), merged.tags))
    ensures if own.tags != null then r.tags == own.tags else r.tags == null || fresh(r.tags)
  {
    var first := MergeClientConfig(own, runtimeOwn);
    var second := MergeClientConfig(default, runtimeDefault);
    r := MergeClientConfig(first, second);
    SharingIsHarmless(old(Entries(own.tags)), old(Entries(runtimeOwn.tags)), old(Entries(default.tags)),
        old(Entries(runtimeDefault.tags)),
                      own.tags != null && default.tags == own.tags, own.tags != null &&
                          runtimeDefault.tags == own.tags);
  }

  /** The merges in order, with the default or the runtime default sharing the map that the first of them fills. */
  lemma SharingIsHarmless(own: Option<Tags>, runtimeOwn: Option<Tags>, default: Option<Tags>,
      runtimeDefault: Option<Tags>,
                          sameDefault: bool, sameRuntime: bool)
    requires sameDefault ==> own.Some? && default == own
    requires sameRuntime ==> own.Some? && runtimeDefault == own
    ensures var first := MergeTags(own, runtimeOwn);
      var second := MergeTags(if sameDefault then first else default, if sameRuntime then first else runtimeDefault);
      MergeTags(if sameDefault then second else first, second) == MergeTags(first, MergeTags(default, runtimeDefault))
  {
    var first := MergeTags(own, runtimeOwn);
    var second := MergeTags(if sameDefault then first else default, if sameRuntime then first else runtimeDefault);
    var plain := MergeTags(default, runtimeDefault);
    var shared, apart := MergeTags(if sameDefault then second else first, second), MergeTags(first, plain);
    forall key
      ensures Get(Content(shared), key) == Get(Content(apart), key)
    {
      TagGet(own, runtimeOwn, key);
      TagGet(default, runtimeDefault, key);
      TagGet(if sameDefault then first else default, if sameRuntime then first else runtimeDefault, key);
      TagGet(if sameDefault then second else first, second, key);
      TagGet(first, plain, key);
    }
    SameGets(Content(shared), Content(apart));
  }

  lemma TagGet(a: Option<Tags>, b: Option<Tags>, key: string)
    ensures Get(Content(MergeTags(a, b)), key) == OrElse(Get(Content(a), key), Get(Content(b), key))
  {
  }

  method OverriddenConfig(name: string, extra: ServicesConfig, runtime: ServicesConfig) returns (r: ClientConfig)
    modifies MapsOf(extra)
    ensures r.serviceName == name
    ensures Value(r) == Evaluate(Some(old(ServicesValue(extra))), name, old(ServicesValue(runtime))).result
    ensures if Find(extra, name).tags != null then r.tags == Find(extra, name).tags else r.tags == null || fresh(r.tags)
    ensures Apart(extra, runtime) ==>
              Evaluation(Value(r), Some(ServicesValue(extra)), ServicesValue(runtime)) ==
              Evaluate(Some(old(ServicesValue(extra))), name, old(ServicesValue(runtime)))
  {
    r := MergeFound(name, extra, runtime);
    if Apart(extra, runtime) {
      LeftBehind(ServicesValue(extra), old(ServicesValue(extra)), ServicesValue(runtime), name, Value(r));
    }
  }

  ghost predicate Apart(extra: ServicesConfig, runtime: ServicesConfig) {
    Separate(extra) && Separate(runtime) && MapsOf(extra) !! MapsOf(runtime)
  }

  /** The merges for one service, and which maps they leave alone. */
  method MergeFound(name: string, extra: ServicesConfig, runtime: ServicesConfig) returns (r: ClientConfig)
    modifies MapsOf(extra)
    ensures r.serviceName == name
    ensures Value(r) == Evaluate(Some(old(ServicesValue(extra))), name, old(ServicesValue(runtime))).result
    ensures if Find(extra, name).tags != null then r.tags == Find(extra, name).tags else r.tags == null || fresh(r.tags)
    ensures Apart(extra, runtime) ==>
              && ServicesValue(runtime) == old(ServicesValue(runtime))
              && Value(extra.default) == Filled(old(Value(extra.default)),
                  Merge(old(Value(extra.default)), old(Value(runtime.default))).tags)
              && forall n :: n in extra.services && n != name ==>
                  Value(extra.services[n]) == old(Value(extra.services[n]))
  {
    assert MapOf(Find(extra, name)) <= MapsOf(extra) && MapOf(Find(runtime, name)) <= MapsOf(runtime);
    r := MergeLayers(Find(extra, name), Find(runtime, name), extra.default, runtime.default);
    r := r.(serviceName := name);
    if Apart(extra, runtime) {
      forall n | n in extra.services && n != name
        ensures Value(extra.services[n]) == old(Value(extra.services[n]))
      {
        assert MapOf(extra.services[n]) !! MapOf(Find(extra, name)) + MapOf(extra.default);
      }
    }
  }

  /** What the evaluation on values leaves in the overrides. */
  lemma LeftBehind(now: Services, was: Services, runtime: Services, name: string, result: Config)
    requires result == Evaluate(Some(was), name, runtime).result
    requires now.default == Filled(was.default, Merge(was.default, runtime.default).tags)
    requires now.services.Keys == was.services.Keys && forall n :: n in now.services && n != name ==>
             now.services[n] == was.services[n]
    requires name in now.services ==> now.services[name] == Filled(was.services[name], result.tags)
    ensures Evaluation(result, Some(now), runtime) == Evaluate(Some(was), name, runtime)
  {
    OneRefilled(now.services, was.services, name, result.tags);
  }

  function Find(s: ServicesConfig, name: string): ClientConfig {
    if name in s.services then s.services[name] else ZERO_CONFIG
  }
}
