/** The zero-value-first rule with the key the emitter really uses. */
module EmissionKeys {
  import opened MetricKey
  import Em = Emission

  /** Some iteration order of the tag map. */
  ghost function Order(keys: set<string>): seq<string> {
    if keys == {} then [] else var k :| k in keys; [k] + Order(keys - {k})
  }

  lemma {:induction false} OrderIterates(keys: set<string>)
    ensures forall k :: k in Order(keys) <==> k in keys
    ensures forall i, j :: 0 <= i < j < |Order(keys)| ==> Order(keys)[i] != Order(keys)[j]
  {
    if keys != {} {
      var k := Order(keys)[0];
      assert Order(keys) == [k] + Order(keys - {k});
      OrderIterates(keys - {k});
    }
  }

  /** The key of a metric; by KeyIgnoresOrder it is the one TagMapKey computes. */
  ghost function KeyOf(m: Em.Metric): string {
    OrderIterates(m.tags.Keys);
    KeyFor(m.id, m.ty, m.tags, Order(m.tags.Keys))
  }

  ghost predicate Registered(ms: set<Em.Metric>, lower: char -> char) {
    forall m :: m in ms ==> (m.ty == "meter" || m.ty == "timer" || m.ty == "histogram") && FromRegistry(m.tags, lower)
  }

  lemma RegistryKeysAreInjective(c: Em.Config, ms: set<Em.Metric>, lower: char -> char)
    requires Registered(ms, lower) && forall m :: m in ms ==> c.key(m) == KeyOf(m)
    ensures Em.Injective(c, ms)
  {
    forall m1, m2 | m1 in ms && m2 in ms && c.key(m1) == c.key(m2)
      ensures m1 == m2
    {
      OrderIterates(m1.tags.Keys);
      OrderIterates(m2.tags.Keys);
      RegistryTagsAreDecodable(m1.ty, m1.tags, lower);
      RegistryTagsAreDecodable(m2.ty, m2.tags, lower);
      KeyIsInjective(m1.id, m1.ty, m1.tags, Order(m1.tags.Keys), m2.id, m2.ty, m2.tags, Order(m2.tags.Keys));
    }
  }

  /** Whatever meters, timers and histograms the registry holds, in every interleaving of any number
      of emitters, the first line of each is its zero line, logged at most once. */
  lemma RegistryMetricsStartAtZero(c: Em.Config, ms: set<Em.Metric>, lower: char -> char, actions: seq<Em.Action>,
      m: Em.Metric)
    requires Registered(ms, lower) && (forall x :: x in ms ==> c.key(x) == KeyOf(x))
    requires Em.Visits(c, actions, ms) && m in ms && Em.NeedsZero(c, m)
    ensures Em.Rule(c, Em.Exec(c, Em.Init(), actions).log, m)
  {
    RegistryKeysAreInjective(c, ms, lower);
    Em.ZeroLineComesFirst(c, ms, actions, m);
  }
}
