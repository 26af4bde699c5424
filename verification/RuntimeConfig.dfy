/** Reloading the runtime configuration: the mapping function of initRuntimeConfig and the validated
    refreshable that runs it on every update (witchcraft/witchcraft.go:1002-1135). */
module RuntimeConfig {
  import opened Options
  import opened HealthStates

  type Bytes = string
  type Error = string

  /** What the configuration provider delivers: its own error, if any, and the bytes it holds. */
  datatype Update = Update(parentErr: Option<Error>, bytes: Bytes)

  /** The functions of the libraries and of the configuration type. A type without a Validate method is
      one whose validate finds nothing. */
  datatype Env<!R> = Env(
    decrypt: Bytes -> Bytes,
    plain: Bytes -> Option<R>,
    strict: Bytes -> Option<R>,
    validate: R -> Option<Error>,
    zero: R)

  datatype Rules = Rules(
    strictUnmarshaling: bool,
    metricOnFailure: bool,
    failStartupOnError: bool,
    rejectInvalidReload: bool,
    healthCheckOnFailure: Option<HealthState>)

  datatype Fault = Unmarshal | Validation(err: Error) | Parent(err: Error) | Joined(mapper: Fault, parent: Fault)

  datatype Result<R> = Ok(value: R) | Failed(fault: Fault)

  // ---------------------------------------------------------------- the meaning of a history

  /** The configuration an update unmarshals to. */
  function Parsed<R>(env: Env<R>, rules: Option<Rules>, u: Update): Option<R> {
    if rules.Some? && rules.value.strictUnmarshaling then env.strict(env.decrypt(u.bytes))
    else env.plain(env.decrypt(u.bytes))
  }

  /** It unmarshals, validation is on, and it fails Validate. */
  predicate Invalid<R(!new)>(env: Env<R>, rules: Option<Rules>, u: Update) {
    rules.Some? && Parsed(env, rules, u).Some? && env.validate(Parsed(env, rules, u).value).Some?
  }

  /** Whether an update may be published: the startup rule speaks about the first update, the reload rule
      about all others. */
  predicate Accepts<R(!new)>(env: Env<R>, rules: Option<Rules>, first: bool, u: Update) {
    && u.parentErr == None
    && Parsed(env, rules, u).Some?
    && (Invalid(env, rules, u) ==> if first then !rules.value.failStartupOnError else !rules.value.rejectInvalidReload)
  }

  predicate Accepted<R(!new)>(env: Env<R>, rules: Option<Rules>, h: seq<Update>, i: nat)
    requires i < |h|
  {
    Accepts(env, rules, i == 0, h[i])
  }

  /** The validation error remembered after an update. */
  function Remembered<R(!new)>(env: Env<R>, rules: Option<Rules>, u: Update, err: Option<Error>): Option<Error> {
    if Parsed(env, rules, u).None? then err
    else if Invalid(env, rules, u) then env.validate(Parsed(env, rules, u).value) else None
  }

  /** r is the configuration of the last accepted update. */
  ghost predicate IsPublished<R(!new)>(env: Env<R>, rules: Option<Rules>, h: seq<Update>, r: R) {
    exists i: nat :: i < |h| && Accepted(env, rules, h, i) && Parsed(env, rules, h[i]) == Some(r) &&
                     forall j: nat :: i < j < |h| ==> !Accepted(env, rules, h, j)
  }

  ghost predicate NoneAccepted<R(!new)>(env: Env<R>, rules: Option<Rules>, h: seq<Update>) {
    forall i: nat :: i < |h| ==> !Accepted(env, rules, h, i)
  }

  /** The server came up: the first mapping call did not fail. */
  predicate Live<R(!new)>(env: Env<R>, rules: Option<Rules>, h: seq<Update>) {
    |h| > 0 && Accepted(env, rules, h, 0)
  }

  /** The i-th update is the most recent one that unmarshalled. */
  ghost predicate LastParsed<R(!new)>(env: Env<R>, rules: Option<Rules>, h: seq<Update>, i: nat) {
    i < |h| && Parsed(env, rules, h[i]).Some? && forall j: nat :: i < j < |h| ==> Parsed(env, rules, h[j]).None?
  }

  /** e is the error of the most recent update that unmarshalled. */
  ghost predicate LastFailed<R(!new)>(env: Env<R>, rules: Option<Rules>, h: seq<Update>, e: Error) {
    exists i: nat :: LastParsed(env, rules, h, i) && Invalid(env, rules, h[i]) &&
        env.validate(Parsed(env, rules, h[i]).value) == Some(e)
  }

  /** How many updates failed Validate. */
  function FailureCount<R(!new)>(env: Env<R>, rules: Option<Rules>, h: seq<Update>): nat {
    if h == [] then 0
    else FailureCount(env, rules, h[..|h| - 1]) + if Invalid(env, rules, h[|h| - 1]) then 1 else 0
  }

  lemma AppendAccepted<R(!new)>(env: Env<R>, rules: Option<Rules>, h: seq<Update>, u: Update)
    ensures forall i: nat :: i < |h| ==> Accepted(env, rules, h + [u], i) == Accepted(env, rules, h, i)
    ensures (h + [u])[|h|] == u
    ensures NoneAccepted(env, rules, h + [u]) <==> NoneAccepted(env, rules, h) && !Accepted(env, rules, h + [u], |h|)
    ensures Live(env, rules, h + [u]) <==> if h == [] then Accepted(env, rules, [u], 0) else Live(env, rules, h)
  {
  }

  lemma AppendPublished<R(!new)>(env: Env<R>, rules: Option<Rules>, h: seq<Update>, u: Update, r: R)
    ensures IsPublished(env, rules, h + [u], r) <==>
            if Accepted(env, rules, h + [u], |h|) then Parsed(env, rules, u) == Some(r)
                else IsPublished(env, rules, h, r)
  {
    AppendAccepted(env, rules, h, u);
    var longer := h + [u];
    if Accepted(env, rules, longer, |h|) {
      assert longer[|h|] == u;
    } else if i: nat :| i < |h| && Accepted(env, rules, h, i) && Parsed(env, rules, h[i]) == Some(r) &&
                        forall j: nat :: i < j < |h| ==> !Accepted(env, rules, h, j) {
      assert Accepted(env, rules, longer, i) && longer[i] == h[i];
    }
  }

  lemma AppendFailed<R(!new)>(env: Env<R>, rules: Option<Rules>, h: seq<Update>, u: Update, e: Error)
    ensures LastFailed(env, rules, h + [u], e) <==>
            if Parsed(env, rules, u).Some? then Invalid(env, rules, u) &&
                env.validate(Parsed(env, rules, u).value) == Some(e)
            else LastFailed(env, rules, h, e)
  {
    var longer := h + [u];
    assert longer[|h|] == u && forall i: nat :: i < |h| ==> longer[i] == h[i];
    if Parsed(env, rules, u).Some? {
      assert LastParsed(env, rules, longer, |h|);
    } else {
      assert forall i: nat :: LastParsed(env, rules, longer, i) <==> LastParsed(env, rules, h, i);
    }
  }

  /** The remembered validation error is that of the most recent update that unmarshalled. */
  ghost predicate Remembers<R(!new)>(env: Env<R>, rules: Option<Rules>, h: seq<Update>,
      lastValidationErr: Option<Error>) {
    forall e :: lastValidationErr == Some(e) <==> LastFailed(env, rules, h, e)
  }

  /** The current value is the last accepted one, and clear says whether the last update was accepted. */
  ghost predicate Publishes<R(!new)>(env: Env<R>, rules: Option<Rules>, h: seq<Update>, current: R, clear: bool) {
    && (if NoneAccepted(env, rules, h) then current == env.zero else IsPublished(env, rules, h, current))
    && (|h| > 0 ==> (clear <==> Accepted(env, rules, h, |h| - 1)))
  }

  lemma RemembersNext<R(!new)>(env: Env<R>, rules: Option<Rules>, h: seq<Update>, err: Option<Error>, u: Update)
    requires Remembers(env, rules, h, err)
    ensures Remembers(env, rules, h + [u], Remembered(env, rules, u, err))
  {
    forall e
      ensures LastFailed(env, rules, h + [u], e) <==>
              if Parsed(env, rules, u).Some? then Invalid(env, rules, u) &&
                  env.validate(Parsed(env, rules, u).value) == Some(e)
              else LastFailed(env, rules, h, e)
    {
      AppendFailed(env, rules, h, u, e);
    }
  }

  lemma PublishesNext<R(!new)>(env: Env<R>, rules: Option<Rules>, h: seq<Update>, current: R, clear: bool, u: Update)
    requires Publishes(env, rules, h, current, clear)
    ensures var ok := Accepts(env, rules, h == [], u);
      Publishes(env, rules, h + [u], if ok then Parsed(env, rules, u).value else current, ok)
  {
    AppendAccepted(env, rules, h, u);
    AppendPublished(env, rules, h, u, if Accepted(env, rules, h + [u], |h|) then Parsed(env, rules, u).value
        else current);
  }

  // ---------------------------------------------------------------- the reloader

  /** The mapped refreshable together with the variables its mapping function closes over. */
  class Reloader<R(!new)> {
    const env: Env<R>
    const rules: Option<Rules>
    var isStartup: bool
    var lastValidationErr: Option<Error>
    var unvalidated: R
    var validated: R
    var lastErr: Option<Fault>
    var failures: nat                     // the validation failure metric
    ghost var history: seq<Update>  // every update delivered so far

    constructor (env: Env<R>, rules: Option<Rules>)
      ensures Valid() && history == [] && this.env == env && this.rules == rules
    {
      this.env, this.rules := env, rules;
      isStartup, lastValidationErr, failures, history := true, None, 0, [];
      unvalidated, validated, lastErr := env.zero, env.zero, None;
    }

    ghost predicate Valid()
      reads this
    {
      && (isStartup <==> history == [])
      && Remembers(env, rules, history, lastValidationErr)
      && Publishes(env, rules, history, unvalidated, lastErr == None)
      && (lastErr == None ==> validated == unvalidated)
      && failures == if rules.Some? && rules.value.metricOnFailure then FailureCount(env, rules, history) else 0
    }

    /** One delivery by the provider. */
    method Deliver(u: Update)
      requires Valid()
      modifies this
      ensures Valid() && history == old(history) + [u]
    {
      RemembersNext(env, rules, history, lastValidationErr, u);
      PublishesNext(env, rules, history, unvalidated, lastErr == None, u);
      Store(u);
      assert (old(history) + [u])[..|old(history)|] == old(history);
      history := history + [u];
    }

    /** The mapping function runs even when the provider reports an error, and an error from either side
        keeps the last good value. */
    method Store(u: Update)
      modifies this`isStartup, this`lastValidationErr, this`failures, this`unvalidated, this`validated, this`lastErr
      ensures !isStartup
      ensures lastValidationErr == Remembered(env, rules, u, old(lastValidationErr))
      ensures failures == old(failures) + if Invalid(env, rules, u) && rules.value.metricOnFailure then 1 else 0
      ensures var ok := Accepts(env, rules, old(isStartup), u);
        && (lastErr == None <==> ok)
        && unvalidated == (if ok then Parsed(env, rules, u).value else old(unvalidated))
        && validated == (if ok then unvalidated else env.zero)
    {
      var mapped := MapBytes(u.bytes);
      var mapErr := if mapped.Failed? then Some(mapped.fault) else None;
      lastErr := JoinFaults(mapErr, if u.parentErr.Some? then Some(Parent(u.parentErr.value)) else None);
      if lastErr == None {
        unvalidated, validated := mapped.value, mapped.value;
      } else {
        validated := env.zero;
      }
    }

    /** The mapping function. Unmarshalling errors leave the remembered validation error alone. */
    method MapBytes(bytes: Bytes) returns (r: Result<R>)
      modifies this`isStartup, this`lastValidationErr, this`failures
      ensures !isStartup
      ensures var u := Update(None, bytes);
        && lastValidationErr == Remembered(env, rules, u, old(lastValidationErr))
        && failures == old(failures) + (if Invalid(env, rules, u) && rules.value.metricOnFailure then 1 else 0)
        && (r.Ok? <==> Accepts(env, rules, old(isStartup), u))
        && (r.Ok? ==> Parsed(env, rules, u) == Some(r.value))
    {
      var startup := isStartup;
      isStartup := false;
      var cfgBytes := env.decrypt(bytes);
      var unmarshal := env.plain;
      if rules.Some? && rules.value.strictUnmarshaling {
        unmarshal := env.strict;
      }
      var cfg := unmarshal(cfgBytes);
      if cfg.None? {
        return Failed(Unmarshal);
      }
      if rules.Some? {
        var err := env.validate(cfg.value);
        if err.Some? {
          lastValidationErr := err;
          r := HandleValidationError(cfg.value, err.value, startup);
          return;
        }
      }
      lastValidationErr := None;
      return Ok(cfg.value);
    }

    method HandleValidationError(cfg: R, err: Error, startup: bool) returns (r: Result<R>)
      modifies this`failures
      ensures r == if rules.None? || (if startup then rules.value.failStartupOnError
              else rules.value.rejectInvalidReload)
                   then Failed(Validation(err)) else Ok(cfg)
      ensures failures == old(failures) + if rules.Some? && rules.value.metricOnFailure then 1 else 0
    {
      if rules.None? {
        return Failed(Validation(err));
      }
      if rules.value.metricOnFailure {
        failures := failures + 1;
      }
      if startup && rules.value.failStartupOnError {
        return Failed(Validation(err));
      }
      if !startup && rules.value.rejectInvalidReload {
        return Failed(Validation(err));
      }
      return Ok(cfg);
    }

    /** CONFIG_VALIDATION, present only when configured: the configured state exactly when the most recent
        update that unmarshalled failed Validate. */
    method ValidationHealth() returns (state: Option<HealthState>, message: Option<Error>)
      requires Valid()
      ensures state.Some? <==> rules.Some? && rules.value.healthCheckOnFailure.Some?
      ensures forall e :: state.Some? ==> (message == Some(e) <==> LastFailed(env, rules, history, e))
      ensures state.Some? ==> state == if exists e :: LastFailed(env, rules, history, e)
              then rules.value.healthCheckOnFailure else Some(HEALTHY)
    {
      message := None;
      if rules.None? || rules.value.healthCheckOnFailure.None? {
        return None, None;
      }
      message := lastValidationErr;
      if lastValidationErr.Some? {
        assert LastFailed(env, rules, history, lastValidationErr.value);
        return rules.value.healthCheckOnFailure, message;
      }
      assert forall e :: LastFailed(env, rules, history, e) ==> lastValidationErr == Some(e);
      return Some(HEALTHY), message;
    }
  }

  function JoinFaults(mapper: Option<Fault>, parent: Option<Fault>): (r: Option<Fault>)
    ensures r == None <==> mapper == None && parent == None
  {
    if mapper.Some? && parent.Some? then Some(Joined(mapper.value, parent.value))
    else if mapper.Some? then mapper
    else parent
  }

  // ---------------------------------------------------------------- what the rules achieve

  /** Delivered without an error, unmarshalled, and valid. */
  predicate Sound<R(!new)>(env: Env<R>, rules: Option<Rules>, u: Update) {
    u.parentErr == None && Parsed(env, rules, u).Some? && env.validate(Parsed(env, rules, u).value).None?
  }

  /** With startup failure and reload rejection both on, the published configuration of a running server is
      that of the last sound update; so it passes Validate. */
  lemma PublishedIsLastSound<R(!new)>(env: Env<R>, rules: Option<Rules>, h: seq<Update>, r: R)
    requires rules.Some? && rules.value.failStartupOnError && rules.value.rejectInvalidReload
    ensures IsPublished(env, rules, h, r) <==>
            exists i: nat :: i < |h| && Sound(env, rules, h[i]) && Parsed(env, rules, h[i]) == Some(r) &&
                             forall j: nat :: i < j < |h| ==> !Sound(env, rules, h[j])
    ensures IsPublished(env, rules, h, r) ==> env.validate(r).None?
  {
  }

  ghost predicate OnlyValidPublished<R(!new)>(env: Env<R>, rules: Option<Rules>) {
    forall h: seq<Update>, r: R :: Live(env, rules, h) && IsPublished(env, rules, h, r) ==> env.validate(r).None?
  }

  /** When sound and invalid bytes both exist, no run of a server ever publishes an invalid configuration
      exactly when both rules are on. */
  lemma RulesAreExact<R(!new)>(env: Env<R>, rules: Option<Rules>, good: Bytes, bad: Bytes)
    requires Sound(env, rules, Update(None, good))
    requires Parsed(env, rules, Update(None, bad)).Some? &&
             env.validate(Parsed(env, rules, Update(None, bad)).value).Some?
    ensures OnlyValidPublished(env, rules) <==>
                rules.Some? && rules.value.failStartupOnError && rules.value.rejectInvalidReload
  {
    var g, b := Update(None, good), Update(None, bad);
    var r := Parsed(env, rules, b).value;
    if rules.Some? && rules.value.failStartupOnError && rules.value.rejectInvalidReload {
      forall h: seq<Update>, r: R | Live(env, rules, h) && IsPublished(env, rules, h, r)
        ensures env.validate(r).None?
      {
        PublishedIsLastSound(env, rules, h, r);
      }
    } else if rules.Some? && rules.value.failStartupOnError {
      assert Live(env, rules, [g, b]) && Accepted(env, rules, [g, b], 1);
      assert IsPublished(env, rules, [g, b], r);
    } else {
      assert Live(env, rules, [b]) && Accepted(env, rules, [b], 0);
      assert IsPublished(env, rules, [b], r);
    }
  }

  /** The refreshable's error and CONFIG_VALIDATION are both clear exactly when the latest update is sound,
      and then the published configuration is the latest one. */
  lemma ClearMeansCurrent<R(!new)>(env: Env<R>, rules: Option<Rules>, h: seq<Update>)
    requires |h| > 0 && rules.Some?
    ensures Accepted(env, rules, h, |h| - 1) && !(exists e :: LastFailed(env, rules, h, e)) <==>
            Sound(env, rules, h[|h| - 1])
    ensures Sound(env, rules, h[|h| - 1]) ==> IsPublished(env, rules, h, Parsed(env, rules, h[|h| - 1]).value)
  {
    var last := h[|h| - 1];
    assert h[..|h| - 1] + [last] == h;
    forall e
      ensures Parsed(env, rules, last).Some? ==>
              (LastFailed(env, rules, h, e) <==> env.validate(Parsed(env, rules, last).value) == Some(e))
    {
      AppendFailed(env, rules, h[..|h| - 1], last, e);
    }
    if Parsed(env, rules, last).Some? {
      AppendPublished(env, rules, h[..|h| - 1], last, Parsed(env, rules, last).value);
      var err := env.validate(Parsed(env, rules, last).value);
      if err.Some? {
        assert LastFailed(env, rules, h, err.value);
      }
    }
  }

  /** The startup rule decides whether the server comes up and nothing else: two servers that differ in it
      and are both up have published the same configuration. */
  lemma StartupRuleEndsAtStartup<R(!new)>(env: Env<R>, rules: Rules, failStartup: bool, h: seq<Update>, r: R)
    requires Live(env, Some(rules), h) && Live(env, Some(rules.(failStartupOnError := failStartup)), h)
    ensures IsPublished(env, Some(rules), h, r) <==>
            IsPublished(env, Some(rules.(failStartupOnError := failStartup)), h, r)
  {
  }

  // ---------------------------------------------------------------- the reloader, spelled out

  /** After the latest update the error is clear exactly when the provider reported none, the decrypted bytes
      unmarshal in the configured way, and the value is valid or the rule in force lets it pass; then that value is
      published. The remembered error is that of the unmarshalled value. */
  lemma LatestIsPublished<R(!new)>(x: Reloader<R>)
    requires x.Valid() && x.history != []
    ensures var u, first := x.history[|x.history| - 1], |x.history| == 1;
            var strict := x.rules.Some? && x.rules.value.strictUnmarshaling;
            var cfg := if strict then x.env.strict(x.env.decrypt(u.bytes)) else x.env.plain(x.env.decrypt(u.bytes));
            && (x.lastErr == None <==>
                && u.parentErr == None && cfg.Some?
                && (x.rules.None? || x.env.validate(cfg.value).None? ||
                    !(if first then x.rules.value.failStartupOnError else x.rules.value.rejectInvalidReload)))
            && (x.lastErr == None ==> cfg == Some(x.unvalidated) && x.validated == x.unvalidated)
            && (cfg.Some? ==> x.lastValidationErr == if x.rules.Some? then x.env.validate(cfg.value) else None)
  {
    var before, u := x.history[..|x.history| - 1], x.history[|x.history| - 1];
    assert before + [u] == x.history;
    AppendPublished(x.env, x.rules, before, u, x.unvalidated);
    assert x.lastErr == None ==> !NoneAccepted(x.env, x.rules, x.history);
    assert forall e :: LastFailed(x.env, x.rules, x.history, e) <==> x.lastValidationErr == Some(e);
    forall e
      ensures Parsed(x.env, x.rules, u).Some? ==>
              (x.lastValidationErr == Some(e) <==>
               (Invalid(x.env, x.rules, u) && x.env.validate(Parsed(x.env, x.rules, u).value) == Some(e)))
    {
      AppendFailed(x.env, x.rules, before, u, e);
    }
  }

  /** Whatever a server has published but the zero value was delivered without an error, and is what its decrypted
      bytes unmarshal to, strictly exactly when the server is configured so. */
  lemma PublishedWasDelivered<R(!new)>(x: Reloader<R>)
    requires x.Valid() && x.unvalidated != x.env.zero
    ensures var strict := x.rules.Some? && x.rules.value.strictUnmarshaling;
            exists i :: 0 <= i < |x.history| && x.history[i].parentErr == None &&
                        (if strict then x.env.strict(x.env.decrypt(x.history[i].bytes))
                         else x.env.plain(x.env.decrypt(x.history[i].bytes))) == Some(x.unvalidated)
  {
  }

  /** An update that leaves the error set keeps the published value, and one whose decrypted bytes do not unmarshal
      keeps the remembered validation error too. */
  lemma RefusedKeepsLast<R(!new)>(before: Reloader<R>, after: Reloader<R>, u: Update)
    requires before.Valid() && after.Valid() && after.env == before.env && after.rules == before.rules
    requires after.history == before.history + [u]
    ensures after.lastErr != None ==> after.unvalidated == before.unvalidated
    ensures var strict := after.rules.Some? && after.rules.value.strictUnmarshaling;
            (if strict then after.env.strict(after.env.decrypt(u.bytes)).None?
             else after.env.plain(after.env.decrypt(u.bytes)).None?) ==>
              after.lastErr != None && after.lastValidationErr == before.lastValidationErr
  {
    var env, rules, h := before.env, before.rules, before.history;
    RemembersNext(env, rules, h, before.lastValidationErr, u);
    PublishesNext(env, rules, h, before.unvalidated, before.lastErr == None, u);
    var ok := Accepts(env, rules, h == [], u);
    PublishesOne(env, rules, after.history, after.unvalidated, after.lastErr == None,
                 if ok then Parsed(env, rules, u).value else before.unvalidated, ok);
    RemembersOne(env, rules, after.history, after.lastValidationErr,
                       Remembered(env, rules, u, before.lastValidationErr));
  }

  lemma PublishesOne<R(!new)>(env: Env<R>, rules: Option<Rules>, h: seq<Update>, a: R, x: bool, b: R, y: bool)
    requires Publishes(env, rules, h, a, x) && Publishes(env, rules, h, b, y)
    ensures a == b && (h != [] ==> x == y)
  {
  }

  lemma RemembersOne<R(!new)>(env: Env<R>, rules: Option<Rules>, h: seq<Update>, a: Option<Error>,
      b: Option<Error>)
    requires Remembers(env, rules, h, a) && Remembers(env, rules, h, b)
    ensures a == b
  {
  }

  /** What a server has published, its error flag, its remembered error and its failure count depend on the provider's
      errors and on the decrypted bytes only. */
  lemma OnlyDecryptionMatters<R(!new)>(a: Reloader<R>, b: Reloader<R>)
    requires a.Valid() && b.Valid() && a.env == b.env && a.rules == b.rules
    requires |a.history| == |b.history| && forall i :: 0 <= i < |a.history| ==>
               && a.history[i].parentErr == b.history[i].parentErr
               && a.env.decrypt(a.history[i].bytes) == a.env.decrypt(b.history[i].bytes)
    ensures a.unvalidated == b.unvalidated && a.lastValidationErr == b.lastValidationErr && a.failures == b.failures
    ensures a.history != [] ==> (a.lastErr == None <==> b.lastErr == None)
  {
    var env, rules, g, h := a.env, a.rules, a.history, b.history;
    SamePublishes(env, rules, g, h, a.unvalidated, a.lastErr == None);
    SameRemembers(env, rules, g, h, a.lastValidationErr);
    SameFailures(env, rules, g, h);
    PublishesOne(env, rules, h, a.unvalidated, a.lastErr == None, b.unvalidated, b.lastErr == None);
    RemembersOne(env, rules, h, a.lastValidationErr, b.lastValidationErr);
  }

  ghost predicate SameUpdates<R(!new)>(env: Env<R>, rules: Option<Rules>, g: seq<Update>, h: seq<Update>) {
    |g| == |h| && forall i: nat :: i < |g| ==>
      g[i].parentErr == h[i].parentErr && Parsed(env, rules, g[i]) == Parsed(env, rules, h[i])
  }

  lemma SamePublishes<R(!new)>(env: Env<R>, rules: Option<Rules>, g: seq<Update>, h: seq<Update>, r: R, clear: bool)
    requires SameUpdates(env, rules, g, h) && Publishes(env, rules, g, r, clear)
    ensures Publishes(env, rules, h, r, clear)
  {
    assert forall i: nat :: i < |g| ==> Accepted(env, rules, g, i) == Accepted(env, rules, h, i);
  }

  lemma SameRemembers<R(!new)>(env: Env<R>, rules: Option<Rules>, g: seq<Update>, h: seq<Update>, err: Option<Error>)
    requires SameUpdates(env, rules, g, h) && Remembers(env, rules, g, err)
    ensures Remembers(env, rules, h, err)
  {
    assert forall i: nat :: LastParsed(env, rules, g, i) <==> LastParsed(env, rules, h, i);
    assert forall e :: LastFailed(env, rules, g, e) <==> LastFailed(env, rules, h, e);
  }

  lemma {:induction false} SameFailures<R(!new)>(env: Env<R>, rules: Option<Rules>, g: seq<Update>, h: seq<Update>)
    requires SameUpdates(env, rules, g, h)
    ensures FailureCount(env, rules, g) == FailureCount(env, rules, h)
  {
    if g != [] {
      SameFailures(env, rules, g[..|g| - 1], h[..|h| - 1]);
    }
  }
}
