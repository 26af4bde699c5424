# Verified model of the witchcraft-go-server cores

This project models the stateful cores of the witchcraft server framework in Dafny and proves what they
promise over whole runs and, where goroutines share state, over every interleaving.
`dafny verify dfyconfig.toml` checks all of it.

What each module is about:

- `ServerState`, `Lifecycle`, `LifecycleFree`, `LifecycleStops`, `LifecycleRefusal`, `LifecycleQuiet`,
  `LifecycleServers`, `LifecycleDisciplined`, `LifecycleNecessity`: the start/stop protocol around one atomic state word, one
  `shutdownFinished` channel per run and the `httpServer` pointer. Any number of Start, Shutdown and Close calls run
  concurrently; every load, compare-and-swap, store, channel make, channel read, receive and close is a step of its
  own. Some results hold for all interleavings (`LifecycleFree`, `LifecycleStops`, `LifecycleRefusal`). The others hold under
  disciplines on callers, because the code stores Idle before it closes the channel and wins its first swap before it
  makes the channel:
  (D1) an Idle to Initializing swap succeeds only after the previous run's Start has returned and the stop that won
  that run has closed its channel; (D2) no stop wins between a Start's swap and its channel make.
  D1 alone gives everything about runs, blocked Starts, stops and the deferred reset loop (`LifecycleQuiet`,
  `LifecycleServers`). D2 is what the close needs: with it no close panics or hits another run's channel
  (`LifecycleDisciplined`). `DisciplineIsExact` proves that for this the two are not only sufficient but necessary: any
  reachable step that breaks one of them can be continued to a run in which a close panics, hits another run's channel,
  or a Start moves another run's word.
- `Limiter`, `LimiterLag`, `LimiterHealth`: the in-flight request limiter, as a transition system in which the
  increment, the read of the limit and the two halves of a health update are separate steps, and as an object with
  atomic operations.
- `TimeBuckets`, `DependencyReport`, `DependencyEvaluation`, `DependencyLog`, `DependencyTearing`, `DependencyHealth`:
  the pruned buckets behind SERVICE_DEPENDENCY, against the full log of classified responses.
- `FiveHundreds`: the shifting window flags behind ENDPOINT_FIVE_HUNDREDS, against the full log of responses and
  ticks.
- `MetricKey`, `Emission`, `EmissionVisits`, `EmissionKeys`: metric emission by concurrent emitters and the string key it relies on.
- `RuntimeConfig`: the reload state machine of the runtime configuration.
- `YamlDecrypt`, `YamlPaths`, `YamlNodes`: decryption of encrypted values, on values, path by path, and in place on heap
  nodes.
- `ServiceConfigs`, `StaleTags`, `ServiceDiscovery`: layered client configuration.
- `Sampling`: trace sampling arithmetic on doubles. `HealthChange`: change detection between health requests.
- `Options`, `HealthStates`, `Strings`: the optional value, the states of a health check, and sorting, joining and
  splitting of strings.

Where the code and its documentation or the natural expectation part ways, the model follows the code and says when
the expectation does hold:

- The error for a lost start is computed from a second load of the word, so it names that word and not the one the
  swap was lost to. It is the default one exactly when the second load finds Idle, which takes a change of the word
  after the lost swap (`LifecycleRefusal.RefusalNamesSecondLoad`, `DefaultErrorNeedsChange`), and it does happen to
  disciplined callers (`DefaultErrorCanHappen`).
- The `httpServer` pointer is never reset. A stop that wins from Running acts on the server of its own run; one that wins
  while Initializing acts on none, on its own run's or on an earlier run's (`LifecycleServers.StopActsOnOwnOrEarlier`),
  and the last does happen to disciplined callers (`EarlierServerCanBeStopped`).
- The limiter's health is read and set in two steps, so a late write can overrule a newer one. With nobody in the
  middle of a step, HEALTHY above the limit is impossible exactly when the limit leaves no slot
  (`LimiterLag.LagIsExact`), and REPAIRING below the limit exactly when there is at most one
  (`LimiterLag.StickIsExact`). Draining restores HEALTHY exactly when there is at least one
  (`Limiter.DrainingRestoresHealth`).
- Every count of the dependency check reads the clock anew, so a report need not be that of any instant. A WARNING can
  be reported although some host works at every instant (`DependencyTearing.TornLogWarns`), and one that is due at
  every instant can be missed (`MissedLogIsSilent`). What a host can be found to be is settled by three conditions
  (`DependencyEvaluation.HostIsExact`). That all evaluations within a stretch of time give the report of its start holds
  exactly when the log is steadfast (`DependencyLog.LogIsExact`); that each gives the report of some instant holds, with
  a single host, exactly when no WARNING can be missed (`DependencyTearing.SomeInstantIsExact`).
- A window flag of an endpoint is documented to say that a 500 occurred in the window. A raised flag means that; a
  window with a 500 has its flag lowered exactly when a code below 400 follows its last 500
  (`FiveHundreds.FlagAgainst500`). A broken endpoint is documented as one that never answered with another code than
  500; one that did is listed all the same exactly when it is in error and all its codes are 400 or more
  (`BrokenAgainst500`). Both happen (`LoweredFlagHappens`, `BrokenAfter404`).
- Merging client configurations fills tag maps in place. A tag that came from the runtime configuration therefore
  outlives its removal there, against the documented order of precedence, exactly when a default override or an
  override of the service came with a tag map (`StaleTags.TagLawIsExact`, `NeverStaleIsExact`). An answer already given
  changes under later evaluations exactly when the service's own override has one (`StaysPutIsExact`). An evaluation
  made before the first override can let a runtime default tag win over a default override (`EarlyIsExact`). Two
  services given one tag map are answered with that map (`ServiceDiscovery.Discovery.SharedMapsMix`).

## Model

| member | source | states |
|---|---|---|
| `ServerState.StateManager.CompareAndSwapState` | witchcraft/server_state.go:86-88 | the word changes exactly when it was the expected one |
| `ServerState.StateManager.Start` | witchcraft/server_state.go:55-72 | granted exactly on an idle server; each refusal names the word it found and leaves it alone |
| `LifecycleQuiet.ReadyServerServes` | witchcraft/server_state.go:90-110 | under D1 the server answers 200 and HEALTHY if its current run has reached Running and was neither stopped nor reset, and 503 and TERMINAL otherwise; in the first case the channel and the http server are that run\'s, the channel is open and no stop has won |
| `LifecycleFree.ShuttingDownHasOneOwner` | witchcraft/witchcraft.go:1280-1301 | in every interleaving of any number of calls, ShuttingDown holds exactly while one stop call is between its winning swap and its store; that call is unique and its store finds ShuttingDown |
| `LifecycleFree.OnlyTheStoreLeavesShuttingDown` | witchcraft/witchcraft.go:1289-1301 | no step but the owner's store leaves ShuttingDown, and it goes to Idle, so a plain store suffices |
| `LifecycleFree.RetriesAreBounded` | witchcraft/witchcraft.go:1282-1293 | in every interleaving, a call's failed swaps in its retry loop never outnumber the changes of the word |
| `LifecycleFree.CountersAreExact` | witchcraft/witchcraft.go:1282-1293 | in every interleaving, the counters of failed swaps, of changes of the word and of loads in the deferred loop go up exactly at those steps |
| `LifecycleFree.EveryCloseCounts` | witchcraft/witchcraft.go:1299-1300 | in every interleaving there are as many closed channels as stop calls that have finished: each close hits a channel nobody had closed |
| `LifecycleStops.OnlyGivesUpOnStopped` | witchcraft/witchcraft.go:1282-1288 | in every interleaving, a stop call that returns without stopping anything had just loaded Idle or ShuttingDown |
| `LifecycleStops.StopOfLiveServerWins` | witchcraft/witchcraft.go:1284-1293 | after any history, a stop call that loads Initializing or Running and swaps undisturbed takes the word to ShuttingDown and wins the current run |
| `LifecycleRefusal.RefusalNamesSecondLoad` | witchcraft/server_state.go:55-72 | a refusal names the word of the second load; the default error if and only if that is Idle |
| `LifecycleRefusal.DefaultErrorNeedsChange` | witchcraft/server_state.go:55-72 | in every interleaving, the default error means the word has changed since the lost swap |
| `LifecycleRefusal.DefaultErrorCanHappen` | witchcraft/server_state.go:55-72 | a disciplined schedule ends in the default error |
| `LifecycleDisciplined.NoFault` | witchcraft/witchcraft.go:715-739 | under D1 and D2, no close hits a nil, closed or foreign channel, nothing panics, and a channel is closed exactly when its run's winning stop has finished |
| `LifecycleQuiet.BlockedStartHasOneCloser` | witchcraft/witchcraft.go:722-739 | under D1 alone, a Start blocked on an open channel waits on its own run's channel, which is the one in the field, and exactly one stop call is on its way to close it |
| `LifecycleQuiet.RunsFollowPaths` | witchcraft/witchcraft.go:926-938 | under D1 alone, every run's word history is a path Idle, Initializing, [Running], [ShuttingDown], Idle, or a prefix of one ending at the current word |
| `LifecycleQuiet.StopsAreNotLost` | witchcraft/witchcraft.go:1280-1306 | under D1 alone, a stop that won from Running acts on the http server of the run it won; a run won while Initializing is never Running |
| `LifecycleServers.StopActsOnOwnOrEarlier` | witchcraft/witchcraft.go:1302-1305 | under D1 alone, a stop acts on no server, on that of the run it won or on an earlier one; from Running on its own |
| `LifecycleServers.EarlierServerCanBeStopped` | witchcraft/witchcraft.go:1302-1305 | a disciplined schedule in which a stop of a run acts on the server of an earlier run |
| `LifecycleQuiet.StartReturnsIdle` | witchcraft/witchcraft.go:722-739 | under D1 alone, when a run's Start returns the word is Idle, after at most three turns of the deferred loop |
| `LifecycleQuiet.ThreeTurns` | witchcraft/witchcraft.go:722-739 | under D1 alone, in every reachable state a Start that has returned took at most three turns of the deferred loop |
| `LifecycleNecessity.DisciplineIsExact` | witchcraft/witchcraft.go:1299-1300 | after any disciplined history, a step obeys D1 and D2 if and only if no disciplined continuation of it ever faults |
| `LifecycleNecessity.BreakingD1` | witchcraft/witchcraft.go:1299-1300 | a run begun while the last one is unfinished can be continued to a fault |
| `LifecycleNecessity.BreakingD2` | witchcraft/witchcraft.go:715-720 | a stop that wins before the channel is made can be continued to a fault |
| `LifecycleNecessity.BlockedStartCanReturn` | witchcraft/witchcraft.go:722-739 | under D1 alone, from every reachable state with a blocked Start, at most seven further steps let it return |
| `Limiter.AdmissionBound` | witchcraft/ratelimit/middleware.go:74-106 | in every interleaving with a freely changing limit, the admitted requests in flight never outnumber the clamped limit read by the youngest of them |
| `Limiter.CounterIsInFlight` | witchcraft/ratelimit/middleware.go:74-115 | the counter is the number of matched requests between increment and deferred decrement |
| `Limiter.ConstantLimitBound` | witchcraft/ratelimit/middleware.go:91-121 | under a constant limit at most that many requests are ever admitted at once |
| `Limiter.JudgedAtItsReading` | witchcraft/ratelimit/middleware.go:74-98 | with or without a health component and whatever the others do meanwhile, a matched request is admitted exactly when the counter it read back is within the limit it reads later, a negative one taken as zero; an unmatched one is never counted and goes through |
| `Limiter.DrainingRestoresHealth` | witchcraft/ratelimit/middleware.go:91-121 | with non-atomic health updates and a limit that stays positive once it moves: draining restores HEALTHY in every interleaving if and only if the initial limit is at least one |
| `Limiter.StuckRepairing` | witchcraft/ratelimit/middleware.go:110-121 | with a limit below one, a schedule drains and leaves REPAIRING |
| `LimiterLag.LagIsExact` | witchcraft/ratelimit/middleware.go:91-115 | under a fixed limit, with nobody in the middle of a step, a counter above the limit means REPAIRING in every interleaving if and only if the limit is below one; every positive limit has a schedule that says HEALTHY |
| `LimiterLag.StickIsExact` | witchcraft/ratelimit/middleware.go:91-115 | likewise, a counter below the limit means HEALTHY in every interleaving if and only if the limit is at most one; every larger limit has a schedule that says REPAIRING |
| `LimiterHealth.InFlightLimiter.Increment` | witchcraft/ratelimit/middleware.go:91-106 | throttles exactly above the clamped limit; counter and health are those of the history with one more increment |
| `LimiterHealth.InFlightLimiter.Decrement` | witchcraft/ratelimit/middleware.go:110-115 | counter and health are those of the history with one more decrement |
| `LimiterHealth.InFlightLimiter.Report` | witchcraft/ratelimit/middleware.go:91-121 | the object says REPAIRING if and only if its counter was above the limit the last time it was off it |
| `LimiterHealth.HealthIsLastSide` | witchcraft/ratelimit/middleware.go:91-121 | REPAIRING exactly when the counter was above the limit the last time it was off it |
| `LimiterHealth.DrainingIsHealthy` | witchcraft/ratelimit/middleware.go:110-121 | draining always restores HEALTHY if and only if the limit is at least one |
| `TimeBuckets.TimeBucket.Prune` | witchcraft/internal/dependencyhealth/counter.go:56-78 | keeps the slice a suffix of all marks that drops only marks outside the window, and drops all of those |
| `TimeBuckets.TimeBucket.Mark` | witchcraft/internal/dependencyhealth/counter.go:41-46 | adds the current instant to the history |
| `TimeBuckets.TimeBucket.Count` | witchcraft/internal/dependencyhealth/counter.go:49-54 | the number of marks ever made strictly after now minus the window |
| `TimeBuckets.CountOfSuffix` | witchcraft/internal/dependencyhealth/counter.go:56-78 | counting a history split by the horizon counts the suffix behind the split |
| `TimeBuckets.SteadyCount` | witchcraft/internal/dependencyhealth/counter.go:49-54 | between two instants with no mark leaving the window the count does not change |
| `TimeBuckets.CountShrinks` | witchcraft/internal/dependencyhealth/counter.go:49-54 | a later horizon never counts more marks |
| `DependencyLog.ActiveIsLogged` | witchcraft/internal/dependencyhealth/host_metrics.go:103-110 | a host is active by its six buckets if and only if the log has a response of it in the window |
| `DependencyLog.CountsAreLogged` | witchcraft/internal/dependencyhealth/counter.go:49-78 | a bucket counts each logged response of its host and class in the window once |
| `DependencyLog.VerdictIsLogged` | witchcraft/internal/dependencyhealth/host_metrics.go:103-114 | at an instant a host works, or fails, exactly when the log has a response of it in the window and its 2xx responses there are no fewer, or fewer, than its 5xx responses and errors together |
| `DependencyLog.CountsAreValid` | witchcraft/internal/dependencyhealth/counter.go:56-78 | what the log counts only shrinks as time passes, and only hosts that have answered are counted |
| `DependencyHealth.HostStatus.CountOf` | witchcraft/internal/dependencyhealth/host_metrics.go:103-114 | the responses of one class that the full log has in the window, at the clock reading of the count |
| `DependencyHealth.HostStatus.IsActive` | witchcraft/internal/dependencyhealth/host_metrics.go:103-110 | exactly what the full log gives at the readings of the six counts, which are in order and within the call |
| `DependencyHealth.HostStatus.IsHealthy` | witchcraft/internal/dependencyhealth/host_metrics.go:112-114 | exactly what the full log gives with the successes counted first, then the 5xx responses, then the errors |
| `DependencyHealth.HostRegistry.HostMetrics` | witchcraft/internal/dependencyhealth/host_metrics.go:60-79 | finds or registers a host and leaves every other one as it is |
| `DependencyHealth.HostRegistry.MarkHost` | witchcraft/internal/dependencyhealth/host_metrics.go:116-138 | appends one event to the log and keeps every bucket of every host equal to the log |
| `DependencyHealth.Classify` | witchcraft/internal/dependencyhealth/healthcheck.go:64-84 | network errors first, then the hundreds of the status code, everything else as other |
| `DependencyHealth.HostRegistry.RoundTrip` | witchcraft/internal/dependencyhealth/healthcheck.go:64-84 | logs exactly one classified event, or none without a service name or URL |
| `DependencyHealth.HostRegistry.CollectServiceStatus` | witchcraft/internal/dependencyhealth/healthcheck.go:126-142 | sorted, duplicate-free lists of exactly the hosts that the full log finds working and failing at the readings of the round; every registered host is judged, one after the other |
| `DependencyHealth.HostRegistry.HealthStatus` | witchcraft/internal/dependencyhealth/healthcheck.go:90-124 | the report from pruned buckets is exactly the report of an evaluation of the full log, at ordered clock readings within the call |
| `DependencyEvaluation.HostIsExact` | witchcraft/internal/dependencyhealth/host_metrics.go:103-114 | within a stretch of time a host can be found inactive if and only if it is inactive at the end, working if and only if it is active at the start with successes then no fewer than its failures at the end, and failing if and only if it fails at some instant |
| `DependencyEvaluation.HealthIsExact` | witchcraft/internal/dependencyhealth/host_metrics.go:112-114 | healthy at all readings if and only if good at every instant; unhealthy at all readings if and only if its successes at the start are fewer than its failures at the end |
| `DependencyEvaluation.UnhealthyWasFailing` | witchcraft/internal/dependencyhealth/host_metrics.go:112-114 | a host found unhealthy was failing at the instant when its successes were counted |
| `DependencyEvaluation.ReportIsAsAt` | witchcraft/internal/dependencyhealth/healthcheck.go:90-124 | the report of an evaluation is the one of an instant if and only if the same hosts fail and both or neither warn |
| `DependencyEvaluation.ReportIsExact` | witchcraft/internal/dependencyhealth/healthcheck.go:90-142 | every evaluation within a stretch of time gives the report of its start if and only if nobody comes to fail, whoever fails goes on failing on the most favourable readings, and unless a WARNING is due every service with a failing host keeps another active one |
| `DependencyLog.LogIsExact` | witchcraft/internal/dependencyhealth/healthcheck.go:90-142 | the same for every log and window |
| `DependencyLog.SteadyIsSteadfast` | witchcraft/internal/dependencyhealth/healthcheck.go:90-142 | so every report is that of the start when no response leaves the window |
| `DependencyTearing.FalseWarning` | witchcraft/internal/dependencyhealth/healthcheck.go:126-142 | with two hosts of which one works at every instant, the first failing at the start and the second at the end, an evaluation reports a WARNING listing both, and no instant calls for one |
| `DependencyTearing.TornLogWarns` | witchcraft/internal/dependencyhealth/healthcheck.go:90-142 | a log of four responses does this, for every window, service and two hosts |
| `DependencyTearing.MissedWarning` | witchcraft/internal/dependencyhealth/host_metrics.go:112-114 | with a host that fails at every instant but whose successes at the start are no fewer than its failures at the end, an evaluation reports all healthy, and every instant calls for a WARNING |
| `DependencyTearing.MissedLogIsSilent` | witchcraft/internal/dependencyhealth/healthcheck.go:90-142 | a log of three responses does this, for every window, service and host |
| `DependencyTearing.SomeInstantIsExact` | witchcraft/internal/dependencyhealth/healthcheck.go:90-142 | with a single host every evaluation gives the report of some instant if and only if no WARNING can be missed: the host is not failing throughout with successes at the start no fewer than its failures at the end |
| `FiveHundreds.ResponseReflects` | witchcraft/internal/middleware/endpoint_five_hundreds.go:61-71 | a response keeps each endpoint's flags equal to what the log says about its windows |
| `FiveHundreds.TickReflects` | witchcraft/internal/middleware/endpoint_five_hundreds.go:169-178 | a shift keeps flag k equal to the k-th completed window of the log |
| `FiveHundreds.UncalledReflects` | witchcraft/internal/middleware/endpoint_five_hundreds.go:134-142 | a fresh status is right for an endpoint never called, however many windows have passed |
| `FiveHundreds.FlagAgainst500` | witchcraft/internal/middleware/endpoint_five_hundreds.go:134-142 | a failed window holds a 500; a window that holds one is not failed if and only if a code below 400 follows its last 500 |
| `FiveHundreds.ErrorIsFiveWindows` | witchcraft/internal/middleware/endpoint_five_hundreds.go:157-167 | in any log an endpoint is in error if and only if each of the five windows completed by the last five ticks is there and its last decisive response was a 500 |
| `FiveHundreds.FiveInARow` | witchcraft/internal/middleware/endpoint_five_hundreds.go:31-31 | after any log and a window that ended well, n failed windows make an error if and only if n is at least five |
| `FiveHundreds.BrokenAgainst500` | witchcraft/internal/middleware/endpoint_five_hundreds.go:116-140 | an endpoint that answered with another code than 500 is listed as broken if and only if it is in error and all its codes are 400 or more |
| `FiveHundreds.LoweredFlagHappens` | witchcraft/internal/middleware/endpoint_five_hundreds.go:134-142 | a window with a 500 and its flag down |
| `FiveHundreds.BrokenAfter404` | witchcraft/internal/middleware/endpoint_five_hundreds.go:116-140 | an endpoint that answered with a 404 is listed as broken after five windows that end in a 500 |
| `FiveHundreds.EndpointStatus.IsError` | witchcraft/internal/middleware/endpoint_five_hundreds.go:157-167 | all five completed windows are flagged |
| `FiveHundreds.EndpointStatus.Shift` | witchcraft/internal/middleware/endpoint_five_hundreds.go:169-178 | the in-place backward loop moves every flag one window back and clears the first |
| `FiveHundreds.EndpointHealthCheck.MarkResponse` | witchcraft/internal/middleware/endpoint_five_hundreds.go:61-71 | appends the response to the log and keeps every endpoint's flags equal to the log |
| `FiveHundreds.EndpointHealthCheck.ShiftWindow` | witchcraft/internal/middleware/endpoint_five_hundreds.go:126-131 | appends a tick to the log and keeps every endpoint's flags equal to the log |
| `FiveHundreds.EndpointHealthCheck.CurrentStatus` | witchcraft/internal/middleware/endpoint_five_hundreds.go:81-124 | trouble if and only if some endpoint's last decisive response was a 500 in each of the last five completed windows; broken rather than failing if and only if it never answered below 400; WARNING unless always healthy; nothing if and only if never called |
| `FiveHundreds.ListsSettle` | witchcraft/internal/middleware/endpoint_five_hundreds.go:101-123 | the two sorted lists settle the status the full log calls for |
| `MetricKey.TagMapKey` | witchcraft/server_metrics.go:260-269 | the key is the same for every iteration order of the tag map |
| `MetricKey.KeyIgnoresOrder` | witchcraft/server_metrics.go:260-269 | keys formed in two iteration orders are equal |
| `MetricKey.KeyOfTwoTags` | witchcraft/server_metrics.go:260-269 | the key of two tags, written out, with the tags in order |
| `MetricKey.RoundTrip` | witchcraft/server_metrics.go:260-269 | a decoder recovers id, type and tag map from the key when the type and tag keys have no colon and the tags no space or bracket; the id may be anything |
| `MetricKey.KeyIsInjective` | witchcraft/server_metrics.go:260-269 | under those conditions distinct metrics have distinct keys |
| `MetricKey.RegistryTagsAreDecodable` | vendor/github.com/palantir/pkg/metrics/tag.go:176-204 | every tag map made by the tag constructor meets the conditions for the three keyed types |
| `Emission.CollectMetricValues` | witchcraft/server_metrics.go:161-187 | the readings whose metric and key are not blocklisted |
| `Emission.ZeroLineComesFirst` | witchcraft/server_metrics.go:122-159 | over all interleavings of any number of emitters, with injective keys the first line of a meter, timer or histogram is its explicit filtered zero line, logged at most once |
| `Emission.RuleIsExact` | witchcraft/server_metrics.go:220-254 | the zero-first rule holds in all interleavings if and only if the keys are injective |
| `Emission.NothingBlockedIsLogged` | witchcraft/server_metrics.go:172-187 | no line ever carries a blocklisted key, for any key function |
| `EmissionVisits.VisitIsLogged` | witchcraft/server_metrics.go:131-187 | from every state and in every interleaving, an emitter handed the readings of a metric of any type has, when it rests again, logged exactly the readings on no blocklist, preceded by the filtered zero line or replaced by it when it says the same; nothing when no reading is left or the logger is not there |
| `EmissionVisits.LinesAreInLog` | witchcraft/server_metrics.go:148-158 | the lines of an emitter are among those appended to the log meanwhile |
| `EmissionKeys.RegistryMetricsStartAtZero` | witchcraft/server_metrics.go:220-269 | with the real key and tags from the registry, the zero-first rule holds unconditionally |
| `RuntimeConfig.Reloader.MapBytes` | witchcraft/witchcraft.go:1020-1053 | succeeds exactly on unmarshalled bytes the rule in force accepts; remembers the validation error of unmarshalled bytes only; ends startup |
| `RuntimeConfig.Reloader.HandleValidationError` | witchcraft/witchcraft.go:1079-1097 | fails by the startup rule at startup and by the reload rule afterwards; counts the failure |
| `RuntimeConfig.Reloader.Deliver` | vendor/github.com/palantir/pkg/refreshable/v2/refreshable_validating.go:46-75 | after any sequence of updates the published value is the last accepted one, the error is set exactly if the last update was not accepted, and the remembered error is that of the last update that unmarshalled |
| `RuntimeConfig.LatestIsPublished` | witchcraft/witchcraft.go:1020-1053 | after any history the error is clear exactly when the latest update came without one, its decrypted bytes unmarshal strictly or plainly as configured, and the value is valid or the rule in force lets it pass; then that value is the published one; the remembered error is that of the unmarshalled value |
| `RuntimeConfig.RefusedKeepsLast` | vendor/github.com/palantir/pkg/refreshable/v2/refreshable_validating.go:46-75 | an update that leaves the error set keeps the published value; one that does not unmarshal after decryption leaves it set and keeps the remembered error |
| `RuntimeConfig.PublishedWasDelivered` | witchcraft/witchcraft.go:1023-1034 | whatever is published but the zero value was delivered without an error and is what its decrypted bytes unmarshal to in the configured way |
| `RuntimeConfig.OnlyDecryptionMatters` | witchcraft/witchcraft.go:1023-1034 | histories with the same provider errors and the same decrypted bytes leave the same value, error flag, remembered error and failure count |
| `RuntimeConfig.Reloader.ValidationHealth` | witchcraft/witchcraft.go:1105-1135 | the configured state if and only if the most recent update that unmarshalled failed Validate |
| `RuntimeConfig.PublishedIsLastSound` | witchcraft/witchcraft.go:1090-1096 | with both rules on, the published configuration is the last one delivered, unmarshalled and valid |
| `RuntimeConfig.RulesAreExact` | witchcraft/witchcraft.go:1079-1097 | no running server ever publishes an invalid configuration if and only if both rules are on |
| `RuntimeConfig.ClearMeansCurrent` | witchcraft/witchcraft.go:1058-1072 | both error signals are clear if and only if the latest update is sound, and then it is the published one |
| `RuntimeConfig.StartupRuleEndsAtStartup` | witchcraft/witchcraft.go:1015-1021 | servers that differ in the startup rule and are both up have published the same configuration |
| `YamlDecrypt.DecryptsInOrder` | witchcraft/witchcraft.go:1260-1278 | in document order, everything before the first scalar that cannot be fully decrypted is decrypted and everything from there on is untouched; success if and only if there is no such scalar |
| `YamlDecrypt.ShapeStays` | witchcraft/witchcraft.go:1257-1278 | shape and kinds stay, on failure too |
| `YamlDecrypt.SuccessOpensAll` | witchcraft/witchcraft.go:1257-1278 | on success the result is the tree with each encrypted scalar, and nothing else, replaced by its decryption |
| `YamlDecrypt.SuccessLeavesNothingEncrypted` | witchcraft/witchcraft.go:1264-1271 | no encrypted scalar is left after success |
| `YamlPaths.SuccessByPath` | witchcraft/witchcraft.go:1257-1278 | after success the same paths lead to nodes of the same kinds with as many children; a scalar that held an encrypted value holds its decryption, every other node its old value, and no scalar an encrypted one |
| `YamlPaths.OkByPath` | witchcraft/witchcraft.go:1264-1271 | success if and only if no path leads to a scalar that holds an encrypted value and whose decryption does, too |
| `YamlPaths.SuccessByEntry` | witchcraft/witchcraft.go:1257-1278 | both over the nodes in document order |
| `YamlDecrypt.DecryptIsIdempotent` | witchcraft/witchcraft.go:1260-1278 | a second pass, under any key, succeeds and changes nothing |
| `YamlNodes.DecryptNodeValues` | witchcraft/witchcraft.go:1260-1278 | the in-place recursion over heap nodes leaves behind, and answers, what the recursion on values does; it terminates |
| `YamlNodes.DecryptConfigBytes` | witchcraft/witchcraft.go:1216-1236 | fails if and only if something is encrypted and a key, a parse, a scalar or the printing fails; returns the input bytes on every error path and when nothing is encrypted |
| `YamlNodes.DecryptYamlNodes` | witchcraft/witchcraft.go:1246-1255 | the printed fully decrypted tree, or an error exactly when that cannot be had |
| `YamlNodes.DecryptingTwice` | witchcraft/witchcraft.go:1209-1236 | with a printer that parses back, decrypting decrypted bytes neither fails nor changes the document |
| `ServiceConfigs.FieldsAreFirstDefined` | witchcraft/service_discovery.go:166-182 | after any sequence of calls and evaluations each field is the first defined in: service overrides newest to oldest, runtime service, default overrides newest to oldest, runtime default; the path without overrides included |
| `StaleTags.TagLawIsExact` | witchcraft/service_discovery.go:166-182 | for tags the same order survives every placing of evaluations among the configuration calls if and only if no default override and no override of the service comes with a tag map |
| `ServiceConfigs.EffectiveIsFirstDefined` | witchcraft/service_discovery.go:166-182 | the order for fields always, and for tags when nothing was evaluated yet or no override that concerns the service has a tag map |
| `ServiceConfigs.OverridesFollowLayers` | witchcraft/service_discovery.go:121-143 | under the same condition the merged overrides define what the layers given so far define, newest first |
| `StaleTags.NeverStaleIsExact` | witchcraft/service_discovery.go:170-182 | evaluations never disturb later answers for a service if and only if neither the default override nor its own holds a tag map |
| `StaleTags.TagOutlivesItsRemoval` | vendor/github.com/palantir/conjure-go-runtime/v3/conjure-go-client/httpclient/config.go:235-244 | otherwise a runtime tag seen once is still answered after its removal |
| `StaleTags.EarlyIsExact` | vendor/github.com/palantir/conjure-go-runtime/v3/conjure-go-client/httpclient/config.go:152-160 | an evaluation before the first override changes no later answer if and only if the runtime service has no tag map or has every default tag |
| `StaleTags.StaysPutIsExact` | vendor/github.com/palantir/conjure-go-runtime/v3/conjure-go-client/httpclient/config.go:235-244 | an answer already given is never changed by later evaluations if and only if the service's own override holds no tag map |
| `ServiceDiscovery.MergeClientConfig` | vendor/github.com/palantir/conjure-go-runtime/v3/conjure-go-client/httpclient/config.go:164-258 | the merge on values, with the tags put into the first configuration's own map when it has one |
| `ServiceDiscovery.Discovery.WithDefaultConfig` | witchcraft/service_discovery.go:121-129 | the default layer becomes the new one before the old and every other override stays the same object, whatever maps are shared; without sharing the overrides are those on values |
| `ServiceDiscovery.Discovery.WithServiceConfig` | witchcraft/service_discovery.go:131-143 | the same for one service |
| `ServiceDiscovery.Discovery.ServiceConfig` | witchcraft/service_discovery.go:170-182 | the answer is the one on values whatever maps are shared; it is the service's own tag map or a new one; without sharing, what it leaves in every map is what the evaluation on values leaves |
| `ServiceDiscovery.SharingIsHarmless` | witchcraft/service_discovery.go:175-178 | the three merges give the same tags when the default or the runtime default shares the map that the first merge fills |
| `ServiceDiscovery.Discovery.SharedMapsMix` | witchcraft/service_discovery.go:131-143 | two services given one tag map are answered with it, and the second answer has every tag of the first |
| `Sampling.MaxIdRoundsUp` | witchcraft/witchcraft.go:1373-1373 | the double nearest to the largest 64-bit id is 2^64 |
| `Sampling.ScaledRateIsExact` | witchcraft/witchcraft.go:1373-1373 | scaling a rate needs no rounding |
| `Sampling.BoundaryFits` | witchcraft/witchcraft.go:1373-1373 | a rate below one is at most 1 - 2^-53, so the boundary is at most 2^64 - 2^11 and does not overflow |
| `Sampling.SamplesShare` | witchcraft/witchcraft.go:1366-1381 | an id is sampled if and only if it is below the floor of the clamped rate times 2^64 |
| `Sampling.SampledFraction` | witchcraft/witchcraft.go:1366-1381 | exactly that many ids are sampled, so the fraction is within 2^-64 below the rate |
| `Sampling.SampledSetsAreNested` | witchcraft/witchcraft.go:1366-1381 | what a rate samples every higher rate samples, clamped ends included |
| `Sampling.HalfTheIds` | witchcraft/witchcraft.go:1366-1381 | the largest id is 18446744073709551615, and the rate one half samples 9223372036854775808 ids |
| `Strings.LeIsDictionary` | witchcraft/internal/dependencyhealth/healthcheck.go:139-140 | the order of every sorted list: a prefix first, otherwise by the first character that differs |
| `HealthChange.ChecksDiffer` | status/status.go:81-95 | a one-sided loop and a size comparison tell exactly whether the two have different checks or a check in different states |
| `HealthChange.PositionsAreExact` | status/status.go:66-76 | the change positions are increasing and exactly the adjacent pairs with unequal state maps |
| `HealthChange.FiresExactlyAtChanges` | status/status.go:69-76 | the handlers are notified once per position, in order, with the two statuses meeting there |
| `HealthChange.NotificationsChain` | status/status.go:69-76 | each notification starts from the states at which the one before it ended |
| `HealthChange.HealthHandler.ServeHTTP` | status/status.go:52-79 | without a configured secret or with the right token the status is served; without a token the answer is Unauthorized, with a wrong one PermissionDenied, and neither changes anything; a served status extends the history, with the notifications those of the whole history |

## Left out

- HTTP serving, TLS, certificates and signal registration: only the events they lead to appear (a stop is called, serving returns, initialisation fails).
- Loggers, routers, request middleware, tracing headers, task and job managers, debug handlers: they would only add easy members.
- Parameter assembly of NewClient and NewHTTPClient: a concatenation and a filter, which would only add easy members.
- Data races on plain fields: each access to `shutdownFinished`, `httpServer` and the metric logger is one atomic step.
- Panics inside the server body other than those of the channel protocol are the failure event of initialisation; a panic in a stopper is not modelled.
- Counters are unbounded integers; overflow of the 64-bit in-flight counter is not modelled.
- DependencyHealth.HostRegistry.HealthStatus: the registry is evaluated without concurrent responses.
- FiveHundreds.EndpointHealthCheck.ShiftWindow: one call is one step; responses that arrive in the middle of a shift are not interleaved with it.
- HealthChange.HealthHandler.ServeHTTP: requests are sequential; two concurrent requests can load the same previous status. The status code of the response is not modelled.
- Emission.ZeroLineComesFirst: readings of a metric have the keys of a fresh metric of the same type, and readings are integers.
- MetricKey.RegistryTagsAreDecodable: the library's lower-casing is an arbitrary function on characters.
- RuntimeConfig.Reloader.Deliver: decryption, unmarshalling and Validate are functions of their input; log lines on failure are left out; updates are delivered one at a time.
- YamlNodes.DecryptConfigBytes: detection, decryption, the parser and the printer are arbitrary functions; comments and anchors of the document are part of the printer.
- ServiceDiscovery.Discovery.WithDefaultConfig: what a shared tag map does to the other overrides that hold it is stated for evaluations only.
- ServiceDiscovery.Discovery.WithServiceConfig: nil and empty service maps are one.
- ServiceDiscovery.Discovery.ServiceConfig: calls are sequential.
- ServiceDiscovery.MergeClientConfig: fields other than tags are a map from name to value in which nil pointers, empty URI lists and empty file names are absent.
- Sampling.SamplesShare: a rate that is not a number is not a double of the model.
