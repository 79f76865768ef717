# API Center: registry, breaker, throttler, proxy cache and SDK

This project models the stateful parts of the API Center gateway and its client SDK, and proves
what they keep over whole runs.

- `RegistryModel`, `RegistryServices`: the service registry of one gateway instance. Memory is
  changed in one synchronous step, and the same step sends at most one command on the instance's
  Redis connection, which executes commands in the order they were sent. A step is what runs
  between two `await` points of the source; steps of different calls interleave in any order. The
  class is tied, method by method, to the step function.
- `WriteBehind`, `DriftDetector`, `Deregistrations`: how far Redis lags behind memory, what a reload
  does, and, for any number of instances sharing one Redis hash, the drift check and when a
  deregistration is final.
- `Lifecycle`: retirement, the services gauge and version governance over interleaved runs.
- `HealthMonitors`: health sweeps whose probes finish in any order, and the drift job.
- `CircuitBreakers`: the breaker object, its event log and how much load it lets through.
- `MemoryThrottlers`, `RedisThrottlers`: the two rate limiters; the second is a protocol of single
  Redis commands run by any number of calls.
- `Scopes`, `ProxyHandlers`: token scopes and the proxy's gates, cache and breakers.
- `TribeClients`: the SDK's retry loop.
- `Wrappers`, `Semver`, `Arithmetic`, `Counting`: shared definitions and lemmas.

Time is an integer (milliseconds) passed to the operations that read the clock. Outcomes the
gateway does not control (Redis failures, upstream answers, jitter) are arguments of the steps, so
every theorem holds for all of them. Registrations may be acknowledged or fail at any step after
they start: the runs include those in which the acknowledgement and the execution of the write
race.

## Where the code and its documentation disagree

- The repository's README.md:463 promises that a failed registration is rolled back so that
  memory and Redis never drift. They agree afterwards exactly when the write was lost and the
  service was not registered before: a first registration whose timed-out write lands stays in
  Redis, and the rollback of a re-registration deletes the entry whatever became of its write
  (`FailedRegistrationExactly`).
- health-monitor.service.ts:13-16 promises a resync on any discrepancy. A reload only adds and
  overwrites: it repairs an instance exactly when Redis holds every service memory holds
  (`ResyncRepairs`), and a service deregistered while a reload is under way stays in memory for ever
  (`DeregisterInsideReload`).
- Health events are announced on every transition (health-monitor.service.ts:10-11) exactly when
  re-registrations and reloads find the flag they set (`HealthEventsAlternate`); otherwise one
  outage is announced twice (`ReRegistrationBreaksAlternation`).
- The services gauge is right exactly when reloads balance (`GaugeExactly`); the one at start-up
  does so only if Redis held nothing served (`GaugeAfterBoot`).
- circuit-breaker.ts:9 says one test request is let through half-open; every caller before the first
  outcome is (`HalfOpenAdmitsAll`), so the load on a failing upstream grows with the calls in flight
  (`LoadBound`, `SequentialBoundExactly`).
- The Redis throttler gives its counter an expiry in a second command: the counter is pinned for ever
  exactly when a call dies between the two (`PinnedExactly`), and a block ends half a second early
  (`CheckRejectsExactly`).
- The memory throttler honours a block for its whole duration exactly when it ends within its
  window (`BlockHonouredExactly`).
- proxy-handler.ts:78 promises that stale proxies are dropped when the address changes; after
  deregistering and registering again, after a rollback and a new registration, or after a reload,
  they are not (`DeregisterLeavesStaleProxy`, `RollbackLeavesStaleProxy`, `ReloadLeavesStaleProxy`).
  They are dropped in time exactly on the runs `CacheExactly` describes.
- health-monitor.service.ts:8-9 says unhealthy services get no traffic; the proxy never asks, so
  the target is routable exactly when it happens to be healthy and not proposed
  (`UnroutableIsForwarded`, `PassingIsRoutableExactly`).

## Model

| member | source | states |
|---|---|---|
| WriteBehind.AgreementExactly | src/registry/registry.service.ts:549-680 | For one instance, over every run with any failures and any reloads: replaying the commands in flight over Redis gives memory, up to `lastHealthCheckAt`, in every state if and only if no registration is rolled back while memory holds the service, no write is lost that no later command in flight decides and that would change Redis, and no reply is applied that holds a service memory lacks or holds otherwise. |
| WriteBehind.WriteBehindFromBoot | src/registry/registry.service.ts:123-155 | From start-up, over every run with no lost or timed-out write and any traffic during reloads: they agree in every state if and only if each reply is applied while memory still holds, unchanged, every service it held when the HGETALL was sent. |
| WriteBehind.UndisturbedIsKept | src/registry/registry.service.ts:549-571 | Which is so on every run on which no mutation falls into a reload. |
| WriteBehind.ResyncRun | src/registry/registry.service.ts:549-571 | Sending the HGETALL, draining the connection and applying the reply amounts to merging what Redis will hold into memory. |
| WriteBehind.ResyncResult | src/registry/registry.service.ts:552-566 | After an undisturbed reload memory is the old memory overridden by the Redis entries that parse; services Redis lacks stay; a second reload changes nothing. |
| WriteBehind.ResyncRepairs | src/registry/health-monitor.service.ts:205-211 | An undisturbed reload makes memory and Redis agree if and only if Redis holds, readably, every service memory holds. |
| WriteBehind.ResyncsNeverRepairOrphans | src/registry/registry.service.ts:555-566 | The services memory holds and Redis lacks are the same ones after any number of reloads. |
| WriteBehind.DisturbedReloadExactly | src/registry/registry.service.ts:549-566 | In particular, with any writes on the connection, a single step between the reply and its use breaks the agreement if and only if it removed a service or changed one memory already held. |
| WriteBehind.RetireInsideReload | src/registry/registry.service.ts:294-309 | A service retired in that gap is revived in memory; the next undisturbed reload repairs it. |
| WriteBehind.DeregisterInsideReload | src/registry/registry.service.ts:212-222 | A service deregistered in that gap is resurrected in memory, and is still held there after any number of undisturbed reloads. |
| WriteBehind.FailedRegistrationExactly | src/registry/registry.service.ts:616-648 | After a registration that is rolled back, with its write lost or executed after all, memory and Redis agree if and only if the write was lost and the service was not registered before. |
| WriteBehind.LostDeleteComesBack | src/registry/registry.service.ts:669-680 | After a deregistration memory and Redis agree if and only if the delete was executed; if not, and only then, the next reload puts the service back into memory. |
| Deregistrations.FinalExactly | src/registry/registry.service.ts:212-222 | For any number of instances in any state, the service is never in Redis again on any continuation without a registration of it if and only if it is in no connection, nor in Redis, nor in the memory or an unapplied reply of an online instance. |
| Deregistrations.DeregistrationFinalExactly | src/registry/registry.service.ts:212-222 | From rest, an executed deregistration is final in that sense if and only if no other online instance holds the service; otherwise any change there writes it back. |
| DriftDetector.StampDetermines | src/registry/health-monitor.service.ts:155-164 | For any number of instances that never stamp two writes of one service alike, two copies of a service anywhere (memory, connection, Redis, unapplied reply) with equal `updatedAt` agree on every field but `lastHealthCheckAt`. |
| DriftDetector.DriftCheckExact | src/registry/health-monitor.service.ts:144-169 | On every such run of any number of instances, comparing a Redis reply with memory at that or any later moment reports no drift if and only if they agree on everything but `lastHealthCheckAt`. |
| DriftDetector.DetectorExact | src/registry/health-monitor.service.ts:146-169 | The same for any two sets of copies in which service and timestamp identify the copy. |
| DriftDetector.EqualStampsHideDrift | src/registry/health-monitor.service.ts:155-164 | Two instances started on an empty hash that register one service differently in the same millisecond end, with every command executed, in a difference the drift check does not see. |
| DriftDetector.CheckAfterResync | src/registry/health-monitor.service.ts:146-206 | After a reload nothing is missing in memory, nothing has diverged, and the services missing in Redis are the same as before. |
| DriftDetector.RepeatedReconciliation | src/registry/health-monitor.service.ts:129-206 | Repeating the job ends in "no drift" if and only if nothing was missing in Redis at first. |
| DriftDetector.ReconcileRepairs | src/registry/health-monitor.service.ts:129-211 | One run of the job, with its check, repairs the instance if and only if Redis holds every service of its memory; memory that agrees is left as it is, any other is overridden by what Redis holds. |
| Lifecycle.RetiredIsAbsorbing | src/registry/registry.service.ts:135-139 | A retired service is retired, with its manifest and registration time, in every state of an interleaved run if and only if no step deregisters it, rolls back a registration of it or reloads a copy that is not so retired. |
| Lifecycle.RetiredRefusesRevival | src/registry/registry.service.ts:252-254 | Registering, deprecating or activating a retired service changes nothing. |
| Lifecycle.FailedWriteErasesRetirement | src/registry/registry.service.ts:640-647 | A registration in flight at retirement whose write fails erases the retired entry, and the id can be registered as new. |
| Lifecycle.ProposedIsUnreachable | src/registry/registry.service.ts:146 | No step of any instance, reloads included, makes a service proposed. |
| Lifecycle.GaugeFromEmpty | src/registry/registry.service.ts:534-539 | From an empty registry the gauge equals the number of active or deprecated services in every state reached without a reload, though deprecation never updates it. |
| Lifecycle.GaugeAfterBoot | src/registry/registry.service.ts:53-66 | The load at start-up leaves the gauge right if and only if Redis held no active or deprecated service. |
| Lifecycle.GaugeExactly | src/registry/registry.service.ts:534-539 | Over every run, reloads included, the gauge is right in every state if and only if every reload adds as many served services as it takes away. |
| Lifecycle.GovernanceExactly | src/registry/registry.service.ts:127-148 | Over every run, each accepted registration of a service names the version of the one before it, keeps its registration time and has no smaller major version (0 if absent or unreadable), and memory carries what the next is compared with, if and only if every accepted re-registration is comparable (the current version absent, or both given and the new one readable where the current major is above 0) and nothing removes the service or reloads another version or registration time. |
| Lifecycle.VersionGovernance | src/registry/registry.service.ts:127-148 | On those runs, of any two accepted registrations of a service the later has no smaller major version and the same registration time, and each names its immediate predecessor's version. |
| Lifecycle.VersionlessBreaksChain | src/registry/registry.service.ts:129-132 | After one registration without a version, any version is accepted. |
| HealthMonitors.SweepsNeverOverlap | src/registry/health-monitor.service.ts:52-55 | On every run at most one sweep has begun and not ended, it is the newest, the guard flag is up exactly then, and every probe without an answer belongs to it. |
| HealthMonitors.EachProbeAnsweredOnce | src/registry/health-monitor.service.ts:72-121 | On every run a sweep probes a service at most once, each probe is answered once and before its sweep ends, and no answer of a sweep comes after one of a later sweep. |
| HealthMonitors.HealthEventsAlternate | src/registry/health-monitor.service.ts:72-109 | Over every run, the change events of a service strictly alternate and its flag equals the last one in every state, if and only if nothing removes it and each re-registration finds it healthy and each reload brings the flag it has. |
| HealthMonitors.FirstEventIsUnhealthy | src/registry/registry.service.ts:457-458 | For a service registered for the first time the alternation starts with "unhealthy". |
| HealthMonitors.ReRegistrationBreaksAlternation | src/registry/registry.service.ts:141-148 | A re-registration between two sweeps resets health silently: the same outage is announced twice. |
| HealthMonitors.EndedSweepAnswered | src/registry/health-monitor.service.ts:54-121 | On every run, the services answered in a sweep that has ended are exactly those that, when it began, were registered with a non-empty health check and neither retired nor proposed. |
| HealthMonitors.HealthMonitor.BeginSweep | src/registry/health-monitor.service.ts:54-69 | A service is probed if and only if no sweep is running and it is registered with a non-empty health check and neither retired nor proposed. |
| HealthMonitors.HealthMonitor.FinishProbe | src/registry/health-monitor.service.ts:76-107 | An answer sets the flag and emits an event if it changed, and only touches the timestamp otherwise. |
| HealthMonitors.HealthMonitor.FinishSweep | src/registry/health-monitor.service.ts:119-121 | Once every probe has settled the sweep is over and the flag is down. |
| HealthMonitors.HealthMonitor.CheckDrift | src/registry/health-monitor.service.ts:134-174 | The three lists hold exactly the services missing in memory, missing in Redis and diverged, each once, and drift is reported when one is non-empty. |
| RegistryModel.RegisterExactly | src/registry/registry.service.ts:123-155 | A registration is accepted if and only if memory does not hold the service as retired and not both versions are given and start with three dotted numbers whose first one drops; a refused one changes nothing. The stored entry is the manifest as given, a tribe service by default, with no health flag, stamped, active unless it was deprecated, with the registration time it had. |
| RegistryServices.RegistryService.BeginRegister | src/registry/registry.service.ts:123-155 | The same of the call: Invalid exactly on a downgrade, Conflict exactly on a retired service otherwise, and else the entry so described is returned, stored and sent, and the gauge is the number of active or deprecated services. |
| RegistryServices.RegistryService.SettleRegister | src/registry/registry.service.ts:200-205 | After the acknowledgement every subscribed cache drops its proxy exactly if the service existed when the registration started. |
| RegistryServices.RegistryService.RollBackRegister | src/registry/registry.service.ts:640-647 | The rollback leaves no entry for the service and syncs the gauge. |
| RegistryServices.RegistryService.NotifyCacheInvalidation | src/registry/registry.service.ts:98-109 | Every subscribed cache drops the service and keeps all others. |
| RegistryServices.RegistryService.Deregister | src/registry/registry.service.ts:212-222 | Exactly this service is removed, the gauge is the number of active or deprecated services left, the delete is sent; unknown ids are refused. |
| RegistryModel.DeprecateExactly | src/registry/registry.service.ts:247-266 | After an accepted deprecation the entry is deprecated and stamped, each sunset field is the given one if not empty and the old one otherwise, no other field, service or gauge changes, and the entry is sent; unknown and retired services are left alone. |
| RegistryServices.RegistryService.Deprecate | src/registry/registry.service.ts:247-266 | The returned entry is the one now held and so described; unknown or retired services are refused. |
| RegistryModel.RetireExactly | src/registry/registry.service.ts:294-309 | After it a known service is retired and stamped, no other field or service changes, the entry is sent, and the gauge is the number of active or deprecated services. |
| RegistryServices.RegistryService.Retire | src/registry/registry.service.ts:294-309 | The returned entry is the one now held and so described; unknown ids are refused. |
| RegistryModel.ActivateExactly | src/registry/registry.service.ts:331-353 | A service neither active nor retired is active and stamped afterwards, without sunset fields and otherwise as before, and is sent; any other is left alone. |
| RegistryModel.SetHealthExactly | src/registry/registry.service.ts:453-473 | The flag and both stamps are written, and the entry sent, exactly when a known service changes its flag, a missing one counting as healthy; otherwise nothing changes. |
| RegistryServices.RegistryService.Activate | src/registry/registry.service.ts:331-353 | The returned entry is the one now held and so described; only proposed or deprecated services are accepted. |
| RegistryServices.RegistryService.SetHealthStatus | src/registry/registry.service.ts:453-473 | True exactly when the flag changed, a missing flag counting as healthy; only then are the flag and both stamps written and the entry sent, and nothing else ever changes. |
| RegistryServices.RegistryService.ApplyReply | src/registry/registry.service.ts:552-566 | The loop over the reply leaves memory overridden by exactly the fields that parse. |
| RegistryServices.RegistryService.ParseEntries | src/registry/registry.service.ts:577-594 | The loop returns exactly the fields that parse. |
| RegistryServices.RegistryService.SyncMetricsGauge | src/registry/registry.service.ts:534-539 | The counting loop sets the gauge to the number of active or deprecated services. |
| RegistryServices.RegistryService.ValidateVersionUpgrade | src/registry/registry.service.ts:510-528 | Passes exactly when no two first numbers of the two texts, each read as three dotted numbers at its start, go down. |
| RegistryModel.DowngradeExactly | src/registry/registry.service.ts:517-527 | The check refuses if and only if both texts start with three dotted numbers and the first number of the new one is smaller. |
| Semver.ParseComplete | src/registry/registry.service.ts:511-515 | Every string of the form x.y.z followed by a suffix not starting with a digit parses to its three numbers. |
| Semver.ParseSound | src/registry/registry.service.ts:511-515 | No other string parses. |
| Semver.SplitUnique | src/registry/registry.service.ts:512 | The greedy match is deterministic: a string splits in at most one way. |
| Semver.RoundTrip | src/registry/registry.service.ts:511-515 | Printing three naturals as X.Y.Z (item 2 of Semantic Versioning 2.0.0) with any such suffix parses back to them. |
| CircuitBreakers.CountersRefineLog | src/shared/circuit-breaker.ts:146-183 | After every event log, late outcomes included: closed, the failure count is the trailing run of failures since the circuit closed, below the threshold, and the success count is zero; half-open, the success count is the successes since it became so, below its threshold, with no failure since. |
| CircuitBreakers.OpensExactlyAtThreshold | src/shared/circuit-breaker.ts:164-183 | A closed circuit opens exactly on the failure that completes the threshold. |
| CircuitBreakers.ClosesExactlyAtThreshold | src/shared/circuit-breaker.ts:146-162 | A half-open circuit closes exactly on the success that completes its threshold; any failure opens it. |
| CircuitBreakers.RejectionTiming | src/shared/circuit-breaker.ts:116-134 | A call is rejected if and only if the circuit is open and the latest recorded failure is less than the reset timeout ago; the circuit becomes half-open if and only if it is open and that failure is at least that old. |
| CircuitBreakers.ReportedPath | src/shared/circuit-breaker.ts:24-28 | The reported changes form a connected path from CLOSED to the current state along the edges of the diagram, OPEN to OPEN included. |
| CircuitBreakers.ReportedExactly | src/shared/circuit-breaker.ts:164-183 | An event is reported if and only if it changes the mode or is a failure that finds the circuit open and leaves the threshold of failures, since they were last cleared, reached. |
| CircuitBreakers.LoadBound | src/shared/circuit-breaker.ts:116-183 | From any reachable state, with any calls under way, at most threshold + c - 1 + c * (T / resetTimeout) calls to a failing upstream are let through in any closed period of length T, when at most c are in flight at a time; for calls that do not overlap, threshold + T / resetTimeout. |
| CircuitBreakers.LoadBoundTight | src/shared/circuit-breaker.ts:116-183 | For every period and every c some traffic through a new breaker reaches that bound. |
| CircuitBreakers.SequentialBoundExactly | src/shared/circuit-breaker.ts:8-9 | The bound for calls that do not overlap holds of all traffic with at most c calls in flight if and only if c is at most 1. |
| CircuitBreakers.HalfOpenAdmitsAll | src/shared/circuit-breaker.ts:116-134 | Before the first outcome all callers, at whatever times they arrive, are let through if and only if the first of them is. |
| CircuitBreakers.OverlapIsUnbounded | src/shared/circuit-breaker.ts:82-105 | With no limit on the calls in flight no bound holds: from a reachable open state any number of calls get through in one instant. |
| CircuitBreakers.CircuitBreaker.TryAcquire | src/shared/circuit-breaker.ts:116-134 | The acquisition step, its reported changes and its answer. |
| CircuitBreakers.CircuitBreaker.BeginExecute | src/shared/circuit-breaker.ts:82-98 | `execute` enters with the very step of `tryAcquire`. |
| CircuitBreakers.CircuitBreaker.EndExecute | src/shared/circuit-breaker.ts:97-104 | `execute` ends with the very step of the record call for its outcome. |
| CircuitBreakers.CircuitBreaker.RecordSuccess | src/shared/circuit-breaker.ts:146-162 | The success step and its reported changes, in every state. |
| CircuitBreakers.CircuitBreaker.RecordFailure | src/shared/circuit-breaker.ts:164-183 | The failure step and its reported changes, in every state. |
| CircuitBreakers.CircuitBreaker.Reset | src/shared/circuit-breaker.ts:70-80 | Back to the initial state, reported unless it was closed. |
| RedisThrottlers.DistributedLimit | src/shared/redis-throttler-storage.ts:80-127 | For any number of calls and any interleaving, crashes included, at most `limit` calls whose INCR fell into one lifetime of the hits key are answered "not blocked". |
| RedisThrottlers.NumberIsCount | src/shared/redis-throttler-storage.ts:101-126 | On every run the number a call is told is one more than the INCRs executed in its lifetime of the hits key before its own; it is blocked if and only if that exceeds the limit and there is a block duration. |
| RedisThrottlers.FirstCallsPass | src/shared/redis-throttler-storage.ts:101-126 | If at most `limit` INCRs fell into a lifetime, no call counted in it is answered "blocked". |
| RedisThrottlers.AnswerTellsExpiry | src/shared/redis-throttler-storage.ts:107-126 | A counted call, blocked or not, reports the time the hits key had left when it asked, to the nearest second in milliseconds, or -1000 or -2000 without an expiry or a key. |
| RedisThrottlers.AnswersFollowNumbers | src/shared/redis-throttler-storage.ts:102-126 | On every run the answer of a counted call carries its number, and is "blocked" if and only if it exceeds the limit and there is a block duration. |
| RedisThrottlers.PinnedExactly | src/shared/redis-throttler-storage.ts:101-105 | On every run the hits key ends without an expiry and without a call to set one if and only if some call died between its INCR that returned 1 and its EXPIRE. |
| RedisThrottlers.UnexpiringExactly | src/shared/redis-throttler-storage.ts:101-105 | On every run, unless such a call has died and only then, the hits key lacks an expiry if and only if a call stands between its INCR that returned 1 and its EXPIRE; and that EXPIRE lands on the lifetime it began. |
| RedisThrottlers.CrashPinsKey | src/shared/redis-throttler-storage.ts:101-105 | A key left without an expiry and without such a call never expires on any continuation, and serves at most `limit` calls for ever. |
| RedisThrottlers.CrashBetweenIncrAndExpire | src/shared/redis-throttler-storage.ts:101-105 | A crash between INCR and EXPIRE leads there. |
| RedisThrottlers.PauseRenewsLimit | src/shared/redis-throttler-storage.ts:101-105 | Once no EXPIRE is pending, the call counted after a pause longer than the window gets number 1 if and only if no call died before its EXPIRE. |
| RedisThrottlers.CheckRejectsExactly | src/shared/redis-throttler-storage.ts:90-98 | In any state a check is a rejection if and only if the block key has at least half a second left; it reports limit + 1 hits and the time left to the nearest second, and never counts. |
| RedisThrottlers.BlockRejectsEveryCheck | src/shared/redis-throttler-storage.ts:90-98 | From the moment a call sets the block until less than half a second of it is left, every check by any call is a rejection that does not count. |
| RedisThrottlers.LastHalfSecondPasses | src/shared/redis-throttler-storage.ts:90-98 | After any run that sets a block, a check in the last half second of it passes though the block key is still there. |
| RedisThrottlers.DistributedSlidingBound | src/shared/redis-throttler-storage.ts:80-127 | Over all instances, any closed period of length T sees at most limit * (ceil(T / (window + 1)) + 1) counted calls let through. |
| RedisThrottlers.CeilSecondsExactly | src/shared/redis-throttler-storage.ts:88 | Windows and blocks last as long as asked, rounded up to whole seconds. |
| MemoryThrottlers.LogExactly | src/shared/redis-throttler-storage.ts:131-176 | For every sequence of calls the times alone decide every answer: a call is turned away uncounted if and only if the latest counted call was blocked, its block is running and nobody has called since its window ended; any other call joins the open window or opens one, its number is one more than the calls counted in the window before it, it is blocked if and only if that exceeds the limit and there is a block duration, and it reports that number and both remaining times. |
| MemoryThrottlers.BlockedExactly | src/shared/redis-throttler-storage.ts:140-176 | A call is blocked if and only if at least `limit` calls were counted before it in the window it meets. |
| MemoryThrottlers.MemoryStore.Increment | src/shared/redis-throttler-storage.ts:131-176 | One call performs the step of that log on the record of its key; all other keys keep theirs. |
| MemoryThrottlers.WindowsOfHistory | src/shared/redis-throttler-storage.ts:137-167 | Window starts are at least `ttl` apart, each window lets at most `limit` calls through, and a window that has blocked never lets another through. |
| MemoryThrottlers.SlidingBound | src/shared/redis-throttler-storage.ts:131-176 | For every sequence of calls, each of them logged, any closed interval of length T holds at most limit * (ceil(T / ttl) + 1) unblocked answers. |
| MemoryThrottlers.BlockHonouredExactly | src/shared/redis-throttler-storage.ts:140-155 | A block is honoured for its whole duration if and only if it ends within its window, or nothing is ever let through. |
| ProxyHandlers.CacheExactly | src/shared/proxy-handler.ts:77-103 | Over every run of registrations, failures, removals, reloads and requests, in every state a cached proxy targets the registered address, or the service is not registered, or a re-registration of it awaits Redis, if and only if no step taken while no re-registration is awaited puts the service at another address than the cached one by registering it anew or by a reload. |
| ProxyHandlers.StaleStepExactly | src/registry/registry.service.ts:201-203 | Of all steps and requests, an accepted registration or a reload that holds the service decides whether its proxy is stale; a removal, a rollback or the acknowledgement of a re-registration ends it; nothing else changes it. |
| ProxyHandlers.CacheIsTransparent | src/shared/proxy-handler.ts:194-244 | With no deregistration, failed write or reload and no re-registration of the target in flight, a request goes where it would go without the cache. |
| ProxyHandlers.DeregisterLeavesStaleProxy | src/registry/registry.service.ts:201-203 | After deregistering and registering a service, and on every continuation that leaves it alone, its proxy targets another address than the registry names if and only if one was cached at another address before. |
| ProxyHandlers.RollbackLeavesStaleProxy | src/registry/registry.service.ts:640-647 | The same after the rollback of a registration and a new registration of the service. |
| ProxyHandlers.ReloadLeavesStaleProxy | src/registry/registry.service.ts:552-566 | After a reload that brings a service, and on every continuation that leaves it alone, the same holds: no cache is told of a changed address. |
| ProxyHandlers.RoutableExactly | src/registry/registry.service.ts:363-368 | A service is routable if and only if it is registered, not marked unhealthy, and neither proposed nor retired. |
| ProxyHandlers.PassingIsRoutableExactly | src/registry/registry.service.ts:363-368 | The target of a request that passes the gates is routable if and only if it is neither unhealthy nor proposed. |
| ProxyHandlers.UnroutableIsForwarded | src/shared/proxy-handler.ts:143-191 | A request that passes the gates still passes when its target is unhealthy or only proposed, though the registry calls it unroutable. |
| ProxyHandlers.IssuedTokenOpensGate | src/shared/proxy-handler.ts:164-179 | A token issued for the caller passes every gate for a live target it consumes. |
| ProxyHandlers.ProxyHandler.ProxyRequest | src/shared/proxy-handler.ts:135-255 | The gates in order, then the breaker of the target and no other, then the cached target or the current address, which is then cached. |
| ProxyHandlers.GateExactly | src/shared/proxy-handler.ts:143-179 | A request passes if and only if its target is registered with an address in the namespace of the route, is not retired, is consumed by the caller, and every scope it requires is among the scopes or permissions of the user, if there is one; and which of the three refusals it gets otherwise. |
| ProxyHandlers.ProxyHandler.CheckGates | src/shared/proxy-handler.ts:143-179 | No refusal if and only if that is so. |
| ProxyHandlers.ProxyHandler.GetOrCreateCircuitBreaker | src/shared/proxy-handler.ts:292-303 | One breaker per service, made on demand, and no other service's breaker changes. |
| ProxyHandlers.FifthFailureOpens | src/shared/proxy-handler.ts:292-303 | From a closed circuit a failure makes requests unavailable if and only if it is at least the fifth in a row, and for exactly 30 seconds. |
| ProxyHandlers.SecondSuccessCloses | src/shared/proxy-handler.ts:292-303 | The half-open circuit closes on the second success, and any failure starts another 30 seconds. |
| ProxyHandlers.ProxyHandler.OnOutcome | src/shared/proxy-handler.ts:212-234 | An error or a 502, 503 or 504 counts as a failure, any other status as a success, for that service's breaker only. |
| ProxyHandlers.ProxyHandler.Destroy | src/shared/proxy-handler.ts:85-89 | Unsubscribes and clears the cache and the breakers. |
| Scopes.BuildScopes | src/auth/auth.controller.ts:58-67 | The scopes are duplicate-free and exactly the service's own and those of the registered services it consumes. |
| Scopes.CheckScopes | src/auth/auth.service.ts:120-123 | The missing scopes are exactly the required ones found neither in the scopes nor in the permissions of the caller. |
| Scopes.IssuedTokenPasses | src/auth/auth.service.ts:106-123 | While the registry is unchanged, nothing is missing for any registered service the token's owner consumes. |
| Scopes.MissingAfterChange | src/shared/proxy-handler.ts:171-178 | After any change, what is missing is, in order, what the target did not require when the token was issued and the token was not granted. |
| TribeClients.RequestWithRetry | src/sdk/TribeClient.ts:310-338 | At most maxRetries + 1 attempts; the result is that of the last attempt, every earlier one was a transient failure, and a transient last failure means the attempts were used up; the throw after the loop is reached only if maxRetries is negative. |
| TribeClients.TotalDelayBounds | src/sdk/TribeClient.ts:327-332 | k delays for base b total between 0.75 b (2^k - 1) - k/2 and 1.25 b (2^k - 1) + k/2 ms, for every jitter. |
| TribeClients.DelayExactly | src/sdk/TribeClient.ts:327-330 | One delay is base * 2^attempt plus a quarter of it times the draw, to the nearest millisecond. |
| TribeClients.ErrorKeepsStatus | src/sdk/TribeClient.ts:169-203 | The error that surfaces carries the status of the response, or 504 or none without one, as the error classes define it. |
| TribeClients.ErrorClassesExactly | src/sdk/TribeClient.ts:183-203 | The class of the error is decided by the status of the response, status by status, and its message is the detail of the body if there is one. |
| TribeClients.RetryAfterInMilliseconds | src/sdk/TribeClient.ts:190-193 | A rate limit error carries Retry-After in milliseconds, unless it is missing or zero. |
| TribeClients.RetriedCodesExactly | src/sdk/TribeClient.ts:138-155 | Without a response exactly six transport codes are retried. |
| TribeClients.RetriedErrorsAreGatewayFailures | src/sdk/TribeClient.ts:147-155 | Any error, with or without a response and whatever its code, is retried if and only if its code is one of the transport codes or it surfaces as a 502, 503 or 504 error. |

## Left out

- Kafka publication, logging, metrics other than the services gauge, tracing, guards, DTO validation, controllers and their response envelopes: no state that the modelled code reads back.
- Redis, Axios and http-proxy-middleware themselves: maps, command queues and outcomes chosen by the environment. Redis is assumed to execute one command at a time, not to evict keys, and to round a TTL reply to the nearest second.
- Manifest fields no code branches on: carried together as `details`.
- Ids that name properties of JavaScript's object prototype ("constructor"): lookups are map lookups.
- Version numbers too large for a JavaScript number: numbers are exact naturals.
- ISO-8601 text of timestamps: timestamps are integers; two stamps in the same millisecond are equal stamps.
- `validateSecret`, providers, JWT handling and token refresh in the SDK: the provider is assumed to return the scopes it was given.
- Header formatting, path rewriting, `listServices`, `getByType`, `getConsumers`, `getStats`: filters and string building.
- RedisThrottlers: modelled as a step system over values rather than as an object, because its state is shared by processes.
- The overlap guard of the drift job: at most one reload is under way per instance, which that guard and start-up order ensure.
- RedisThrottlers.DistributedSlidingBound: says nothing without a block duration, when the limiter blocks no call (`AnswersFollowNumbers`).
