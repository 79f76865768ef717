/**
 The reverse proxy: the gates a request passes, the cached proxies it is forwarded through,
 and when a cached proxy still targets the upstream the registry names.
 */
module ProxyHandlers {
  import opened Wrappers
  import opened RegistryModel
  import opened RegistryServices
  import CB = CircuitBreakers
  import opened Scopes

  // -- The gates --------------------------------------------------------------

  datatype Refused = UnknownTarget | Gone | Forbidden | Unavailable

  /** A request by service `caller` for `target` under the routes of `namespace`. */
  datatype Request = Request(namespace: ServiceType, caller: string, user: Option<Claims>, target: string)

  /** The checks made before the circuit breaker, in order. */
  function Gate(services: ServiceMap, q: Request): Option<Refused> {
    if q.target !in services || services[q.target].manifest.baseUrl == "" then Some(UnknownTarget)
    else if services[q.target].manifest.serviceType.GetOr(TribeService) != q.namespace then Some(UnknownTarget)
    else if services[q.target].status == Retired then Some(Gone)
    else if !CanConsume(services, q.caller, q.target) then Some(Forbidden)
    else if q.user.Some? && CheckScopes(q.user, RequiredScopes(services, q.target)) != [] then Some(Forbidden)
    else None
  }

  /** The target is registered with an address and belongs to the namespace of the route. */
  predicate Reachable(services: ServiceMap, q: Request) {
    && q.target in services && services[q.target].manifest.baseUrl != ""
    && services[q.target].manifest.serviceType.GetOr(TribeService) == q.namespace
  }

  /** The caller lists the target among the services it consumes, and every scope the target
      requires is among the scopes or permissions of the user, if the request has a user. */
  ghost predicate Authorised(services: ServiceMap, q: Request) {
    && q.caller in services && q.target in services && q.target in services[q.caller].manifest.consumes
    && (q.user.Some? ==> forall s :: s in services[q.target].manifest.requiredScopes ==>
          s in q.user.value.scopes.GetOr([]) || s in q.user.value.permissions.GetOr([]))
  }

  /** A request passes exactly when its target is reachable and not retired and the caller is
      authorised; who is not authorised learns that a retired target is gone. */
  lemma GateExactly(services: ServiceMap, q: Request)
    ensures Gate(services, q) == Some(UnknownTarget) <==> !Reachable(services, q)
    ensures Gate(services, q) == Some(Gone) <==> Reachable(services, q) && services[q.target].status == Retired
    ensures Gate(services, q) == Some(Forbidden) <==>
            Reachable(services, q) && services[q.target].status != Retired && !Authorised(services, q)
    ensures Gate(services, q) == None <==>
            Reachable(services, q) && services[q.target].status != Retired && Authorised(services, q)
  {
    if Reachable(services, q) && q.user.Some? {
      var missing := CheckScopes(q.user, RequiredScopes(services, q.target));
      assert missing != [] ==> missing[0] in missing;
    }
  }

  /** A token issued for the caller opens every gate to a live target it consumes. */
  lemma IssuedTokenOpensGate(services: ServiceMap, q: Request)
    requires q.caller in services && q.target in services && CanConsume(services, q.caller, q.target)
    requires q.user.Some? && Grants(q.user.value, services[q.caller], services)
    requires services[q.target].manifest.baseUrl != "" && services[q.target].status != Retired
    requires services[q.target].manifest.serviceType.GetOr(TribeService) == q.namespace
    ensures Gate(services, q) == None
  {
    IssuedTokenPasses(services, q.caller, q.target, q.user.value);
  }

  /** A service is routable exactly when it is registered, not marked unhealthy, and neither still
      proposed nor retired; only a request for a retired target is told so. */
  lemma RoutableExactly(services: ServiceMap, q: Request)
    ensures IsRoutable(services, q.target) <==>
            && q.target in services && services[q.target].healthy != Some(false)
            && services[q.target].status != Proposed && services[q.target].status != Retired
    ensures Gate(services, q) == Some(Gone) ==> !IsRoutable(services, q.target)
  {
    GateExactly(services, q);
  }

  /** The target of a request that passes is routable exactly when it is neither marked
      unhealthy nor only proposed. */
  lemma PassingIsRoutableExactly(services: ServiceMap, q: Request)
    requires Gate(services, q) == None
    ensures IsRoutable(services, q.target) <==>
            services[q.target].healthy != Some(false) && services[q.target].status != Proposed
  {
    GateExactly(services, q);
  }

  /** The proxy never asks: a request that passes still passes when its target is marked
      unhealthy, or was only proposed. */
  lemma UnroutableIsForwarded(services: ServiceMap, q: Request, status: Status)
    requires Gate(services, q) == None && status != Retired
    ensures var down := services[q.target := services[q.target].(healthy := Some(false), status := status)];
            !IsRoutable(down, q.target) && Gate(down, q) == None
    ensures var proposed := services[q.target := services[q.target].(status := Proposed)];
            !IsRoutable(proposed, q.target) && Gate(proposed, q) == None
  {
  }

  // -- The cache as a step system ---------------------------------------------

  /** Cached targets by handler namespace and service id. */
  datatype Gateway = Gateway(world: World, cache: map<(ServiceType, string), string>)

  datatype Action = Step(step: Label) | Proxy(request: Request)

  /** Every handler drops its proxy for the service. */
  function Invalidated(cache: map<(ServiceType, string), string>, id: string): map<(ServiceType, string), string> {
    map key | key in cache && key.1 != id :: cache[key]
  }

  /** The upstream a request is forwarded to: the cached one if there is one. */
  function Upstream(g: Gateway, q: Request): string
    requires Gate(g.world.registry.services, q) == None
  {
    var key := (q.namespace, q.target);
    if key in g.cache then g.cache[key] else g.world.registry.services[q.target].manifest.baseUrl
  }

  function GatewayNext(g: Gateway, a: Action): Gateway {
    var r := g.world.registry;
    match a
    case Step(l) =>
      var world := Next(g.world, l);
      if l.SettleOk? && l.ticket in r.calls && r.calls[l.ticket].existed
      then Gateway(world, Invalidated(g.cache, r.calls[l.ticket].id))
      else g.(world := world)
    case Proxy(q) =>
      if Gate(r.services, q) == None then g.(cache := g.cache[(q.namespace, q.target) := Upstream(g, q)]) else g
  }

  function GatewayRun(g: Gateway, actions: seq<Action>): Gateway
    decreases |actions|
  {
    if actions == [] then g else GatewayRun(GatewayNext(g, actions[0]), actions[1..])
  }

  /** A re-registration of `id` is waiting for its Redis write. */
  predicate Awaiting(calls: map<nat, Call>, id: string) {
    exists t :: t in calls && calls[t] == Call(id, true)
  }

  predicate Current(g: Gateway, id: string, target: string) {
    id in g.world.registry.services && g.world.registry.services[id].manifest.baseUrl == target
  }

  // -- When a proxy is stale --------------------------------------------------

  /** A request would go elsewhere than where the registry says. */
  predicate Stale(g: Gateway, ns: ServiceType, id: string) {
    (ns, id) in g.cache && id in g.world.registry.services && !Current(g, id, g.cache[(ns, id)])
  }

  /** The address at which the step puts the service into the registry: an accepted registration
      of it, or a reload whose reply holds it. */
  function PutsAt(w: World, l: Label, id: string): Option<string> {
    var r := w.registry;
    if l.Register? && l.manifest.serviceId == id && Upsert(r, l).Some? then Some(l.manifest.baseUrl)
    else if l.LoadApply? && r.load.Replied? && id in Readable(r.load.reply)
    then Some(Readable(r.load.reply)[id].manifest.baseUrl)
    else None
  }

  /** The step removes the service, rolls back a registration of it, or drops its proxies after
      the acknowledgement of a re-registration. */
  predicate Clears(w: World, l: Label, id: string) {
    var r := w.registry;
    match l
    case Deregister(other) => other == id
    case SettleFail(ticket) => ticket in r.calls && r.online && r.calls[ticket].id == id
    case SettleOk(ticket) => ticket in r.calls && r.calls[ticket] == Call(id, true)
    case _ => false
  }

  /** Whether the service is registered, and where, after a step of the registry. */
  lemma StepAddress(w: World, l: Label, id: string)
    ensures var services, services' := w.registry.services, Next(w, l).registry.services;
            match PutsAt(w, l, id)
            case Some(url) => id in services' && services'[id].manifest.baseUrl == url
            case None =>
              && (id in services' <==> id in services && !(Clears(w, l, id) && !l.SettleOk?))
              && (id in services' ==> services'[id].manifest.baseUrl == services[id].manifest.baseUrl)
  {
    NextServices(w, l);
  }

  /** What one action makes of a proxy: putting the service at an address decides it, clearing
      ends it, and nothing else, a request included, changes it. */
  lemma StaleStepExactly(g: Gateway, a: Action, ns: ServiceType, id: string)
    ensures Stale(GatewayNext(g, a), ns, id) <==>
            match a
            case Proxy(_) => Stale(g, ns, id)
            case Step(l) =>
              var put := PutsAt(g.world, l, id);
              if put.Some? then (ns, id) in g.cache && g.cache[(ns, id)] != put.value
              else Stale(g, ns, id) && !Clears(g.world, l, id)
  {
    if a.Step? {
      StepAddress(g.world, a.step, id);
    }
  }

  /** A re-registration of the service waits for Redis from its acceptance until it is settled. */
  lemma AwaitingStep(w: World, l: Label, id: string)
    ensures var r, r' := w.registry, Next(w, l).registry;
            && (PutsAt(w, l, id).Some? && l.Register? && id in r.services ==> Awaiting(r'.calls, id))
            && (Awaiting(r.calls, id) && !Clears(w, l, id) ==> Awaiting(r'.calls, id))
            && (Awaiting(r'.calls, id) ==>
                  Awaiting(r.calls, id) || (PutsAt(w, l, id).Some? && l.Register? && id in r.services))
  {
    var r, r' := w.registry, Next(w, l).registry;
    CallsStep(w, l);
    if PutsAt(w, l, id).Some? && l.Register? && id in r.services {
      assert r'.calls[l.ticket] == Call(id, true);
    }
    if Awaiting(r.calls, id) && !Clears(w, l, id) {
      var t :| t in r.calls && r.calls[t] == Call(id, true);
      assert t in r'.calls && r'.calls[t] == Call(id, true);
    }
  }

  lemma CallsStep(w: World, l: Label)
    ensures var r, calls' := w.registry, Next(w, l).registry.calls;
            match l
            case Register(ticket, m, _) =>
              calls' == if Upsert(r, l).Some? then r.calls[ticket := Call(m.serviceId, m.serviceId in r.services)] else r.calls
            case SettleOk(ticket) => calls' == r.calls - {ticket}
            case SettleFail(ticket) => calls' == if r.online then r.calls - {ticket} else r.calls
            case _ => calls' == r.calls
  {
    if l.SettleFail? && l.ticket !in w.registry.calls {
      assert w.registry.calls - {l.ticket} == w.registry.calls;
    }
  }

  /** Stale, and no re-registration is on its way to drop the proxy. */
  predicate Misled(g: Gateway, ns: ServiceType, id: string) {
    Stale(g, ns, id) && !Awaiting(g.world.registry.calls, id)
  }

  /** The action puts a service whose proxy is cached at another address, and no listener will be
      told: a registration of a service memory lacks, or a reload, with no re-registration of
      the service awaited. */
  predicate Misleads(g: Gateway, a: Action, ns: ServiceType, id: string) {
    && a.Step? && (ns, id) in g.cache && !Awaiting(g.world.registry.calls, id)
    && var put := PutsAt(g.world, a.step, id);
       put.Some? && put.value != g.cache[(ns, id)] && !(a.step.Register? && id in g.world.registry.services)
  }

  lemma MisledStepExactly(g: Gateway, a: Action, ns: ServiceType, id: string)
    requires !Misled(g, ns, id)
    ensures Misled(GatewayNext(g, a), ns, id) <==> Misleads(g, a, ns, id)
  {
    StaleStepExactly(g, a, ns, id);
    if a.Step? {
      AwaitingStep(g.world, a.step, id);
    }
  }

  predicate NeverMisled(g: Gateway, actions: seq<Action>, ns: ServiceType, id: string)
    decreases |actions|
  {
    !Misled(g, ns, id) && (actions == [] || NeverMisled(GatewayNext(g, actions[0]), actions[1..], ns, id))
  }

  predicate NeverMisleads(g: Gateway, actions: seq<Action>, ns: ServiceType, id: string)
    decreases |actions|
  {
    actions == [] || (!Misleads(g, actions[0], ns, id) && NeverMisleads(GatewayNext(g, actions[0]), actions[1..], ns, id))
  }

  /** Over every run of registrations, failures, removals, reloads and requests, in every state
      the proxy of a service is current, or the service is unregistered, or a re-registration of
      it awaits Redis, exactly when no step puts the service at another address unannounced. */
  lemma {:induction false} CacheExactly(g: Gateway, actions: seq<Action>, ns: ServiceType, id: string)
    requires !Misled(g, ns, id)
    ensures NeverMisled(g, actions, ns, id) <==> NeverMisleads(g, actions, ns, id)
    ensures NeverMisleads(g, actions, ns, id) ==> !Misled(GatewayRun(g, actions), ns, id)
    decreases |actions|
  {
    if actions != [] {
      MisledStepExactly(g, actions[0], ns, id);
      if !Misleads(g, actions[0], ns, id) {
        CacheExactly(GatewayNext(g, actions[0]), actions[1..], ns, id);
      }
    }
  }

  /** No deregistration, failed write or reload. */
  predicate Clean(l: Label) {
    !l.Deregister? && !l.SettleFail? && !l.LoadApply?
  }

  /** Then a service with a proxy stays registered, and its registrations are announced. */
  lemma {:induction false} CleanNeverMisleads(g: Gateway, actions: seq<Action>, ns: ServiceType, id: string)
    requires (ns, id) in g.cache ==> id in g.world.registry.services
    requires forall i :: 0 <= i < |actions| && actions[i].Step? ==> Clean(actions[i].step)
    ensures NeverMisleads(g, actions, ns, id)
    decreases |actions|
  {
    if actions != [] {
      if actions[0].Step? {
        StepAddress(g.world, actions[0].step, id);
      }
      CleanNeverMisleads(GatewayNext(g, actions[0]), actions[1..], ns, id);
    }
  }

  /** With several registrations in flight but none for the target, and no deregistration,
      failed write or reload, a request goes where it would go without the cache. */
  lemma CacheIsTransparent(g: Gateway, actions: seq<Action>, q: Request)
    requires g.cache == map[]
    requires forall i :: 0 <= i < |actions| && actions[i].Step? ==> Clean(actions[i].step)
    ensures var g' := GatewayRun(g, actions);
            Gate(g'.world.registry.services, q) == None && !Awaiting(g'.world.registry.calls, q.target) ==>
              Upstream(g', q) == g'.world.registry.services[q.target].manifest.baseUrl
  {
    CleanNeverMisleads(g, actions, q.namespace, q.target);
    CacheExactly(g, actions, q.namespace, q.target);
  }

  // -- Proxies that stay stale ------------------------------------------------

  /** The step is no re-registration, removal, rollback or reload of `id`. */
  predicate LeavesAlone(g: Gateway, a: Action, id: string) {
    a.Step? ==> PutsAt(g.world, a.step, id).None? && !Clears(g.world, a.step, id)
  }

  predicate LeavingRun(g: Gateway, actions: seq<Action>, id: string)
    decreases |actions|
  {
    actions == [] || (LeavesAlone(g, actions[0], id) && LeavingRun(GatewayNext(g, actions[0]), actions[1..], id))
  }

  /** While a service is left alone its proxies neither become stale nor recover. */
  lemma {:induction false} StaysStale(g: Gateway, actions: seq<Action>, ns: ServiceType, id: string)
    requires id in g.world.registry.services && LeavingRun(g, actions, id)
    ensures var g' := GatewayRun(g, actions);
            && id in g'.world.registry.services
            && g'.world.registry.services[id].manifest.baseUrl == g.world.registry.services[id].manifest.baseUrl
            && (Stale(g', ns, id) <==> Stale(g, ns, id))
    decreases |actions|
  {
    if actions != [] {
      StaleStepExactly(g, actions[0], ns, id);
      if actions[0].Step? {
        StepAddress(g.world, actions[0].step, id);
      }
      StaysStale(GatewayNext(g, actions[0]), actions[1..], ns, id);
    }
  }

  /** A service memory lacks is registered, and the write acknowledged. */
  function AfterNew(g: Gateway, m: Manifest, t: nat, now: int): Gateway {
    GatewayNext(GatewayNext(g, Step(Register(t, m, now))), Step(SettleOk(t)))
  }

  /** Registering a service memory lacks notifies nobody: afterwards, and for as long as it is
      left alone, its proxy is stale exactly when one was cached at another address before. */
  lemma NewRegistrationStale(g: Gateway, ns: ServiceType, m: Manifest, t: nat, now: int, rest: seq<Action>)
    requires t !in g.world.registry.calls && m.serviceId !in g.world.registry.services
    requires LeavingRun(AfterNew(g, m, t, now), rest, m.serviceId)
    ensures var g', key := GatewayRun(AfterNew(g, m, t, now), rest), (ns, m.serviceId);
            && m.serviceId in g'.world.registry.services
            && g'.world.registry.services[m.serviceId].manifest.baseUrl == m.baseUrl
            && (key in g'.cache && g'.cache[key] != m.baseUrl <==> key in g.cache && g.cache[key] != m.baseUrl)
  {
    var id, register := m.serviceId, Step(Register(t, m, now));
    var g1 := GatewayNext(g, register);
    assert PutsAt(g.world, register.step, id) == Some(m.baseUrl);
    StepAddress(g.world, register.step, id);
    StaleStepExactly(g, register, ns, id);
    CallsStep(g.world, register.step);
    assert g1.world.registry.calls[t] == Call(id, false);
    StepAddress(g1.world, SettleOk(t), id);
    StaleStepExactly(g1, Step(SettleOk(t)), ns, id);
    StaysStale(AfterNew(g, m, t, now), rest, ns, id);
  }

  function AfterMove(g: Gateway, m: Manifest, t: nat, now: int): Gateway {
    AfterNew(GatewayNext(g, Step(Deregister(m.serviceId))), m, t, now)
  }

  /** So it is after deregistering a service and registering it. */
  lemma DeregisterLeavesStaleProxy(g: Gateway, ns: ServiceType, m: Manifest, t: nat, now: int, rest: seq<Action>)
    requires t !in g.world.registry.calls
    requires LeavingRun(AfterMove(g, m, t, now), rest, m.serviceId)
    ensures var g', key := GatewayRun(AfterMove(g, m, t, now), rest), (ns, m.serviceId);
            && m.serviceId in g'.world.registry.services
            && g'.world.registry.services[m.serviceId].manifest.baseUrl == m.baseUrl
            && (key in g'.cache && g'.cache[key] != m.baseUrl <==> key in g.cache && g.cache[key] != m.baseUrl)
  {
    NextServices(g.world, Deregister(m.serviceId));
    NewRegistrationStale(GatewayNext(g, Step(Deregister(m.serviceId))), ns, m, t, now, rest);
  }

  function AfterRollback(g: Gateway, failed: nat, m: Manifest, t: nat, now: int): Gateway {
    AfterNew(GatewayNext(g, Step(SettleFail(failed))), m, t, now)
  }

  /** And after the rollback of a registration of the service, which is then registered again. */
  lemma RollbackLeavesStaleProxy(g: Gateway, ns: ServiceType, failed: nat, m: Manifest, t: nat, now: int, rest: seq<Action>)
    requires g.world.registry.online && failed in g.world.registry.calls
    requires g.world.registry.calls[failed].id == m.serviceId && t !in g.world.registry.calls
    requires LeavingRun(AfterRollback(g, failed, m, t, now), rest, m.serviceId)
    ensures var g', key := GatewayRun(AfterRollback(g, failed, m, t, now), rest), (ns, m.serviceId);
            && m.serviceId in g'.world.registry.services
            && g'.world.registry.services[m.serviceId].manifest.baseUrl == m.baseUrl
            && (key in g'.cache && g'.cache[key] != m.baseUrl <==> key in g.cache && g.cache[key] != m.baseUrl)
  {
    NextServices(g.world, SettleFail(failed));
    NewRegistrationStale(GatewayNext(g, Step(SettleFail(failed))), ns, m, t, now, rest);
  }

  /** And after a reload that brings the service. */
  lemma ReloadLeavesStaleProxy(g: Gateway, ns: ServiceType, id: string, rest: seq<Action>)
    requires g.world.registry.load.Replied? && id in Readable(g.world.registry.load.reply)
    requires LeavingRun(GatewayNext(g, Step(LoadApply)), rest, id)
    ensures var g', key := GatewayRun(GatewayNext(g, Step(LoadApply)), rest), (ns, id);
            var brought := Readable(g.world.registry.load.reply)[id].manifest.baseUrl;
            && id in g'.world.registry.services && g'.world.registry.services[id].manifest.baseUrl == brought
            && (key in g'.cache && g'.cache[key] != brought <==> key in g.cache && g.cache[key] != brought)
  {
    StepAddress(g.world, LoadApply, id);
    StaleStepExactly(g, Step(LoadApply), ns, id);
    StaysStale(GatewayNext(g, Step(LoadApply)), rest, ns, id);
  }

  // -- The handler as an object -----------------------------------------------

  const PROXY_BREAKER := CB.Config(5, 30000, 2)

  /** Five failures in a row, counted from a closed circuit and on top of those already trailing,
      and only five, make the requests of the next 30 seconds unavailable. */
  lemma FifthFailureOpens(log: seq<CB.Event>, failed: int, now: int)
    requires CB.ModeAfter(PROXY_BREAKER, log) == CB.Closed
    ensures var b := CB.After(PROXY_BREAKER, log + [CB.Failure(failed)]);
            !CB.Admits(PROXY_BREAKER, b, now) <==>
              CB.TrailingFailures(PROXY_BREAKER, log) >= 4 && now < failed + 30000
  {
    CB.OpensExactlyAtThreshold(PROXY_BREAKER, log, failed);
    assert CB.Front(log + [CB.Failure(failed)]) == log;
  }

  /** After that the second success in a row closes the circuit again, and any failure before it
      starts another 30 seconds. */
  lemma SecondSuccessCloses(log: seq<CB.Event>, failed: int, now: int)
    requires CB.ModeAfter(PROXY_BREAKER, log) == CB.HalfOpen
    ensures CB.ModeAfter(PROXY_BREAKER, log + [CB.Success]) == CB.Closed <==>
              CB.SuccessesSinceHalfOpen(PROXY_BREAKER, log) >= 1
    ensures !CB.Admits(PROXY_BREAKER, CB.After(PROXY_BREAKER, log + [CB.Failure(failed)]), now) <==> now < failed + 30000
  {
    CB.ClosesExactlyAtThreshold(PROXY_BREAKER, log, failed);
    assert CB.Front(log + [CB.Failure(failed)]) == log;
  }

  class ProxyHandler {
    const registry: RegistryService
    const namespace: ServiceType
    const cache: ProxyCache
    var breakers: map<string, CB.CircuitBreaker>

    /** One breaker per service, all configured alike. */
    ghost predicate Valid()
      reads this, breakers.Values
    {
      && (forall id :: id in breakers ==> breakers[id].cfg == PROXY_BREAKER)
      && (forall a, b :: a in breakers && b in breakers && a != b ==> breakers[a] != breakers[b])
    }

    /** A service without a breaker behaves like one whose breaker is new. */
    ghost function BreakerOf(id: string): CB.Breaker
      reads this, breakers.Values
    {
      if id in breakers then breakers[id].View() else CB.INITIAL
    }

    /** Subscribes the cache to the registry. */
    constructor (registry: RegistryService, namespace: ServiceType)
      modifies registry`listeners
      ensures Valid() && this.registry == registry && this.namespace == namespace
      ensures fresh(cache) && cache.targets == map[] && breakers == map[]
      ensures registry.listeners == old(registry.listeners) + {cache}
    {
      this.registry := registry;
      this.namespace := namespace;
      this.cache := new ProxyCache();
      this.breakers := map[];
      new;
      registry.OnCacheInvalidation(cache);
    }

    method Destroy()
      modifies this, cache, registry`listeners
      ensures Valid() && breakers == map[] && cache.targets == map[]
      ensures registry.listeners == old(registry.listeners) - {cache}
    {
      registry.Unsubscribe(cache);
      cache.targets := map[];
      breakers := map[];
    }

    method GetOrCreateCircuitBreaker(id: string) returns (b: CB.CircuitBreaker)
      requires Valid()
      modifies this`breakers
      ensures Valid() && id in breakers && breakers[id] == b
      ensures forall s :: BreakerOf(s) == old(BreakerOf(s))
      ensures breakers.Keys == old(breakers).Keys + {id}
      ensures forall s :: s in old(breakers) ==> breakers[s] == old(breakers)[s]
      ensures id !in old(breakers) ==> fresh(b)
    {
      if id in breakers {
        return breakers[id];
      }
      b := new CB.CircuitBreaker(Some(5), Some(30000), Some(2));
      breakers := breakers[id := b];
    }

    /** The checks before the circuit breaker, in the order the source makes them. */
    method CheckGates(caller: string, user: Option<Claims>, target: string) returns (r: Option<Refused>)
      ensures r == Gate(registry.services, Request(namespace, caller, user, target))
      ensures var q := Request(namespace, caller, user, target);
              r == None <==>
                && Reachable(registry.services, q) && registry.services[target].status != Retired
                && Authorised(registry.services, q)
    {
      GateExactly(registry.services, Request(namespace, caller, user, target));
      if target !in registry.services {
        return Some(UnknownTarget);
      }
      var entry := registry.services[target];
      if entry.manifest.baseUrl == "" {
        return Some(UnknownTarget);
      }
      var kind := if entry.manifest.serviceType.Some? then entry.manifest.serviceType.value else TribeService;
      if kind != namespace {
        return Some(UnknownTarget);
      }
      if entry.status == Retired {
        return Some(Gone);
      }
      if !CanConsume(registry.services, caller, target) {
        return Some(Forbidden);
      }
      if entry.manifest.requiredScopes != [] && user.Some? {
        var missing := CheckScopes(user, entry.manifest.requiredScopes);
        if missing != [] {
          return Some(Forbidden);
        }
      }
      return None;
    }

    /** One acquisition at the breaker of the target, made on demand. */
    method AcquireBreaker(target: string, now: int) returns (admitted: bool)
      requires Valid()
      modifies this`breakers, breakers.Values
      ensures Valid()
      ensures BreakerOf(target) == CB.Next(PROXY_BREAKER, old(BreakerOf(target)), CB.Acquire(now))
      ensures forall s :: s != target ==> BreakerOf(s) == old(BreakerOf(s))
      ensures admitted == CB.Admits(PROXY_BREAKER, old(BreakerOf(target)), now)
    {
      var breaker := GetOrCreateCircuitBreaker(target);
      label made:
      admitted := breaker.TryAcquire(now);
      forall s | s != target ensures BreakerOf(s) == old@made(BreakerOf(s)) {
        assert s in breakers ==> breakers[s] != breaker;
      }
    }

    /** The cached target, cached now if there is none. */
    method CachedTarget(target: string) returns (url: string)
      requires target in registry.services
      modifies cache
      ensures cache.targets == old(cache.targets)[target := url]
      ensures url == if target in old(cache.targets) then old(cache.targets)[target]
                     else registry.services[target].manifest.baseUrl
    {
      if target !in cache.targets {
        cache.targets := cache.targets[target := registry.services[target].manifest.baseUrl];
      }
      url := cache.targets[target];
    }

    /** The address the request is forwarded to, or the error thrown. */
    method ProxyRequest(caller: string, user: Option<Claims>, target: string, now: int)
      returns (r: Result<string, Refused>)
      requires Valid()
      modifies this`breakers, breakers.Values, cache
      ensures Valid()
      ensures var gate := Gate(registry.services, Request(namespace, caller, user, target));
              && (gate.Some? ==>
                    r == Err(gate.value) && cache.targets == old(cache.targets)
                    && forall s :: BreakerOf(s) == old(BreakerOf(s)))
              && (gate.None? ==>
                    && BreakerOf(target) == CB.Next(PROXY_BREAKER, old(BreakerOf(target)), CB.Acquire(now))
                    && (forall s :: s != target ==> BreakerOf(s) == old(BreakerOf(s)))
                    && if CB.Admits(PROXY_BREAKER, old(BreakerOf(target)), now)
                       then r.Ok? && cache.targets == old(cache.targets)[target := r.value]
                            && r.value == if target in old(cache.targets) then old(cache.targets)[target]
                                          else registry.services[target].manifest.baseUrl
                       else r == Err(Unavailable) && cache.targets == old(cache.targets))
    {
      var refused := CheckGates(caller, user, target);
      if refused.Some? {
        return Err(refused.value);
      }
      var admitted := AcquireBreaker(target, now);
      if !admitted {
        return Err(Unavailable);
      }
      label acquired:
      var url := CachedTarget(target);
      CacheIsApart@acquired();
      return Ok(url);
    }

    /** Filling the cache touches no breaker. */
    twostate lemma CacheIsApart()
      requires old(Valid()) && breakers == old(breakers)
      requires forall id :: id in breakers ==> unchanged(breakers[id])
      ensures Valid() && forall s :: BreakerOf(s) == old(BreakerOf(s))
    {
    }

    /** The response or error of a forwarded request, whenever it comes; no status is an error. */
    method OnOutcome(id: string, status: Option<int>, now: int)
      requires Valid()
      modifies breakers.Values
      ensures Valid()
      ensures forall s :: s != id ==> BreakerOf(s) == old(BreakerOf(s))
      ensures id in breakers ==>
                BreakerOf(id) == CB.Next(PROXY_BREAKER, old(BreakerOf(id)),
                                      if status.None? || status.value in {502, 503, 504} then CB.Failure(now) else CB.Success)
    {
      if id in breakers {
        if status.None? || status.value in {502, 503, 504} {
          breakers[id].RecordFailure(now);
        } else {
          breakers[id].RecordSuccess();
        }
      }
    }
  }
}
