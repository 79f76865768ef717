/**
 The registry service as the object the gateway holds, and the proxy caches subscribed to it.
 Every method is tied to the step of `RegistryModel` it performs.
 */
module RegistryServices {
  import opened Wrappers
  import opened RegistryModel

  /** The proxies a handler has built, by service id, with the upstream each one targets. */
  class ProxyCache {
    var targets: map<string, string>

    constructor ()
      ensures targets == map[]
    {
      targets := map[];
    }

    method Invalidate(id: string)
      modifies this
      ensures targets == old(targets) - {id}
    {
      targets := targets - {id};
    }
  }

  class RegistryService {
    const online: bool
    var services: ServiceMap
    var gauge: nat
    var conn: seq<Command>
    var calls: map<nat, Call>
    var load: Load
    var listeners: set<ProxyCache>

    ghost function View(): Registry
      reads this
    {
      Registry(online, services, gauge, conn, calls, load)
    }

    constructor (online: bool)
      ensures View() == Registry(online, map[], 0, [], map[], Idle) && listeners == {}
    {
      this.online := online;
      services, gauge, conn, calls, load := map[], 0, [], map[], Idle;
      listeners := {};
    }

    method OnCacheInvalidation(cache: ProxyCache)
      modifies this`listeners
      ensures listeners == old(listeners) + {cache}
    {
      listeners := listeners + {cache};
    }

    /** Calling the function `OnCacheInvalidation` returned. */
    method Unsubscribe(cache: ProxyCache)
      modifies this`listeners
      ensures listeners == old(listeners) - {cache}
    {
      listeners := listeners - {cache};
    }

    method NotifyCacheInvalidation(id: string)
      modifies listeners
      ensures forall c :: c in listeners ==> c.targets == old(c.targets) - {id}
    {
      var todo := listeners;
      while todo != {}
        invariant todo <= listeners
        invariant forall c :: c in todo ==> c.targets == old(c.targets)
        invariant forall c :: c in listeners - todo ==> c.targets == old(c.targets) - {id}
      {
        var c :| c in todo;
        c.Invalidate(id);
        todo := todo - {c};
      }
    }

    /** Counts active and deprecated entries one by one. */
    method SyncMetricsGauge()
      modifies this`gauge
      ensures View() == SyncGauge(old(View())) && gauge == ServedCount(services)
    {
      var todo, n := services.Keys, 0;
      while todo != {}
        invariant todo <= services.Keys
        invariant n == |Serving(services) - todo|
      {
        var id :| id in todo;
        if services[id].status == Active || services[id].status == Deprecated {
          assert Serving(services) - (todo - {id}) == (Serving(services) - todo) + {id};
          n := n + 1;
        } else {
          assert Serving(services) - (todo - {id}) == Serving(services) - todo;
        }
        todo := todo - {id};
      }
      assert Serving(services) - {} == Serving(services);
      ServedIsServing(services);
      gauge := n;
    }

    method SendCommand(c: Command)
      modifies this`conn
      ensures View() == Send(old(View()), c)
    {
      if online {
        conn := conn + [c];
      }
    }

    /** No two leading numbers read off the texts go down; a text without them is let pass. */
    method ValidateVersionUpgrade(current: string, next: string) returns (ok: bool)
      ensures ok <==> forall a, b :: Semver.HasMajor(current, a) && Semver.HasMajor(next, b) ==> a <= b
      ensures ok == !Downgrade(current, next)
    {
      DowngradeExactly(current, next);
      var c, n := Semver.Parse(current), Semver.Parse(next);
      if c.None? || n.None? {
        return true;
      }
      return c.value.major <= n.value.major;
    }

    /** `register` up to its await; `ticket` names the promise it leaves pending. */
    method BeginRegister(ticket: nat, m: Manifest, now: int) returns (r: Result<Entry, Error>)
      requires ticket !in calls
      modifies this`services, this`gauge, this`conn, this`calls
      ensures View() == Act(old(View()), Register(ticket, m, now))
      ensures var known := m.serviceId in old(services);
              var down := known && GoesDown(old(services)[m.serviceId].manifest.version, m.version);
              && (r == Err(Invalid) <==> down)
              && (r == Err(Conflict) <==> !down && known && old(services)[m.serviceId].status == Retired)
              && (r.Ok? <==> !down && !(known && old(services)[m.serviceId].status == Retired))
      ensures r.Ok? ==>
                && RegistrationOf(r.value, old(services), m, now)
                && Wrote(old(View()), View(), m.serviceId, r.value) && gauge == ServedCount(services)
                && calls == old(calls)[ticket := Call(m.serviceId, m.serviceId in old(services))]
    {
      RefusalExactly(services, m);
      var existing := Lookup(services, m.serviceId);
      var previous: Option<string> := None;
      if existing.Some? && Truthy(m.version) && Truthy(existing.value.manifest.version) {
        previous := existing.value.manifest.version;
        var ok := ValidateVersionUpgrade(previous.value, m.version.value);
        if !ok {
          return Err(Invalid);
        }
      }
      if existing.Some? && existing.value.status == Retired {
        return Err(Conflict);
      }
      var serviceType := if m.serviceType.Some? then m.serviceType.value else TribeService;
      var registeredAt := if existing.Some? then existing.value.registeredAt else now;
      var status := if existing.Some? && existing.value.status == Deprecated then Deprecated else Active;
      var entry := Entry(m.(serviceType := Some(serviceType)), registeredAt, now, status, previous, None, None);
      assert Upsert(View(), Register(ticket, m, now)) == Some((m.serviceId, entry));
      services := services[m.serviceId := entry];
      SyncMetricsGauge();
      SendCommand(HSet(m.serviceId, entry));
      calls := calls[ticket := Call(m.serviceId, existing.Some?)];
      return Ok(entry);
    }

    /** The rest of `register` once Redis has acknowledged the write. */
    method SettleRegister(ticket: nat)
      requires ticket in calls
      modifies this`calls, listeners
      ensures View() == Act(old(View()), SettleOk(ticket))
      ensures listeners == old(listeners)
      ensures forall c :: c in listeners ==>
                c.targets == if old(calls)[ticket].existed then old(c.targets) - {old(calls)[ticket].id} else old(c.targets)
    {
      var call := calls[ticket];
      calls := calls - {ticket};
      if call.existed {
        NotifyCacheInvalidation(call.id);
      }
    }

    /** The rollback of `persistToRedisStrict` after an error or a timeout. */
    method RollBackRegister(ticket: nat)
      requires ticket in calls && online
      modifies this`services, this`gauge, this`calls
      ensures View() == Act(old(View()), SettleFail(ticket))
      ensures services == old(services) - {old(calls)[ticket].id} && gauge == ServedCount(services)
    {
      services := services - {calls[ticket].id};
      calls := calls - {ticket};
      SyncMetricsGauge();
    }

    method Deregister(id: string) returns (r: Result<(), Error>)
      modifies this`services, this`gauge, this`conn
      ensures View() == Act(old(View()), Label.Deregister(id))
      ensures r == if id in old(services) then Ok(()) else Err(NotFound)
      ensures services == old(services) - {id}
      ensures r.Ok? ==> gauge == ServedCount(services) && conn == if online then old(conn) + [HDel(id)] else old(conn)
    {
      if id !in services {
        return Err(NotFound);
      }
      services := services - {id};
      SyncMetricsGauge();
      SendCommand(HDel(id));
      return Ok(());
    }

    method Deprecate(id: string, sunset: Option<string>, replacement: Option<string>, now: int)
      returns (r: Result<Entry, Error>)
      modifies this`services, this`conn
      ensures View() == Act(old(View()), Label.Deprecate(id, sunset, replacement, now))
      ensures r.Err? <==> id !in old(services) || old(services)[id].status == Retired
      ensures r.Err? ==> r.error == if id in old(services) then Conflict else NotFound
      ensures r.Ok? ==>
                && DeprecationOf(r.value, old(services)[id], sunset, replacement, now)
                && Wrote(old(View()), View(), id, r.value)
    {
      if id !in services {
        return Err(NotFound);
      }
      var e := services[id];
      if e.status == Retired {
        return Err(Conflict);
      }
      e := e.(status := Deprecated, updatedAt := now);
      if Truthy(sunset) {
        e := e.(manifest := e.manifest.(sunsetDate := sunset));
      }
      if Truthy(replacement) {
        e := e.(manifest := e.manifest.(replacementService := replacement));
      }
      services := services[id := e];
      SendCommand(HSet(id, e));
      return Ok(e);
    }

    method Retire(id: string, now: int) returns (r: Result<Entry, Error>)
      modifies this`services, this`conn, this`gauge
      ensures View() == Act(old(View()), Label.Retire(id, now))
      ensures r.Err? <==> id !in old(services)
      ensures r.Err? ==> r.error == NotFound
      ensures r.Ok? ==>
                && RetirementOf(r.value, old(services)[id], now)
                && Wrote(old(View()), View(), id, r.value) && gauge == ServedCount(services)
    {
      if id !in services {
        return Err(NotFound);
      }
      var e := services[id].(status := Retired, updatedAt := now);
      services := services[id := e];
      SendCommand(HSet(id, e));
      SyncMetricsGauge();
      return Ok(e);
    }

    method Activate(id: string, now: int) returns (r: Result<Entry, Error>)
      modifies this`services, this`conn, this`gauge
      ensures View() == Act(old(View()), Label.Activate(id, now))
      ensures r.Ok? <==> id in old(services) && old(services)[id].status in {Proposed, Deprecated}
      ensures r.Err? ==> r.error == if id in old(services) then Conflict else NotFound
      ensures r.Ok? ==>
                && ActivationOf(r.value, old(services)[id], now)
                && Wrote(old(View()), View(), id, r.value) && gauge == ServedCount(services)
    {
      if id !in services {
        return Err(NotFound);
      }
      var e := services[id];
      if e.status != Proposed && e.status != Deprecated {
        return Err(Conflict);
      }
      e := e.(status := Active, updatedAt := now,
              manifest := e.manifest.(sunsetDate := None, replacementService := None));
      services := services[id := e];
      SendCommand(HSet(id, e));
      SyncMetricsGauge();
      return Ok(e);
    }

    /** True when the flag changed; a missing flag counts as healthy. */
    method SetHealthStatus(id: string, alive: bool, now: int) returns (changed: bool)
      modifies this`services, this`conn
      ensures View() == Act(old(View()), SetHealth(id, alive, now))
      ensures changed <==> id in old(services) && old(services)[id].healthy.GetOr(true) != alive
      ensures changed ==>
                && id in services && HealthOf(services[id], old(services)[id], alive, now)
                && Wrote(old(View()), View(), id, services[id])
      ensures !changed ==> services == old(services) && conn == old(conn)
    {
      if id !in services {
        return false;
      }
      var e := services[id];
      var previous := if e.healthy.Some? then e.healthy.value else true;
      if previous == alive {
        return false;
      }
      e := e.(healthy := Some(alive), lastHealthCheckAt := Some(now), updatedAt := now);
      services := services[id := e];
      SendCommand(HSet(id, e));
      return true;
    }

    method TouchHealthCheck(id: string, now: int)
      modifies this`services
      ensures View() == Act(old(View()), Touch(id, now))
      ensures services.Keys == old(services).Keys && forall s :: s in services ==>
                services[s] == if s == id then old(services)[s].(lastHealthCheckAt := Some(now)) else old(services)[s]
    {
      if id in services {
        services := services[id := services[id].(lastHealthCheckAt := Some(now))];
      }
    }

    /** `loadFromRedis` up to its await; it is not entered while a reply is awaited. */
    method BeginLoad()
      requires load == Idle
      modifies this`conn, this`load
      ensures View() == Act(old(View()), LoadSend)
    {
      if !online {
        return;
      }
      SendCommand(HGetAll);
      load := Sent;
    }

    /** The part of `loadFromRedis` that runs on the reply, one hash field at a time. */
    method ApplyReply()
      requires load.Replied?
      modifies this`services, this`load
      ensures View() == Act(old(View()), LoadApply)
    {
      var reply := load.reply;
      var todo := reply.Keys;
      while todo != {}
        invariant todo <= reply.Keys && load == old(load)
        invariant services == old(services) + Readable(Except(reply, todo))
      {
        var id :| id in todo;
        ExceptStep(reply, todo, id);
        if reply[id].Json? {
          services := services[id := reply[id].entry];
        }
        todo := todo - {id};
      }
      assert Except(reply, {}) == reply;
      load := Idle;
    }

    /** `getRedisEntries` on a reply: the fields that parse. */
    method ParseEntries(raw: Hash) returns (entries: ServiceMap)
      ensures entries == Readable(raw)
    {
      entries := map[];
      var todo := raw.Keys;
      while todo != {}
        invariant todo <= raw.Keys
        invariant entries == Readable(Except(raw, todo))
      {
        var id :| id in todo;
        ExceptStep(raw, todo, id);
        if raw[id].Json? {
          entries := entries[id := raw[id].entry];
        }
        todo := todo - {id};
      }
      assert Except(raw, {}) == raw;
    }
  }

  /** The fields of a reply already visited when `todo` are left. */
  ghost function Except(h: Hash, todo: set<string>): Hash {
    map id | id in h && id !in todo :: h[id]
  }

  lemma ExceptStep(h: Hash, todo: set<string>, id: string)
    requires id in todo && id in h
    ensures Readable(Except(h, todo - {id})) ==
            if h[id].Json? then Readable(Except(h, todo))[id := h[id].entry] else Readable(Except(h, todo))
  {
  }
}
