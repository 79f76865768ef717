/**
 The service registry of one gateway instance together with the Redis hash behind it, as a
 step system. A step is what runs between two `await` points of the source: it changes the
 in-memory map and, in the same step, sends at most one command on the instance's single
 Redis connection, which executes commands in the order they were sent.
 */
module RegistryModel {
  import opened Wrappers
  import Semver

  // -- Entities ---------------------------------------------------------------

  datatype Status = Proposed | Active | Deprecated | Retired

  datatype ServiceType = SharedService | TribeService

  /** `details` stands for the fields no code looks at (description, tags, owner, tier, ...). */
  datatype Manifest = Manifest(
    serviceId: string, name: string, baseUrl: string,
    requiredScopes: seq<string>, exposes: seq<string>, consumes: seq<string>,
    serviceType: Option<ServiceType>, healthCheck: Option<string>, version: Option<string>,
    sunsetDate: Option<string>, replacementService: Option<string>, details: string)

  datatype Entry = Entry(
    manifest: Manifest, registeredAt: int, updatedAt: int, status: Status,
    previousVersion: Option<string>, healthy: Option<bool>, lastHealthCheckAt: Option<int>)

  type ServiceMap = map<string, Entry>

  /** A hash field holds the JSON text of an entry, or text that does not parse. */
  datatype Stored = Json(entry: Entry) | Garbled

  type Hash = map<string, Stored>

  datatype Command = HSet(id: string, entry: Entry) | HDel(id: string) | HGetAll

  /** A registration waiting for its Redis write; `existed` is `!!existing` at its start. */
  datatype Call = Call(id: string, existed: bool)

  /** `loadFromRedis`: not running, reply awaited, or reply received and not yet applied. */
  datatype Load = Idle | Sent | Replied(reply: Hash)

  /** `online` is false when the connection could not be made at start (memory-only mode). */
  datatype Registry = Registry(
    online: bool, services: ServiceMap, gauge: nat,
    conn: seq<Command>, calls: map<nat, Call>, load: Load)

  datatype World = World(registry: Registry, redis: Hash)

  datatype Error = NotFound | Conflict | Invalid

  // -- Registration rules -----------------------------------------------------

  function Lookup(services: ServiceMap, id: string): Option<Entry> {
    if id in services then Some(services[id]) else None
  }

  function PreviousVersion(existing: Option<Entry>, m: Manifest): (v: Option<string>)
    ensures v.Some? ==> Truthy(m.version)
  {
    if existing.Some? && Truthy(m.version) && Truthy(existing.value.manifest.version)
    then existing.value.manifest.version
    else None
  }

  /** `validateVersionUpgrade` throws: both versions parse and the major number drops. */
  predicate Downgrade(current: string, next: string) {
    var c, n := Semver.Parse(current), Semver.Parse(next);
    c.Some? && n.Some? && n.value.major < c.value.major
  }

  /** In terms of the texts: an upgrade is refused exactly when both start with three dotted
      numbers and the first number of the new text is the smaller one. */
  lemma DowngradeExactly(current: string, next: string)
    ensures Downgrade(current, next) <==>
            exists a, b :: Semver.HasMajor(current, a) && Semver.HasMajor(next, b) && b < a
  {
    forall n: nat
      ensures Semver.HasMajor(current, n) <==> Semver.Parse(current).Some? && Semver.Parse(current).value.major == n
      ensures Semver.HasMajor(next, n) <==> Semver.Parse(next).Some? && Semver.Parse(next).value.major == n
    {
      Semver.ParsedMajor(current, n);
      Semver.ParsedMajor(next, n);
    }
    if Downgrade(current, next) {
      var a, b := Semver.Parse(current).value.major, Semver.Parse(next).value.major;
      assert Semver.HasMajor(current, a) && Semver.HasMajor(next, b);
    }
  }

  /** The checks of `register`, in the order the source makes them. */
  function Refusal(existing: Option<Entry>, m: Manifest): Option<Error> {
    var previous := PreviousVersion(existing, m);
    if previous.Some? && Downgrade(previous.value, m.version.value) then Some(Invalid)
    else if existing.Some? && existing.value.status == Retired then Some(Conflict)
    else None
  }

  function NewEntry(existing: Option<Entry>, m: Manifest, now: int): Entry {
    Entry(
      m.(serviceType := Some(m.serviceType.GetOr(TribeService))),
      if existing.Some? then existing.value.registeredAt else now,
      now,
      if existing.Some? && existing.value.status == Deprecated then Deprecated else Active,
      PreviousVersion(existing, m),
      None,
      None)
  }

  function Present(given: Option<string>, current: Option<string>): Option<string> {
    if Truthy(given) then given else current
  }

  // -- Steps ------------------------------------------------------------------

  datatype Label =
    | Register(ticket: nat, manifest: Manifest, now: int)
    | SettleOk(ticket: nat)
    | SettleFail(ticket: nat)
    | Deregister(id: string)
    | Deprecate(id: string, sunset: Option<string>, replacement: Option<string>, now: int)
    | Retire(id: string, now: int)
    | Activate(id: string, now: int)
    | SetHealth(id: string, alive: bool, now: int)
    | Touch(id: string, now: int)
    | LoadSend
    | LoadApply
    | Deliver
    | Lose

  /** The id and the entry a step writes under a fresh `updatedAt`, if it writes one. */
  function Upsert(r: Registry, l: Label): Option<(string, Entry)> {
    match l
    case Register(ticket, m, now) =>
      var existing := Lookup(r.services, m.serviceId);
      if ticket in r.calls || Refusal(existing, m).Some? then None
      else Some((m.serviceId, NewEntry(existing, m, now)))
    case Deprecate(id, sunset, replacement, now) =>
      if id !in r.services || r.services[id].status == Retired then None else
        var e := r.services[id];
        Some((id, e.(status := Deprecated, updatedAt := now,
              manifest := e.manifest.(sunsetDate := Present(sunset, e.manifest.sunsetDate),
                                      replacementService := Present(replacement, e.manifest.replacementService)))))
    case Retire(id, now) =>
      if id !in r.services then None
      else Some((id, r.services[id].(status := Retired, updatedAt := now)))
    case Activate(id, now) =>
      if id !in r.services || r.services[id].status !in {Proposed, Deprecated} then None else
        var e := r.services[id];
        Some((id, e.(status := Active, updatedAt := now,
              manifest := e.manifest.(sunsetDate := None, replacementService := None))))
    case SetHealth(id, alive, now) =>
      if id !in r.services || r.services[id].healthy.GetOr(true) == alive then None
      else Some((id, r.services[id].(healthy := Some(alive), lastHealthCheckAt := Some(now), updatedAt := now)))
    case _ => None
  }

  /** The entries the services gauge counts. */
  function Serving(services: ServiceMap): set<string> {
    set id | id in services && services[id].status in {Active, Deprecated}
  }

  function SyncGauge(r: Registry): Registry {
    r.(gauge := |Serving(r.services)|)
  }

  function Send(r: Registry, c: Command): Registry {
    if r.online then r.(conn := r.conn + [c]) else r
  }

  /** Deprecation and health updates leave the gauge alone. */
  predicate Syncs(l: Label) {
    l.Register? || l.Retire? || l.Activate?
  }

  function Write(r: Registry, l: Label, id: string, e: Entry): Registry {
    var r1 := Send(r.(services := r.services[id := e]), HSet(id, e));
    var r2 := if Syncs(l) then SyncGauge(r1) else r1;
    if l.Register? then r2.(calls := r2.calls[l.ticket := Call(id, id in r.services)]) else r2
  }

  /** The fields of a reply that parse: `loadFromRedis` and `getRedisEntries` skip the others. */
  function Readable(h: Hash): ServiceMap {
    map id | id in h && h[id].Json? :: h[id].entry
  }

  /** A step taken by the gateway; a call the source refuses with an error changes nothing. */
  function Act(r: Registry, l: Label): Registry {
    match l
    case SettleOk(ticket) =>
      r.(calls := r.calls - {ticket})
    case SettleFail(ticket) =>
      if ticket !in r.calls || !r.online then r
      else SyncGauge(r.(services := r.services - {r.calls[ticket].id}, calls := r.calls - {ticket}))
    case Deregister(id) =>
      if id !in r.services then r
      else Send(SyncGauge(r.(services := r.services - {id})), HDel(id))
    case Touch(id, now) =>
      if id !in r.services then r
      else r.(services := r.services[id := r.services[id].(lastHealthCheckAt := Some(now))])
    case LoadSend =>
      if r.online && r.load == Idle then Send(r, HGetAll).(load := Sent) else r
    case LoadApply =>
      if r.load.Replied? then r.(services := r.services + Readable(r.load.reply), load := Idle) else r
    case _ =>
      var u := Upsert(r, l);
      if u.Some? then Write(r, l, u.value.0, u.value.1) else r
  }

  function Execute(c: Command, h: Hash): Hash {
    match c
    case HSet(id, e) => h[id := Json(e)]
    case HDel(id) => h - {id}
    case HGetAll => h
  }

  /** `Deliver` is the server executing the oldest command, `Lose` that command failing. */
  function Next(w: World, l: Label): World {
    var r := w.registry;
    if l.Deliver? && r.conn != [] then
      var r' := r.(conn := r.conn[1..]);
      World(if r.conn[0].HGetAll? then r'.(load := Replied(w.redis)) else r', Execute(r.conn[0], w.redis))
    else if l.Lose? && r.conn != [] then
      var r' := r.(conn := r.conn[1..]);
      World(if r.conn[0].HGetAll? then r'.(load := Idle) else r', w.redis)
    else
      World(Act(r, l), w.redis)
  }

  /** What a step does to the in-memory map, whatever else it does. */
  lemma NextServices(w: World, l: Label)
    ensures var r, services := w.registry, Next(w, l).registry.services;
            match l
            case Deregister(id) => services == r.services - {id}
            case SettleOk(_) => services == r.services
            case SettleFail(ticket) =>
              services == if ticket in r.calls && r.online then r.services - {r.calls[ticket].id} else r.services
            case Touch(id, now) =>
              services == if id in r.services then r.services[id := r.services[id].(lastHealthCheckAt := Some(now))] else r.services
            case LoadApply =>
              services == if r.load.Replied? then r.services + Readable(r.load.reply) else r.services
            case LoadSend => services == r.services
            case Deliver => services == r.services
            case Lose => services == r.services
            case _ =>
              var u := Upsert(r, l);
              services == if u.Some? then r.services[u.value.0 := u.value.1] else r.services
  {
    if l.Deregister? && l.id !in w.registry.services {
      assert w.registry.services - {l.id} == w.registry.services;
    }
  }

  // -- What the calls do, field by field --------------------------------------

  /** Both versions are given and start with three dotted numbers, the first of which drops. */
  ghost predicate GoesDown(current: Option<string>, next: Option<string>) {
    && current.Some? && current.value != "" && next.Some? && next.value != ""
    && exists a, b :: Semver.HasMajor(current.value, a) && Semver.HasMajor(next.value, b) && b < a
  }

  /** `e` is the manifest as given, a tribe service by default, with no health flag. An update
      keeps the registration time and stays deprecated; it names the version it replaces when
      both are given. */
  predicate RegistrationOf(e: Entry, services: ServiceMap, m: Manifest, now: int) {
    var update := m.serviceId in services;
    && e.manifest.serviceType == (if m.serviceType.Some? then m.serviceType else Some(TribeService))
    && e.manifest.(serviceType := m.serviceType) == m
    && e.registeredAt == (if update then services[m.serviceId].registeredAt else now)
    && e.updatedAt == now
    && e.status == (if update && services[m.serviceId].status == Deprecated then Deprecated else Active)
    && e.previousVersion == (if update && Truthy(m.version) && Truthy(services[m.serviceId].manifest.version)
                             then services[m.serviceId].manifest.version else None)
    && e.healthy == None && e.lastHealthCheckAt == None
  }

  /** The entry is stored and, online, sent; other services keep theirs. */
  predicate Wrote(r: Registry, r': Registry, id: string, e: Entry) {
    && r'.services == r.services[id := e] && r'.load == r.load
    && r'.online == r.online && r'.conn == (if r.online then r.conn + [HSet(id, e)] else r.conn)
  }

  function ServedCount(services: ServiceMap): nat {
    |set id | id in services && (services[id].status == Active || services[id].status == Deprecated)|
  }

  lemma ServedIsServing(services: ServiceMap)
    ensures ServedCount(services) == |Serving(services)|
  {
    assert (set id | id in services && (services[id].status == Active || services[id].status == Deprecated)) ==
           Serving(services);
  }

  /** A registration is accepted exactly when memory does not hold the service as retired and
      its major version does not drop; a downgrade of a retired service counts as a downgrade. */
  lemma RefusalExactly(services: ServiceMap, m: Manifest)
    ensures var known := m.serviceId in services;
            var down := known && GoesDown(services[m.serviceId].manifest.version, m.version);
            var refusal := Refusal(Lookup(services, m.serviceId), m);
            && (refusal == Some(Invalid) <==> down)
            && (refusal == Some(Conflict) <==> !down && known && services[m.serviceId].status == Retired)
            && (refusal == None <==> !down && !(known && services[m.serviceId].status == Retired))
  {
    if m.serviceId in services && Truthy(m.version) && Truthy(services[m.serviceId].manifest.version) {
      DowngradeExactly(services[m.serviceId].manifest.version.value, m.version.value);
    }
  }

  /** Registering: who is accepted, what is then stored, and that a refusal changes nothing. */
  lemma RegisterExactly(w: World, ticket: nat, m: Manifest, now: int)
    requires ticket !in w.registry.calls
    ensures var w', id, services := Next(w, Register(ticket, m, now)), m.serviceId, w.registry.services;
            var accepted := id in services ==>
              services[id].status != Retired && !GoesDown(services[id].manifest.version, m.version);
            && (!accepted ==> w' == w)
            && (accepted ==>
                  && w'.redis == w.redis && id in w'.registry.services
                  && RegistrationOf(w'.registry.services[id], services, m, now)
                  && Wrote(w.registry, w'.registry, id, w'.registry.services[id])
                  && w'.registry.gauge == ServedCount(w'.registry.services)
                  && w'.registry.calls == w.registry.calls[ticket := Call(id, id in services)])
  {
    RefusalExactly(w.registry.services, m);
    ServedIsServing(Next(w, Register(ticket, m, now)).registry.services);
  }

  /** `e` deprecated: the given sunset fields replace the old ones, all else is kept. */
  predicate DeprecationOf(e': Entry, e: Entry, sunset: Option<string>, replacement: Option<string>, now: int) {
    && e'.status == Deprecated && e'.updatedAt == now
    && e'.manifest.sunsetDate == (if sunset.Some? && sunset.value != "" then sunset else e.manifest.sunsetDate)
    && e'.manifest.replacementService ==
         (if replacement.Some? && replacement.value != "" then replacement else e.manifest.replacementService)
    && e'.manifest.(sunsetDate := e.manifest.sunsetDate, replacementService := e.manifest.replacementService) == e.manifest
    && e'.(status := e.status, updatedAt := e.updatedAt, manifest := e.manifest) == e
  }

  lemma DeprecateExactly(w: World, id: string, sunset: Option<string>, replacement: Option<string>, now: int)
    ensures var w', services := Next(w, Deprecate(id, sunset, replacement, now)), w.registry.services;
            if id !in services || services[id].status == Retired then w' == w
            else
              && w'.redis == w.redis && id in w'.registry.services
              && DeprecationOf(w'.registry.services[id], services[id], sunset, replacement, now)
              && Wrote(w.registry, w'.registry, id, w'.registry.services[id])
              && w'.registry.gauge == w.registry.gauge && w'.registry.calls == w.registry.calls
  {
  }

  /** `e` retired: its status and stamp, and nothing else. */
  predicate RetirementOf(e': Entry, e: Entry, now: int) {
    && e'.status == Retired && e'.updatedAt == now
    && e'.(status := e.status, updatedAt := e.updatedAt) == e
  }

  lemma RetireExactly(w: World, id: string, now: int)
    ensures var w', services := Next(w, Retire(id, now)), w.registry.services;
            if id !in services then w' == w
            else
              && w'.redis == w.redis && id in w'.registry.services
              && RetirementOf(w'.registry.services[id], services[id], now)
              && Wrote(w.registry, w'.registry, id, w'.registry.services[id])
              && w'.registry.gauge == ServedCount(w'.registry.services) && w'.registry.calls == w.registry.calls
  {
    ServedIsServing(Next(w, Retire(id, now)).registry.services);
  }

  /** `e` active again: without sunset fields, all else is kept. */
  predicate ActivationOf(e': Entry, e: Entry, now: int) {
    && e'.status == Active && e'.updatedAt == now
    && e'.manifest.sunsetDate == None && e'.manifest.replacementService == None
    && e'.manifest.(sunsetDate := e.manifest.sunsetDate, replacementService := e.manifest.replacementService) == e.manifest
    && e'.(status := e.status, updatedAt := e.updatedAt, manifest := e.manifest) == e
  }

  lemma ActivateExactly(w: World, id: string, now: int)
    ensures var w', services := Next(w, Activate(id, now)), w.registry.services;
            if id !in services || services[id].status == Active || services[id].status == Retired then w' == w
            else
              && w'.redis == w.redis && id in w'.registry.services
              && ActivationOf(w'.registry.services[id], services[id], now)
              && Wrote(w.registry, w'.registry, id, w'.registry.services[id])
              && w'.registry.gauge == ServedCount(w'.registry.services) && w'.registry.calls == w.registry.calls
  {
    ServedIsServing(Next(w, Activate(id, now)).registry.services);
  }

  /** `e` with a new health flag, stamped. */
  predicate HealthOf(e': Entry, e: Entry, alive: bool, now: int) {
    && e'.healthy == Some(alive) && e'.lastHealthCheckAt == Some(now) && e'.updatedAt == now
    && e'.(healthy := e.healthy, lastHealthCheckAt := e.lastHealthCheckAt, updatedAt := e.updatedAt) == e
  }

  /** The flag is written only when it changes, a missing one counting as healthy. */
  lemma SetHealthExactly(w: World, id: string, alive: bool, now: int)
    ensures var w', services := Next(w, SetHealth(id, alive, now)), w.registry.services;
            if id !in services || services[id].healthy == Some(alive) || (services[id].healthy == None && alive) then w' == w
            else
              && w'.redis == w.redis && id in w'.registry.services
              && HealthOf(w'.registry.services[id], services[id], alive, now)
              && Wrote(w.registry, w'.registry, id, w'.registry.services[id])
              && w'.registry.gauge == w.registry.gauge && w'.registry.calls == w.registry.calls
  {
  }

  // -- Runs -------------------------------------------------------------------

  function Run(w: World, ls: seq<Label>): World
    decreases |ls|
  {
    if ls == [] then w else Run(Next(w, ls[0]), ls[1..])
  }

  lemma {:induction false} RunAppend(w: World, ls: seq<Label>, ms: seq<Label>)
    ensures Run(w, ls + ms) == Run(Run(w, ls), ms)
    decreases |ls|
  {
    if ls == [] {
      assert ls + ms == ms;
    } else {
      assert (ls + ms)[1..] == ls[1..] + ms;
      RunAppend(Next(w, ls[0]), ls[1..], ms);
    }
  }

  lemma RunTwo(w: World, a: Label, b: Label)
    ensures Run(w, [a, b]) == Next(Next(w, a), b)
  {
    assert [a, b][1..] == [b];
    assert Run(Next(w, a), [b]) == Run(Next(Next(w, a), b), []);
  }

  lemma RunThree(w: World, a: Label, b: Label, c: Label)
    ensures Run(w, [a, b, c]) == Next(Next(Next(w, a), b), c)
  {
    assert [a, b, c][1..] == [b, c];
    RunTwo(Next(w, a), b, c);
  }

  lemma RunFour(w: World, a: Label, b: Label, c: Label, d: Label)
    ensures Run(w, [a, b, c, d]) == Next(Next(Next(Next(w, a), b), c), d)
  {
    assert [a, b, c, d][1..] == [b, c, d];
    RunThree(Next(w, a), b, c, d);
  }

  // -- Comparing copies -------------------------------------------------------

  /** An entry without the field `touchHealthCheck` changes in memory only. */
  function Norm(e: Entry): Entry {
    e.(lastHealthCheckAt := None)
  }

  /** The same services, each with the same fields except `lastHealthCheckAt`. */
  predicate Same(a: ServiceMap, b: ServiceMap) {
    a.Keys == b.Keys && forall id :: id in a ==> Norm(a[id]) == Norm(b[id])
  }

  // -- Queries ----------------------------------------------------------------

  predicate IsRoutable(services: ServiceMap, id: string) {
    id in services && services[id].healthy != Some(false) && services[id].status in {Active, Deprecated}
  }

  predicate CanConsume(services: ServiceMap, source: string, target: string) {
    source in services && target in services[source].manifest.consumes
  }

  function RequiredScopes(services: ServiceMap, target: string): seq<string> {
    if target in services then services[target].manifest.requiredScopes else []
  }
}
