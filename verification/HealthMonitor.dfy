/**
 The two scheduled jobs: health sweeps, whose probes finish in any order between other steps,
 and the drift check.
 */
module HealthMonitors {
  import opened Wrappers
  import opened RegistryModel
  import opened RegistryServices
  import opened DriftDetector

  // -- Sweeps as a step system ------------------------------------------------

  datatype Change = Change(id: string, alive: bool)

  /** The probe of one service by the sweep with that number. */
  datatype Ping = Ping(sweep: nat, id: string)

  /** `running` is the guard flag of the source. The rest is history, so that sweeps running at
      once can be told apart: how many sweeps have begun, which of them have not ended, every
      probe sent, those without an answer yet, and the answers in the order they came. */
  datatype Monitor = Monitor(
    running: bool, begun: nat, unended: set<nat>,
    sent: set<Ping>, outstanding: set<Ping>, answered: seq<Ping>, events: seq<Change>)

  const INITIAL := Monitor(false, 0, {}, {}, {}, [], [])

  datatype System = System(world: World, monitor: Monitor)

  datatype Action =
    | Other(step: Label)
    | SweepStart
    | Probe(ping: Ping, alive: bool, now: int)
    | SweepEnd(sweep: nat)

  function Checkable(services: ServiceMap): set<string> {
    set id | id in services && Truthy(services[id].manifest.healthCheck)
             && services[id].status != Retired && services[id].status != Proposed
  }

  function Pings(sweep: nat, ids: set<string>): set<Ping> {
    set id | id in ids :: Ping(sweep, id)
  }

  function StartSweep(m: Monitor, services: ServiceMap): Monitor {
    if m.running || Checkable(services) == {} then m
    else
      var pings := Pings(m.begun, Checkable(services));
      m.(running := true, begun := m.begun + 1, unended := m.unended + {m.begun},
         sent := m.sent + pings, outstanding := m.outstanding + pings)
  }

  function ProbeMonitor(m: Monitor, r: Registry, ping: Ping, alive: bool, now: int): Monitor {
    var left := m.(outstanding := m.outstanding - {ping}, answered := m.answered + [ping]);
    if Upsert(r, SetHealth(ping.id, alive, now)).Some? then left.(events := m.events + [Change(ping.id, alive)]) else left
  }

  function ProbeRegistry(r: Registry, id: string, alive: bool, now: int): Registry {
    if Upsert(r, SetHealth(id, alive, now)).Some? then Act(r, SetHealth(id, alive, now)) else Act(r, Touch(id, now))
  }

  /** `Promise.allSettled` of that sweep has nothing left to wait for. */
  predicate AllSettled(m: Monitor, sweep: nat) {
    forall p :: p in m.outstanding ==> p.sweep != sweep
  }

  function EndSweep(m: Monitor, sweep: nat): Monitor {
    m.(running := false, unended := m.unended - {sweep})
  }

  /** Only probes set or touch health; everything else is a step of the registry. */
  function SystemNext(s: System, a: Action): System {
    var r := s.world.registry;
    match a
    case Other(step) => if step.SetHealth? || step.Touch? then s else s.(world := Next(s.world, step))
    case SweepStart => s.(monitor := StartSweep(s.monitor, r.services))
    case Probe(ping, alive, now) =>
      if ping !in s.monitor.outstanding then s
      else System(s.world.(registry := ProbeRegistry(r, ping.id, alive, now)),
                  ProbeMonitor(s.monitor, r, ping, alive, now))
    case SweepEnd(sweep) =>
      if sweep in s.monitor.unended && AllSettled(s.monitor, sweep) then s.(monitor := EndSweep(s.monitor, sweep)) else s
  }

  function SystemRun(s: System, actions: seq<Action>): System
    decreases |actions|
  {
    if actions == [] then s else SystemRun(SystemNext(s, actions[0]), actions[1..])
  }

  // -- Sweeps never overlap ---------------------------------------------------

  /** The flag is up exactly while the newest sweep has not ended, and no other is unended; a
      probe without an answer belongs to it. */
  predicate OneSweep(m: Monitor) {
    && m.unended == (if m.running then {m.begun - 1} else {})
    && (m.running ==> m.begun > 0)
    && (forall p :: p in m.outstanding ==> p.sweep in m.unended)
  }

  /** Every probe sent belongs to a sweep that has begun and is either outstanding or answered,
      never both; it is answered once at most, and answers come in the order of the sweeps. */
  ghost predicate Accounted(m: Monitor) {
    && (forall p :: p in m.sent ==> p.sweep < m.begun)
    && (forall p :: p in m.sent <==> p in m.outstanding || p in m.answered)
    && (forall p :: p in m.answered ==> p !in m.outstanding)
    && (forall i, j :: 0 <= i < j < |m.answered| ==>
          m.answered[i] != m.answered[j] && m.answered[i].sweep <= m.answered[j].sweep)
  }

  lemma AnswerAccounted(m: Monitor, r: Registry, ping: Ping, alive: bool, now: int)
    requires OneSweep(m) && Accounted(m) && ping in m.outstanding
    ensures OneSweep(ProbeMonitor(m, r, ping, alive, now)) && Accounted(ProbeMonitor(m, r, ping, alive, now))
  {
    var answered' := m.answered + [ping];
    forall p ensures p in answered' <==> p in m.answered || p == ping {
      if p in m.answered {
        var i :| 0 <= i < |m.answered| && m.answered[i] == p;
        assert answered'[i] == p;
      }
      assert answered'[|m.answered|] == ping;
    }
    forall i | 0 <= i < |m.answered| ensures m.answered[i] != ping && m.answered[i].sweep <= ping.sweep {
      assert m.answered[i] in m.answered && m.answered[i] in m.sent;
    }
  }

  lemma SweepStep(s: System, a: Action)
    requires OneSweep(s.monitor) && Accounted(s.monitor)
    ensures OneSweep(SystemNext(s, a).monitor) && Accounted(SystemNext(s, a).monitor)
  {
    if a.Probe? && a.ping in s.monitor.outstanding {
      AnswerAccounted(s.monitor, s.world.registry, a.ping, a.alive, a.now);
    }
  }

  lemma {:induction false} SweepsAccounted(s: System, actions: seq<Action>)
    requires OneSweep(s.monitor) && Accounted(s.monitor)
    ensures OneSweep(SystemRun(s, actions).monitor) && Accounted(SystemRun(s, actions).monitor)
    decreases |actions|
  {
    if actions != [] {
      SweepStep(s, actions[0]);
      SweepsAccounted(SystemNext(s, actions[0]), actions[1..]);
    }
  }

  /** On every run at most one sweep is under way, it is the newest one, and every probe without
      an answer belongs to it. */
  lemma SweepsNeverOverlap(s: System, actions: seq<Action>)
    requires s.monitor == INITIAL
    ensures var m := SystemRun(s, actions).monitor;
            && (forall k :: k in m.unended <==> m.running && k == m.begun - 1)
            && (forall p :: p in m.outstanding ==> m.running && p.sweep == m.begun - 1)
  {
    SweepsAccounted(s, actions);
  }

  /** On every run a sweep probes a service at most once, an ended sweep has had every answer,
      and no answer of a sweep comes after one of a later sweep. */
  lemma EachProbeAnsweredOnce(s: System, actions: seq<Action>)
    requires s.monitor == INITIAL
    ensures var m := SystemRun(s, actions).monitor;
            && (forall i, j :: 0 <= i < j < |m.answered| ==>
                  m.answered[i] != m.answered[j] && m.answered[i].sweep <= m.answered[j].sweep)
            && (forall p :: p in m.answered ==> p in m.sent && p !in m.outstanding)
            && (forall p :: p in m.sent && p.sweep !in m.unended ==> p in m.answered)
  {
    SweepsAccounted(s, actions);
  }

  // -- Which services a sweep probes ------------------------------------------

  /** It has a non-empty health check and is neither retired nor proposed. */
  predicate Probeable(e: Entry) {
    && e.manifest.healthCheck.Some? && e.manifest.healthCheck.value != ""
    && e.status != Retired && e.status != Proposed
  }

  /** A sweep begins exactly when the guard is down and some registered service can be
      probed; it probes exactly those services. */
  lemma SweepProbesExactly(m: Monitor, services: ServiceMap)
    requires forall p :: p in m.sent ==> p.sweep < m.begun
    ensures var m' := StartSweep(m, services);
            && (m'.begun > m.begun <==> !m.running && exists id :: id in services && Probeable(services[id]))
            && (m'.begun > m.begun ==> m'.begun == m.begun + 1 && m'.running)
            && (m'.begun > m.begun ==>
                  forall id :: Ping(m.begun, id) in m'.sent <==> id in services && Probeable(services[id]))
            && (m'.begun == m.begun ==> m' == m)
  {
    assert forall id :: id in Checkable(services) <==> id in services && Probeable(services[id]);
    assert Checkable(services) != {} <==> exists id :: id in Checkable(services);
    assert forall id :: Ping(m.begun, id) !in m.sent;
    assert forall id :: Ping(m.begun, id) in Pings(m.begun, Checkable(services)) <==> id in Checkable(services);
  }

  lemma {:induction false} SentStays(s: System, actions: seq<Action>, k: nat, id: string)
    requires k < s.monitor.begun
    ensures var m := SystemRun(s, actions).monitor;
            k < m.begun && (Ping(k, id) in m.sent <==> Ping(k, id) in s.monitor.sent)
    decreases |actions|
  {
    if actions != [] {
      SentStays(SystemNext(s, actions[0]), actions[1..], k, id);
    }
  }

  /** On every run, the services answered in a sweep that has ended are exactly those that could
      be probed when it began, whatever has happened to them since. */
  lemma EndedSweepAnswered(s: System, before: seq<Action>, since: seq<Action>, id: string)
    requires s.monitor == INITIAL
    requires var s0 := SystemRun(s, before);
             !s0.monitor.running && exists other :: other in s0.world.registry.services && Probeable(s0.world.registry.services[other])
    ensures var s0 := SystemRun(s, before);
            var k, services, m := s0.monitor.begun, s0.world.registry.services, SystemRun(SystemNext(s0, SweepStart), since).monitor;
            k !in m.unended ==> (Ping(k, id) in m.answered <==> id in services && Probeable(services[id]))
  {
    var s0 := SystemRun(s, before);
    var s1 := SystemNext(s0, SweepStart);
    SweepsAccounted(s, before);
    SweepStep(s0, SweepStart);
    SweepsAccounted(s1, since);
    SweepProbesExactly(s0.monitor, s0.world.registry.services);
    SentStays(s1, since, s0.monitor.begun, id);
  }

  // -- Change events alternate ------------------------------------------------

  function EventsOf(events: seq<Change>, id: string): seq<bool>
    decreases |events|
  {
    if events == [] then [] else
      var last := events[|events| - 1];
      EventsOf(events[..|events| - 1], id) + (if last.id == id then [last.alive] else [])
  }

  lemma EventsOfSnoc(events: seq<Change>, c: Change, id: string)
    ensures EventsOf(events + [c], id) == EventsOf(events, id) + (if c.id == id then [c.alive] else [])
  {
    assert (events + [c])[..|events|] == events;
  }

  function Flag(e: Entry): bool {
    e.healthy.GetOr(true)
  }

  /** The step leaves the service registered with the flag it has; a re-registration sets the
      flag to healthy and a reload to what Redis held, without an event. */
  predicate KeepsFlag(w: World, l: Label, id: string) {
    var r := w.registry;
    match l
    case Register(_, m, _) =>
      m.serviceId == id && id in r.services && Upsert(r, l).Some? ==> Flag(r.services[id])
    case Deregister(other) => other != id
    case SettleFail(ticket) => ticket in r.calls && r.online ==> r.calls[ticket].id != id
    case LoadApply =>
      r.load.Replied? && id in Readable(r.load.reply) && id in r.services ==>
        Flag(Readable(r.load.reply)[id]) == Flag(r.services[id])
    case _ => true
  }

  predicate KeepingRun(s: System, actions: seq<Action>, id: string)
    decreases |actions|
  {
    actions == [] ||
    ((actions[0].Other? ==> KeepsFlag(s.world, actions[0].step, id)) &&
     KeepingRun(SystemNext(s, actions[0]), actions[1..], id))
  }

  /** The events of `id` alternate, starting with the opposite of `first`, and the flag is what
      the last of them said. */
  ghost predicate Alternating(events: seq<Change>, services: ServiceMap, id: string, first: bool) {
    var es := EventsOf(events, id);
    && id in services
    && (forall k :: 0 <= k < |es| ==> es[k] == if k % 2 == 0 then !first else first)
    && Flag(services[id]) == if es == [] then first else es[|es| - 1]
  }

  ghost predicate Alternates(s: System, id: string, first: bool) {
    Alternating(s.monitor.events, s.world.registry.services, id, first)
  }

  lemma ChangeAlternates(events: seq<Change>, services: ServiceMap, services': ServiceMap, c: Change, id: string, first: bool)
    requires Alternating(events, services, id, first) && id in services'
    requires c.id == id ==> Flag(services[id]) != c.alive && Flag(services'[id]) == c.alive
    requires c.id != id ==> Flag(services'[id]) == Flag(services[id])
    ensures Alternating(events + [c], services', id, first)
  {
    EventsOfSnoc(events, c, id);
  }

  lemma ProbeAlternates(s: System, ping: Ping, alive: bool, now: int, id: string, first: bool)
    requires Alternates(s, id, first) && ping in s.monitor.outstanding
    ensures Alternates(SystemNext(s, Probe(ping, alive, now)), id, first)
  {
    var r := s.world.registry;
    ProbeServices(r, ping.id, alive, now);
    var services' := ProbeRegistry(r, ping.id, alive, now).services;
    if Upsert(r, SetHealth(ping.id, alive, now)).Some? {
      ChangeAlternates(s.monitor.events, r.services, services', Change(ping.id, alive), id, first);
    } else {
      assert Alternating(s.monitor.events, services', id, first);
    }
  }

  /** A probe gives its service the flag it found and leaves the other services alone. */
  lemma ProbeServices(r: Registry, probed: string, alive: bool, now: int)
    ensures var services' := ProbeRegistry(r, probed, alive, now).services;
            && services'.Keys == r.services.Keys
            && (probed in r.services ==> Flag(services'[probed]) == alive)
            && forall id :: id in r.services && id != probed ==> services'[id] == r.services[id]
    ensures Upsert(r, SetHealth(probed, alive, now)).Some? <==> probed in r.services && Flag(r.services[probed]) != alive
  {
  }

  ghost predicate AlternatesThroughout(s: System, actions: seq<Action>, id: string, first: bool)
    decreases |actions|
  {
    Alternates(s, id, first) && (actions == [] || AlternatesThroughout(SystemNext(s, actions[0]), actions[1..], id, first))
  }

  lemma AlternatesStep(s: System, a: Action, id: string, first: bool)
    requires Alternates(s, id, first)
    ensures Alternates(SystemNext(s, a), id, first) <==> (a.Other? ==> KeepsFlag(s.world, a.step, id))
  {
    if a.Probe? && a.ping in s.monitor.outstanding {
      ProbeAlternates(s, a.ping, a.alive, a.now, id, first);
    } else if a.Other? && !a.step.SetHealth? && !a.step.Touch? {
      OtherKeepsFlag(s.world, a.step, id);
    }
  }

  /** The flag of `id`, if it is registered. */
  function FlagOf(services: ServiceMap, id: string): Option<bool> {
    if id in services then Some(Flag(services[id])) else None
  }

  lemma OtherKeepsFlag(w: World, l: Label, id: string)
    requires id in w.registry.services && !l.SetHealth? && !l.Touch?
    ensures FlagOf(Next(w, l).registry.services, id) == FlagOf(w.registry.services, id) <==> KeepsFlag(w, l, id)
  {
    NextServices(w, l);
  }

  /** Over every run, the change events of a service alternate and its flag is what the last of
      them said, in every state, exactly when no step removes it and each re-registration and
      each reload finds the flag it sets. */
  lemma {:induction false} HealthEventsAlternate(s: System, actions: seq<Action>, id: string, first: bool)
    requires Alternates(s, id, first)
    ensures AlternatesThroughout(s, actions, id, first) <==> KeepingRun(s, actions, id)
    ensures KeepingRun(s, actions, id) ==> Alternates(SystemRun(s, actions), id, first)
    decreases |actions|
  {
    if actions != [] {
      AlternatesStep(s, actions[0], id, first);
      if Alternates(SystemNext(s, actions[0]), id, first) {
        HealthEventsAlternate(SystemNext(s, actions[0]), actions[1..], id, first);
      }
    }
  }

  /** Right after its first registration a service counts as healthy, so the first event can
      only be that it became unhealthy. */
  lemma FirstEventIsUnhealthy(s: System, actions: seq<Action>, id: string)
    requires id in s.world.registry.services && s.world.registry.services[id].healthy == None
    requires EventsOf(s.monitor.events, id) == [] && KeepingRun(s, actions, id)
    ensures var es := EventsOf(SystemRun(s, actions).monitor.events, id);
            && (es != [] ==> !es[0])
            && forall k :: 0 < k < |es| ==> es[k] != es[k - 1]
  {
    HealthEventsAlternate(s, actions, id, true);
    NeighboursDiffer(EventsOf(SystemRun(s, actions).monitor.events, id), true);
  }

  lemma NeighboursDiffer(es: seq<bool>, first: bool)
    requires forall k :: 0 <= k < |es| ==> es[k] == if k % 2 == 0 then !first else first
    ensures forall k :: 0 < k < |es| ==> es[k] != es[k - 1]
  {
    forall k | 0 < k < |es| ensures es[k] != es[k - 1] {
      assert k % 2 == 0 <==> (k - 1) % 2 == 1;
    }
  }

  /** A sweep that probes only `id` and finds it down. */
  function FailingSweep(s: System, id: string, t: int): System {
    var k := s.monitor.begun;
    SystemNext(SystemNext(SystemNext(s, SweepStart), Probe(Ping(k, id), false, t)), SweepEnd(k))
  }

  /** Between sweeps. */
  predicate Quiet(m: Monitor) {
    !m.running && m.unended == {} && m.outstanding == {}
  }

  lemma FailingSweepEvents(s: System, id: string, t: int)
    requires Quiet(s.monitor)
    requires Checkable(s.world.registry.services) == {id} && Flag(s.world.registry.services[id])
    ensures var s' := FailingSweep(s, id, t);
            && Quiet(s'.monitor) && s'.monitor.events == s.monitor.events + [Change(id, false)]
            && s'.world == s.world.(registry := Act(s.world.registry, SetHealth(id, false, t)))
  {
    var k, m1 := s.monitor.begun, StartSweep(s.monitor, s.world.registry.services);
    assert id in Checkable(s.world.registry.services);
    assert m1.outstanding == {Ping(k, id)} && m1.unended == {k};
    var m2 := ProbeMonitor(m1, s.world.registry, Ping(k, id), false, t);
    assert m2.outstanding == {} && AllSettled(m2, k);
    assert EndSweep(m2, k).unended == {};
  }

  /** A re-registration between two sweeps silently resets the flag: the same outage is then
      announced twice in a row. */
  lemma ReRegistrationBreaksAlternation(s: System, id: string, k: nat, m: Manifest, t: int)
    requires Quiet(s.monitor) && s.monitor.events == []
    requires Checkable(s.world.registry.services) == {id} && Flag(s.world.registry.services[id])
    requires m.serviceId == id && Truthy(m.healthCheck) && k !in s.world.registry.calls
    requires Refusal(Some(s.world.registry.services[id]), m).None?
    ensures var s' := FailingSweep(SystemNext(FailingSweep(s, id, t), Other(Register(k, m, t))), id, t);
            EventsOf(s'.monitor.events, id) == [false, false]
  {
    FailingSweepEvents(s, id, t);
    var s1 := FailingSweep(s, id, t);
    var s2 := SystemNext(s1, Other(Register(k, m, t)));
    ReRegistered(s, id, k, m, t);
    FailingSweepEvents(s2, id, t);
    TwoEvents(Change(id, false), Change(id, false), id);
    assert FailingSweep(s2, id, t).monitor.events == [] + [Change(id, false)] + [Change(id, false)];
  }

  lemma TwoEvents(a: Change, b: Change, id: string)
    requires a.id == id && b.id == id
    ensures EventsOf([] + [a] + [b], id) == [a.alive, b.alive]
  {
    EventsOfSnoc([], a, id);
    EventsOfSnoc([] + [a], b, id);
  }

  /** The re-registered service is checkable and counts as healthy again. */
  lemma ReRegistered(s: System, id: string, k: nat, m: Manifest, t: int)
    requires Checkable(s.world.registry.services) == {id} && Flag(s.world.registry.services[id])
    requires Quiet(s.monitor)
    requires m.serviceId == id && Truthy(m.healthCheck) && k !in s.world.registry.calls
    requires Refusal(Some(s.world.registry.services[id]), m).None?
    ensures var s2 := SystemNext(FailingSweep(s, id, t), Other(Register(k, m, t)));
            && Quiet(s2.monitor) && s2.monitor.events == s.monitor.events + [Change(id, false)]
            && Checkable(s2.world.registry.services) == {id} && Flag(s2.world.registry.services[id])
  {
    FailingSweepEvents(s, id, t);
    assert id in Checkable(s.world.registry.services);
    var r1 := Act(s.world.registry, SetHealth(id, false, t));
    var e1 := s.world.registry.services[id].(healthy := Some(false), lastHealthCheckAt := Some(t), updatedAt := t);
    assert r1.services == s.world.registry.services[id := e1];
    assert Refusal(Some(e1), m).None?;
    assert Upsert(r1, Register(k, m, t)) == Some((id, NewEntry(Some(e1), m, t)));
    var services' := r1.services[id := NewEntry(Some(e1), m, t)];
    assert forall other :: other != id ==> (other in Checkable(services') <==> other in Checkable(s.world.registry.services));
    assert Checkable(services') == {id};
  }

  // -- The monitor as an object -----------------------------------------------

  class HealthMonitor {
    const registry: RegistryService
    var healthCheckRunning: bool
    var events: seq<Change>
    ghost var history: Monitor

    ghost function View(): Monitor
      reads this
    {
      history.(running := healthCheckRunning, events := events)
    }

    constructor (registry: RegistryService)
      ensures this.registry == registry && View() == INITIAL
    {
      this.registry := registry;
      healthCheckRunning, events, history := false, [], INITIAL;
    }

    /** `handleHealthChecks` up to the probes, which are named `sweep` from then on. */
    method BeginSweep() returns (probed: set<string>, ghost sweep: nat)
      modifies this
      ensures View() == StartSweep(old(View()), registry.services) && sweep == old(View()).begun
      ensures forall id :: id in probed <==>
                && !old(healthCheckRunning) && id in registry.services
                && registry.services[id].manifest.healthCheck.Some? && registry.services[id].manifest.healthCheck.value != ""
                && registry.services[id].status != Retired && registry.services[id].status != Proposed
      ensures healthCheckRunning <==> old(healthCheckRunning) || probed != {}
    {
      sweep := history.begun;
      if healthCheckRunning {
        return {}, sweep;
      }
      healthCheckRunning := true;
      probed := {};
      var todo := registry.services.Keys;
      while todo != {}
        invariant todo <= registry.services.Keys && healthCheckRunning
        invariant history == old(history) && events == old(events)
        invariant probed == Checkable(registry.services) - todo
      {
        var id :| id in todo;
        var e := registry.services[id];
        if Truthy(e.manifest.healthCheck) && e.status != Retired && e.status != Proposed {
          probed := probed + {id};
        }
        todo := todo - {id};
      }
      if probed == {} {
        healthCheckRunning := false;
        return;
      }
      history := StartSweep(old(View()), registry.services);
    }

    /** The code after `axios.get` answered or failed for one service. */
    method FinishProbe(id: string, ghost sweep: nat, alive: bool, now: int)
      requires Ping(sweep, id) in View().outstanding
      modifies this, registry`services, registry`conn
      ensures View() == ProbeMonitor(old(View()), old(registry.View()), Ping(sweep, id), alive, now)
      ensures registry.View() == ProbeRegistry(old(registry.View()), id, alive, now)
      ensures var known := id in old(registry.services);
              events == if known && old(registry.services)[id].healthy.GetOr(true) != alive
                        then old(events) + [Change(id, alive)] else old(events)
      ensures registry.services.Keys == old(registry.services).Keys
      ensures forall s :: s in registry.services ==>
                if s != id then registry.services[s] == old(registry.services)[s]
                else registry.services[s].healthy.GetOr(true) == alive && registry.services[s].lastHealthCheckAt == Some(now)
    {
      history := ProbeMonitor(View(), registry.View(), Ping(sweep, id), alive, now);
      var changed := registry.SetHealthStatus(id, alive, now);
      if changed {
        events := events + [Change(id, alive)];
      } else {
        registry.TouchHealthCheck(id, now);
      }
    }

    /** The `finally` block, once every probe of the sweep has settled. */
    method FinishSweep(ghost sweep: nat)
      requires sweep in View().unended && AllSettled(View(), sweep)
      modifies this
      ensures View() == EndSweep(old(View()), sweep)
    {
      history := EndSweep(View(), sweep);
      healthCheckRunning := false;
    }

    /** The comparison of the drift job, given the reply to its HGETALL. */
    method CheckDrift(raw: Hash)
      returns (missingInMemory: seq<string>, missingInRedis: seq<string>, diverged: seq<string>, drift: bool)
      ensures var redis, memory := Readable(raw), registry.services;
              && Lists(missingInMemory, MissingInMemory(redis, memory))
              && Lists(missingInRedis, MissingInRedis(redis, memory))
              && Lists(diverged, Diverged(redis, memory))
              && drift == HasDrift(redis, memory)
    {
      var redis := registry.ParseEntries(raw);
      var memory := registry.services;
      missingInMemory := Minus(redis.Keys, memory.Keys);
      missingInRedis := Minus(memory.Keys, redis.Keys);
      diverged := [];
      var todo := redis.Keys;
      while todo != {}
        invariant todo <= redis.Keys
        invariant Lists(diverged, Diverged(redis, memory) - todo)
      {
        var id :| id in todo;
        if id in memory && redis[id].updatedAt != memory[id].updatedAt {
          assert Diverged(redis, memory) - (todo - {id}) == (Diverged(redis, memory) - todo) + {id};
          diverged := diverged + [id];
        } else {
          assert Diverged(redis, memory) - (todo - {id}) == Diverged(redis, memory) - todo;
        }
        todo := todo - {id};
      }
      assert Diverged(redis, memory) - {} == Diverged(redis, memory);
      drift := |missingInMemory| > 0 || |missingInRedis| > 0 || |diverged| > 0;
      ListsEmpty(missingInMemory, MissingInMemory(redis, memory));
      ListsEmpty(missingInRedis, MissingInRedis(redis, memory));
      ListsEmpty(diverged, Diverged(redis, memory));
    }
  }

  /** `xs` holds the members of `s`, each once. */
  ghost predicate Lists(xs: seq<string>, s: set<string>) {
    && (forall x :: x in xs <==> x in s)
    && (forall i, j :: 0 <= i < j < |xs| ==> xs[i] != xs[j])
  }

  lemma ListsEmpty(xs: seq<string>, s: set<string>)
    requires Lists(xs, s)
    ensures xs == [] <==> s == {}
  {
    if xs != [] {
      assert xs[0] in s;
    }
  }

  method Minus(a: set<string>, b: set<string>) returns (xs: seq<string>)
    ensures Lists(xs, a - b)
  {
    xs := [];
    var todo := a;
    while todo != {}
      invariant todo <= a && Lists(xs, a - b - todo)
    {
      var x :| x in todo;
      if x !in b {
        xs := xs + [x];
      }
      todo := todo - {x};
    }
  }
}
