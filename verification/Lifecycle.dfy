/**
 What the registry keeps over whole interleaved runs: retirement is final, the gauge counts
 what is served, and registered versions never go back a major number.
 */
module Lifecycle {
  import opened Wrappers
  import opened RegistryModel
  import opened DriftDetector
  import Semver

  // -- Retired is absorbing ---------------------------------------------------

  /** Still retired, with the description it was retired with. */
  predicate Frozen(services: ServiceMap, id: string, e: Entry) {
    && id in services && services[id].status == Retired
    && services[id].manifest == e.manifest && services[id].registeredAt == e.registeredAt
  }

  /** The step does not remove `id`, roll back a registration of it, or reload another copy. */
  predicate Spares(w: World, l: Label, id: string, e: Entry) {
    var r := w.registry;
    match l
    case Deregister(other) => other != id
    case SettleFail(ticket) => ticket in r.calls && r.online ==> r.calls[ticket].id != id
    case LoadApply =>
      r.load.Replied? && id in Readable(r.load.reply) ==> Frozen(Readable(r.load.reply), id, e)
    case _ => true
  }

  predicate SparingRun(w: World, ls: seq<Label>, id: string, e: Entry)
    decreases |ls|
  {
    ls == [] || (Spares(w, ls[0], id, e) && SparingRun(Next(w, ls[0]), ls[1..], id, e))
  }

  predicate FrozenThroughout(w: World, ls: seq<Label>, id: string, e: Entry)
    decreases |ls|
  {
    Frozen(w.registry.services, id, e) && (ls == [] || FrozenThroughout(Next(w, ls[0]), ls[1..], id, e))
  }

  /** What a write does to a retired service. */
  lemma RetiredWrite(r: Registry, l: Label, id: string, e: Entry)
    requires Frozen(r.services, id, e) && Upsert(r, l).Some?
    ensures Frozen(r.services[Upsert(r, l).value.0 := Upsert(r, l).value.1], id, e)
  {
  }

  lemma RetiredStep(w: World, l: Label, id: string, e: Entry)
    requires Frozen(w.registry.services, id, e)
    ensures Frozen(Next(w, l).registry.services, id, e) <==> Spares(w, l, id, e)
  {
    NextServices(w, l);
    if Upsert(w.registry, l).Some? {
      RetiredWrite(w.registry, l, id, e);
    }
  }

  /** A service is retired in every state of a run exactly when every step spares it. */
  lemma {:induction false} RetiredIsAbsorbing(w: World, ls: seq<Label>, id: string, e: Entry)
    requires Frozen(w.registry.services, id, e)
    ensures FrozenThroughout(w, ls, id, e) <==> SparingRun(w, ls, id, e)
    ensures SparingRun(w, ls, id, e) ==> Frozen(Run(w, ls).registry.services, id, e)
    decreases |ls|
  {
    if ls != [] {
      RetiredStep(w, ls[0], id, e);
      if Spares(w, ls[0], id, e) {
        RetiredIsAbsorbing(Next(w, ls[0]), ls[1..], id, e);
      }
    }
  }

  /** Registering a retired service changes nothing, and neither does reviving it. */
  lemma RetiredRefusesRevival(w: World, l: Label, id: string)
    requires id in w.registry.services && w.registry.services[id].status == Retired
    requires (l.Register? && l.manifest.serviceId == id) || ((l.Deprecate? || l.Activate?) && l.id == id)
    ensures Next(w, l) == w
  {
  }

  /** A registration already waiting for Redis when the service is retired erases the retired
      entry if its write fails; the id can then be registered as if new. */
  lemma FailedWriteErasesRetirement(w: World, ticket: nat, m: Manifest, t: int, again: nat, m': Manifest)
    requires w.registry.online && ticket !in w.registry.calls && again !in w.registry.calls
    requires Refusal(Lookup(w.registry.services, m.serviceId), m).None? && m'.serviceId == m.serviceId
    ensures var w' := Run(w, [Register(ticket, m, t), Retire(m.serviceId, t), SettleFail(ticket)]);
            && m.serviceId !in w'.registry.services
            && Upsert(w'.registry, Register(again, m', t)) == Some((m.serviceId, NewEntry(None, m', t)))
  {
    RunThree(w, Register(ticket, m, t), Retire(m.serviceId, t), SettleFail(ticket));
  }

  // -- Proposed is never reached ----------------------------------------------

  function NotProposed(): (string, Entry) -> bool {
    (id: string, e: Entry) => e.status != Proposed
  }

  ghost predicate NoneProposed(c: Cluster) {
    forall i :: i in c.nodes ==> Everywhere(WorldOf(c, i), NotProposed())
  }

  lemma UpsertNotProposed(r: Registry, l: Label)
    requires AllIn(r.services, NotProposed())
    ensures Upsert(r, l).Some? ==> Upsert(r, l).value.1.status != Proposed
  {
    if l.SetHealth? && l.id in r.services {
      assert NotProposed()(l.id, r.services[l.id]);
    }
  }

  /** No step of any instance, reloads included, makes a service proposed. */
  lemma {:induction false} ProposedIsUnreachable(c: Cluster, ss: seq<Step>)
    requires NoneProposed(c)
    ensures NoneProposed(ClusterRun(c, ss))
    decreases |ss|
  {
    if ss != [] {
      var s, c' := ss[0], ClusterNext(c, ss[0]);
      if s.node in c.nodes {
        UpsertNotProposed(c.nodes[s.node], s.action);
        StepCopies(WorldOf(c, s.node), s.action, NotProposed());
        forall i | i in c'.nodes ensures Everywhere(WorldOf(c', i), NotProposed()) {
          assert Everywhere(WorldOf(c, i), NotProposed());
          assert AllIn(Readable(c'.redis), NotProposed());
        }
      }
      ProposedIsUnreachable(c', ss[1..]);
    }
  }

  // -- The gauge --------------------------------------------------------------

  ghost predicate Counted(r: Registry) {
    r.gauge == |Serving(r.services)| && AllIn(r.services, NotProposed())
  }

  /** Writes that leave the gauge alone leave the set of served services alone. */
  lemma UnsyncedWrite(w: World, l: Label)
    requires Counted(w.registry) && !Syncs(l) && Upsert(w.registry, l).Some?
    ensures Counted(Next(w, l).registry)
  {
    var r := w.registry;
    var (id, e) := Upsert(r, l).value;
    UpsertNotProposed(r, l);
    assert NotProposed()(id, r.services[id]);
    assert Serving(r.services[id := e]) == Serving(r.services);
    assert Next(w, l).registry.services == r.services[id := e] && Next(w, l).registry.gauge == r.gauge;
  }

  lemma SyncedWrite(w: World, l: Label)
    requires Counted(w.registry) && Syncs(l) && Upsert(w.registry, l).Some?
    ensures Counted(Next(w, l).registry)
  {
    UpsertNotProposed(w.registry, l);
  }

  lemma CountedStep(w: World, l: Label)
    requires Counted(w.registry) && !l.LoadApply?
    ensures Counted(Next(w, l).registry)
  {
    var r := w.registry;
    if Upsert(r, l).Some? {
      if Syncs(l) {
        SyncedWrite(w, l);
      } else {
        UnsyncedWrite(w, l);
      }
    } else if l.Touch? && l.id in r.services {
      assert NotProposed()(l.id, r.services[l.id]);
      assert Serving(Next(w, l).registry.services) == Serving(r.services);
    }
  }

  /** From an empty registry the gauge equals the number of active or deprecated services in
      every state reached without a reload, although deprecation never updates it. */
  lemma {:induction false} GaugeConserved(w: World, ls: seq<Label>)
    requires Counted(w.registry) && forall i :: 0 <= i < |ls| ==> !ls[i].LoadApply?
    ensures Counted(Run(w, ls).registry)
    decreases |ls|
  {
    if ls != [] {
      CountedStep(w, ls[0]);
      GaugeConserved(Next(w, ls[0]), ls[1..]);
    }
  }

  lemma GaugeFromEmpty(w: World, ls: seq<Label>)
    requires w.registry.services == map[] && w.registry.gauge == 0
    requires forall i :: 0 <= i < |ls| ==> !ls[i].LoadApply?
    ensures Run(w, ls).registry.gauge == |Serving(Run(w, ls).registry.services)|
  {
    assert Serving(map[]) == {};
    GaugeConserved(w, ls);
  }

  /** The served services a reload adds, and those it takes away. */
  function Started(services: ServiceMap, read: ServiceMap): set<string> {
    Serving(read) - Serving(services)
  }

  function Stopped(services: ServiceMap, read: ServiceMap): set<string> {
    Serving(services) * (read.Keys - Serving(read))
  }

  /** A reload, which never updates the gauge, adds as many served services as it takes away. */
  predicate Balanced(w: World, l: Label) {
    var r := w.registry;
    l.LoadApply? && r.load.Replied? ==>
      |Started(r.services, Readable(r.load.reply))| == |Stopped(r.services, Readable(r.load.reply))|
  }

  predicate BalancedRun(w: World, ls: seq<Label>)
    decreases |ls|
  {
    ls == [] || (Balanced(w, ls[0]) && BalancedRun(Next(w, ls[0]), ls[1..]))
  }

  predicate GaugeRightThroughout(w: World, ls: seq<Label>)
    decreases |ls|
  {
    w.registry.gauge == |Serving(w.registry.services)| &&
    (ls == [] || GaugeRightThroughout(Next(w, ls[0]), ls[1..]))
  }

  lemma ServingMerged(services: ServiceMap, read: ServiceMap)
    ensures Serving(services + read) == (Serving(services) - Stopped(services, read)) + Started(services, read)
  {
    forall id
      ensures id in Serving(services + read) <==>
              id in (Serving(services) - Stopped(services, read)) + Started(services, read)
    {
      assert id in read ==> (services + read)[id] == read[id];
    }
  }

  lemma SizeAfter(all: set<string>, out: set<string>, added: set<string>)
    requires out <= all && added !! all
    ensures |(all - out) + added| == |all| - |out| + |added|
  {
    assert all == (all - out) + out;
  }

  lemma ReloadCounts(services: ServiceMap, read: ServiceMap)
    ensures |Serving(services + read)| == |Serving(services)| - |Stopped(services, read)| + |Started(services, read)|
  {
    ServingMerged(services, read);
    SizeAfter(Serving(services), Stopped(services, read), Started(services, read));
  }

  lemma GaugeStepExactly(w: World, l: Label)
    requires Everywhere(w, NotProposed()) && Counted(w.registry)
    ensures Everywhere(Next(w, l), NotProposed())
    ensures Counted(Next(w, l).registry) <==> Balanced(w, l)
  {
    UpsertNotProposed(w.registry, l);
    StepCopies(w, l, NotProposed());
    if l.LoadApply? && w.registry.load.Replied? {
      ReloadCounts(w.registry.services, Readable(w.registry.load.reply));
    } else if !l.LoadApply? {
      CountedStep(w, l);
    }
  }

  /** Over every run, reloads included, the gauge is right in every state exactly when every
      reload adds as many served services as it takes away. */
  lemma {:induction false} GaugeExactly(w: World, ls: seq<Label>)
    requires Everywhere(w, NotProposed()) && Counted(w.registry)
    ensures GaugeRightThroughout(w, ls) <==> BalancedRun(w, ls)
    decreases |ls|
  {
    if ls != [] {
      GaugeStepExactly(w, ls[0]);
      if Balanced(w, ls[0]) {
        GaugeExactly(Next(w, ls[0]), ls[1..]);
      }
    }
  }

  /** The load at start-up leaves the gauge at zero, so it is right only if nothing is served. */
  lemma GaugeAfterBoot(redis: Hash)
    ensures var w := Run(World(Registry(true, map[], 0, [], map[], Idle), redis), [LoadSend, Deliver, LoadApply]);
            && w.registry.services == Readable(redis)
            && (w.registry.gauge == |Serving(w.registry.services)| <==> Serving(Readable(redis)) == {})
  {
    var w := World(Registry(true, map[], 0, [], map[], Idle), redis);
    RunThree(w, LoadSend, Deliver, LoadApply);
    assert Next(w, LoadSend).registry.conn == [HGetAll];
    assert Next(Next(w, LoadSend), Deliver).registry.conn == [];
    assert map[] + Readable(redis) == Readable(redis);
  }

  // -- Version governance -----------------------------------------------------

  /** What version governance looks at in a registration. */
  datatype Tag = Tag(version: Option<string>, major: nat, registeredAt: int, previousVersion: Option<string>)

  /** A version that is absent or not readable counts as major 0. */
  function Major(version: Option<string>): nat {
    var v := Semver.Parse(version.GetOr(""));
    if v.Some? then v.value.major else 0
  }

  function TagOf(e: Entry): Tag {
    Tag(e.manifest.version, Major(e.manifest.version), e.registeredAt, e.previousVersion)
  }

  /** The accepted registrations of `id` along a run, in order. */
  function Accepted(w: World, ls: seq<Label>, id: string): seq<Tag>
    decreases |ls|
  {
    if ls == [] then [] else
      var u := Upsert(w.registry, ls[0]);
      (if ls[0].Register? && ls[0].manifest.serviceId == id && u.Some? then [TagOf(u.value.1)] else [])
      + Accepted(Next(w, ls[0]), ls[1..], id)
  }

  /** `t` may come right after `last` in the history of one service. */
  predicate Follows(last: Option<Tag>, t: Tag) {
    match last
    case None => t.previousVersion == None
    case Some(l) => t.previousVersion == l.version && t.registeredAt == l.registeredAt && l.major <= t.major
  }

  predicate Chained(last: Option<Tag>, ts: seq<Tag>)
    decreases |ts|
  {
    ts == [] || (Follows(last, ts[0]) && Chained(Some(ts[0]), ts[1..]))
  }

  /** What memory carries from one registration to the next. */
  datatype Line = Line(version: Option<string>, registeredAt: int)

  function Carried(services: ServiceMap, id: string): Option<Line> {
    if id in services then Some(Line(services[id].manifest.version, services[id].registeredAt)) else None
  }

  /** Memory still carries the version and the registration time of the last registration. */
  predicate Carries(w: World, id: string, last: Option<Tag>) {
    Carried(w.registry.services, id) == if last.Some? then Some(Line(last.value.version, last.value.registeredAt)) else None
  }

  /** The rule sees both versions: the current one is absent, or both are given and the new one
      is readable where the current one has a major number above zero. */
  predicate Comparable(current: Option<string>, next: Option<string>) {
    current.Some? ==>
      && Truthy(current) && Truthy(next)
      && (Major(current) > 0 ==> Semver.Parse(next.value).Some?)
  }

  /** The step is a registration the rule can compare, or leaves what memory carries alone. */
  predicate Governed(w: World, l: Label, id: string) {
    var r := w.registry;
    match l
    case Register(_, m, _) =>
      m.serviceId == id && id in r.services && Upsert(r, l).Some? ==>
        Comparable(r.services[id].manifest.version, m.version)
    case Deregister(other) => other == id ==> id !in r.services
    case SettleFail(ticket) => ticket in r.calls && r.online && r.calls[ticket].id == id ==> id !in r.services
    case LoadApply =>
      r.load.Replied? && id in Readable(r.load.reply) ==>
        Carried(r.services, id) == Carried(Readable(r.load.reply), id)
    case _ => true
  }

  predicate GovernedRun(w: World, ls: seq<Label>, id: string)
    decreases |ls|
  {
    ls == [] || (Governed(w, ls[0], id) && GovernedRun(Next(w, ls[0]), ls[1..], id))
  }

  /** The step is an accepted registration of `id`. */
  predicate Registers(w: World, l: Label, id: string) {
    l.Register? && l.manifest.serviceId == id && Upsert(w.registry, l).Some?
  }

  /** The latest accepted registration after a step. */
  function Latest(w: World, l: Label, id: string, last: Option<Tag>): Option<Tag> {
    if Registers(w, l, id) then Some(TagOf(Upsert(w.registry, l).value.1)) else last
  }

  /** Every accepted registration follows the one before it, and in every state memory carries
      what the next one will be compared with. */
  predicate GovernedThroughout(w: World, ls: seq<Label>, id: string, last: Option<Tag>)
    decreases |ls|
  {
    Carries(w, id, last) &&
    (ls == [] ||
     ((Registers(w, ls[0], id) ==> Follows(last, TagOf(Upsert(w.registry, ls[0]).value.1))) &&
      GovernedThroughout(Next(w, ls[0]), ls[1..], id, Latest(w, ls[0], id, last))))
  }

  lemma AcceptedEntry(w: World, l: Label)
    requires l.Register? && Upsert(w.registry, l).Some?
    ensures var id, existing := l.manifest.serviceId, Lookup(w.registry.services, l.manifest.serviceId);
            && Refusal(existing, l.manifest).None?
            && Upsert(w.registry, l).value == (id, NewEntry(existing, l.manifest, l.now))
            && Next(w, l).registry.services == w.registry.services[id := NewEntry(existing, l.manifest, l.now)]
  {
  }

  /** An admitted registration follows the entry it replaces exactly when the rule could compare
      their versions. */
  lemma AdmittedFollowsExactly(e: Entry, m: Manifest, now: int)
    requires Refusal(Some(e), m).None?
    ensures Follows(Some(TagOf(e)), TagOf(NewEntry(Some(e), m, now))) <==> Comparable(e.manifest.version, m.version)
  {
    assert Semver.Parse("").None?;
  }

  lemma RegistrationExactly(w: World, l: Label, id: string, last: Option<Tag>)
    requires Carries(w, id, last) && Registers(w, l, id) && (last.Some? ==> last.value.major == Major(last.value.version))
    ensures var t := TagOf(Upsert(w.registry, l).value.1);
            && Carries(Next(w, l), id, Some(t)) && t.major == Major(t.version)
            && (Follows(last, t) <==> Governed(w, l, id))
  {
    AcceptedEntry(w, l);
    if last.Some? {
      AdmittedFollowsExactly(w.registry.services[id], l.manifest, l.now);
    }
  }

  /** No write but a registration changes what memory carries. */
  lemma WriteCarries(r: Registry, l: Label, id: string)
    requires Upsert(r, l).Some? && !(l.Register? && l.manifest.serviceId == id)
    ensures Carried(r.services[Upsert(r, l).value.0 := Upsert(r, l).value.1], id) == Carried(r.services, id)
  {
  }

  lemma OtherStepExactly(w: World, l: Label, id: string)
    requires !Registers(w, l, id)
    ensures Carried(Next(w, l).registry.services, id) == Carried(w.registry.services, id) <==> Governed(w, l, id)
  {
    NextServices(w, l);
    if Upsert(w.registry, l).Some? {
      WriteCarries(w.registry, l, id);
    }
  }

  /** Over every run, each accepted registration of a service follows its predecessor, which
      memory still carries, exactly when every step is governed. */
  lemma {:induction false} GovernanceExactly(w: World, ls: seq<Label>, id: string, last: Option<Tag>)
    requires Carries(w, id, last) && (last.Some? ==> last.value.major == Major(last.value.version))
    ensures GovernedThroughout(w, ls, id, last) <==> GovernedRun(w, ls, id)
    decreases |ls|
  {
    if ls != [] {
      if Registers(w, ls[0], id) {
        RegistrationExactly(w, ls[0], id, last);
      } else {
        OtherStepExactly(w, ls[0], id);
      }
      if Governed(w, ls[0], id) {
        GovernanceExactly(Next(w, ls[0]), ls[1..], id, Latest(w, ls[0], id, last));
      }
    }
  }

  lemma {:induction false} AcceptedChain(w: World, ls: seq<Label>, id: string, last: Option<Tag>)
    requires GovernedThroughout(w, ls, id, last)
    ensures Chained(last, Accepted(w, ls, id))
    decreases |ls|
  {
    if ls != [] {
      var rest := Accepted(Next(w, ls[0]), ls[1..], id);
      AcceptedChain(Next(w, ls[0]), ls[1..], id, Latest(w, ls[0], id, last));
      if Registers(w, ls[0], id) {
        var t := TagOf(Upsert(w.registry, ls[0]).value.1);
        assert ([t] + rest)[1..] == rest;
      } else {
        assert [] + rest == rest;
      }
    }
  }

  lemma {:induction false} ChainedNeighbours(last: Option<Tag>, ts: seq<Tag>, j: nat)
    requires Chained(last, ts) && 0 < j < |ts|
    ensures Follows(Some(ts[j - 1]), ts[j])
    decreases |ts|
  {
    if j > 1 {
      ChainedNeighbours(Some(ts[0]), ts[1..], j - 1);
    }
  }

  lemma {:induction false} ChainedPair(last: Option<Tag>, ts: seq<Tag>, i: nat, j: nat)
    requires Chained(last, ts) && i < j < |ts|
    ensures ts[i].major <= ts[j].major && ts[i].registeredAt == ts[j].registeredAt
    decreases j
  {
    ChainedNeighbours(last, ts, j);
    if i < j - 1 {
      ChainedPair(last, ts, i, j - 1);
    }
  }

  /** Of any two accepted registrations of a service, the later has no smaller major number and
      the same registration time, and each names its immediate predecessor's version. */
  lemma VersionGovernance(w: World, ls: seq<Label>, id: string)
    requires id !in w.registry.services && GovernedRun(w, ls, id)
    ensures var ts := Accepted(w, ls, id);
            && (ts != [] ==> ts[0].previousVersion == None)
            && (forall j :: 0 < j < |ts| ==> ts[j].previousVersion == ts[j - 1].version)
            && forall i, j :: 0 <= i < j < |ts| ==> ts[i].major <= ts[j].major && ts[i].registeredAt == ts[j].registeredAt
  {
    var ts := Accepted(w, ls, id);
    GovernanceExactly(w, ls, id, None);
    AcceptedChain(w, ls, id, None);
    forall j | 0 < j < |ts| ensures ts[j].previousVersion == ts[j - 1].version {
      ChainedNeighbours(None, ts, j);
    }
    forall i, j | 0 <= i < j < |ts| ensures ts[i].major <= ts[j].major && ts[i].registeredAt == ts[j].registeredAt {
      ChainedPair(None, ts, i, j);
    }
  }

  /** One registration without a version lifts the rule: after it any version is accepted. */
  lemma VersionlessBreaksChain(w: World, m: Manifest, m': Manifest, k: nat, k': nat, t: int)
    requires k !in w.registry.calls && k' !in w.registry.calls && k != k'
    requires m.serviceId == m'.serviceId && !Truthy(m.version)
    requires m.serviceId in w.registry.services ==> w.registry.services[m.serviceId].status != Retired
    ensures Upsert(w.registry, Register(k, m, t)).Some?
    ensures Upsert(Next(w, Register(k, m, t)).registry, Register(k', m', t)).Some?
  {
  }
}
