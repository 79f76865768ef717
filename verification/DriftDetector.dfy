/**
 Any number of gateway instances sharing one Redis hash, and the drift check that compares
 memory with Redis by key and `updatedAt` only.
 */
module DriftDetector {
  import opened Wrappers
  import opened RegistryModel
  import WriteBehind

  // -- The detector -----------------------------------------------------------

  function MissingInMemory(redis: ServiceMap, memory: ServiceMap): set<string> {
    redis.Keys - memory.Keys
  }

  function MissingInRedis(redis: ServiceMap, memory: ServiceMap): set<string> {
    memory.Keys - redis.Keys
  }

  function Diverged(redis: ServiceMap, memory: ServiceMap): set<string> {
    set id | id in redis && id in memory && redis[id].updatedAt != memory[id].updatedAt
  }

  predicate HasDrift(redis: ServiceMap, memory: ServiceMap) {
    MissingInMemory(redis, memory) != {} || MissingInRedis(redis, memory) != {} || Diverged(redis, memory) != {}
  }

  // -- All copies of all services in a world ----------------------------------

  ghost predicate AllIn(m: ServiceMap, p: (string, Entry) -> bool) {
    forall id :: id in m ==> p(id, m[id])
  }

  ghost predicate AllOnWire(cs: seq<Command>, p: (string, Entry) -> bool) {
    forall i :: 0 <= i < |cs| && cs[i].HSet? ==> p(cs[i].id, cs[i].entry)
  }

  /** `p` holds of every copy in memory, on the connection, in Redis and in an unapplied reply. */
  ghost predicate Everywhere(w: World, p: (string, Entry) -> bool) {
    && AllIn(w.registry.services, p)
    && AllOnWire(w.registry.conn, p)
    && AllIn(Readable(w.redis), p)
    && (w.registry.load.Replied? ==> AllIn(Readable(w.registry.load.reply), p))
  }

  /** `p` does not look at the field that `touchHealthCheck` changes. */
  ghost predicate Untouchable(p: (string, Entry) -> bool) {
    forall id, e, t {:trigger p(id, e.(lastHealthCheckAt := Some(t)))} ::
      p(id, e) ==> p(id, e.(lastHealthCheckAt := Some(t)))
  }

  lemma DeliverCopies(w: World, p: (string, Entry) -> bool)
    requires Everywhere(w, p) && w.registry.conn != []
    ensures Everywhere(Next(w, Deliver), p) && Everywhere(Next(w, Lose), p)
  {
    var cs := w.registry.conn;
    var c := cs[0];
    assert AllOnWire(cs[1..], p) by {
      forall i | 0 <= i < |cs[1..]| ensures cs[1..][i] == cs[i + 1] {}
    }
    assert c.HSet? ==> p(c.id, c.entry) && Readable(Execute(c, w.redis)) == Readable(w.redis)[c.id := c.entry];
    assert c.HDel? ==> Readable(Execute(c, w.redis)) == Readable(w.redis) - {c.id};
  }

  lemma WriteCopies(w: World, l: Label, p: (string, Entry) -> bool)
    requires Everywhere(w, p) && Upsert(w.registry, l).Some?
    requires p(Upsert(w.registry, l).value.0, Upsert(w.registry, l).value.1)
    ensures Everywhere(Next(w, l), p)
  {
    var (id, e) := Upsert(w.registry, l).value;
    assert Next(w, l) == World(Write(w.registry, l, id, e), w.redis);
  }

  /** A step creates no copy but the entry it stamps. */
  lemma StepCopies(w: World, l: Label, p: (string, Entry) -> bool)
    requires Everywhere(w, p) && Untouchable(p)
    requires var u := Upsert(w.registry, l); u.Some? ==> p(u.value.0, u.value.1)
    ensures Everywhere(Next(w, l), p)
  {
    var r := w.registry;
    if (l.Deliver? || l.Lose?) && r.conn != [] {
      DeliverCopies(w, p);
    } else if Upsert(r, l).Some? {
      WriteCopies(w, l, p);
    } else if l.Touch? && l.id in r.services {
      assert p(l.id, r.services[l.id].(lastHealthCheckAt := Some(l.now)));
    }
  }

  // -- Clusters ---------------------------------------------------------------

  /** For every service and every timestamp one of its writes was given so far, what was written. */
  type Stamps = map<(string, int), Entry>

  datatype Cluster = Cluster(nodes: map<nat, Registry>, redis: Hash, stamps: Stamps)

  datatype Step = Step(node: nat, action: Label)

  function WorldOf(c: Cluster, node: nat): World
    requires node in c.nodes
  {
    World(c.nodes[node], c.redis)
  }

  function Stamped(c: Cluster, s: Step): Option<(string, Entry)>
    requires s.node in c.nodes
  {
    Upsert(c.nodes[s.node], s.action)
  }

  function ClusterNext(c: Cluster, s: Step): Cluster {
    if s.node !in c.nodes then c else
      var w := Next(WorldOf(c, s.node), s.action);
      var u := Stamped(c, s);
      Cluster(c.nodes[s.node := w.registry], w.redis,
              if u.Some? then c.stamps[(u.value.0, u.value.1.updatedAt) := Norm(u.value.1)] else c.stamps)
  }

  /** No two writes of one service, on any instance, get the same timestamp; different services
      may be stamped in the same millisecond. */
  predicate Unique(c: Cluster, s: Step) {
    s.node in c.nodes && Stamped(c, s).Some? ==>
      (Stamped(c, s).value.0, Stamped(c, s).value.1.updatedAt) !in c.stamps
  }

  function ClusterRun(c: Cluster, ss: seq<Step>): Cluster
    decreases |ss|
  {
    if ss == [] then c else ClusterRun(ClusterNext(c, ss[0]), ss[1..])
  }

  predicate UniqueRun(c: Cluster, ss: seq<Step>)
    decreases |ss|
  {
    ss == [] || (Unique(c, ss[0]) && UniqueRun(ClusterNext(c, ss[0]), ss[1..]))
  }

  /** Instances started on an empty hash. */
  predicate Fresh(c: Cluster) {
    && c.redis == map[] && c.stamps == map[]
    && forall i :: i in c.nodes ==> c.nodes[i].services == map[] && c.nodes[i].conn == [] && c.nodes[i].load == Idle
  }

  // -- A timestamp determines the entry ---------------------------------------

  predicate Known(stamps: Stamps, id: string, e: Entry) {
    (id, e.updatedAt) in stamps && stamps[(id, e.updatedAt)] == Norm(e)
  }

  function KnownIn(stamps: Stamps): (string, Entry) -> bool {
    (id, e) => Known(stamps, id, e)
  }

  ghost predicate AllKnown(c: Cluster) {
    forall i :: i in c.nodes ==> Everywhere(WorldOf(c, i), KnownIn(c.stamps))
  }

  lemma Weaken(w: World, p: (string, Entry) -> bool, q: (string, Entry) -> bool)
    requires Everywhere(w, p) && forall id, e :: p(id, e) ==> q(id, e)
    ensures Everywhere(w, q)
  {
  }

  lemma ClusterStepKeeps(c: Cluster, s: Step)
    requires AllKnown(c) && Unique(c, s)
    ensures AllKnown(ClusterNext(c, s))
    ensures c.stamps.Keys <= ClusterNext(c, s).stamps.Keys
    ensures forall t :: t in c.stamps ==> ClusterNext(c, s).stamps[t] == c.stamps[t]
  {
    var c' := ClusterNext(c, s);
    var p, p' := KnownIn(c.stamps), KnownIn(c'.stamps);
    if s.node in c.nodes {
      forall i | i in c.nodes
        ensures Everywhere(WorldOf(c, i), p')
      {
        Weaken(WorldOf(c, i), p, p');
      }
      StepCopies(WorldOf(c, s.node), s.action, p');
      assert AllIn(Readable(c'.redis), p');
    }
  }

  lemma {:induction false} ClusterRunKeeps(c: Cluster, ss: seq<Step>)
    requires AllKnown(c) && UniqueRun(c, ss)
    ensures AllKnown(ClusterRun(c, ss))
    ensures ClusterRun(c, ss).nodes.Keys == c.nodes.Keys
    ensures forall t :: t in c.stamps ==> t in ClusterRun(c, ss).stamps && ClusterRun(c, ss).stamps[t] == c.stamps[t]
    decreases |ss|
  {
    if ss != [] {
      ClusterStepKeeps(c, ss[0]);
      ClusterRunKeeps(ClusterNext(c, ss[0]), ss[1..]);
    }
  }

  /** On copies whose timestamps identify them, the detector misses nothing and invents nothing. */
  lemma DetectorExact(stamps: Stamps, redis: ServiceMap, memory: ServiceMap)
    requires AllIn(redis, KnownIn(stamps)) && AllIn(memory, KnownIn(stamps))
    ensures !HasDrift(redis, memory) <==> Same(redis, memory)
  {
    if !HasDrift(redis, memory) {
      forall id | id in redis ensures id in memory && Norm(redis[id]) == Norm(memory[id]) {
        assert id !in MissingInMemory(redis, memory) && id !in Diverged(redis, memory);
        assert KnownIn(stamps)(id, redis[id]) && KnownIn(stamps)(id, memory[id]);
      }
      assert MissingInRedis(redis, memory) == {};
    }
  }

  /** Any two copies of a service, in any memory, in Redis or on any wire, that carry the same
      `updatedAt` agree on every other field except `lastHealthCheckAt`. */
  lemma StampDetermines(c: Cluster, ss: seq<Step>, i: nat, j: nat, id: string, a: Entry, b: Entry)
    requires Fresh(c) && UniqueRun(c, ss) && i in c.nodes && j in c.nodes
    requires i in ClusterRun(c, ss).nodes && CopyAt(WorldOf(ClusterRun(c, ss), i), id, a)
    requires j in ClusterRun(c, ss).nodes && CopyAt(WorldOf(ClusterRun(c, ss), j), id, b)
    requires a.updatedAt == b.updatedAt
    ensures Norm(a) == Norm(b)
  {
    ClusterRunKeeps(c, ss);
    var c' := ClusterRun(c, ss);
    CopyHas(WorldOf(c', i), id, a, KnownIn(c'.stamps));
    CopyHas(WorldOf(c', j), id, b, KnownIn(c'.stamps));
  }

  ghost predicate CopyAt(w: World, id: string, e: Entry) {
    || Lookup(w.registry.services, id) == Some(e)
    || HSet(id, e) in w.registry.conn
    || Lookup(Readable(w.redis), id) == Some(e)
    || (w.registry.load.Replied? && Lookup(Readable(w.registry.load.reply), id) == Some(e))
  }

  lemma CopyHas(w: World, id: string, e: Entry, p: (string, Entry) -> bool)
    requires Everywhere(w, p) && CopyAt(w, id, e)
    ensures p(id, e)
  {
  }

  /** On every run of any number of instances, comparing the reply Redis gave at one moment
      with the memory of an instance at that or any later moment reports no drift exactly
      when the two agree on everything but `lastHealthCheckAt`. */
  lemma DriftCheckExact(c: Cluster, before: seq<Step>, since: seq<Step>, i: nat)
    requires Fresh(c) && UniqueRun(c, before) && UniqueRun(ClusterRun(c, before), since) && i in c.nodes
    ensures var c1 := ClusterRun(c, before);
            var c2 := ClusterRun(c1, since);
            i in c2.nodes &&
            (!HasDrift(Readable(c1.redis), c2.nodes[i].services) <==> Same(Readable(c1.redis), c2.nodes[i].services))
  {
    ClusterRunKeeps(c, before);
    var c1 := ClusterRun(c, before);
    ClusterRunKeeps(c1, since);
    var c2 := ClusterRun(c1, since);
    assert Everywhere(WorldOf(c1, i), KnownIn(c1.stamps)) && Everywhere(WorldOf(c2, i), KnownIn(c2.stamps));
    forall id | id in Readable(c1.redis) ensures KnownIn(c2.stamps)(id, Readable(c1.redis)[id]) {
      assert KnownIn(c1.stamps)(id, Readable(c1.redis)[id]);
    }
    DetectorExact(c2.stamps, Readable(c1.redis), c2.nodes[i].services);
  }

  /** Two instances register one service in the same millisecond, and both writes land. */
  function ConcurrentRegistrations(i: nat, j: nat, k: nat, a: Manifest, b: Manifest, now: int): seq<Step> {
    [Step(i, Register(k, a, now)), Step(j, Register(k, b, now)), Step(i, Deliver), Step(j, Deliver)]
  }

  /** Unique timestamps per service are needed: started on an empty hash, two instances that
      register a service in the same millisecond differently end, with every command executed,
      in a difference the detector does not see. */
  lemma EqualStampsHideDrift(c: Cluster, i: nat, j: nat, k: nat, a: Manifest, b: Manifest, now: int)
    requires Fresh(c) && i in c.nodes && j in c.nodes && i != j
    requires forall n :: n in {i, j} ==> c.nodes[n].online && c.nodes[n].calls == map[]
    requires a.serviceId == b.serviceId && a.baseUrl != b.baseUrl
    ensures var c' := ClusterRun(c, ConcurrentRegistrations(i, j, k, a, b, now));
            && i in c'.nodes && c'.nodes[i].conn == [] && j in c'.nodes && c'.nodes[j].conn == []
            && !HasDrift(Readable(c'.redis), c'.nodes[i].services) && !Same(Readable(c'.redis), c'.nodes[i].services)
  {
    var id, ss := a.serviceId, ConcurrentRegistrations(i, j, k, a, b, now);
    var ea, eb := NewEntry(None, a, now), NewEntry(None, b, now);
    ClusterRunFour(c, ss);
    BothRegister(c, i, j, k, a, b, now);
    BothDelivered(ClusterNext(ClusterNext(c, ss[0]), ss[1]), i, j, id, ea, eb);
    SameStampHides(id, ea, eb);
  }

  lemma BothDelivered(c: Cluster, i: nat, j: nat, id: string, a: Entry, b: Entry)
    requires i in c.nodes && c.nodes[i].conn == [HSet(id, a)] && j in c.nodes && c.nodes[j].conn == [HSet(id, b)]
    requires i != j && c.redis == map[]
    ensures var c' := ClusterNext(ClusterNext(c, Step(i, Deliver)), Step(j, Deliver));
            && i in c'.nodes && c'.nodes[i] == c.nodes[i].(conn := [])
            && j in c'.nodes && c'.nodes[j] == c.nodes[j].(conn := [])
            && c'.redis == map[id := Json(b)]
  {
    DeliverWrite(c, i, id, a);
    DeliverWrite(ClusterNext(c, Step(i, Deliver)), j, id, b);
  }

  lemma SameStampHides(id: string, a: Entry, b: Entry)
    requires a.updatedAt == b.updatedAt && Norm(a) != Norm(b)
    ensures var redis := Readable(map[id := Json(b)]);
            !HasDrift(redis, map[id := a]) && !Same(redis, map[id := a])
  {
    var redis, memory := Readable(map[id := Json(b)]), map[id := a];
    assert redis == map[id := b];
    assert id in redis && redis[id] == b && memory[id] == a;
  }

  lemma DeliverWrite(c: Cluster, i: nat, id: string, e: Entry)
    requires i in c.nodes && c.nodes[i].conn == [HSet(id, e)]
    ensures ClusterNext(c, Step(i, Deliver)) == c.(nodes := c.nodes[i := c.nodes[i].(conn := [])], redis := c.redis[id := Json(e)])
  {
    assert [HSet(id, e)][1..] == [];
  }

  lemma BothRegister(c: Cluster, i: nat, j: nat, k: nat, a: Manifest, b: Manifest, now: int)
    requires Fresh(c) && i in c.nodes && j in c.nodes && i != j
    requires forall n :: n in {i, j} ==> c.nodes[n].online && c.nodes[n].calls == map[]
    ensures var ea, eb := NewEntry(None, a, now), NewEntry(None, b, now);
            var c2 := ClusterNext(ClusterNext(c, Step(i, Register(k, a, now))), Step(j, Register(k, b, now)));
            && c2.nodes.Keys == c.nodes.Keys && c2.redis == map[]
            && c2.nodes[i].services == map[a.serviceId := ea] && c2.nodes[i].conn == [HSet(a.serviceId, ea)]
            && c2.nodes[j].services == map[b.serviceId := eb] && c2.nodes[j].conn == [HSet(b.serviceId, eb)]
  {
    FirstRegistration(c, i, k, a, now);
    FirstRegistration(ClusterNext(c, Step(i, Register(k, a, now))), j, k, b, now);
  }

  lemma FirstRegistration(c: Cluster, i: nat, k: nat, m: Manifest, now: int)
    requires i in c.nodes && c.nodes[i].online && c.nodes[i].services == map[] && c.nodes[i].conn == []
    requires k !in c.nodes[i].calls
    ensures var c' := ClusterNext(c, Step(i, Register(k, m, now)));
            && c'.nodes.Keys == c.nodes.Keys && c'.redis == c.redis
            && (forall n :: n in c.nodes && n != i ==> c'.nodes[n] == c.nodes[n])
            && c'.nodes[i].services == map[m.serviceId := NewEntry(None, m, now)]
            && c'.nodes[i].conn == [HSet(m.serviceId, NewEntry(None, m, now))]
  {
    WriteBehind.WriteSends(WorldOf(c, i), Register(k, m, now), m.serviceId, NewEntry(None, m, now));
  }

  lemma ClusterRunFour(c: Cluster, ss: seq<Step>)
    requires |ss| == 4
    ensures ClusterRun(c, ss) == ClusterNext(ClusterNext(ClusterNext(ClusterNext(c, ss[0]), ss[1]), ss[2]), ss[3])
  {
    var c1 := ClusterNext(c, ss[0]);
    var c2 := ClusterNext(c1, ss[1]);
    var c3 := ClusterNext(c2, ss[2]);
    assert ss[1..] == [ss[1], ss[2], ss[3]] && ss[1..][1..] == [ss[2], ss[3]] && ss[1..][1..][1..] == [ss[3]];
    assert ClusterRun(c1, ss[1..]) == ClusterRun(c2, ss[1..][1..]) == ClusterRun(c3, [ss[3]]);
    assert [ss[3]][1..] == [] && ClusterRun(ClusterNext(c3, ss[3]), []) == ClusterNext(c3, ss[3]);
  }

  // -- Reconciliation ---------------------------------------------------------

  /** One undisturbed run of the cron job: compare, and reload when there is drift. */
  function Reconcile(w: World): World {
    if HasDrift(WriteBehind.Settled(w), w.registry.services) then WriteBehind.Resync(w)
    else World(w.registry.(conn := []), WriteBehind.Replay(w.registry.conn, w.redis))
  }

  /** After a reload nothing is missing in memory, nothing has diverged, and exactly the
      services missing in Redis before are missing still. */
  lemma CheckAfterResync(w: World)
    requires WriteBehind.Resting(w)
    ensures var w' := WriteBehind.Resync(w);
            var redis, memory := WriteBehind.Settled(w'), w'.registry.services;
            && MissingInMemory(redis, memory) == {} && Diverged(redis, memory) == {}
            && MissingInRedis(redis, memory) == MissingInRedis(WriteBehind.Settled(w), w.registry.services)
  {
    WriteBehind.ResyncResult(w);
  }

  /** Repeating the job ends in "no drift" exactly when nothing was missing in Redis, and then
      the first reload already ends it. */
  lemma {:induction false} RepeatedReconciliation(w: World, n: nat)
    requires WriteBehind.Resting(w) && n > 0
    ensures var w' := Reconciles(w, n);
            !HasDrift(WriteBehind.Settled(w'), w'.registry.services) <==>
            MissingInRedis(WriteBehind.Settled(w), w.registry.services) == {}
    decreases n
  {
    var w1 := Reconcile(w);
    CheckAfterResync(w);
    assert WriteBehind.Resting(w1);
    assert MissingInRedis(WriteBehind.Settled(w1), w1.registry.services) ==
           MissingInRedis(WriteBehind.Settled(w), w.registry.services);
    if n == 1 {
      assert Reconciles(w1, 0) == w1;
    } else {
      RepeatedReconciliation(w1, n - 1);
    }
  }

  function Reconciles(w: World, n: nat): World
    decreases n
  {
    if n == 0 then w else Reconciles(Reconcile(w), n - 1)
  }

  /** The job repairs an instance for good exactly when Redis holds every service of its
      memory, and leaves one that agrees untouched; it relies on the detector being exact for the
      copies it compares. */
  lemma ReconcileRepairs(w: World, stamps: Stamps)
    requires WriteBehind.Resting(w) && Everywhere(w, KnownIn(stamps))
    ensures WriteBehind.Coherent(Reconcile(w)) <==> WriteBehind.Orphans(w) == {}
    ensures Reconcile(w).registry.services ==
            if WriteBehind.Coherent(w) then w.registry.services else w.registry.services + WriteBehind.Settled(w)
  {
    ReplayKnown(w.registry.conn, w.redis, KnownIn(stamps));
    DetectorExact(stamps, WriteBehind.Settled(w), w.registry.services);
    WriteBehind.ResyncRepairs(w);
  }

  lemma {:induction false} ReplayKnown(cs: seq<Command>, h: Hash, p: (string, Entry) -> bool)
    requires AllOnWire(cs, p) && AllIn(Readable(h), p)
    ensures AllIn(Readable(WriteBehind.Replay(cs, h)), p)
    decreases |cs|
  {
    if cs != [] {
      var c := cs[0];
      assert c.HSet? ==> p(c.id, c.entry) && Readable(Execute(c, h)) == Readable(h)[c.id := c.entry];
      assert c.HDel? ==> Readable(Execute(c, h)) == Readable(h) - {c.id};
      forall i | 0 <= i < |cs[1..]| ensures cs[1..][i] == cs[i + 1] {}
      ReplayKnown(cs[1..], Execute(c, h), p);
    }
  }
}
