/**
 One gateway instance and its Redis hash. Memory and Redis agree when replaying the commands
 still on the connection over the hash gives memory. Which steps keep that agreement, exactly;
 what a reload does to an instance that has lost it; and how a failed write loses it.
 */
module WriteBehind {
  import opened Wrappers
  import opened RegistryModel

  /** The hash once the commands on the connection have been executed. */
  function Replay(cs: seq<Command>, h: Hash): Hash
    decreases |cs|
  {
    if cs == [] then h else Replay(cs[1..], Execute(cs[0], h))
  }

  lemma {:induction false} ReplaySnoc(cs: seq<Command>, c: Command, h: Hash)
    ensures Replay(cs + [c], h) == Execute(c, Replay(cs, h))
    decreases |cs|
  {
    if cs == [] {
      assert ([] + [c])[1..] == [];
    } else {
      assert (cs + [c])[1..] == cs[1..] + [c];
      ReplaySnoc(cs[1..], c, Execute(cs[0], h));
    }
  }

  lemma ReplayOne(c: Command, h: Hash)
    ensures Replay([c], h) == Execute(c, h)
  {
    assert [c][1..] == [];
  }

  /** What Redis will hold for readers when the connection has drained. */
  function Settled(w: World): ServiceMap {
    Readable(Replay(w.registry.conn, w.redis))
  }

  ghost predicate Coherent(w: World) {
    Same(Settled(w), w.registry.services)
  }

  // -- Which steps keep the agreement -----------------------------------------

  /** Both hold the service, with the same fields up to `lastHealthCheckAt`, or neither does. */
  predicate SameField(a: ServiceMap, b: ServiceMap, id: string) {
    && (id in a <==> id in b)
    && (id in a && id in b ==> Norm(a[id]) == Norm(b[id]))
  }

  predicate Concerns(c: Command, id: string) {
    !c.HGetAll? && c.id == id
  }

  /** A later command on the connection decides the same field. */
  predicate Overwritten(cs: seq<Command>, id: string) {
    exists i :: 0 <= i < |cs| && Concerns(cs[i], id)
  }

  /** Losing the oldest command makes no difference: it reads, a later one decides the same
      field, or Redis already holds what it would have left. */
  predicate LossHarmless(cs: seq<Command>, h: Hash)
    requires cs != []
  {
    cs[0].HGetAll? || Overwritten(cs[1..], cs[0].id) || SameField(Readable(h), Readable(Execute(cs[0], h)), cs[0].id)
  }

  /** Memory still holds every one of these services, unchanged. */
  predicate Kept(held: ServiceMap, services: ServiceMap) {
    forall id :: id in held ==> id in services && Norm(held[id]) == Norm(services[id])
  }

  predicate Harmless(w: World, l: Label) {
    var r := w.registry;
    match l
    case SettleFail(ticket) => ticket in r.calls ==> r.calls[ticket].id !in r.services
    case Lose => r.conn != [] ==> LossHarmless(r.conn, w.redis)
    case LoadApply => r.load.Replied? ==> Kept(Readable(r.load.reply), r.services)
    case _ => true
  }

  lemma ExecuteReadable(c: Command, h: Hash)
    ensures Readable(Execute(c, h)) ==
            match c
            case HSet(id, e) => Readable(h)[id := e]
            case HDel(id) => Readable(h) - {id}
            case HGetAll => Readable(h)
  {
  }

  /** Two hashes that differ in one field at most, after the same commands. */
  lemma {:induction false} ReplayOneField(cs: seq<Command>, a: Hash, b: Hash, id: string)
    requires forall k :: k != id ==> SameField(Readable(a), Readable(b), k)
    ensures forall k :: k != id ==> SameField(Readable(Replay(cs, a)), Readable(Replay(cs, b)), k)
    ensures SameField(Readable(Replay(cs, a)), Readable(Replay(cs, b)), id) <==>
            Overwritten(cs, id) || SameField(Readable(a), Readable(b), id)
    decreases |cs|
  {
    if cs != [] {
      var c := cs[0];
      var a', b' := Execute(c, a), Execute(c, b);
      ExecuteReadable(c, a);
      ExecuteReadable(c, b);
      forall k | k != id ensures SameField(Readable(a'), Readable(b'), k) {
        assert SameField(Readable(a), Readable(b), k);
      }
      assert SameField(Readable(a'), Readable(b'), id) <==> Concerns(c, id) || SameField(Readable(a), Readable(b), id);
      assert Overwritten(cs, id) <==> Concerns(c, id) || Overwritten(cs[1..], id) by {
        if i :| 0 <= i < |cs| && Concerns(cs[i], id) {
          assert i > 0 ==> cs[1..][i - 1] == cs[i];
        }
        if i :| 0 <= i < |cs[1..]| && Concerns(cs[1..][i], id) {
          assert cs[i + 1] == cs[1..][i];
        }
      }
      ReplayOneField(cs[1..], a', b', id);
    }
  }

  lemma SameByField(a: ServiceMap, b: ServiceMap)
    ensures Same(a, b) <==> forall k :: SameField(a, b, k)
  {
    if forall k :: SameField(a, b, k) {
      forall k | k in a || k in b ensures k in a && k in b {
        assert SameField(a, b, k);
      }
      forall k | k in a ensures Norm(a[k]) == Norm(b[k]) {
        assert SameField(a, b, k);
      }
    }
  }

  lemma LoseExactly(w: World)
    requires Coherent(w)
    ensures Coherent(Next(w, Lose)) <==> Harmless(w, Lose)
  {
    var cs, h, w' := w.registry.conn, w.redis, Next(w, Lose);
    if cs != [] && !cs[0].HGetAll? {
      var c := cs[0];
      var id := c.id;
      assert Settled(w') == Readable(Replay(cs[1..], h));
      forall k | k != id ensures SameField(Readable(h), Readable(Execute(c, h)), k) {}
      ReplayOneField(cs[1..], h, Execute(c, h), id);
      SameByField(Settled(w'), Settled(w));
      SameTransfers(Settled(w'), Settled(w), w.registry.services);
    }
  }

  lemma SameTransfers(a: ServiceMap, b: ServiceMap, c: ServiceMap)
    requires Same(b, c)
    ensures Same(a, b) <==> Same(a, c)
  {
  }

  lemma WriteSends(w: World, l: Label, id: string, e: Entry)
    requires w.registry.online && Upsert(w.registry, l) == Some((id, e))
    ensures var r, w' := w.registry, Next(w, l);
            && w'.redis == w.redis && w'.registry.online && w'.registry.load == r.load
            && w'.registry.services == r.services[id := e] && w'.registry.conn == r.conn + [HSet(id, e)]
  {
    assert Next(w, l) == World(Write(w.registry, l, id, e), w.redis);
  }

  /** Calls that change an entry: they send what they write, or change nothing. */
  predicate Writes(l: Label) {
    l.Register? || l.Deprecate? || l.Retire? || l.Activate? || l.SetHealth?
  }

  lemma WriteKeeps(w: World, l: Label)
    requires w.registry.online && Coherent(w) && Writes(l)
    ensures Coherent(Next(w, l))
  {
    if Upsert(w.registry, l).Some? {
      var (id, e) := Upsert(w.registry, l).value;
      var ahead := Replay(w.registry.conn, w.redis);
      WriteSends(w, l, id, e);
      ReplaySnoc(w.registry.conn, HSet(id, e), w.redis);
      ExecuteReadable(HSet(id, e), ahead);
    }
  }

  lemma RemovalKeeps(w: World, id: string)
    requires w.registry.online && Coherent(w)
    ensures Coherent(Next(w, Deregister(id)))
  {
    if id in w.registry.services {
      ReplaySnoc(w.registry.conn, HDel(id), w.redis);
      ExecuteReadable(HDel(id), Replay(w.registry.conn, w.redis));
    }
  }

  lemma RollbackExactly(w: World, ticket: nat)
    requires w.registry.online && Coherent(w)
    ensures Coherent(Next(w, SettleFail(ticket))) <==> Harmless(w, SettleFail(ticket))
  {
    var w' := Next(w, SettleFail(ticket));
    if ticket in w.registry.calls {
      var id := w.registry.calls[ticket].id;
      assert Settled(w') == Settled(w) && w'.registry.services == w.registry.services - {id};
    }
  }

  lemma LoadExactly(w: World)
    requires Coherent(w)
    ensures Coherent(Next(w, LoadApply)) <==> Harmless(w, LoadApply)
  {
    var w' := Next(w, LoadApply);
    if w.registry.load.Replied? {
      var read := Readable(w.registry.load.reply);
      assert Settled(w') == Settled(w) && w'.registry.services == w.registry.services + read;
      MergeKeeps(Settled(w), w.registry.services, read);
    }
  }

  lemma MergeKeeps(redis: ServiceMap, memory: ServiceMap, read: ServiceMap)
    requires Same(redis, memory)
    ensures Same(redis, memory + read) <==> Kept(read, memory)
  {
    if Same(redis, memory + read) {
      forall id | id in read ensures id in memory && Norm(read[id]) == Norm(memory[id]) {
        assert (memory + read)[id] == read[id];
        assert id in redis;
      }
    }
  }

  lemma LoadSendKeeps(w: World)
    requires Coherent(w)
    ensures Coherent(Next(w, LoadSend))
  {
    ReplaySnoc(w.registry.conn, HGetAll, w.redis);
  }

  /** Steps that send nothing and change no field but `lastHealthCheckAt`. */
  lemma QuietKeeps(w: World, l: Label)
    requires Coherent(w) && (l.SettleOk? || l.Touch? || l.Deliver?)
    ensures Coherent(Next(w, l))
  {
    assert Settled(Next(w, l)) == Settled(w);
  }

  /** From agreement, a step of the gateway, the server or the network keeps it exactly when it
      is harmless. */
  lemma StepExactly(w: World, l: Label)
    requires w.registry.online && Coherent(w)
    ensures Coherent(Next(w, l)) <==> Harmless(w, l)
  {
    match l
    case Lose => LoseExactly(w);
    case SettleFail(ticket) => RollbackExactly(w, ticket);
    case LoadApply => LoadExactly(w);
    case LoadSend => LoadSendKeeps(w);
    case Deregister(id) => RemovalKeeps(w, id);
    case SettleOk(_) => QuietKeeps(w, l);
    case Touch(_, _) => QuietKeeps(w, l);
    case Deliver => QuietKeeps(w, l);
    case _ => WriteKeeps(w, l);
  }

  lemma StaysOnline(w: World, l: Label)
    ensures Next(w, l).registry.online == w.registry.online
  {
  }

  /** Agreement in every state of a run, the first included. */
  ghost predicate CoherentThroughout(w: World, ls: seq<Label>)
    decreases |ls|
  {
    Coherent(w) && (ls == [] || CoherentThroughout(Next(w, ls[0]), ls[1..]))
  }

  predicate HarmlessRun(w: World, ls: seq<Label>)
    decreases |ls|
  {
    ls == [] || (Harmless(w, ls[0]) && HarmlessRun(Next(w, ls[0]), ls[1..]))
  }

  /** Over every run, with any failures and any reloads, memory and Redis agree in every state
      exactly when each step is harmless. */
  lemma {:induction false} AgreementExactly(w: World, ls: seq<Label>)
    requires w.registry.online && Coherent(w)
    ensures CoherentThroughout(w, ls) <==> HarmlessRun(w, ls)
    decreases |ls|
  {
    if ls != [] {
      StepExactly(w, ls[0]);
      StaysOnline(w, ls[0]);
      if Coherent(Next(w, ls[0])) {
        AgreementExactly(Next(w, ls[0]), ls[1..]);
      }
    }
  }

  // -- Reloads on runs without failed writes ----------------------------------

  /** No write is lost, and no registration rolled back. */
  predicate NoFailure(w: World, l: Label) {
    !l.SettleFail? && (l.Lose? && w.registry.conn != [] ==> w.registry.conn[0].HGetAll?)
  }

  predicate NoFailureRun(w: World, ls: seq<Label>)
    decreases |ls|
  {
    ls == [] || (NoFailure(w, ls[0]) && NoFailureRun(Next(w, ls[0]), ls[1..]))
  }

  function Reads(cs: seq<Command>): nat {
    if cs == [] then 0 else (if cs[0].HGetAll? then 1 else 0) + Reads(cs[1..])
  }

  lemma {:induction false} ReadsSnoc(cs: seq<Command>, c: Command)
    ensures Reads(cs + [c]) == Reads(cs) + (if c.HGetAll? then 1 else 0)
  {
    if cs == [] {
      assert ([] + [c])[1..] == [];
    } else {
      assert (cs + [c])[1..] == cs[1..] + [c];
      ReadsSnoc(cs[1..], c);
    }
  }

  /** The reply the first HGETALL on the connection will bring. */
  function ReplyOf(cs: seq<Command>, h: Hash): Option<Hash>
    decreases |cs|
  {
    if cs == [] then None
    else if cs[0].HGetAll? then Some(h)
    else ReplyOf(cs[1..], Execute(cs[0], h))
  }

  lemma {:induction false} ReplyOfSnoc(cs: seq<Command>, c: Command, h: Hash)
    ensures ReplyOf(cs, h).Some? <==> Reads(cs) > 0
    ensures ReplyOf(cs + [c], h) ==
            if Reads(cs) > 0 then ReplyOf(cs, h) else if c.HGetAll? then Some(Replay(cs, h)) else None
    decreases |cs|
  {
    if cs == [] {
      assert ([] + [c])[1..] == [];
    } else {
      assert (cs + [c])[1..] == cs[1..] + [c];
      ReplyOfSnoc(cs[1..], c, Execute(cs[0], h));
    }
  }

  /** The reply under way, if any, is memory as it was when its HGETALL was sent. */
  ghost predicate ReplyIsMemoryAtSend(w: World, sent: ServiceMap) {
    var r := w.registry;
    match r.load
    case Idle => Reads(r.conn) == 0
    case Sent => Reads(r.conn) == 1 && ReplyOf(r.conn, w.redis).Some? && Same(Readable(ReplyOf(r.conn, w.redis).value), sent)
    case Replied(reply) => Reads(r.conn) == 0 && Same(Readable(reply), sent)
  }

  /** Memory at the moment the latest HGETALL was sent. */
  function MemoryAtSend(w: World, l: Label, sent: ServiceMap): ServiceMap {
    if l.LoadSend? && w.registry.online && w.registry.load == Idle then w.registry.services else sent
  }

  lemma SendTracked(w: World, c: Command, sent: ServiceMap)
    requires ReplyIsMemoryAtSend(w, sent) && !c.HGetAll?
    ensures Reads(w.registry.conn + [c]) == Reads(w.registry.conn)
    ensures w.registry.load == Sent ==> ReplyOf(w.registry.conn + [c], w.redis) == ReplyOf(w.registry.conn, w.redis)
  {
    ReadsSnoc(w.registry.conn, c);
    ReplyOfSnoc(w.registry.conn, c, w.redis);
  }

  lemma TrackedQueue(w: World, l: Label, sent: ServiceMap)
    requires ReplyIsMemoryAtSend(w, sent) && NoFailure(w, l) && (l.Deliver? || l.Lose?)
    ensures ReplyIsMemoryAtSend(Next(w, l), sent)
  {
  }

  lemma TrackedWrite(w: World, l: Label, sent: ServiceMap)
    requires w.registry.online && ReplyIsMemoryAtSend(w, sent) && Writes(l)
    ensures ReplyIsMemoryAtSend(Next(w, l), sent)
  {
    if Upsert(w.registry, l).Some? {
      var (id, e) := Upsert(w.registry, l).value;
      WriteSends(w, l, id, e);
      SendTracked(w, HSet(id, e), sent);
    }
  }

  lemma TrackedRemoval(w: World, id: string, sent: ServiceMap)
    requires w.registry.online && ReplyIsMemoryAtSend(w, sent)
    ensures ReplyIsMemoryAtSend(Next(w, Deregister(id)), sent)
  {
    SendTracked(w, HDel(id), sent);
  }

  lemma TrackedLoadSend(w: World, sent: ServiceMap)
    requires w.registry.online && Coherent(w) && ReplyIsMemoryAtSend(w, sent)
    ensures ReplyIsMemoryAtSend(Next(w, LoadSend), MemoryAtSend(w, LoadSend, sent))
  {
    ReadsSnoc(w.registry.conn, HGetAll);
    ReplyOfSnoc(w.registry.conn, HGetAll, w.redis);
  }

  lemma TrackedQuiet(w: World, l: Label, sent: ServiceMap)
    requires ReplyIsMemoryAtSend(w, sent) && (l.SettleOk? || l.Touch? || l.LoadApply?)
    ensures ReplyIsMemoryAtSend(Next(w, l), sent)
  {
    assert Next(w, l).registry.conn == w.registry.conn && Next(w, l).redis == w.redis;
  }

  lemma TrackedStep(w: World, l: Label, sent: ServiceMap)
    requires w.registry.online && Coherent(w) && ReplyIsMemoryAtSend(w, sent) && NoFailure(w, l)
    ensures ReplyIsMemoryAtSend(Next(w, l), MemoryAtSend(w, l, sent))
  {
    match l
    case LoadSend => TrackedLoadSend(w, sent);
    case Deliver => TrackedQueue(w, l, sent);
    case Lose => TrackedQueue(w, l, sent);
    case Deregister(id) => TrackedRemoval(w, id, sent);
    case SettleOk(_) => TrackedQuiet(w, l, sent);
    case Touch(_, _) => TrackedQuiet(w, l, sent);
    case LoadApply => TrackedQuiet(w, l, sent);
    case _ => TrackedWrite(w, l, sent);
  }

  /** Whenever a reply is applied, memory still holds unchanged every service it held when the
      HGETALL was sent. */
  predicate KeptRun(w: World, ls: seq<Label>, sent: ServiceMap)
    decreases |ls|
  {
    ls == [] ||
    ((ls[0].LoadApply? && w.registry.load.Replied? ==> Kept(sent, w.registry.services)) &&
     KeptRun(Next(w, ls[0]), ls[1..], MemoryAtSend(w, ls[0], sent)))
  }

  /** Without failed writes a step loses the agreement only by applying a reply after a service
      held at its sending was changed or removed. */
  lemma TrackedStepExactly(w: World, l: Label, sent: ServiceMap)
    requires w.registry.online && Coherent(w) && ReplyIsMemoryAtSend(w, sent) && NoFailure(w, l)
    ensures Coherent(Next(w, l)) <==> (l.LoadApply? && w.registry.load.Replied? ==> Kept(sent, w.registry.services))
  {
    StepExactly(w, l);
  }

  /** On every run without a lost or timed-out write, whatever happens during reloads, memory
      and Redis agree in every state exactly when no reply is applied over a service that was
      changed or removed since its HGETALL was sent. */
  lemma {:induction false} WriteBehindExactly(w: World, ls: seq<Label>, sent: ServiceMap)
    requires w.registry.online && Coherent(w) && ReplyIsMemoryAtSend(w, sent) && NoFailureRun(w, ls)
    ensures CoherentThroughout(w, ls) <==> KeptRun(w, ls, sent)
    decreases |ls|
  {
    if ls != [] {
      StaysOnline(w, ls[0]);
      TrackedStep(w, ls[0], sent);
      TrackedStepExactly(w, ls[0], sent);
      if Coherent(Next(w, ls[0])) {
        WriteBehindExactly(Next(w, ls[0]), ls[1..], MemoryAtSend(w, ls[0], sent));
      }
    }
  }

  /** An instance that has just loaded the hash at start-up. */
  predicate Booted(w: World) {
    var r := w.registry;
    r.online && r.services == Readable(w.redis) && r.conn == [] && r.calls == map[] && r.load == Idle
  }

  lemma WriteBehindFromBoot(w: World, ls: seq<Label>)
    requires Booted(w) && NoFailureRun(w, ls)
    ensures CoherentThroughout(w, ls) <==> KeptRun(w, ls, map[])
    ensures KeptRun(w, ls, map[]) ==> Coherent(Run(w, ls))
  {
    WriteBehindExactly(w, ls, map[]);
    if CoherentThroughout(w, ls) {
      CoherentAtEnd(w, ls);
    }
  }

  lemma {:induction false} CoherentAtEnd(w: World, ls: seq<Label>)
    requires CoherentThroughout(w, ls)
    ensures Coherent(Run(w, ls))
    decreases |ls|
  {
    if ls != [] {
      CoherentAtEnd(Next(w, ls[0]), ls[1..]);
    }
  }

  /** The step sends a write, so it has changed the in-memory map. */
  predicate Mutates(r: Registry, l: Label) {
    Upsert(r, l).Some? || (l.Deregister? && l.id in r.services)
  }

  /** No mutation while a reload is under way. */
  predicate UndisturbedRun(w: World, ls: seq<Label>)
    decreases |ls|
  {
    ls == [] ||
    ((w.registry.load != Idle ==> !Mutates(w.registry, ls[0])) && UndisturbedRun(Next(w, ls[0]), ls[1..]))
  }

  /** In particular every reply is applied over the services its HGETALL saw when no mutation
      falls into a reload. */
  lemma {:induction false} UndisturbedIsKept(w: World, ls: seq<Label>, sent: ServiceMap)
    requires w.registry.online && Coherent(w) && ReplyIsMemoryAtSend(w, sent)
    requires UndisturbedRun(w, ls) && NoFailureRun(w, ls)
    requires w.registry.load != Idle ==> Same(sent, w.registry.services)
    ensures KeptRun(w, ls, sent)
    decreases |ls|
  {
    if ls != [] {
      UndisturbedStep(w, ls[0], sent);
      TrackedStep(w, ls[0], sent);
      TrackedStepExactly(w, ls[0], sent);
      StaysOnline(w, ls[0]);
      UndisturbedIsKept(Next(w, ls[0]), ls[1..], MemoryAtSend(w, ls[0], sent));
    }
  }

  lemma NotMutated(w: World, l: Label)
    requires !Mutates(w.registry, l) && NoFailure(w, l) && (l.LoadApply? ==> !w.registry.load.Replied?)
    ensures Same(Next(w, l).registry.services, w.registry.services)
  {
    NextServices(w, l);
    if l.Deregister? {
      assert w.registry.services - {l.id} == w.registry.services;
    }
  }

  lemma OnlySendStarts(w: World, l: Label)
    requires w.registry.load == Idle && Reads(w.registry.conn) == 0 && !l.LoadSend?
    ensures Next(w, l).registry.load == Idle
  {
  }

  lemma UndisturbedStep(w: World, l: Label, sent: ServiceMap)
    requires w.registry.online && ReplyIsMemoryAtSend(w, sent) && NoFailure(w, l)
    requires w.registry.load != Idle ==> !Mutates(w.registry, l) && Same(sent, w.registry.services)
    ensures var w' := Next(w, l);
            w'.registry.load != Idle ==> Same(MemoryAtSend(w, l, sent), w'.registry.services)
  {
    if w.registry.load == Idle {
      if !l.LoadSend? {
        OnlySendStarts(w, l);
      }
    } else if !(l.LoadApply? && w.registry.load.Replied?) {
      NotMutated(w, l);
    }
  }

  // -- An undisturbed reload --------------------------------------------------

  /** Between reloads: nothing on the connection will produce a reply. */
  predicate Resting(w: World) {
    w.registry.online && w.registry.load == Idle && Reads(w.registry.conn) == 0
  }

  function Delivers(n: nat): seq<Label> {
    seq(n, i => Deliver)
  }

  /** The server executing the first n commands, none of them a read. */
  lemma {:induction false} DeliverMany(w: World, cs: seq<Command>, rest: seq<Command>)
    requires w.registry.conn == cs + rest && Reads(cs) == 0
    ensures Run(w, Delivers(|cs|)) == World(w.registry.(conn := rest), Replay(cs, w.redis))
    decreases |cs|
  {
    if cs == [] {
      assert [] + rest == rest;
    } else {
      assert Delivers(|cs|)[1..] == Delivers(|cs| - 1);
      assert (cs + rest)[1..] == cs[1..] + rest;
      DeliverMany(Next(w, Deliver), cs[1..], rest);
    }
  }

  /** Send the HGETALL, let the connection drain, apply the reply. */
  function ResyncLabels(w: World): seq<Label> {
    [LoadSend] + (Delivers(|w.registry.conn|) + [Deliver, LoadApply])
  }

  /** What an undisturbed reload amounts to. */
  function Resync(w: World): World {
    World(w.registry.(services := w.registry.services + Settled(w), conn := []),
          Replay(w.registry.conn, w.redis))
  }

  lemma ResyncRun(w: World)
    requires Resting(w)
    ensures Run(w, ResyncLabels(w)) == Resync(w)
  {
    var cs := w.registry.conn;
    var w1 := Next(w, LoadSend);
    assert ResyncLabels(w)[1..] == Delivers(|cs|) + [Deliver, LoadApply];
    DeliverMany(w1, cs, [HGetAll]);
    var w2 := World(w1.registry.(conn := [HGetAll]), Replay(cs, w.redis));
    RunAppend(w1, Delivers(|cs|), [Deliver, LoadApply]);
    RunTwo(w2, Deliver, LoadApply);
  }

  /** Services memory holds and Redis will not: a reload never removes them. */
  function Orphans(w: World): set<string> {
    w.registry.services.Keys - Settled(w).Keys
  }

  /** Memory becomes the old memory overridden by the entries of Redis that parse. */
  lemma ResyncResult(w: World)
    requires Resting(w)
    ensures Resting(Resync(w)) && Resync(w).registry.conn == []
    ensures forall id :: id in Settled(w) ==>
              id in Resync(w).registry.services && Resync(w).registry.services[id] == Settled(w)[id]
    ensures forall id :: id in Orphans(w) ==>
              id in Resync(w).registry.services && Resync(w).registry.services[id] == w.registry.services[id]
    ensures Resync(w).registry.services.Keys == Settled(w).Keys + Orphans(w)
    ensures Settled(Resync(w)) == Settled(w) && Orphans(Resync(w)) == Orphans(w)
    ensures Resync(Resync(w)) == Resync(w)
  {
  }

  /** An undisturbed reload makes memory and Redis agree exactly when Redis holds, readably,
      every service memory holds. */
  lemma ResyncRepairs(w: World)
    requires Resting(w)
    ensures Coherent(Resync(w)) <==> Orphans(w) == {}
  {
    ResyncResult(w);
  }

  lemma {:induction false} ResyncsNeverRepairOrphans(w: World, n: nat)
    requires Resting(w) && Orphans(w) != {}
    ensures Resting(Resyncs(w, n)) && Orphans(Resyncs(w, n)) == Orphans(w) && !Coherent(Resyncs(w, n))
    decreases n
  {
    if n > 0 {
      ResyncResult(w);
      ResyncsNeverRepairOrphans(Resync(w), n - 1);
    }
  }

  function Resyncs(w: World, n: nat): World
    decreases n
  {
    if n == 0 then w else Resyncs(Resync(w), n - 1)
  }

  // -- Mutations inside a reload ----------------------------------------------

  /** A reload with `l` between the arrival of its reply and the moment the reply is applied. */
  function DisturbedReload(w: World, l: Label): World {
    Run(w, [LoadSend] + (Delivers(|w.registry.conn|) + [Deliver, l, LoadApply]))
  }

  /** The reload has its reply and has not applied it. */
  function Midway(w: World): World {
    var redis := Replay(w.registry.conn, w.redis);
    World(w.registry.(conn := [], load := Replied(redis)), redis)
  }

  lemma DisturbedReloadSteps(w: World, l: Label)
    requires Resting(w)
    ensures DisturbedReload(w, l) == Next(Next(Midway(w), l), LoadApply)
  {
    var cs := w.registry.conn;
    var w1 := Next(w, LoadSend);
    var ls := [LoadSend] + (Delivers(|cs|) + [Deliver, l, LoadApply]);
    assert ls[0] == LoadSend && ls[1..] == Delivers(|cs|) + [Deliver, l, LoadApply];
    DeliverMany(w1, cs, [HGetAll]);
    RunAppend(w1, Delivers(|cs|), [Deliver, l, LoadApply]);
    var w2 := World(w1.registry.(conn := [HGetAll]), Replay(cs, w.redis));
    RunThree(w2, Deliver, l, LoadApply);
    assert [HGetAll][1..] == [];
  }

  /** A step of the gateway's own that is neither a rollback nor part of a reload. */
  predicate Ordinary(l: Label) {
    !l.Deliver? && !l.Lose? && !l.LoadApply? && !l.LoadSend? && !l.SettleFail?
  }

  lemma OrdinaryKeepsLoad(w: World, l: Label)
    requires Ordinary(l)
    ensures Next(w, l).registry.load == w.registry.load && Next(w, l).redis == w.redis
  {
  }

  /** An ordinary step keeps the agreement; applying the reply then does exactly when memory
      still holds what the reply holds. */
  lemma DisturbedReloadKept(w: World, l: Label)
    requires Coherent(w) && Resting(w) && Ordinary(l)
    ensures Coherent(DisturbedReload(w, l)) <==> Kept(Settled(w), Next(Midway(w), l).registry.services)
  {
    var mid := Midway(w);
    assert Settled(mid) == Settled(w);
    StepExactly(mid, l);
    StaysOnline(mid, l);
    OrdinaryKeepsLoad(mid, l);
    StepExactly(Next(mid, l), LoadApply);
    DisturbedReloadSteps(w, l);
  }

  /** The reload breaks the agreement exactly when the step inside it removed a service or gave
      a service memory already held another entry: registering a new one does no harm. */
  lemma DisturbedReloadExactly(w: World, l: Label)
    requires Coherent(w) && Resting(w) && Ordinary(l)
    ensures var services, u := w.registry.services, Upsert(w.registry, l);
            Coherent(DisturbedReload(w, l)) <==>
              && !(l.Deregister? && l.id in services)
              && (u.Some? && u.value.0 in services ==> Norm(u.value.1) == Norm(services[u.value.0]))
  {
    DisturbedReloadKept(w, l);
    KeptMidway(w, l);
  }

  lemma KeptAfterWrite(held: ServiceMap, services: ServiceMap, id: string, e: Entry)
    requires Same(held, services)
    ensures Kept(held, services[id := e]) <==> (id in services ==> Norm(e) == Norm(services[id]))
  {
    assert id in services ==> id in held && services[id := e][id] == e;
  }

  lemma KeptAfterRemoval(held: ServiceMap, services: ServiceMap, id: string)
    requires Same(held, services)
    ensures Kept(held, services - {id}) <==> id !in services
  {
    assert id in services ==> id in held;
  }

  lemma QuietServices(w: World, l: Label)
    requires Ordinary(l) && !Writes(l) && !l.Deregister?
    ensures Same(Next(w, l).registry.services, w.registry.services)
  {
  }

  lemma WrittenServices(w: World, l: Label)
    requires Writes(l)
    ensures var u, services := Upsert(w.registry, l), w.registry.services;
            Next(w, l).registry.services == if u.Some? then services[u.value.0 := u.value.1] else services
  {
    NextServices(w, l);
  }

  lemma KeptMidway(w: World, l: Label)
    requires Coherent(w) && Ordinary(l)
    ensures var services, u := w.registry.services, Upsert(w.registry, l);
            Kept(Settled(w), Next(Midway(w), l).registry.services) <==>
              && !(l.Deregister? && l.id in services)
              && (u.Some? && u.value.0 in services ==> Norm(u.value.1) == Norm(services[u.value.0]))
  {
    var mid, services := Midway(w), w.registry.services;
    if Writes(l) {
      WrittenServices(mid, l);
      MidwayUpsert(w, l);
      if Upsert(w.registry, l).Some? {
        KeptAfterWrite(Settled(w), services, Upsert(w.registry, l).value.0, Upsert(w.registry, l).value.1);
      }
    } else if l.Deregister? {
      NextServices(mid, l);
      KeptAfterRemoval(Settled(w), services, l.id);
    } else {
      QuietServices(mid, l);
    }
  }

  lemma MidwayUpsert(w: World, l: Label)
    ensures Upsert(Midway(w).registry, l) == Upsert(w.registry, l)
  {
  }

  /** What a reload makes of the service its reply holds. */
  lemma ReplyWins(w: World, l: Label, id: string)
    requires Resting(w) && Ordinary(l) && id in Settled(w)
    ensures var w' := DisturbedReload(w, l);
            && id in w'.registry.services && w'.registry.services[id] == Settled(w)[id]
            && w'.redis == Midway(w).redis && w'.registry.conn == Next(Midway(w), l).registry.conn
            && w'.registry.load == Idle && w'.registry.online
  {
    DisturbedReloadSteps(w, l);
    OrdinaryKeepsLoad(Midway(w), l);
    StaysOnline(Midway(w), l);
  }

  /** A service retired inside the gap comes back to life in memory, though Redis will record
      the retirement; the next undisturbed reload puts that right. */
  lemma RetireInsideReload(w: World, id: string, now: int)
    requires Coherent(w) && Resting(w)
    requires id in w.registry.services && w.registry.services[id].status != Retired
    ensures var w' := DisturbedReload(w, Retire(id, now));
            && id in w'.registry.services && w'.registry.services[id].status == w.registry.services[id].status
            && id in Settled(w') && Settled(w')[id].status == Retired
            && !Coherent(w')
            && Resting(w') && Coherent(Resync(w'))
  {
    var e := w.registry.services[id].(status := Retired, updatedAt := now);
    var w', redis := DisturbedReload(w, Retire(id, now)), Midway(w).redis;
    assert Norm(Settled(w)[id]) == Norm(w.registry.services[id]);
    ReplyWins(w, Retire(id, now), id);
    WriteSends(Midway(w), Retire(id, now), id, e);
    assert w'.registry.conn == [HSet(id, e)];
    ReplayOne(HSet(id, e), redis);
    ExecuteReadable(HSet(id, e), redis);
    assert Settled(w') == Settled(w)[id := e];
    DisturbedReloadExactly(w, Retire(id, now));
    DisturbedServices(w, Retire(id, now));
    assert Orphans(w') == {};
    ResyncRepairs(w');
  }

  lemma DisturbedServices(w: World, l: Label)
    requires Resting(w) && Ordinary(l)
    ensures DisturbedReload(w, l).registry.services == Next(Midway(w), l).registry.services + Settled(w)
  {
    DisturbedReloadSteps(w, l);
    OrdinaryKeepsLoad(Midway(w), l);
  }

  /** A service deregistered inside the gap is resurrected in memory, and no number of
      undisturbed reloads removes it. */
  lemma DeregisterInsideReload(w: World, id: string, n: nat)
    requires Coherent(w) && Resting(w) && id in w.registry.services
    ensures var w' := DisturbedReload(w, Deregister(id));
            && id in w'.registry.services && id !in Settled(w')
            && Resting(w') && id in Resyncs(w', n).registry.services && !Coherent(Resyncs(w', n))
  {
    var w', redis := DisturbedReload(w, Deregister(id)), Midway(w).redis;
    assert id in Settled(w);
    ReplyWins(w, Deregister(id), id);
    assert w'.registry.conn == [HDel(id)];
    ReplayOne(HDel(id), redis);
    ExecuteReadable(HDel(id), redis);
    assert id in Orphans(w');
    ResyncsNeverRepairOrphans(w', n);
  }

  // -- Registrations that fail ------------------------------------------------

  /** A registration that is rolled back, its write lost or executed after all. */
  function FailedRegistration(w: World, ticket: nat, m: Manifest, now: int, lost: bool): World {
    var before := Delivers(|w.registry.conn|);
    if lost then Run(w, [Register(ticket, m, now)] + (before + [Lose, SettleFail(ticket)]))
    else Run(w, [Register(ticket, m, now)] + (before + [SettleFail(ticket), Deliver]))
  }

  /** The registration has been sent and everything before it executed. */
  lemma RegistrationSent(w: World, ticket: nat, m: Manifest, now: int, rest: seq<Label>)
    requires Resting(w) && ticket !in w.registry.calls
    requires Refusal(Lookup(w.registry.services, m.serviceId), m).None?
    ensures var id, existing := m.serviceId, Lookup(w.registry.services, m.serviceId);
            var e := NewEntry(existing, m, now);
            var w1 := Next(w, Register(ticket, m, now));
            var w2 := World(w1.registry.(conn := [HSet(id, e)]), Replay(w.registry.conn, w.redis));
            && w1.registry.services == w.registry.services[id := e] && w1.registry.online
            && w1.registry.calls == w.registry.calls[ticket := Call(id, existing.Some?)]
            && Run(w, [Register(ticket, m, now)] + (Delivers(|w.registry.conn|) + rest)) == Run(w2, rest)
  {
    var id, cs := m.serviceId, w.registry.conn;
    var e := NewEntry(Lookup(w.registry.services, id), m, now);
    var w1 := Next(w, Register(ticket, m, now));
    WriteSends(w, Register(ticket, m, now), id, e);
    var ls := [Register(ticket, m, now)] + (Delivers(|cs|) + rest);
    assert ls[0] == Register(ticket, m, now) && ls[1..] == Delivers(|cs|) + rest;
    DeliverMany(w1, cs, [HSet(id, e)]);
    RunAppend(w1, Delivers(|cs|), rest);
  }

  lemma FailedRegistrationOutcome(w: World, ticket: nat, m: Manifest, now: int, lost: bool)
    requires Resting(w) && ticket !in w.registry.calls
    requires Refusal(Lookup(w.registry.services, m.serviceId), m).None?
    ensures var e := NewEntry(Lookup(w.registry.services, m.serviceId), m, now);
            var w' := FailedRegistration(w, ticket, m, now, lost);
            && w'.registry.services == w.registry.services - {m.serviceId}
            && Settled(w') == if lost then Settled(w) else Settled(w)[m.serviceId := e]
  {
    var id, redis := m.serviceId, Replay(w.registry.conn, w.redis);
    var e := NewEntry(Lookup(w.registry.services, id), m, now);
    var w2 := World(Next(w, Register(ticket, m, now)).registry.(conn := [HSet(id, e)]), redis);
    RegistrationSent(w, ticket, m, now, if lost then [Lose, SettleFail(ticket)] else [SettleFail(ticket), Deliver]);
    RollBackEnds(w2, ticket, lost);
    ExecuteReadable(HSet(id, e), redis);
    assert w.registry.services[id := e] - {id} == w.registry.services - {id};
  }

  lemma RollBackEnds(w: World, ticket: nat, lost: bool)
    requires w.registry.online && |w.registry.conn| == 1 && w.registry.conn[0].HSet? && ticket in w.registry.calls
    ensures var r := w.registry;
            var w' := Run(w, if lost then [Lose, SettleFail(ticket)] else [SettleFail(ticket), Deliver]);
            && w'.registry.services == r.services - {r.calls[ticket].id} && w'.registry.conn == []
            && w'.redis == if lost then w.redis else Execute(r.conn[0], w.redis)
  {
    if lost {
      RunTwo(w, Lose, SettleFail(ticket));
    } else {
      RunTwo(w, SettleFail(ticket), Deliver);
    }
  }

  /** After a failed registration memory and Redis agree exactly when its write was lost and the
      service was not registered before: a first registration that times out stays in Redis, and
      a re-registration is deleted from memory whatever became of its write. */
  lemma FailedRegistrationExactly(w: World, ticket: nat, m: Manifest, now: int, lost: bool)
    requires Coherent(w) && Resting(w) && ticket !in w.registry.calls
    requires Refusal(Lookup(w.registry.services, m.serviceId), m).None?
    ensures Coherent(FailedRegistration(w, ticket, m, now, lost)) <==> lost && m.serviceId !in w.registry.services
  {
    FailedRegistrationOutcome(w, ticket, m, now, lost);
    var w' := FailedRegistration(w, ticket, m, now, lost);
    if lost && m.serviceId !in w.registry.services {
      assert w.registry.services - {m.serviceId} == w.registry.services;
    } else {
      assert m.serviceId in Settled(w') && m.serviceId !in w'.registry.services;
    }
  }

  // -- A delete that fails ----------------------------------------------------

  /** A deregistration whose delete, after everything sent before it, is executed or fails. */
  function Deregistration(w: World, id: string, lost: bool): World {
    Run(w, [Deregister(id)] + (Delivers(|w.registry.conn|) + [if lost then Lose else Deliver]))
  }

  lemma DeregistrationOutcome(w: World, id: string, lost: bool)
    requires Resting(w) && id in w.registry.services
    ensures var w', redis := Deregistration(w, id, lost), Replay(w.registry.conn, w.redis);
            && w'.registry.services == w.registry.services - {id} && w'.registry.conn == [] && Resting(w')
            && w'.redis == if lost then redis else redis - {id}
  {
    var cs, end := w.registry.conn, if lost then Lose else Deliver;
    var w1 := Next(w, Deregister(id));
    var ls := [Deregister(id)] + (Delivers(|cs|) + [end]);
    assert ls[0] == Deregister(id) && ls[1..] == Delivers(|cs|) + [end];
    DeliverMany(w1, cs, [HDel(id)]);
    RunAppend(w1, Delivers(|cs|), [end]);
    var w2 := World(w1.registry.(conn := [HDel(id)]), Replay(cs, w.redis));
    assert Run(w2, [end]) == Run(Next(w2, end), []);
    assert [HDel(id)][1..] == [];
  }

  /** The error of a failed delete is swallowed: memory and Redis agree afterwards exactly when
      the delete was executed, and otherwise the next reload brings the service back. */
  lemma LostDeleteComesBack(w: World, id: string, lost: bool)
    requires Coherent(w) && Resting(w) && id in w.registry.services
    ensures var w' := Deregistration(w, id, lost);
            && id !in w'.registry.services && (Coherent(w') <==> !lost)
            && Resting(w') && (id in Resync(w').registry.services <==> lost)
  {
    var w' := Deregistration(w, id, lost);
    DeregistrationOutcome(w, id, lost);
    ExecuteReadable(HDel(id), Replay(w.registry.conn, w.redis));
    assert id in Settled(w);
    assert Settled(w') == if lost then Settled(w) else Settled(w) - {id};
  }
}
