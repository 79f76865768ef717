/**
 Deregistration across instances sharing one Redis hash: every instance keeps its own memory,
 so a service removed on one can be written back by another.
 */
module Deregistrations {
  import opened Wrappers
  import opened RegistryModel
  import opened DriftDetector
  import WriteBehind

  /** The instance can still write the service without registering it: a write is on the
      connection, or it is online and holds a copy in memory or in a reply not yet applied. */
  ghost predicate CanWrite(r: Registry, id: string) {
    || (exists k :: 0 <= k < |r.conn| && r.conn[k].HSet? && r.conn[k].id == id)
    || (r.online && (id in r.services || (r.load.Replied? && id in Readable(r.load.reply))))
  }

  ghost predicate Clear(w: World, id: string) {
    id !in w.redis && !CanWrite(w.registry, id)
  }

  predicate Registers(l: Label, id: string) {
    l.Register? && l.manifest.serviceId == id
  }

  // -- Nothing brings the service back ----------------------------------------

  lemma ClearQueue(w: World, l: Label, id: string)
    requires Clear(w, id) && (l.Deliver? || l.Lose?) && w.registry.conn != []
    ensures Clear(Next(w, l), id)
  {
    var cs := w.registry.conn;
    assert !(cs[0].HSet? && cs[0].id == id);
    forall k | 0 <= k < |cs[1..]| ensures !(cs[1..][k].HSet? && cs[1..][k].id == id) {
      assert cs[1..][k] == cs[k + 1];
    }
    assert id !in Readable(w.redis);
  }

  lemma ClearWrite(w: World, l: Label, id: string)
    requires Clear(w, id) && !Registers(l, id) && Upsert(w.registry, l).Some?
    ensures Clear(Next(w, l), id)
  {
    var r, other, e := w.registry, Upsert(w.registry, l).value.0, Upsert(w.registry, l).value.1;
    assert r.online ==> other != id;
    assert Next(w, l) == World(Write(r, l, other, e), w.redis);
  }

  lemma ClearStep(w: World, l: Label, id: string)
    requires Clear(w, id) && !Registers(l, id)
    ensures Clear(Next(w, l), id)
  {
    if (l.Deliver? || l.Lose?) && w.registry.conn != [] {
      ClearQueue(w, l, id);
    } else if Upsert(w.registry, l).Some? {
      ClearWrite(w, l, id);
    }
  }

  // -- A copy left anywhere brings the service back ---------------------------

  predicate NoneRegister(ls: seq<Label>, id: string) {
    forall i :: 0 <= i < |ls| ==> !Registers(ls[i], id)
  }

  lemma {:induction false} DeliverUpTo(w: World, k: nat, id: string)
    requires k < |w.registry.conn| && w.registry.conn[k].HSet? && w.registry.conn[k].id == id
    ensures id in Run(w, WriteBehind.Delivers(k + 1)).redis
    decreases k
  {
    var w1 := Next(w, Deliver);
    assert WriteBehind.Delivers(k + 1)[1..] == WriteBehind.Delivers(k);
    if k > 0 {
      DeliverUpTo(w1, k - 1, id);
    } else {
      assert WriteBehind.Delivers(1)[1..] == [];
    }
  }

  /** Any change of the entry will do; retiring the service is always possible. */
  lemma RetireWritesBack(w: World, id: string) returns (ls: seq<Label>)
    requires w.registry.online && id in w.registry.services
    ensures NoneRegister(ls, id) && id in Run(w, ls).redis
  {
    var e := w.registry.services[id].(status := Retired, updatedAt := 0);
    var w1, k := Next(w, Retire(id, 0)), |w.registry.conn|;
    WriteBehind.WriteSends(w, Retire(id, 0), id, e);
    DeliverUpTo(w1, k, id);
    ls := [Retire(id, 0)] + WriteBehind.Delivers(k + 1);
    assert ls[1..] == WriteBehind.Delivers(k + 1);
  }

  lemma CopyComesBack(w: World, id: string) returns (ls: seq<Label>)
    requires !Clear(w, id)
    ensures NoneRegister(ls, id) && id in Run(w, ls).redis
  {
    if id in w.redis {
      ls := [];
    } else if k :| 0 <= k < |w.registry.conn| && w.registry.conn[k].HSet? && w.registry.conn[k].id == id {
      DeliverUpTo(w, k, id);
      ls := WriteBehind.Delivers(k + 1);
    } else if id in w.registry.services {
      ls := RetireWritesBack(w, id);
    } else {
      var rest := RetireWritesBack(Next(w, LoadApply), id);
      ls := [LoadApply] + rest;
      assert ls[1..] == rest;
    }
  }

  // -- Clusters ---------------------------------------------------------------

  /** The steps taken by one instance. */
  function On(node: nat, ls: seq<Label>): (ss: seq<Step>)
    ensures |ss| == |ls| && forall i :: 0 <= i < |ls| ==> ss[i] == Step(node, ls[i])
  {
    seq(|ls|, i requires 0 <= i < |ls| => Step(node, ls[i]))
  }

  lemma {:induction false} OnRun(c: Cluster, node: nat, ls: seq<Label>)
    requires node in c.nodes
    ensures var c' := ClusterRun(c, On(node, ls));
            node in c'.nodes && WorldOf(c', node) == Run(WorldOf(c, node), ls)
    decreases |ls|
  {
    if ls != [] {
      assert On(node, ls)[1..] == On(node, ls[1..]);
      OnRun(ClusterNext(c, Step(node, ls[0])), node, ls[1..]);
    }
  }

  predicate WithoutRegistration(ss: seq<Step>, id: string) {
    forall i :: 0 <= i < |ss| ==> !Registers(ss[i].action, id)
  }

  /** On no continuation without a registration of the service does Redis hold it again. */
  ghost predicate Final(c: Cluster, id: string) {
    forall ss :: WithoutRegistration(ss, id) ==> id !in ClusterRun(c, ss).redis
  }

  /** Neither Redis nor any instance can still write the service. */
  ghost predicate Gone(c: Cluster, id: string) {
    id !in c.redis && forall n :: n in c.nodes ==> !CanWrite(c.nodes[n], id)
  }

  lemma {:induction false} GoneForGood(c: Cluster, ss: seq<Step>, id: string)
    requires Gone(c, id) && WithoutRegistration(ss, id)
    ensures Gone(ClusterRun(c, ss), id)
    decreases |ss|
  {
    if ss != [] {
      var s := ss[0];
      if s.node in c.nodes {
        ClearStep(WorldOf(c, s.node), s.action, id);
      }
      GoneForGood(ClusterNext(c, s), ss[1..], id);
    }
  }

  /** A removal is final exactly when no copy is left that some online instance can write, in
      Redis, on a connection, in memory or in a reply. */
  lemma FinalExactly(c: Cluster, id: string)
    ensures Final(c, id) <==> Gone(c, id)
  {
    if Gone(c, id) {
      forall ss | WithoutRegistration(ss, id) ensures id !in ClusterRun(c, ss).redis {
        GoneForGood(c, ss, id);
      }
    } else if id in c.redis {
      assert WithoutRegistration([], id) && ClusterRun(c, []) == c;
    } else {
      var n :| n in c.nodes && !Clear(WorldOf(c, n), id);
      var ls := CopyComesBack(WorldOf(c, n), id);
      OnRun(c, n, ls);
      assert WithoutRegistration(On(n, ls), id);
    }
  }

  /** Nothing is on any connection and no instance is reloading. */
  ghost predicate Quiet(c: Cluster) {
    forall n :: n in c.nodes ==> c.nodes[n].conn == [] && c.nodes[n].load == Idle
  }

  /** From rest, a deregistration that has been executed is final exactly when no other online
      instance still holds the service. */
  lemma DeregistrationFinalExactly(c: Cluster, i: nat, id: string)
    requires Quiet(c) && i in c.nodes && c.nodes[i].online && id in c.nodes[i].services
    ensures var c' := ClusterRun(c, [Step(i, Deregister(id)), Step(i, Deliver)]);
            && id !in c'.redis
            && (Final(c', id) <==> forall j :: j in c.nodes && j != i && c.nodes[j].online ==> id !in c.nodes[j].services)
  {
    var ls := [Deregister(id), Deliver];
    var c' := ClusterRun(c, On(i, ls));
    assert On(i, ls) == [Step(i, Deregister(id)), Step(i, Deliver)];
    OnRun(c, i, ls);
    OthersUntouched(c, i, ls);
    RemovedHere(WorldOf(c, i), id);
    forall j | j in c.nodes && j != i ensures CanWrite(c'.nodes[j], id) <==> c.nodes[j].online && id in c.nodes[j].services {
      assert c'.nodes[j] == c.nodes[j];
    }
    FinalExactly(c', id);
  }

  lemma RemovedHere(w: World, id: string)
    requires w.registry.conn == [] && w.registry.load == Idle && w.registry.online && id in w.registry.services
    ensures Clear(Run(w, [Deregister(id), Deliver]), id)
  {
    RunTwo(w, Deregister(id), Deliver);
    assert Next(w, Deregister(id)).registry.conn == [HDel(id)];
  }

  lemma {:induction false} OthersUntouched(c: Cluster, node: nat, ls: seq<Label>)
    requires node in c.nodes
    ensures var c' := ClusterRun(c, On(node, ls));
            c'.nodes.Keys == c.nodes.Keys && forall j :: j in c.nodes && j != node ==> c'.nodes[j] == c.nodes[j]
    decreases |ls|
  {
    if ls != [] {
      assert On(node, ls)[1..] == On(node, ls[1..]);
      OthersUntouched(ClusterNext(c, Step(node, ls[0])), node, ls[1..]);
    }
  }
}
