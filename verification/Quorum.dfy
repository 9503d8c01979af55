/** k-of-N writes and fan-out reads meet: a write accepted by k seeds is seen by any read
    that hears from more than N - k of them. */
module Quorum {
  import opened Model
  import opened Order
  import opened Sets
  import opened StoreSpec
  import opened StoreInvariants
  import opened Lease
  import opened StoreMerge
  import F = FanOut

  /** Two subsets of N seeds that are together larger than N share a seed. */
  lemma Overlap(n: nat, a: set<int>, b: set<int>) returns (i: int)
    requires forall x | x in a + b :: 0 <= x < n
    requires |a| + |b| > n
    ensures i in a && i in b
  {
    SubsetSize(a + b, UpTo(n));
    assert |a + b| == |a| + |b| - |a * b|;
    i :| i in a * b;
  }

  function UpTo(n: nat): (s: set<int>)
    ensures |s| == n
    ensures forall x :: x in s <==> 0 <= x < n
  {
    if n == 0 then {} else UpTo(n - 1) + {n - 1}
  }

  /** Every service listed under `id` is one the query asks for. */
  predicate AllDescribed(services: seq<ServiceInstance>, id: string, q: Query) {
    forall i | 0 <= i < |services| && EffectiveId(services[i]) == id :: Describes(q, services[i])
  }

  /** `s` stores `k`, as the query describes it, at this generation or a newer one. */
  predicate Stores(s: Registry, k: Key, generation: nat, q: Query) {
    k in s.svcs && s.svcs[k].def.generation >= generation && Describes(q, s.svcs[k].def)
  }

  predicate At(s: Registry, k: Key, generation: nat) {
    k in s.svcs && s.svcs[k].def.generation == generation
  }

  // ---- the write ----

  lemma RegisterOneStores(
    o: Options, s: Registry, n: string, svc: ServiceInstance, generation: nat, now: int, k: Key, q: Query, least: nat)
    requires n in s.metas
    requires Key(n, EffectiveId(svc)) == k ==> Describes(q, svc) && generation >= least
    ensures var r := RegisterOne(o, s, n, Incoming(o, svc, generation, now), now);
            && (Key(n, EffectiveId(svc)) == k && r.1 == Ok ==> Stores(r.0, k, least, q) && At(r.0, k, generation))
            && (Stores(s, k, least, q) ==> Stores(r.0, k, least, q))
            && (At(s, k, generation) ==> At(r.0, k, generation))
  {
    var r := RegisterOne(o, s, n, Incoming(o, svc, generation, now), now).0;
    if Key(n, EffectiveId(svc)) == k && k in r.svcs
       && r.svcs[k].def.name == svc.name && r.svcs[k].def.tags == svc.tags {
      DescribesAlike(q, r.svcs[k].def, svc);
    }
  }

  lemma {:induction false} RegisterAllStores(
    o: Options, s: Registry, n: string, services: seq<ServiceInstance>, generation: nat, now: int, k: Key, q: Query,
    least: nat)
    requires n in s.metas && (n == k.node ==> AllDescribed(services, k.service, q))
    requires n == k.node && Registers(services, k.service) ==> generation >= least
    ensures var r := RegisterAll(o, s, n, services, generation, now);
            && (Stores(s, k, least, q) ==> Stores(r.0, k, least, q))
            && (At(s, k, generation) ==> At(r.0, k, generation))
            && (n == k.node && Registers(services, k.service) && r.1 == Ok ==>
                  Stores(r.0, k, least, q) && At(r.0, k, generation))
    decreases |services|
  {
    if services != [] {
      RegistersTail(services, k.service);
      assert forall i | 0 <= i < |services[1..]| :: services[1..][i] == services[i + 1];
      RegisterOneStores(o, s, n, services[0], generation, now, k, q, least);
      var r := RegisterOne(o, s, n, Incoming(o, services[0], generation, now), now);
      if r.1 == Ok {
        RegisterAllStores(o, r.0, n, services[1..], generation, now, k, q, least);
      }
    }
  }

  /** An accepted registration stores each of its services at its generation, as every query
      describes it that describes the service sent. */
  lemma AcceptedIsStored(o: Options, s: Registry, reg: Registration, now: int, k: Key, q: Query)
    requires reg.node.id == k.node && Registers(reg.services, k.service) && AllDescribed(reg.services, k.service, q)
    requires Register(o, s, reg, now).1 == Ok
    ensures var t := Register(o, s, reg, now).0; At(t, k, reg.generation) && Describes(q, t.svcs[k].def)
  {
    RegisterAllStores(o, SetMeta(s, reg.node), reg.node.id, reg.services, reg.generation, now, k, q, reg.generation);
  }

  // ---- between the write and the read ----

  /** Every copy of `k` in the merge loses to `def`, or is one the query describes. */
  predicate MergesWell(def: ServiceInstance, es: seq<ServiceEntry>, k: Key, q: Query) {
    forall i | 0 <= i < |es| && es[i].Id() == k :: !es[i].service.WinsLWW(def) || Describes(q, es[i].service)
  }

  /** The operation does not take the instance away: it is not deregistered, swept, registered
      at an older generation, or replaced by a definition the query does not describe. */
  predicate Maintains(o: Options, s: Registry, op: Op, now: int, k: Key, generation: nat, q: Query)
    requires k in s.svcs
  {
    match op
    case OpRegister(reg) =>
      reg.node.id == k.node && Registers(reg.services, k.service) ==>
        AllDescribed(reg.services, k.service, q) && reg.generation >= generation
    case OpMerge(es) => MergesWell(s.svcs[k].def, es, k, q)
    case OpDeregister(n) => n != k.node
    case OpDeregisterService(j) => j != k
    case OpGc => !PastGrace(o, s.svcs[k], now)
    case _ => true
  }

  lemma {:induction false} MergeMaintains(
    o: Options, s: Registry, es: seq<ServiceEntry>, now: int, k: Key, generation: nat, q: Query, def: ServiceInstance)
    requires Stores(s, k, generation, q) && MergesWell(def, es, k, q) && !def.WinsLWW(s.svcs[k].def)
    ensures Stores(Merge(o, s, es, now).0, k, generation, q)
    decreases |es|
  {
    if es != [] {
      assert forall i | 0 <= i < |es[1..]| :: es[1..][i] == es[i + 1];
      var m := MergeOne(o, s, es[0], now).0;
      if es[0].Id() == k && Named(k) && Clamped(o, es[0].service).WinsLWW(s.svcs[k].def) {
        DescribesAlike(q, es[0].service, Clamped(o, es[0].service));
      }
      assert Stores(m, k, generation, q) && !def.WinsLWW(m.svcs[k].def);
      MergeMaintains(o, m, es[1..], now, k, generation, q, def);
    }
  }

  lemma KeptDescribed(a: Service, b: Service, q: Query)
    requires b.def == a.def.(lastSeen := b.def.lastSeen)
    ensures b.def.generation == a.def.generation && (Describes(q, b.def) <==> Describes(q, a.def))
  {
    DescribesAlike(q, a.def, b.def);
  }

  lemma MaintainStep(o: Options, s: Registry, op: Op, now: int, t: Registry, k: Key, generation: nat, q: Query)
    requires WellKeyed(s) && Step(o, s, op, now, t) && Stores(s, k, generation, q)
    requires Maintains(o, s, op, now, k, generation, q)
    ensures Stores(t, k, generation, q)
  {
    match op
    case OpRegister(reg) => RegisterMaintains(o, s, reg, now, k, generation, q);
    case OpMerge(es) => MergeMaintains(o, s, es, now, k, generation, q, s.svcs[k].def);
    case OpRenew(n, ids) =>
      RenewHarmless(s, n, ids, now, k);
      KeptDescribed(s.svcs[k], t.svcs[k], q);
    case OpFail(_) => KeptDescribed(s.svcs[k], t.svcs[k], q);
    case OpSetMaintenance(_, _) => KeptDescribed(s.svcs[k], t.svcs[k], q);
    case _ =>
      AvoidingStep(o, s, op, now, t, k);
      KeptDescribed(s.svcs[k], t.svcs[k], q);
  }

  lemma RegisterMaintains(o: Options, s: Registry, reg: Registration, now: int, k: Key, generation: nat, q: Query)
    requires Stores(s, k, generation, q) && Maintains(o, s, OpRegister(reg), now, k, generation, q)
    ensures Stores(Register(o, s, reg, now).0, k, generation, q)
  {
    if ValidRegistration(reg) {
      var s1 := SetMeta(s, reg.node);
      if reg.node.id == k.node && !Registers(reg.services, k.service) {
        assert AllDescribed(reg.services, k.service, q);
      }
      RegisterAllStores(o, s1, reg.node.id, reg.services, reg.generation, now, k, q, generation);
    }
  }

  /** A run that never takes `k` away. */
  ghost predicate Maintained(o: Options, s: Registry, ops: seq<Timed>, t: Registry, k: Key, generation: nat, q: Query)
    decreases |ops|
  {
    if ops == [] then t == s
    else
      && k in s.svcs && Maintains(o, s, ops[0].op, ops[0].now, k, generation, q)
      && exists m :: Step(o, s, ops[0].op, ops[0].now, m) && Maintained(o, m, ops[1..], t, k, generation, q)
  }

  lemma {:induction false} StillStored(
    o: Options, s: Registry, ops: seq<Timed>, t: Registry, k: Key, generation: nat, q: Query)
    requires o.defaultTTL > 0 && Good(o, s) && Stores(s, k, generation, q) && Maintained(o, s, ops, t, k, generation, q)
    ensures Good(o, t) && Stores(t, k, generation, q)
    decreases |ops|
  {
    if ops != [] {
      var m :| Step(o, s, ops[0].op, ops[0].now, m) && Maintained(o, m, ops[1..], t, k, generation, q);
      MaintainStep(o, s, ops[0].op, ops[0].now, m, k, generation, q);
      StepGood(o, s, ops[0].op, ops[0].now, m);
      StillStored(o, m, ops[1..], t, k, generation, q);
    }
  }

  // ---- the read ----

  /** One seed's history around the write and the read. */
  datatype Seed = Seed(
    opts: Options,
    before: Registry,
    wroteAt: int,
    between: seq<Timed>,
    state: Registry,
    readAt: int)

  /** The seed accepted the registration, nothing took the instance away since, and when the
      read arrives its lease still holds and its node is in the datacenter asked for, if any. */
  ghost predicate Holds(d: Seed, reg: Registration, k: Key, q: Query) {
    && d.opts.defaultTTL > 0 && Good(d.opts, d.before)
    && Register(d.opts, d.before, reg, d.wroteAt).1 == Ok
    && Maintained(d.opts, Register(d.opts, d.before, reg, d.wroteAt).0, d.between, d.state, k, reg.generation, q)
    && (k in d.state.svcs ==> !PastGrace(d.opts, d.state.svcs[k], d.readAt))
    && (q.datacenter != "" && k.node in d.state.metas ==> d.state.metas[k.node].datacenter == q.datacenter)
  }

  lemma HolderStores(d: Seed, reg: Registration, k: Key, q: Query)
    requires Holds(d, reg, k, q)
    requires reg.node.id == k.node && Registers(reg.services, k.service) && AllDescribed(reg.services, k.service, q)
    ensures WellKeyed(d.state) && Stores(d.state, k, reg.generation, q)
  {
    var w := Register(d.opts, d.before, reg, d.wroteAt).0;
    RegisterGood(d.opts, d.before, reg, d.wroteAt);
    AcceptedIsStored(d.opts, d.before, reg, d.wroteAt, k, q);
    StillStored(d.opts, w, d.between, d.state, k, reg.generation, q);
  }

  lemma HolderAnswers(d: Seed, reg: Registration, k: Key, q: Query)
    requires Holds(d, reg, k, q)
    requires reg.node.id == k.node && Registers(reg.services, k.service) && AllDescribed(reg.services, k.service, q)
    ensures WellKeyed(d.state)
    ensures exists e | e in Lookup(d.opts, d.state, q, d.readAt).entries ::
              e.Id() == k && e.service.generation >= reg.generation
  {
    HolderStores(d, reg, k, q);
    HolderSees(d, k, q);
    var vis := Visible(d.opts, d.state, q, d.readAt);
    assert vis[k] in Listing(vis);
  }

  lemma HolderSees(d: Seed, k: Key, q: Query)
    requires WellKeyed(d.state) && k in d.state.svcs && Describes(q, d.state.svcs[k].def)
    requires !PastGrace(d.opts, d.state.svcs[k], d.readAt)
    requires q.datacenter != "" ==> d.state.metas[k.node].datacenter == q.datacenter
    ensures var vis := Visible(d.opts, d.state, q, d.readAt);
            k in vis && vis[k].Id() == k && vis[k].service == d.state.svcs[k].def
  {
  }

  /** Quorum intersection: if at least `quorum` of the seeds accepted the registration and a
      later read - by name, by tags, by datacenter or of everything - is answered by more than
      N - quorum of them, the merged result contains the instance at the written generation or
      a newer one. In between every seed may run heartbeats, failures, syncs and later
      registrations of the instance. Agents ask seeds for all instances, whatever their health. */
  lemma QuorumIntersection(
    seeds: seq<Seed>, reg: Registration, k: Key, q: Query, quorum: int,
    wrote: seq<bool>, read: set<int>, replies: seq<F.Reply>)
    requires reg.node.id == k.node && Registers(reg.services, k.service) && AllDescribed(reg.services, k.service, q)
    requires |wrote| == |seeds| && |F.Accepted(wrote)| >= quorum && !q.onlyHealthy
    requires forall i | i in F.Accepted(wrote) :: Holds(seeds[i], reg, k, q)
    requires forall i | i in read :: 0 <= i < |seeds|
    requires |read| > |seeds| - quorum
    requires forall i | i in read :: WellKeyed(seeds[i].state)
               && F.Answered(Lookup(seeds[i].opts, seeds[i].state, q, seeds[i].readAt)) in replies
    ensures F.Outcome(replies).Some?
    ensures exists e | e in F.Outcome(replies).value.entries ::
              e.Id() == k && e.service.generation >= reg.generation
  {
    var i := Overlap(|seeds|, F.Accepted(wrote), read);
    HolderAnswers(seeds[i], reg, k, q);
    var answer := Lookup(seeds[i].opts, seeds[i].state, q, seeds[i].readAt);
    var e :| e in answer.entries && e.Id() == k && e.service.generation >= reg.generation;
    F.AnsweredSurvives(replies, F.Answered(answer), e);
  }
}
