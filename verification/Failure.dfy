/** Forced failures over whole runs: an instance whose check failed stays stored, and listed
    as critical, until it is renewed or deregistered. */
module Failure {
  import opened Model
  import opened Order
  import opened StoreSpec
  import opened StoreInvariants
  import opened Lease

  /** The operation neither deregisters the key nor reaches it with a heartbeat. */
  predicate Spares(s: Registry, op: Op, k: Key) {
    match op
    case OpRenew(n, ids) => n != k.node || n !in s.metas || (ids != [] && !ReachesId(s, n, ids, k.service))
    case OpDeregister(n) => n != k.node
    case OpDeregisterService(j) => j != k
    case _ => true
  }

  predicate Failed(s: Registry, k: Key) {
    k in s.svcs && s.svcs[k].failed
  }

  lemma {:induction false} RegisterAllFailed(
    o: Options, s: Registry, n: string, services: seq<ServiceInstance>, generation: nat, now: int, k: Key)
    requires n in s.metas && Failed(s, k)
    ensures Failed(RegisterAll(o, s, n, services, generation, now).0, k)
    decreases |services|
  {
    if services != [] {
      var r := RegisterOne(o, s, n, Incoming(o, services[0], generation, now), now);
      assert Failed(r.0, k);
      if r.1 == Ok {
        RegisterAllFailed(o, r.0, n, services[1..], generation, now, k);
      }
    }
  }

  lemma {:induction false} MergeFailed(o: Options, s: Registry, es: seq<ServiceEntry>, now: int, k: Key)
    requires Failed(s, k)
    ensures Failed(Merge(o, s, es, now).0, k)
    decreases |es|
  {
    if es != [] {
      assert Failed(MergeOne(o, s, es[0], now).0, k);
      MergeFailed(o, MergeOne(o, s, es[0], now).0, es[1..], now, k);
    }
  }

  /** Registrations and merges may redefine the instance, and GC may sweep at any time: the
      failure stays. */
  lemma SparingStep(o: Options, s: Registry, op: Op, now: int, t: Registry, k: Key)
    requires WellKeyed(s) && Step(o, s, op, now, t) && Failed(s, k) && Spares(s, op, k)
    ensures Failed(t, k)
  {
    match op
    case OpRegister(reg) =>
      if ValidRegistration(reg) {
        RegisterAllFailed(o, SetMeta(s, reg.node), reg.node.id, reg.services, reg.generation, now, k);
      }
    case OpMerge(es) => MergeFailed(o, s, es, now, k);
    case OpRenew(n, ids) => RenewHarmless(s, n, ids, now, k);
    case OpDeregister(n) => AvoidingStep(o, s, op, now, t, k);
    case OpGc => AvoidingStep(o, s, op, now, t, k);
    case _ =>
  }

  /** A run from `s` to `t` that spares `k` throughout. */
  ghost predicate SparingRun(o: Options, s: Registry, ops: seq<Timed>, t: Registry, k: Key)
    decreases |ops|
  {
    if ops == [] then t == s
    else
      && Spares(s, ops[0].op, k)
      && exists m :: Step(o, s, ops[0].op, ops[0].now, m) && SparingRun(o, m, ops[1..], t, k)
  }

  lemma {:induction false} FailedThroughout(o: Options, s: Registry, ops: seq<Timed>, t: Registry, k: Key)
    requires o.defaultTTL > 0 && Good(o, s) && Failed(s, k) && SparingRun(o, s, ops, t, k)
    ensures Good(o, t) && Failed(t, k)
    decreases |ops|
  {
    if ops != [] {
      var m :| Step(o, s, ops[0].op, ops[0].now, m) && SparingRun(o, m, ops[1..], t, k);
      SparingStep(o, s, ops[0].op, ops[0].now, m, k);
      StepGood(o, s, ops[0].op, ops[0].now, m);
      FailedThroughout(o, m, ops[1..], t, k);
    }
  }

  lemma FailedIsListed(o: Options, t: Registry, k: Key, now: int, q: Query)
    requires WellKeyed(t) && Failed(t, k) && Matches(q, t.metas[k.node].datacenter, t.svcs[k].def)
    ensures Entry(t.metas[k.node], t.svcs[k], Critical) in Lookup(o, t, q, now).entries
  {
    var vis := Visible(o, t, q, now);
    assert vis[k] in Listing(vis);
  }

  lemma RenewedPasses(o: Options, t: Registry, k: Key, ids: seq<string>, now: int)
    requires o.defaultTTL > 0 && Good(o, t) && k in t.svcs && !Spares(t, OpRenew(k.node, ids), k)
    ensures k in Renew(t, k.node, ids, now).0.svcs && State(Renew(t, k.node, ids, now).0.svcs[k], now) == Passing
  {
    RenewHarmless(t, k.node, ids, now, k);
  }

  /** A failed check holds: through any run that neither renews nor deregisters the instance,
      it stays stored and failed; however late, every lookup that selects it lists it as
      critical and no GC removes it; and the renew that reaches it makes it passing again. */
  lemma FailureHoldsUntilRenewed(
    o: Options, s: Registry, k: Key, failedAt: int, ops: seq<Timed>, t: Registry,
    now: int, q: Query, order: seq<Key>, ids: seq<string>)
    requires o.defaultTTL > 0 && Good(o, s) && Held(s, k)
    requires SparingRun(o, Fail(s, k, failedAt).0, ops, t, k)
    ensures Good(o, t) && Held(t, k) && t.svcs[k].failed
    ensures Matches(q, t.metas[k.node].datacenter, t.svcs[k].def) ==>
              Entry(t.metas[k.node], t.svcs[k], Critical) in Lookup(o, t, q, now).entries
    ensures Enumerates(order, t.svcs.Keys) ==> Failed(Gc(o, t, order, now), k)
    ensures var r := Renew(t, k.node, ids, now).0;
            k in r.svcs && (State(r.svcs[k], now) == Passing <==> !Spares(t, OpRenew(k.node, ids), k))
  {
    StepGood(o, s, OpFail(k), failedAt, Fail(s, k, failedAt).0);
    FailedThroughout(o, Fail(s, k, failedAt).0, ops, t, k);
    if Matches(q, t.metas[k.node].datacenter, t.svcs[k].def) {
      FailedIsListed(o, t, k, now, q);
    }
    if Enumerates(order, t.svcs.Keys) {
      SparingStep(o, t, OpGc, now, Gc(o, t, order, now), k);
    }
    if Spares(t, OpRenew(k.node, ids), k) {
      SparingStep(o, t, OpRenew(k.node, ids), now, Renew(t, k.node, ids, now).0, k);
    } else {
      RenewedPasses(o, t, k, ids, now);
    }
  }
}
