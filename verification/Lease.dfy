/** Leases over whole runs: a key that keeps being refreshed is never lost or reported
    unhealthy, and one that is not disappears from every lookup on time. */
module Lease {
  import opened Model
  import opened Order
  import opened StoreSpec
  import opened StoreInvariants
  import opened StoreGc

  // ---- which operations leave a key alone, and which refresh it ----

  predicate Registers(services: seq<ServiceInstance>, id: string) {
    exists i | 0 <= i < |services| :: EffectiveId(services[i]) == id
  }

  /** No operation on the key: neither its definition nor its lease is written. */
  predicate Avoids(op: Op, k: Key) {
    match op
    case OpRegister(reg) => reg.node.id != k.node || !Registers(reg.services, k.service)
    case OpMerge(es) => forall i | 0 <= i < |es| :: es[i].Id() != k
    case OpRenew(n, ids) => n != k.node || (ids != [] && k.service !in ids)
    case OpFail(j) => j != k
    case OpSetMaintenance(j, _) => j != k
    case OpDeregister(n) => n != k.node
    case OpDeregisterService(j) => j != k
    case OpLookup(_) => true
    case OpGc => true
  }

  /** Every service listed under `id` repeats the stored definition. */
  predicate Agrees(
    o: Options, def: ServiceInstance, services: seq<ServiceInstance>, generation: nat, now: int, id: string)
  {
    forall i | 0 <= i < |services| && EffectiveId(services[i]) == id ::
      !Changed(def, Incoming(o, services[i], generation, now))
  }

  /** Every copy of `k` among `es` loses to, or ties with, the stored definition. */
  predicate Beaten(def: ServiceInstance, es: seq<ServiceEntry>, k: Key) {
    forall i | 0 <= i < |es| && es[i].Id() == k :: !es[i].service.WinsLWW(def)
  }

  /** Not deregistered, failed, merged over or redefined: heartbeats, identical
      re-registrations and merges of copies that do not win are allowed, as is anything about
      other keys. */
  predicate Harmless(o: Options, s: Registry, op: Op, now: int, k: Key)
    requires k in s.svcs
  {
    || Avoids(op, k)
    || (match op
        case OpRegister(reg) =>
          reg.node.id == k.node && Agrees(o, s.svcs[k].def, reg.services, reg.generation, now, k.service)
        case OpMerge(es) => Beaten(s.svcs[k].def, es, k)
        case OpRenew(_, _) => true
        case OpSetMaintenance(_, _) => true
        case _ => false)
  }

  /** A heartbeat that reaches `k`: a whole-node renew, a renew whose ids up to `k` all
      exist, or an accepted registration that lists it. */
  predicate Refreshes(o: Options, s: Registry, op: Op, now: int, k: Key) {
    match op
    case OpRenew(n, ids) => n == k.node && n in s.metas && (ids == [] || ReachesId(s, n, ids, k.service))
    case OpRegister(reg) =>
      reg.node.id == k.node && Registers(reg.services, k.service) && Register(o, s, reg, now).1 == Ok
    case _ => false
  }

  predicate ReachesId(s: Registry, n: string, ids: seq<string>, id: string)
    decreases |ids|
  {
    ids != [] && Key(n, ids[0]) in s.svcs && (ids[0] == id || ReachesId(s, n, ids[1..], id))
  }

  // ---- what a harmless operation does to the key ----

  /** `b` is `a` with, at most, its heartbeat moved to `now`, its failure flag cleared, its
      maintenance flag toggled or its lease state reconciled. */
  predicate Carried(a: Service, b: Service, now: int) {
    && b.def == a.def.(lastSeen := b.def.lastSeen)
    && (b.def.lastSeen == a.def.lastSeen || b.def.lastSeen == now)
    && (b.failed ==> a.failed)
  }

  /** As Carried, and the lease was not written at all. */
  predicate Unwritten(a: Service, b: Service) {
    b.def == a.def && b.failed == a.failed
  }

  lemma RegisterOneCarries(o: Options, s: Registry, n: string, def: ServiceInstance, now: int, k: Key)
    requires n in s.metas && k in s.svcs && def.lastSeen == now
    requires Key(n, def.id) == k ==> !Changed(s.svcs[k].def, def)
    ensures var t := RegisterOne(o, s, n, def, now).0;
            && k in t.svcs && Carried(s.svcs[k], t.svcs[k], now) && t.svcs[k].failed == s.svcs[k].failed
            && (Key(n, def.id) == k ==> t.svcs[k].def.lastSeen == now)
            && (Key(n, def.id) != k ==> t.svcs[k] == s.svcs[k])
  {
  }

  lemma {:induction false} RegisterAllCarries(
    o: Options, s: Registry, n: string, services: seq<ServiceInstance>, generation: nat, now: int, k: Key)
    requires n in s.metas && k in s.svcs
    requires n == k.node ==> Agrees(o, s.svcs[k].def, services, generation, now, k.service)
    ensures var r := RegisterAll(o, s, n, services, generation, now);
            && k in r.0.svcs && Carried(s.svcs[k], r.0.svcs[k], now) && r.0.svcs[k].failed == s.svcs[k].failed
            && (r.1 == Ok && n == k.node && Registers(services, k.service) ==> r.0.svcs[k].def.lastSeen == now)
            && (n != k.node || !Registers(services, k.service) ==> r.0.svcs[k] == s.svcs[k])
    decreases |services|
  {
    if services != [] {
      var def := Incoming(o, services[0], generation, now);
      RegisterOneCarries(o, s, n, def, now, k);
      var r := RegisterOne(o, s, n, def, now);
      if r.1 == Ok {
        assert forall i | 0 <= i < |services[1..]| :: services[1..][i] == services[i + 1];
        if n == k.node {
          StillAgrees(o, s.svcs[k].def, r.0.svcs[k].def, services, generation, now, k.service);
        }
        RegisterAllCarries(o, r.0, n, services[1..], generation, now, k);
        RegistersTail(services, k.service);
      }
    }
  }

  lemma RegistersTail(services: seq<ServiceInstance>, id: string)
    requires services != []
    ensures Registers(services, id) <==> EffectiveId(services[0]) == id || Registers(services[1..], id)
  {
    if Registers(services, id) && EffectiveId(services[0]) != id {
      var i :| 0 <= i < |services| && EffectiveId(services[i]) == id;
      assert services[1..][i - 1] == services[i];
    }
  }

  lemma StillAgrees(
    o: Options, a: ServiceInstance, b: ServiceInstance, services: seq<ServiceInstance>, generation: nat, now: int,
    id: string)
    requires services != [] && Agrees(o, a, services, generation, now, id)
    requires b == a.(lastSeen := b.lastSeen)
    ensures Agrees(o, b, services[1..], generation, now, id)
  {
    forall i | 0 <= i < |services[1..]| && EffectiveId(services[1..][i]) == id
      ensures !Changed(b, Incoming(o, services[1..][i], generation, now))
    {
      assert services[1..][i] == services[i + 1];
      assert !Changed(a, Incoming(o, services[i + 1], generation, now));
    }
  }

  /** A merge in which no copy of `k` wins leaves it untouched. */
  lemma {:induction false} MergeBeaten(o: Options, s: Registry, es: seq<ServiceEntry>, now: int, k: Key)
    requires k in s.svcs && Beaten(s.svcs[k].def, es, k)
    ensures k in Merge(o, s, es, now).0.svcs && Merge(o, s, es, now).0.svcs[k] == s.svcs[k]
    decreases |es|
  {
    if es != [] {
      assert forall i | 0 <= i < |es[1..]| :: es[1..][i] == es[i + 1];
      var m := MergeOne(o, s, es[0], now).0;
      assert k in m.svcs && m.svcs[k] == s.svcs[k];
      MergeBeaten(o, m, es[1..], now, k);
    }
  }

  lemma {:induction false} RenewEachCarries(s: Registry, n: string, ids: seq<string>, now: int, k: Key)
    requires k in s.svcs
    ensures var t := RenewEach(s, n, ids, now).0;
            && k in t.svcs && Carried(s.svcs[k], t.svcs[k], now)
            && if n == k.node && ReachesId(s, n, ids, k.service)
               then t.svcs[k].def.lastSeen == now && !t.svcs[k].failed
               else t.svcs[k] == s.svcs[k]
    decreases |ids|
  {
    if ids != [] && Key(n, ids[0]) in s.svcs {
      var m := Refresh(s, Key(n, ids[0]), false, now);
      RenewEachCarries(m, n, ids[1..], now, k);
      SameReach(s, m, n, ids[1..], k.service);
    }
  }

  lemma {:induction false} SameReach(s: Registry, m: Registry, n: string, ids: seq<string>, id: string)
    requires s.svcs.Keys == m.svcs.Keys
    ensures ReachesId(s, n, ids, id) <==> ReachesId(m, n, ids, id)
    decreases |ids|
  {
    if ids != [] {
      assert Key(n, ids[0]) in s.svcs.Keys <==> Key(n, ids[0]) in m.svcs.Keys;
      SameReach(s, m, n, ids[1..], id);
    }
  }

  lemma {:induction false} WithdrawAllAvoids(s: Registry, order: seq<Key>, k: Key)
    requires k in s.svcs && k !in order
    ensures k in WithdrawAll(s, order).svcs && WithdrawAll(s, order).svcs[k] == s.svcs[k]
    decreases |order|
  {
    if order != [] {
      assert order[0] in order && forall j | j in order[1..] :: j in order;
      WithdrawAllAvoids(if Held(s, order[0]) then Withdraw(s, order[0]) else s, order[1..], k);
    }
  }

  lemma GcCarries(o: Options, s: Registry, order: seq<Key>, now: int, k: Key)
    requires WellKeyed(s) && Enumerates(order, s.svcs.Keys) && k in s.svcs && !PastGrace(o, s.svcs[k], now)
    ensures k in Gc(o, s, order, now).svcs && Unwritten(s.svcs[k], Gc(o, s, order, now).svcs[k])
  {
    GcEffect(o, s, order, now);
    assert Reconciled(o, s.svcs[k], Gc(o, s, order, now), k, now);
  }

  lemma RegisterHarmless(o: Options, s: Registry, reg: Registration, now: int, k: Key)
    requires k in s.svcs
    requires reg.node.id == k.node ==> Agrees(o, s.svcs[k].def, reg.services, reg.generation, now, k.service)
    ensures var r := Register(o, s, reg, now);
            && k in r.0.svcs && Carried(s.svcs[k], r.0.svcs[k], now)
            && (r.1 == Ok && reg.node.id == k.node && Registers(reg.services, k.service) ==>
                  r.0.svcs[k].def.lastSeen == now)
            && (reg.node.id != k.node || !Registers(reg.services, k.service) ==> r.0.svcs[k] == s.svcs[k])
  {
    if ValidRegistration(reg) {
      RegisterAllCarries(o, SetMeta(s, reg.node), reg.node.id, reg.services, reg.generation, now, k);
    }
  }

  lemma RenewHarmless(s: Registry, n: string, ids: seq<string>, now: int, k: Key)
    requires k in s.svcs
    ensures var t := Renew(s, n, ids, now).0;
            && k in t.svcs && Carried(s.svcs[k], t.svcs[k], now)
            && if n == k.node && n in s.metas && (ids == [] || ReachesId(s, n, ids, k.service))
               then t.svcs[k].def.lastSeen == now && !t.svcs[k].failed
               else t.svcs[k] == s.svcs[k]
  {
    if n in s.metas && ids != [] {
      RenewEachCarries(s, n, ids, now, k);
    }
  }

  lemma {:induction false} ReachesListed(s: Registry, n: string, ids: seq<string>, id: string)
    requires ReachesId(s, n, ids, id)
    ensures id in ids
    decreases |ids|
  {
    if ids[0] != id {
      ReachesListed(s, n, ids[1..], id);
    }
  }

  lemma DeregisterAvoids(s: Registry, n: string, order: seq<Key>, k: Key)
    requires k in s.svcs && n != k.node && Enumerates(order, NodeKeys(s, n))
    ensures k in Deregister(s, n, order).0.svcs && Deregister(s, n, order).0.svcs[k] == s.svcs[k]
  {
    EnumeratesElements(order, NodeKeys(s, n));
    WithdrawAllAvoids(s, order, k);
  }

  /** An operation that avoids the key leaves its definition and lease as they were; GC does
      so as long as the key is not past grace. */
  lemma AvoidingStep(o: Options, s: Registry, op: Op, now: int, t: Registry, k: Key)
    requires WellKeyed(s) && Step(o, s, op, now, t) && k in s.svcs && Avoids(op, k)
    requires op.OpGc? ==> !PastGrace(o, s.svcs[k], now)
    ensures k in t.svcs && Unwritten(s.svcs[k], t.svcs[k])
  {
    match op
    case OpRegister(reg) => RegisterHarmless(o, s, reg, now, k);
    case OpMerge(es) => MergeBeaten(o, s, es, now, k);
    case OpRenew(n, ids) =>
      RenewHarmless(s, n, ids, now, k);
      if n == k.node && ReachesId(s, n, ids, k.service) {
        ReachesListed(s, n, ids, k.service);
      }
    case OpDeregister(n) =>
      var order :| Enumerates(order, NodeKeys(s, n)) && t == Deregister(s, n, order).0;
      DeregisterAvoids(s, n, order, k);
    case OpGc =>
      var order :| Enumerates(order, s.svcs.Keys) && t == Gc(o, s, order, now);
      GcCarries(o, s, order, now, k);
    case _ =>
  }

  lemma HarmlessStep(o: Options, s: Registry, op: Op, now: int, t: Registry, k: Key)
    requires WellKeyed(s) && Step(o, s, op, now, t) && k in s.svcs && Harmless(o, s, op, now, k)
    requires op.OpGc? ==> !PastGrace(o, s.svcs[k], now)
    ensures k in t.svcs && Carried(s.svcs[k], t.svcs[k], now)
    ensures Refreshes(o, s, op, now, k) ==> t.svcs[k].def.lastSeen == now
  {
    match op
    case OpRegister(reg) => RegisterHarmless(o, s, reg, now, k);
    case OpMerge(es) => MergeBeaten(o, s, es, now, k);
    case OpRenew(n, ids) => RenewHarmless(s, n, ids, now, k);
    case OpSetMaintenance(_, _) =>
    case _ => AvoidingStep(o, s, op, now, t, k);
  }

  // ---- what a tolerable operation does to the lease ----

  /** Every copy of `k` loses to the stored definition, or has its lease window and a heartbeat
      no older: what syncs with peers that hear the same heartbeats bring. */
  predicate MergesLease(o: Options, def: ServiceInstance, es: seq<ServiceEntry>, k: Key) {
    forall i | 0 <= i < |es| && es[i].Id() == k ::
      || !es[i].service.WinsLWW(def)
      || (ClampTTL(o, es[i].service.ttl) == def.ttl && es[i].service.lastSeen >= def.lastSeen)
  }

  predicate SameWindow(o: Options, ttl: int, services: seq<ServiceInstance>, id: string) {
    forall i | 0 <= i < |services| && EffectiveId(services[i]) == id :: ClampTTL(o, services[i].ttl) == ttl
  }

  /** The instance is not deregistered or failed, and keeps its lease window: it may be
      redefined, renewed and synced. */
  predicate Tolerable(o: Options, s: Registry, op: Op, k: Key)
    requires k in s.svcs
  {
    || Avoids(op, k)
    || (match op
        case OpRegister(reg) => reg.node.id == k.node && SameWindow(o, s.svcs[k].def.ttl, reg.services, k.service)
        case OpMerge(es) => MergesLease(o, s.svcs[k].def, es, k)
        case OpRenew(_, _) => true
        case OpSetMaintenance(_, _) => true
        case _ => false)
  }

  /** `b` has the lease window of `a`, and a heartbeat no older than before or of `now`. */
  predicate Extends(a: Service, b: Service, now: int) {
    && b.def.ttl == a.def.ttl
    && (b.def.lastSeen >= a.def.lastSeen || b.def.lastSeen == now)
    && (b.failed ==> a.failed)
  }

  lemma {:induction false} RegisterAllExtends(
    o: Options, s: Registry, n: string, services: seq<ServiceInstance>, generation: nat, now: int, k: Key)
    requires n in s.metas && k in s.svcs && (n == k.node ==> SameWindow(o, s.svcs[k].def.ttl, services, k.service))
    ensures var r := RegisterAll(o, s, n, services, generation, now);
            && k in r.0.svcs && Extends(s.svcs[k], r.0.svcs[k], now)
            && (s.svcs[k].def.lastSeen == now ==> r.0.svcs[k].def.lastSeen == now)
            && (r.1 == Ok && n == k.node && Registers(services, k.service) ==> r.0.svcs[k].def.lastSeen == now)
    decreases |services|
  {
    if services != [] {
      var r := RegisterOne(o, s, n, Incoming(o, services[0], generation, now), now);
      assert k in r.0.svcs && Extends(s.svcs[k], r.0.svcs[k], now);
      if r.1 == Ok {
        assert forall i | 0 <= i < |services[1..]| :: services[1..][i] == services[i + 1];
        RegisterAllExtends(o, r.0, n, services[1..], generation, now, k);
        RegistersTail(services, k.service);
      }
    }
  }

  lemma {:induction false} MergeExtends(
    o: Options, s: Registry, es: seq<ServiceEntry>, now: int, k: Key, def: ServiceInstance)
    requires k in s.svcs && MergesLease(o, def, es, k) && !def.WinsLWW(s.svcs[k].def)
    requires s.svcs[k].def.ttl == def.ttl && s.svcs[k].def.lastSeen >= def.lastSeen
    ensures var t := Merge(o, s, es, now).0;
            && k in t.svcs && t.svcs[k].def.ttl == def.ttl && t.svcs[k].def.lastSeen >= def.lastSeen
            && t.svcs[k].failed == s.svcs[k].failed
    decreases |es|
  {
    if es != [] {
      assert forall i | 0 <= i < |es[1..]| :: es[1..][i] == es[i + 1];
      MergeExtends(o, MergeOne(o, s, es[0], now).0, es[1..], now, k, def);
    }
  }

  lemma RegisterExtends(o: Options, s: Registry, reg: Registration, now: int, k: Key)
    requires k in s.svcs
    requires reg.node.id == k.node ==> SameWindow(o, s.svcs[k].def.ttl, reg.services, k.service)
    ensures var r := Register(o, s, reg, now);
            && k in r.0.svcs && Extends(s.svcs[k], r.0.svcs[k], now)
            && (Refreshes(o, s, OpRegister(reg), now, k) ==> r.0.svcs[k].def.lastSeen == now)
  {
    if ValidRegistration(reg) {
      RegisterAllExtends(o, SetMeta(s, reg.node), reg.node.id, reg.services, reg.generation, now, k);
    }
  }

  /** Redefinitions, heartbeats and syncs that keep the lease window never shorten the lease. */
  lemma TolerableStep(o: Options, s: Registry, op: Op, now: int, t: Registry, k: Key)
    requires WellKeyed(s) && Step(o, s, op, now, t) && k in s.svcs && Tolerable(o, s, op, k)
    requires op.OpGc? ==> !PastGrace(o, s.svcs[k], now)
    ensures k in t.svcs && Extends(s.svcs[k], t.svcs[k], now)
    ensures Refreshes(o, s, op, now, k) ==> t.svcs[k].def.lastSeen == now
  {
    match op
    case OpRegister(reg) => RegisterExtends(o, s, reg, now, k);
    case OpMerge(es) => MergeExtends(o, s, es, now, k, s.svcs[k].def);
    case _ => HarmlessStep(o, s, op, now, t, k);
  }

  // ---- runs ----

  predicate Clocked(ops: seq<Timed>, end: int) {
    && (forall i, j | 0 <= i < j < |ops| :: ops[i].now <= ops[j].now)
    && (forall i | 0 <= i < |ops| :: ops[i].now <= end)
  }

  /** A run from `s` to `t` that is tolerable to `k` and refreshes it at gaps of at most
      `ttl`, counting from a heartbeat at `last` and up to the instant `end`. */
  ghost predicate Sustains(
    o: Options, s: Registry, ops: seq<Timed>, t: Registry, k: Key, ttl: int, last: int, end: int)
    decreases |ops|
  {
    if ops == [] then t == s && end - last <= ttl
    else
      var op, now := ops[0].op, ops[0].now;
      && k in s.svcs && Tolerable(o, s, op, k)
      && (Refreshes(o, s, op, now, k) ==> now - last <= ttl)
      && exists m :: Step(o, s, op, now, m)
                     && Sustains(o, m, ops[1..], t, k, ttl, if Refreshes(o, s, op, now, k) then now else last, end)
  }

  /** Between two heartbeats, and up to the end, no instant is further than `ttl` from the
      last heartbeat. */
  lemma {:induction false} GapBound(
    o: Options, s: Registry, ops: seq<Timed>, t: Registry, k: Key, ttl: int, last: int, end: int, at: int)
    requires Sustains(o, s, ops, t, k, ttl, last, end) && Clocked(ops, end) && at <= end
    requires forall i | 0 <= i < |ops| :: at <= ops[i].now
    ensures at - last <= ttl
    decreases |ops|
  {
    if ops != [] && !Refreshes(o, s, ops[0].op, ops[0].now, k) {
      var m :| Step(o, s, ops[0].op, ops[0].now, m) && Sustains(o, m, ops[1..], t, k, ttl, last, end);
      assert forall i | 0 <= i < |ops[1..]| :: ops[1..][i] == ops[i + 1];
      GapBound(o, m, ops[1..], t, k, ttl, last, end, at);
    }
  }

  /** A live lease: stored, not failed, with this window and a heartbeat no older than `last`. */
  predicate Live(s: Registry, k: Key, ttl: int, last: int) {
    k in s.svcs && !s.svcs[k].failed && s.svcs[k].def.ttl == ttl && s.svcs[k].def.lastSeen >= last
  }

  predicate Later(ops: seq<Timed>, last: int) {
    forall i | 0 <= i < |ops| :: last <= ops[i].now
  }

  /** One step of a sustaining run keeps the lease live. */
  lemma SustainStep(
    o: Options, s: Registry, ops: seq<Timed>, t: Registry, k: Key, ttl: int, last: int, end: int)
    returns (m: Registry, last': int)
    requires o.defaultTTL > 0 && Good(o, s) && Live(s, k, ttl, last) && ops != []
    requires Sustains(o, s, ops, t, k, ttl, last, end) && Clocked(ops, end) && Later(ops, last)
    ensures Good(o, m) && Live(m, k, ttl, last')
    ensures Sustains(o, m, ops[1..], t, k, ttl, last', end) && Clocked(ops[1..], end) && Later(ops[1..], last')
  {
    var op, now := ops[0].op, ops[0].now;
    last' := if Refreshes(o, s, op, now, k) then now else last;
    m :| Step(o, s, op, now, m) && Sustains(o, m, ops[1..], t, k, ttl, last', end);
    GapBound(o, s, ops, t, k, ttl, last, end, now);
    TolerableStep(o, s, op, now, m, k);
    StepGood(o, s, op, now, m);
    ClockedTail(ops, end, last, last');
  }

  lemma ClockedTail(ops: seq<Timed>, end: int, last: int, last': int)
    requires ops != [] && Clocked(ops, end) && Later(ops, last) && (last' == last || last' == ops[0].now)
    ensures Clocked(ops[1..], end) && Later(ops[1..], last')
  {
    assert forall i | 0 <= i < |ops[1..]| :: ops[1..][i] == ops[i + 1];
  }

  lemma {:induction false} SustainedLive(
    o: Options, s: Registry, ops: seq<Timed>, t: Registry, k: Key, ttl: int, last: int, end: int)
    requires o.defaultTTL > 0 && Good(o, s) && Live(s, k, ttl, last)
    requires Sustains(o, s, ops, t, k, ttl, last, end) && Clocked(ops, end) && Later(ops, last)
    ensures Good(o, t) && Live(t, k, ttl, end - ttl)
    decreases |ops|
  {
    if ops != [] {
      var m, last' := SustainStep(o, s, ops, t, k, ttl, last, end);
      SustainedLive(o, m, ops[1..], t, k, ttl, last', end);
    }
  }

  lemma ListedPassing(o: Options, t: Registry, k: Key, now: int, q: Query)
    requires WellKeyed(t) && k in t.svcs && Live(t, k, t.svcs[k].def.ttl, now - t.svcs[k].def.ttl)
    requires Matches(q, t.metas[k.node].datacenter, t.svcs[k].def)
    ensures Entry(t.metas[k.node], t.svcs[k], Passing) in Lookup(o, t, q, now).entries
  {
    var vis := Visible(o, t, q, now);
    assert vis[k] in Listing(vis);
  }

  /** Lease safety: under a non-decreasing clock, a key whose heartbeats are never further
      apart than its TTL, and which is not deregistered, failed or given another TTL, is listed
      as passing by every lookup that selects it and survives every GC - through any
      redefinitions, and syncs whose copies of it lose or bring a heartbeat no older. */
  lemma LeaseSafety(
    o: Options, s: Registry, ops: seq<Timed>, t: Registry, k: Key, end: int, q: Query, order: seq<Key>)
    requires o.defaultTTL > 0 && Good(o, s) && k in s.svcs && !s.svcs[k].failed
    requires Sustains(o, s, ops, t, k, s.svcs[k].def.ttl, s.svcs[k].def.lastSeen, end) && Clocked(ops, end)
    requires Later(ops, s.svcs[k].def.lastSeen)
    ensures WellKeyed(t) && Held(t, k)
    ensures Matches(q, t.metas[k.node].datacenter, t.svcs[k].def) ==>
              Entry(t.metas[k.node], t.svcs[k], Passing) in Lookup(o, t, q, end).entries
    ensures Enumerates(order, t.svcs.Keys) ==> k in Gc(o, t, order, end).svcs
  {
    SustainedLive(o, s, ops, t, k, s.svcs[k].def.ttl, s.svcs[k].def.lastSeen, end);
    if Matches(q, t.metas[k.node].datacenter, t.svcs[k].def) {
      ListedPassing(o, t, k, end, q);
    }
    if Enumerates(order, t.svcs.Keys) {
      GcCarries(o, t, order, end, k);
    }
  }

  /** Expiry is exact: a stored key is listed by a query that selects it if and only if it
      is failed, or within its TTL, or within TTL plus grace - whether or not GC has run. */
  lemma ListedIffInGrace(o: Options, s: Registry, q: Query, now: int, k: Key)
    requires WellKeyed(s) && k in s.svcs && Matches(q, s.metas[k.node].datacenter, s.svcs[k].def)
    ensures (exists e :: e in Lookup(o, s, q, now).entries && e.Id() == k) <==>
            var age := now - s.svcs[k].def.lastSeen;
            s.svcs[k].failed || age <= s.svcs[k].def.ttl || age <= s.svcs[k].def.ttl + o.grace
  {
    var vis := Visible(o, s, q, now);
    assert k in vis <==> !PastGrace(o, s.svcs[k], now);
    ListedIffVisible(vis, k);
  }

  lemma ListedIffVisible(vis: map<Key, ServiceEntry>, k: Key)
    requires Keyed(vis)
    ensures (exists e :: e in Listing(vis) && e.Id() == k) <==> k in vis
  {
    if k in vis {
      assert vis[k] in Listing(vis);
    }
  }
}
