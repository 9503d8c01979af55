/** What every run of registry operations keeps: the event log replays to the registry,
    indexes are gap-free, and identities, lease windows and the capacity cap are respected. */
module StoreInvariants {
  import opened Model
  import opened StoreSpec

  // ---- replaying the change stream ----

  /** What a reader of the change stream knows of an instance: everything stored except the
      heartbeat time, the forced-failure flag and the lease state. */
  datatype Seen = Seen(def: ServiceInstance, maintenance: bool, createIndex: nat, modifyIndex: nat)

  function SeenEntry(e: ServiceEntry): Seen {
    Seen(e.service.(lastSeen := 0), e.maintenance, e.createIndex, e.modifyIndex)
  }

  function SeenService(svc: Service): Seen {
    Seen(svc.def.(lastSeen := 0), svc.maintenance, svc.createIndex, svc.modifyIndex)
  }

  function Projection(s: Registry): map<Key, Seen> {
    map k | k in s.svcs :: SeenService(s.svcs[k])
  }

  function Absorb(m: map<Key, Seen>, ev: ChangeEvent): map<Key, Seen> {
    if ev.kind == ChangePut then m[ev.entry.Id() := SeenEntry(ev.entry)] else m - {ev.entry.Id()}
  }

  /** The fold of a change stream, oldest event first. */
  function Replay(m: map<Key, Seen>, log: seq<ChangeEvent>): map<Key, Seen>
    decreases |log|
  {
    if log == [] then m else Absorb(Replay(m, log[..|log| - 1]), log[|log| - 1])
  }

  lemma ReplayAppend(m: map<Key, Seen>, log: seq<ChangeEvent>, ev: ChangeEvent)
    ensures Replay(m, log + [ev]) == Absorb(Replay(m, log), ev)
  {
    assert (log + [ev])[..|log + [ev]| - 1] == log;
  }

  /** Every delete in the log names an instance live at that point, with the definition last
      put for it. */
  predicate Honest(log: seq<ChangeEvent>)
    decreases |log|
  {
    log == [] ||
    (var before, ev := log[..|log| - 1], log[|log| - 1];
     && Honest(before)
     && (ev.kind == ChangeDelete ==>
           && ev.entry.Id() in Replay(map[], before)
           && Replay(map[], before)[ev.entry.Id()].def == SeenEntry(ev.entry).def))
  }

  // ---- the invariant ----

  ghost predicate Indexed(o: Options, s: Registry) {
    && (forall k | k in s.svcs ::
          o.startIndex < s.svcs[k].createIndex <= s.svcs[k].modifyIndex <= s.index)
    && (forall j, k | j in s.svcs && k in s.svcs && j != k :: s.svcs[j].modifyIndex != s.svcs[k].modifyIndex)
  }

  ghost predicate Logged(o: Options, s: Registry) {
    && s.index == o.startIndex + |s.log|
    && forall i | 0 <= i < |s.log| :: s.log[i].index == o.startIndex + 1 + i
  }

  ghost predicate Leased(o: Options, s: Registry) {
    forall k | k in s.svcs :: ClampTTL(o, s.svcs[k].def.ttl) == s.svcs[k].def.ttl
  }

  ghost predicate Capped(o: Options, s: Registry) {
    o.maxServices > 0 ==> |s.svcs| <= o.maxServices
  }

  ghost predicate Replays(s: Registry) {
    Replay(map[], s.log) == Projection(s) && Honest(s.log)
  }

  ghost predicate Good(o: Options, s: Registry) {
    && WellKeyed(s)
    && Indexed(o, s)
    && Logged(o, s)
    && Leased(o, s)
    && Capped(o, s)
    && Replays(s)
  }

  /** `t` is a good state whose log continues that of `s`. */
  ghost predicate Follows(o: Options, s: Registry, t: Registry) {
    Good(o, t) && s.log <= t.log
  }

  lemma FollowsTrans(o: Options, s: Registry, t: Registry, u: Registry)
    requires Follows(o, s, t) && Follows(o, t, u)
    ensures Follows(o, s, u)
  {
  }

  lemma InitGood(o: Options)
    ensures Good(o, Init(o))
  {
  }

  // ---- the elementary updates keep it ----

  lemma SetMetaGood(o: Options, s: Registry, n: Node)
    requires Good(o, s)
    ensures Follows(o, s, SetMeta(s, n))
  {
    assert Projection(SetMeta(s, n)) == Projection(s);
  }

  /** When `svc` may be published under `k`: it is identified by `k`, its lease window is
      clamped, and it either keeps its creation index or is new and fits under the cap. */
  ghost predicate Publishable(o: Options, s: Registry, k: Key, svc: Service) {
    && k.node in s.metas && k.node != "" && k.service != ""
    && svc.def.id == k.service
    && ClampTTL(o, svc.def.ttl) == svc.def.ttl
    && if k in s.svcs then svc.createIndex == s.svcs[k].createIndex
       else !Full(o, s) && svc.createIndex == s.index + 1
  }

  lemma PublishGood(o: Options, s: Registry, k: Key, svc: Service, now: int)
    requires Good(o, s) && Publishable(o, s, k, svc)
    ensures Follows(o, s, Publish(s, k, svc, now))
  {
    PublishKeyed(o, s, k, svc, now);
    PublishIndexed(o, s, k, svc, now);
    PublishReplays(s, k, svc, now);
  }

  lemma PublishKeyed(o: Options, s: Registry, k: Key, svc: Service, now: int)
    requires WellKeyed(s) && Leased(o, s) && Capped(o, s) && Publishable(o, s, k, svc)
    ensures var t := Publish(s, k, svc, now); WellKeyed(t) && Leased(o, t) && Capped(o, t)
  {
    PublishSize(s, k, svc.(modifyIndex := s.index + 1));
  }

  lemma PublishSize(s: Registry, k: Key, svc: Service)
    ensures |s.svcs[k := svc]| == if k in s.svcs then |s.svcs| else |s.svcs| + 1
  {
    var t := s.svcs[k := svc];
    assert t.Keys == s.svcs.Keys + {k};
    assert |t| == |t.Keys| && |s.svcs| == |s.svcs.Keys|;
    if k in s.svcs {
      assert t.Keys == s.svcs.Keys;
    }
  }

  lemma PublishIndexed(o: Options, s: Registry, k: Key, svc: Service, now: int)
    requires Indexed(o, s) && Logged(o, s) && Publishable(o, s, k, svc)
    ensures var t := Publish(s, k, svc, now); Indexed(o, t) && Logged(o, t)
  {
  }

  lemma PublishReplays(s: Registry, k: Key, svc: Service, now: int)
    requires WellKeyed(s) && Replays(s) && k.node in s.metas && svc.def.id == k.service
    ensures Replays(Publish(s, k, svc, now))
  {
    var t := Publish(s, k, svc, now);
    ReplayAppend(map[], s.log, t.log[|s.log|]);
    assert t.log[..|t.log| - 1] == s.log;
    assert Projection(t) == Projection(s)[k := SeenService(t.svcs[k])];
  }

  lemma WithdrawGood(o: Options, s: Registry, k: Key)
    requires Good(o, s) && Held(s, k)
    ensures Follows(o, s, Withdraw(s, k))
  {
    WithdrawKeeps(o, s, k);
    WithdrawReplays(s, k);
  }

  lemma WithdrawReplays(s: Registry, k: Key)
    requires WellKeyed(s) && Replays(s) && Held(s, k)
    ensures Replays(Withdraw(s, k))
  {
    var t := Withdraw(s, k);
    ReplayAppend(map[], s.log, t.log[|s.log|]);
    assert t.log[..|t.log| - 1] == s.log;
    assert Projection(t) == Projection(s) - {k};
  }

  lemma WithdrawKeeps(o: Options, s: Registry, k: Key)
    requires WellKeyed(s) && Indexed(o, s) && Logged(o, s) && Leased(o, s) && Capped(o, s) && Held(s, k)
    ensures var t := Withdraw(s, k); WellKeyed(t) && Indexed(o, t) && Logged(o, t) && Leased(o, t) && Capped(o, t)
  {
    var t := Withdraw(s, k);
    assert t.svcs.Keys == s.svcs.Keys - {k};
    assert |t.svcs| == |t.svcs.Keys| && |s.svcs| == |s.svcs.Keys|;
  }

  /** Changing heartbeat times, failure flags and lease states alone is invisible to readers. */
  lemma QuietGood(o: Options, s: Registry, t: Registry)
    requires Good(o, s)
    requires t.metas == s.metas && t.index == s.index && t.log == s.log
    requires Projection(t) == Projection(s)
    ensures Follows(o, s, t)
  {
    SameProjection(s, t);
    QuietKeyed(o, s, t);
  }

  lemma SameProjection(s: Registry, t: Registry)
    requires Projection(t) == Projection(s)
    ensures t.svcs.Keys == s.svcs.Keys
    ensures forall k | k in s.svcs ::
              && t.svcs[k].def.ttl == s.svcs[k].def.ttl && t.svcs[k].def.id == s.svcs[k].def.id
              && t.svcs[k].createIndex == s.svcs[k].createIndex && t.svcs[k].modifyIndex == s.svcs[k].modifyIndex
  {
    assert t.svcs.Keys == Projection(t).Keys == Projection(s).Keys == s.svcs.Keys;
    forall k | k in s.svcs
      ensures
        && t.svcs[k].def.ttl == s.svcs[k].def.ttl && t.svcs[k].def.id == s.svcs[k].def.id
        && t.svcs[k].createIndex == s.svcs[k].createIndex && t.svcs[k].modifyIndex == s.svcs[k].modifyIndex
    {
      var a, b := Projection(t)[k], Projection(s)[k];
      assert a.def.ttl == b.def.ttl && a.def.id == b.def.id;
    }
  }

  lemma QuietKeyed(o: Options, s: Registry, t: Registry)
    requires WellKeyed(s) && Indexed(o, s) && Leased(o, s) && Capped(o, s)
    requires t.metas == s.metas && t.index == s.index && t.svcs.Keys == s.svcs.Keys
    requires forall k | k in s.svcs ::
               && t.svcs[k].def.ttl == s.svcs[k].def.ttl && t.svcs[k].def.id == s.svcs[k].def.id
               && t.svcs[k].createIndex == s.svcs[k].createIndex && t.svcs[k].modifyIndex == s.svcs[k].modifyIndex
    ensures WellKeyed(t) && Indexed(o, t) && Leased(o, t) && Capped(o, t)
  {
    assert |t.svcs| == |t.svcs.Keys| && |s.svcs| == |s.svcs.Keys|;
  }

  lemma RefreshQuiet(s: Registry, k: Key, failed: bool, now: int)
    requires k in s.svcs
    ensures Projection(Refresh(s, k, failed, now)) == Projection(s)
  {
  }

  lemma RenewQuiet(s: Registry, n: string, now: int)
    ensures Projection(RenewNode(s, n, now)) == Projection(s)
  {
  }

  lemma RefreshGood(o: Options, s: Registry, k: Key, failed: bool, now: int)
    requires Good(o, s) && k in s.svcs
    ensures Follows(o, s, Refresh(s, k, failed, now))
  {
    RefreshQuiet(s, k, failed, now);
    QuietGood(o, s, Refresh(s, k, failed, now));
  }

  /** Forgetting nodes that hold nothing keeps the invariant. */
  lemma DropGood(o: Options, s: Registry, metas: map<string, Node>)
    requires Good(o, s)
    requires forall n | n in metas :: n in s.metas && metas[n] == s.metas[n]
    requires forall k | k in s.svcs :: k.node in metas
    ensures Follows(o, s, s.(metas := metas))
  {
    assert Projection(s.(metas := metas)) == Projection(s);
  }

  // ---- every operation keeps it ----

  lemma ClampIdempotent(o: Options, d: int)
    requires o.defaultTTL > 0
    ensures ClampTTL(o, ClampTTL(o, d)) == ClampTTL(o, d)
  {
  }

  lemma RegisterOneGood(o: Options, s: Registry, n: string, def: ServiceInstance, now: int)
    requires Good(o, s) && n in s.metas && n != "" && def.id != ""
    requires ClampTTL(o, def.ttl) == def.ttl
    ensures Follows(o, s, RegisterOne(o, s, n, def, now).0)
    ensures n in RegisterOne(o, s, n, def, now).0.metas
  {
    var k := Key(n, def.id);
    if k !in s.svcs {
      if !Full(o, s) {
        PublishGood(o, s, k, Service(def, false, false, Passing, s.index + 1, s.index + 1), now);
      }
    } else if Changed(s.svcs[k].def, def) {
      PublishGood(o, s, k, s.svcs[k].(def := def, lastState := Passing), now);
    } else {
      RefreshGood(o, s, k, s.svcs[k].failed, now);
    }
  }

  lemma {:induction false} RegisterAllGood(
    o: Options, s: Registry, n: string, services: seq<ServiceInstance>, generation: nat, now: int)
    requires o.defaultTTL > 0
    requires Good(o, s) && n in s.metas && n != ""
    requires forall svc | svc in services :: svc.name != ""
    ensures Follows(o, s, RegisterAll(o, s, n, services, generation, now).0)
    decreases |services|
  {
    if services != [] {
      var def := Incoming(o, services[0], generation, now);
      ClampIdempotent(o, services[0].ttl);
      assert services[0] in services;
      RegisterOneGood(o, s, n, def, now);
      var r := RegisterOne(o, s, n, def, now);
      if r.1 == Ok {
        RegisterAllGood(o, r.0, n, services[1..], generation, now);
        FollowsTrans(o, s, r.0, RegisterAll(o, r.0, n, services[1..], generation, now).0);
      }
    }
  }

  lemma RegisterGood(o: Options, s: Registry, reg: Registration, now: int)
    requires o.defaultTTL > 0 && Good(o, s)
    ensures Follows(o, s, Register(o, s, reg, now).0)
  {
    if ValidRegistration(reg) {
      SetMetaGood(o, s, reg.node);
      var s1 := SetMeta(s, reg.node);
      RegisterAllGood(o, s1, reg.node.id, reg.services, reg.generation, now);
      FollowsTrans(o, s, s1, Register(o, s, reg, now).0);
    }
  }

  lemma MergeOneGood(o: Options, s: Registry, e: ServiceEntry, now: int)
    requires o.defaultTTL > 0 && Good(o, s)
    ensures Follows(o, s, MergeOne(o, s, e, now).0)
  {
    if e.node.id != "" && e.service.id != "" {
      SetMetaGood(o, s, e.node);
      var s1 := SetMeta(s, e.node);
      var k, def := e.Id(), Clamped(o, e.service);
      ClampIdempotent(o, e.service.ttl);
      if k !in s1.svcs {
        if !Full(o, s1) {
          PublishGood(o, s1, k, Service(def, false, false, Passing, s1.index + 1, s1.index + 1), now);
        }
      } else if def.WinsLWW(s1.svcs[k].def) {
        PublishGood(o, s1, k, s1.svcs[k].(def := def), now);
      }
    }
  }

  lemma {:induction false} MergeGood(o: Options, s: Registry, es: seq<ServiceEntry>, now: int)
    requires o.defaultTTL > 0 && Good(o, s)
    ensures Follows(o, s, Merge(o, s, es, now).0)
    decreases |es|
  {
    if es != [] {
      var r := MergeOne(o, s, es[0], now).0;
      MergeOneGood(o, s, es[0], now);
      MergeGood(o, r, es[1..], now);
      FollowsTrans(o, s, r, Merge(o, r, es[1..], now).0);
    }
  }

  lemma {:induction false} RenewEachGood(o: Options, s: Registry, n: string, ids: seq<string>, now: int)
    requires Good(o, s)
    ensures Follows(o, s, RenewEach(s, n, ids, now).0)
    decreases |ids|
  {
    if ids != [] && Key(n, ids[0]) in s.svcs {
      var r := Refresh(s, Key(n, ids[0]), false, now);
      RefreshGood(o, s, Key(n, ids[0]), false, now);
      RenewEachGood(o, r, n, ids[1..], now);
      FollowsTrans(o, s, r, RenewEach(r, n, ids[1..], now).0);
    }
  }

  lemma RenewGood(o: Options, s: Registry, n: string, ids: seq<string>, now: int)
    requires Good(o, s)
    ensures Follows(o, s, Renew(s, n, ids, now).0)
  {
    if n in s.metas {
      if ids == [] {
        RenewQuiet(s, n, now);
        QuietGood(o, s, RenewNode(s, n, now));
      } else {
        RenewEachGood(o, s, n, ids, now);
      }
    }
  }

  lemma {:induction false} WithdrawAllGood(o: Options, s: Registry, order: seq<Key>)
    requires Good(o, s)
    ensures Follows(o, s, WithdrawAll(s, order))
    ensures WithdrawAll(s, order).metas == s.metas
    decreases |order|
  {
    if order != [] {
      if Held(s, order[0]) {
        WithdrawGood(o, s, order[0]);
        WithdrawAllGood(o, Withdraw(s, order[0]), order[1..]);
      } else {
        WithdrawAllGood(o, s, order[1..]);
      }
    }
  }

  /** Withdrawing removes exactly the listed keys. */
  lemma {:induction false} WithdrawAllKeys(s: Registry, order: seq<Key>)
    requires forall k | k in s.svcs :: k.node in s.metas
    ensures WithdrawAll(s, order).svcs == s.svcs - (set k | k in order)
    decreases |order|
  {
    if order != [] {
      assert order == [order[0]] + order[1..];
      assert (set k | k in order) == {order[0]} + (set k | k in order[1..]);
      WithdrawAllKeys(if Held(s, order[0]) then Withdraw(s, order[0]) else s, order[1..]);
    }
  }

  lemma EnumeratesElements(order: seq<Key>, ks: set<Key>)
    requires Enumerates(order, ks)
    ensures (set k | k in order) == ks
    ensures forall k :: k in order <==> k in ks
  {
    forall k
      ensures k in order <==> k in ks
    {
      assert k in multiset(order) <==> k in multiset(ks);
    }
  }

  lemma DeregisterGood(o: Options, s: Registry, n: string, order: seq<Key>)
    requires Good(o, s) && Enumerates(order, NodeKeys(s, n))
    ensures Follows(o, s, Deregister(s, n, order).0)
  {
    if n in s.metas {
      var t := WithdrawAll(s, order);
      WithdrawAllGood(o, s, order);
      WithdrawAllKeys(s, order);
      EnumeratesElements(order, NodeKeys(s, n));
      DropGood(o, t, t.metas - {n});
      FollowsTrans(o, s, t, DropNode(t, n));
    }
  }

  lemma DropEmptyGood(o: Options, s: Registry, n: string)
    requires Good(o, s) && NodeKeys(s, n) == {}
    ensures Follows(o, s, DropNode(s, n))
  {
    assert forall j | j in s.svcs :: j.node == n ==> j in NodeKeys(s, n);
    DropGood(o, s, s.metas - {n});
  }

  lemma DeregisterServiceGood(o: Options, s: Registry, k: Key)
    requires Good(o, s)
    ensures Follows(o, s, DeregisterService(s, k).0)
  {
    if Held(s, k) {
      var t := Withdraw(s, k);
      WithdrawGood(o, s, k);
      if NodeKeys(t, k.node) == {} {
        DropEmptyGood(o, t, k.node);
        FollowsTrans(o, s, t, DropNode(t, k.node));
      }
    }
  }

  lemma GcOneGood(o: Options, s: Registry, k: Key, now: int)
    requires Good(o, s)
    ensures Follows(o, s, GcOne(o, s, k, now))
    ensures GcOne(o, s, k, now).metas == s.metas
  {
    if Held(s, k) {
      if PastGrace(o, s.svcs[k], now) {
        WithdrawGood(o, s, k);
      } else if State(s.svcs[k], now) != s.svcs[k].lastState {
        PublishGood(o, s, k, s.svcs[k].(lastState := State(s.svcs[k], now)), now);
      }
    }
  }

  lemma {:induction false} GcAllGood(o: Options, s: Registry, order: seq<Key>, now: int)
    requires Good(o, s)
    ensures Follows(o, s, GcAll(o, s, order, now))
    ensures GcAll(o, s, order, now).metas == s.metas
    decreases |order|
  {
    if order != [] {
      GcOneGood(o, s, order[0], now);
      var r := GcOne(o, s, order[0], now);
      GcAllGood(o, r, order[1..], now);
      FollowsTrans(o, s, r, GcAll(o, r, order[1..], now));
    }
  }

  lemma GcGood(o: Options, s: Registry, order: seq<Key>, now: int)
    requires Good(o, s)
    ensures Follows(o, s, Gc(o, s, order, now))
  {
    var t := GcAll(o, s, order, now);
    GcAllGood(o, s, order, now);
    forall k | k in t.svcs
      ensures k.node in DropEmpty(t).metas
    {
      assert k in NodeKeys(t, k.node);
    }
    DropGood(o, t, DropEmpty(t).metas);
    FollowsTrans(o, s, t, DropEmpty(t));
  }

  /** One operation of any kind keeps the invariant and only appends to the log. */
  lemma StepGood(o: Options, s: Registry, op: Op, now: int, t: Registry)
    requires o.defaultTTL > 0 && Good(o, s) && Step(o, s, op, now, t)
    ensures Follows(o, s, t)
  {
    match op
    case OpRegister(reg) => RegisterGood(o, s, reg, now);
    case OpMerge(es) => MergeGood(o, s, es, now);
    case OpRenew(n, ids) => RenewGood(o, s, n, ids, now);
    case OpFail(k) =>
      if Held(s, k) && !s.svcs[k].failed {
        PublishGood(o, s, k, s.svcs[k].(failed := true), now);
      }
    case OpSetMaintenance(k, enabled) =>
      if Held(s, k) && s.svcs[k].maintenance != enabled {
        PublishGood(o, s, k, s.svcs[k].(maintenance := enabled), now);
      }
    case OpDeregister(n) =>
      var order :| Enumerates(order, NodeKeys(s, n)) && t == Deregister(s, n, order).0;
      DeregisterGood(o, s, n, order);
    case OpDeregisterService(k) => DeregisterServiceGood(o, s, k);
    case OpLookup(_) =>
    case OpGc =>
      var order :| Enumerates(order, s.svcs.Keys) && t == Gc(o, s, order, now);
      GcGood(o, s, order, now);
  }

  // ---- main results over runs ----

  lemma {:induction false} RunFollows(o: Options, s: Registry, ops: seq<Timed>, t: Registry)
    requires o.defaultTTL > 0 && Good(o, s) && Reaches(o, s, ops, t)
    ensures Follows(o, s, t)
    decreases |ops|
  {
    if ops != [] {
      var m :| Step(o, s, ops[0].op, ops[0].now, m) && Reaches(o, m, ops[1..], t);
      StepGood(o, s, ops[0].op, ops[0].now, m);
      RunFollows(o, m, ops[1..], t);
      FollowsTrans(o, s, m, t);
    }
  }

  lemma RunGood(o: Options, ops: seq<Timed>, t: Registry)
    requires o.defaultTTL > 0 && Reaches(o, Init(o), ops, t)
    ensures Good(o, t)
  {
    InitGood(o);
    RunFollows(o, Init(o), ops, t);
  }

  /** Event replay: after any run, folding all emitted events from nothing gives exactly the
      live instances, with their definitions, maintenance flags and indexes. */
  lemma EventReplay(o: Options, ops: seq<Timed>, t: Registry)
    requires o.defaultTTL > 0 && Reaches(o, Init(o), ops, t)
    ensures Replay(map[], t.log).Keys == t.svcs.Keys
    ensures forall k | k in t.svcs :: Replay(map[], t.log)[k] == SeenService(t.svcs[k])
  {
    RunGood(o, ops, t);
  }

  /** Gap-free indexing: the n-th event of a run carries index start + n, and every live
      instance was created and last changed at one of those indexes, no two at the same. */
  lemma GapFreeIndexes(o: Options, ops: seq<Timed>, t: Registry)
    requires o.defaultTTL > 0 && Reaches(o, Init(o), ops, t)
    ensures t.index == o.startIndex + |t.log|
    ensures forall n | 0 <= n < |t.log| :: t.log[n].index == o.startIndex + 1 + n
    ensures forall k | k in t.svcs :: o.startIndex < t.svcs[k].createIndex <= t.svcs[k].modifyIndex <= t.index
    ensures forall j, k | j in t.svcs && k in t.svcs && j != k :: t.svcs[j].modifyIndex != t.svcs[k].modifyIndex
  {
    RunGood(o, ops, t);
  }

  /** No silent change: if the index did not move while `later` ran, then the same instances
      are live, with the same definitions (up to the heartbeat time), maintenance flags and
      indexes. */
  lemma VisibleChangeRaisesIndex(o: Options, ops: seq<Timed>, s: Registry, later: seq<Timed>, t: Registry)
    requires o.defaultTTL > 0 && Reaches(o, Init(o), ops, s) && Reaches(o, s, later, t)
    ensures s.index <= t.index
    ensures Projection(s) != Projection(t) ==> s.index < t.index
  {
    RunGood(o, ops, s);
    RunFollows(o, s, later, t);
    if s.index == t.index {
      assert s.log == t.log;
    }
  }
}
