/** What the registry's operations mean, in the fields a caller sends and sees: what a lookup
    lists, what a registration stores, what each operation answers, and what it leaves alone. */
module StoreMeaning {
  import opened Model
  import opened Order
  import opened Sets
  import opened StoreSpec
  import opened StoreInvariants
  import opened StoreEffects
  import opened Lease

  // ---- lookups ----

  /** The entry shows what is stored under its identity, and its health at `now`: passing within
      the lease, critical after it or when forced. */
  ghost predicate Shows(s: Registry, e: ServiceEntry, now: int) {
    && e.Id() in s.svcs && e.node.id in s.metas && e.node == s.metas[e.node.id]
    && var svc := s.svcs[e.Id()];
       && e.service == svc.def && e.maintenance == svc.maintenance
       && e.createIndex == svc.createIndex && e.modifyIndex == svc.modifyIndex
       && e.health == if !svc.failed && now - svc.def.lastSeen <= svc.def.ttl then Passing else Critical
  }

  /** A lookup lists an entry exactly when it shows a stored instance that is failed or within
      its TTL or TTL plus grace, and the query's name, datacenter and tags are those of the
      entry. */
  lemma LookupMeaning(o: Options, s: Registry, q: Query, now: int, e: ServiceEntry)
    requires WellKeyed(s)
    ensures e in Lookup(o, s, q, now).entries <==>
            && Shows(s, e, now)
            && (s.svcs[e.Id()].failed || now - e.service.lastSeen <= e.service.ttl
                || now - e.service.lastSeen <= e.service.ttl + o.grace)
            && (q.name == "" || q.name == e.service.name)
            && (q.datacenter == "" || q.datacenter == e.node.datacenter)
            && (forall w | w in q.tags :: w in e.service.tags)
  {
    assert forall w :: e.service.HasTag(w) <==> w in e.service.tags;
    var vis := Visible(o, s, q, now);
    assert e in Listing(vis) <==> e.Id() in vis && vis[e.Id()] == e;
  }

  /** Every lookup carries the index of the last event, counted from the start index. */
  lemma LookupIndex(o: Options, s: Registry, q: Query, now: int)
    requires Good(o, s)
    ensures Lookup(o, s, q, now).index == o.startIndex + |s.log|
    ensures s.log != [] ==> Lookup(o, s, q, now).index == s.log[|s.log| - 1].index
  {
  }

  /** The listing is in order of node id, then service id, each compared letter by letter. */
  lemma LookupOrder(o: Options, s: Registry, q: Query, now: int, i: nat, j: nat)
    requires WellKeyed(s) && i < j < |Lookup(o, s, q, now).entries|
    ensures var a, b := Lookup(o, s, q, now).entries[i], Lookup(o, s, q, now).entries[j];
            if a.node.id != b.node.id then Precedes(a.node.id, b.node.id) else Precedes(a.service.id, b.service.id)
  {
    var es := Lookup(o, s, q, now).entries;
    assert Before(Keys(es)[i], Keys(es)[j]);
    LessPrecedes(es[i].node.id, es[j].node.id);
    LessPrecedes(es[i].service.id, es[j].service.id);
  }

  // ---- what a registration stores ----

  /** The stored definition is the service as sent, with the given or derived id, the effective
      lease window, this heartbeat and this generation. Its metadata is what was sent, unless
      it has an empty value that was not sent. */
  predicate AsSent(o: Options, d: ServiceInstance, sent: ServiceInstance, generation: nat, now: int) {
    && d.id == (if sent.id == "" then sent.name else sent.id)
    && d.name == sent.name && d.address == sent.address && d.port == sent.port
    && d.tags == sent.tags && d.weights == sent.weights
    && d.lastSeen == now && d.generation == generation
    && WindowFor(o, if sent.ttl <= 0 then o.defaultTTL else sent.ttl, d.ttl)
    && (d.meta == sent.meta || exists key :: key in d.meta && d.meta[key] == "" && key !in sent.meta)
  }

  /** `ttl` is the window asked for, brought within the bounds that are set; the upper one
      wins if they cross. */
  predicate WindowFor(o: Options, asked: int, ttl: int) {
    if o.maxTTL > 0 && (asked > o.maxTTL || (o.minTTL > o.maxTTL && asked < o.minTTL)) then ttl == o.maxTTL
    else if o.minTTL > 0 && asked < o.minTTL then ttl == o.minTTL
    else ttl == asked
  }

  lemma SameMeta(a: map<string, string>, b: map<string, string>)
    requires EqualMap(a, b)
    ensures a == b || exists k :: k in a && a[k] == "" && k !in b
  {
    if forall k | k in a :: k in b {
      assert a.Keys <= b.Keys;
      SameSizeSubset(a.Keys, b.Keys);
    }
  }

  lemma OneAsSent(o: Options, s: Registry, n: string, sent: ServiceInstance, generation: nat, now: int)
    requires WellKeyed(s) && n in s.metas
    requires RegisterOne(o, s, n, Incoming(o, sent, generation, now), now).1 == Ok
    ensures var k := Key(n, EffectiveId(sent));
            var t := RegisterOne(o, s, n, Incoming(o, sent, generation, now), now).0;
            k in t.svcs && AsSent(o, t.svcs[k].def, sent, generation, now)
  {
    var k, def := Key(n, EffectiveId(sent)), Incoming(o, sent, generation, now);
    if k in s.svcs && !Changed(s.svcs[k].def, def) {
      SameMeta(s.svcs[k].def.meta, def.meta);
    }
  }

  /** No later service of the list goes by the same id. */
  predicate LastOfItsId(services: seq<ServiceInstance>, i: nat)
    requires i < |services|
  {
    forall j | i < j < |services| ::
      (if services[j].id == "" then services[j].name else services[j].id)
      != (if services[i].id == "" then services[i].name else services[i].id)
  }

  lemma OneKeyed(o: Options, s: Registry, n: string, def: ServiceInstance, now: int)
    requires WellKeyed(s) && n in s.metas && n != "" && def.id != ""
    ensures WellKeyed(RegisterOne(o, s, n, def, now).0)
  {
  }

  lemma HeadAsSent(
    o: Options, s: Registry, n: string, services: seq<ServiceInstance>, generation: nat, now: int)
    requires WellKeyed(s) && n in s.metas && services != [] && LastOfItsId(services, 0)
    requires RegisterAll(o, s, n, services, generation, now).1 == Ok
    ensures var k := Key(n, EffectiveId(services[0]));
            var t := RegisterAll(o, s, n, services, generation, now).0;
            k in t.svcs && AsSent(o, t.svcs[k].def, services[0], generation, now)
  {
    var k, rest := Key(n, EffectiveId(services[0])), services[1..];
    var r := RegisterOne(o, s, n, Incoming(o, services[0], generation, now), now);
    OneAsSent(o, s, n, services[0], generation, now);
    assert forall j | 0 <= j < |rest| :: rest[j] == services[j + 1];
    assert !Registers(rest, k.service);
    RegisterAllCarries(o, r.0, n, rest, generation, now, k);
  }

  lemma {:induction false} AllAsSent(
    o: Options, s: Registry, n: string, services: seq<ServiceInstance>, generation: nat, now: int, i: nat)
    requires WellKeyed(s) && n in s.metas && n != "" && i < |services| && LastOfItsId(services, i)
    requires forall svc | svc in services :: svc.name != ""
    requires RegisterAll(o, s, n, services, generation, now).1 == Ok
    ensures var k := Key(n, EffectiveId(services[i]));
            var t := RegisterAll(o, s, n, services, generation, now).0;
            k in t.svcs && AsSent(o, t.svcs[k].def, services[i], generation, now)
    decreases |services|
  {
    if i == 0 {
      HeadAsSent(o, s, n, services, generation, now);
    } else {
      var def, rest := Incoming(o, services[0], generation, now), services[1..];
      assert services[0] in services && forall svc | svc in rest :: svc in services;
      assert forall j | 0 <= j < |rest| :: rest[j] == services[j + 1];
      OneKeyed(o, s, n, def, now);
      AllAsSent(o, RegisterOne(o, s, n, def, now).0, n, rest, generation, now, i - 1);
    }
  }

  /** An accepted registration sets the node's record and stores every service it lists as it
      was sent; when an id is listed twice, the last one counts. */
  lemma RegisterStores(o: Options, s: Registry, reg: Registration, now: int, i: nat)
    requires WellKeyed(s) && Register(o, s, reg, now).1 == Ok
    requires i < |reg.services| && LastOfItsId(reg.services, i)
    ensures var t := Register(o, s, reg, now).0;
            var sent := reg.services[i];
            var k := Key(reg.node.id, if sent.id == "" then sent.name else sent.id);
            && reg.node.id in t.metas && t.metas[reg.node.id] == reg.node
            && k in t.svcs && AsSent(o, t.svcs[k].def, sent, reg.generation, now)
  {
    var s1 := SetMeta(s, reg.node);
    AllAsSent(o, s1, reg.node.id, reg.services, reg.generation, now, i);
    RegisterAllMetas(o, s1, reg.node.id, reg.services, reg.generation, now);
  }

  lemma {:induction false} RegisterAllMetas(
    o: Options, s: Registry, n: string, services: seq<ServiceInstance>, generation: nat, now: int)
    requires n in s.metas
    ensures RegisterAll(o, s, n, services, generation, now).0.metas == s.metas
    decreases |services|
  {
    if services != [] {
      var r := RegisterOne(o, s, n, Incoming(o, services[0], generation, now), now);
      if r.1 == Ok {
        RegisterAllMetas(o, r.0, n, services[1..], generation, now);
      }
    }
  }

  /** Registering a stored service again emits nothing and moves no index exactly when name,
      address, port, tags, weights, generation and window are the stored ones and the metadata
      compares equal; then only the heartbeat moves. */
  lemma ReRegisterSilentIff(o: Options, s: Registry, n: string, sent: ServiceInstance, generation: nat, now: int)
    requires o.defaultTTL > 0 && WellKeyed(s) && n in s.metas && Key(n, EffectiveId(sent)) in s.svcs
    ensures var k := Key(n, EffectiveId(sent));
            var d, t := s.svcs[k].def, RegisterOne(o, s, n, Incoming(o, sent, generation, now), now).0;
            && (t.index == s.index <==> t.log == s.log)
            && (t.index == s.index <==>
                && d.name == sent.name && d.address == sent.address && d.port == sent.port && d.tags == sent.tags
                && d.weights == sent.weights && d.generation == generation && EqualMap(d.meta, sent.meta)
                && WindowFor(o, if sent.ttl <= 0 then o.defaultTTL else sent.ttl, d.ttl))
            && (t.index == s.index ==> t == s.(svcs := s.svcs[k := s.svcs[k].(def := d.(lastSeen := now))]))
  {
  }

  /** A new or redefined instance starts its lease over: unless it is failed, GC at that instant
      has nothing to do for it, whatever state it had last announced. */
  lemma RegisteredIsReconciled(o: Options, s: Registry, n: string, sent: ServiceInstance, generation: nat, now: int)
    requires o.defaultTTL > 0 && WellKeyed(s) && n in s.metas
    ensures var k := Key(n, EffectiveId(sent));
            var t := RegisterOne(o, s, n, Incoming(o, sent, generation, now), now).0;
            t.index > s.index ==> k in t.svcs && (!t.svcs[k].failed ==> GcOne(o, t, k, now) == t)
  {
  }

  /** A merged instance keeps the heartbeat of the copy adopted, so a sync never extends a lease
      by itself. */
  lemma MergeKeepsHeartbeat(o: Options, s: Registry, e: ServiceEntry, now: int)
    requires e.node.id != "" && e.service.id != "" && MergeOne(o, s, e, now).1 > 0
    ensures var t := MergeOne(o, s, e, now).0;
            && e.Id() in t.svcs && t.svcs[e.Id()].def.lastSeen == e.service.lastSeen
            && t.svcs[e.Id()].def == e.service.(ttl := t.svcs[e.Id()].def.ttl)
            && WindowFor(o, if e.service.ttl <= 0 then o.defaultTTL else e.service.ttl, t.svcs[e.Id()].def.ttl)
            && t.metas[e.node.id] == e.node
  {
  }

  // ---- answers ----

  /** A registration is invalid exactly without a node id or with a nameless service. A valid one
      is accepted exactly when everything it lists is stored in the end; otherwise the registry
      has a cap and is full. */
  lemma RegisterAnswers(o: Options, s: Registry, reg: Registration, now: int)
    ensures var r := Register(o, s, reg, now);
            && (r.1 == ErrInvalid <==> reg.node.id == "" || exists svc | svc in reg.services :: svc.name == "")
            && (r.1 == ErrInvalid ==> r.0 == s)
            && r.1 != ErrNotFound
            && (r.1 == Ok ==> forall svc | svc in reg.services ::
                  Key(reg.node.id, if svc.id == "" then svc.name else svc.id) in r.0.svcs)
            && (r.1 == ErrCapacity ==>
                  && o.maxServices > 0 && |r.0.svcs| >= o.maxServices
                  && exists svc | svc in reg.services ::
                       Key(reg.node.id, if svc.id == "" then svc.name else svc.id) !in r.0.svcs)
  {
    if ValidRegistration(reg) {
      RegisterAllAnswers(o, SetMeta(s, reg.node), reg.node.id, reg.services, reg.generation, now);
    }
  }

  lemma {:induction false} RegisterAllAnswers(
    o: Options, s: Registry, n: string, services: seq<ServiceInstance>, generation: nat, now: int)
    requires n in s.metas
    ensures var r := RegisterAll(o, s, n, services, generation, now);
            && (forall k | k in s.svcs :: k in r.0.svcs)
            && (r.1 == Ok ==> forall svc | svc in services :: Key(n, EffectiveId(svc)) in r.0.svcs)
            && (r.1 != Ok ==>
                  && r.1 == ErrCapacity && o.maxServices > 0 && |r.0.svcs| >= o.maxServices
                  && exists svc | svc in services :: Key(n, EffectiveId(svc)) !in r.0.svcs)
    decreases |services|
  {
    if services != [] {
      var r := RegisterOne(o, s, n, Incoming(o, services[0], generation, now), now);
      assert services == [services[0]] + services[1..];
      if r.1 == Ok {
        assert Key(n, EffectiveId(services[0])) in r.0.svcs;
        RegisterAllAnswers(o, r.0, n, services[1..], generation, now);
      } else {
        assert services[0] in services;
      }
    }
  }

  /** A renew succeeds exactly when the node is known and every listed service is stored. */
  lemma RenewAnswers(s: Registry, n: string, ids: seq<string>, now: int)
    ensures var r := Renew(s, n, ids, now);
            && (r.1 == Ok <==> n in s.metas && forall id | id in ids :: Key(n, id) in s.svcs)
            && (r.1 == Ok || r.1 == ErrNotFound)
  {
    if n in s.metas {
      RenewEachAnswers(s, n, ids, now);
    }
  }

  lemma {:induction false} RenewEachAnswers(s: Registry, n: string, ids: seq<string>, now: int)
    ensures var r := RenewEach(s, n, ids, now);
            && (r.1 == Ok <==> forall id | id in ids :: Key(n, id) in s.svcs)
            && (r.1 == Ok || r.1 == ErrNotFound)
    decreases |ids|
  {
    if ids != [] {
      assert ids == [ids[0]] + ids[1..];
      assert ids[0] in ids;
      if Key(n, ids[0]) in s.svcs {
        var m := Refresh(s, Key(n, ids[0]), false, now);
        RenewEachAnswers(m, n, ids[1..], now);
        assert forall id :: Key(n, id) in m.svcs <==> Key(n, id) in s.svcs;
      }
    }
  }

  /** Failing, draining and deregistering succeed exactly on what is stored, and change nothing
      otherwise. */
  lemma OthersAnswer(s: Registry, k: Key, enabled: bool, n: string, order: seq<Key>, now: int)
    requires WellKeyed(s)
    ensures (Fail(s, k, now).1 == Ok <==> k in s.svcs) && (k !in s.svcs ==> Fail(s, k, now) == (s, ErrNotFound))
    ensures SetMaintenance(s, k, enabled, now).1 == Ok <==> k in s.svcs
    ensures k !in s.svcs ==> SetMaintenance(s, k, enabled, now) == (s, ErrNotFound)
    ensures DeregisterService(s, k).1 == Ok <==> k in s.svcs
    ensures k !in s.svcs ==> DeregisterService(s, k) == (s, ErrNotFound)
    ensures Deregister(s, n, order).1 == Ok <==> n in s.metas
    ensures n !in s.metas ==> Deregister(s, n, order) == (s, ErrNotFound)
  {
  }

  /** Failing a failed instance, or setting the drain flag it has, changes nothing; otherwise
      each is one index step and one event. */
  lemma FlagsIdempotent(s: Registry, k: Key, enabled: bool, now: int)
    requires WellKeyed(s) && k in s.svcs
    ensures var t := Fail(s, k, now).0;
            && (s.svcs[k].failed ==> t == s)
            && (!s.svcs[k].failed ==> t.index == s.index + 1 && |t.log| == |s.log| + 1)
            && t.svcs == s.svcs[k := t.svcs[k]] && t.svcs[k].failed && t.svcs[k].def == s.svcs[k].def
    ensures var t := SetMaintenance(s, k, enabled, now).0;
            && (s.svcs[k].maintenance == enabled ==> t == s)
            && (s.svcs[k].maintenance != enabled ==> t.index == s.index + 1 && |t.log| == |s.log| + 1)
            && t.svcs == s.svcs[k := t.svcs[k]] && t.svcs[k].maintenance == enabled && t.svcs[k].def == s.svcs[k].def
  {
  }

  // ---- removal ----

  /** Deregistering a node removes its record and exactly its instances, with one delete event
      for each. */
  lemma DeregisterRemoves(o: Options, s: Registry, n: string, order: seq<Key>)
    requires Good(o, s) && Enumerates(order, NodeKeys(s, n)) && n in s.metas
    ensures var t := Deregister(s, n, order).0;
            && (forall k :: k in t.svcs <==> k in s.svcs && k.node != n)
            && (forall k | k in t.svcs :: t.svcs[k] == s.svcs[k])
            && t.metas == s.metas - {n}
            && |t.log| == |s.log| + |NodeKeys(s, n)|
            && forall i | |s.log| <= i < |t.log| :: t.log[i].kind == ChangeDelete
  {
    EnumeratesElements(order, NodeKeys(s, n));
    WithdrawAllKeys(s, order);
    WithdrawAllGood(o, s, order);
    AllHeld(s, order);
    WithdrawAllLog(s, order);
    assert |multiset(order)| == |order| && |multiset(NodeKeys(s, n))| == |NodeKeys(s, n)|;
  }

  /** Each of `order` is stored, and listed once. */
  ghost predicate EachHeldOnce(s: Registry, order: seq<Key>) {
    && (forall k | k in order :: Held(s, k))
    && (forall i, j | 0 <= i < j < |order| :: order[i] != order[j])
  }

  lemma AllHeld(s: Registry, order: seq<Key>)
    requires WellKeyed(s) && exists ks: set<Key> :: Enumerates(order, ks) && ks <= s.svcs.Keys
    ensures EachHeldOnce(s, order)
  {
    var ks: set<Key> :| Enumerates(order, ks) && ks <= s.svcs.Keys;
    EnumeratesElements(order, ks);
    forall i, j | 0 <= i < j < |order|
      ensures order[i] != order[j]
    {
      assert order == order[..j] + [order[j]] + order[j + 1..];
      assert order[i] in order[..j];
      assert multiset(order)[order[j]] == multiset(ks)[order[j]] <= 1;
      assert multiset(order[..j])[order[j]] + 1 <= multiset(order)[order[j]];
    }
  }

  lemma {:induction false} WithdrawAllLog(s: Registry, order: seq<Key>)
    requires EachHeldOnce(s, order)
    ensures var t := WithdrawAll(s, order);
            && |t.log| == |s.log| + |order| && s.log <= t.log
            && forall i | |s.log| <= i < |t.log| :: t.log[i].kind == ChangeDelete
    decreases |order|
  {
    if order != [] {
      assert order[0] in order;
      var m, rest := Withdraw(s, order[0]), order[1..];
      forall k | k in rest
        ensures Held(m, k)
      {
        var i :| 0 <= i < |rest| && rest[i] == k;
        assert rest[i] == order[i + 1] && order[i + 1] in order;
      }
      assert forall i, j | 0 <= i < j < |rest| :: rest[i] == order[i + 1] && rest[j] == order[j + 1];
      WithdrawAllLog(m, rest);
    }
  }

  /** Deregistering a service removes exactly it, with one delete event, and its node's record
      exactly when that was its last instance. */
  lemma DeregisterServiceRemoves(s: Registry, k: Key)
    requires WellKeyed(s) && k in s.svcs
    ensures var t := DeregisterService(s, k).0;
            && t.svcs == s.svcs - {k} && t.index == s.index + 1
            && |t.log| == |s.log| + 1 && s.log <= t.log && t.log[|s.log|].kind == ChangeDelete
            && (forall n :: n in t.metas <==>
                  n in s.metas && (n != k.node || exists j :: j in s.svcs && j != k && j.node == n))
            && (forall n | n in t.metas :: t.metas[n] == s.metas[n])
  {
    var w := Withdraw(s, k);
    assert NodeKeys(w, k.node) != {} <==> exists j :: j in NodeKeys(w, k.node);
    assert forall j :: j in NodeKeys(w, k.node) <==> j in s.svcs && j != k && j.node == k.node;
  }

  // ---- events ----

  const ALL := Query("", "", [], false)

  /** A put carries exactly the entry a lookup at that instant lists, and the new index. */
  lemma PutIsListed(o: Options, s: Registry, k: Key, svc: Service, now: int)
    requires WellKeyed(s) && k.node in s.metas && k.node != "" && k.service != "" && svc.def.id == k.service
    requires !PastGrace(o, svc, now)
    ensures var t := Publish(s, k, svc, now);
            && t.index == s.index + 1 && |t.log| == |s.log| + 1 && s.log <= t.log && WellKeyed(t)
            && var ev := t.log[|s.log|];
               && ev.kind == ChangePut && ev.index == t.index && ev.entry.Id() == k
               && ev.entry in Lookup(o, t, ALL, now).entries
  {
    var t := Publish(s, k, svc, now);
    var ev := t.log[|s.log|];
    PutShows(s, k, svc, now);
    LookupMeaning(o, t, ALL, now, ev.entry);
  }

  lemma PutShows(s: Registry, k: Key, svc: Service, now: int)
    requires WellKeyed(s) && k.node in s.metas && k.node != "" && k.service != "" && svc.def.id == k.service
    ensures var t := Publish(s, k, svc, now);
            && t.index == s.index + 1 && t.log == s.log + [t.log[|s.log|]] && WellKeyed(t)
            && var ev := t.log[|s.log|];
               && ev.kind == ChangePut && ev.index == t.index && ev.entry.Id() == k && Shows(t, ev.entry, now)
               && t.svcs[k].failed == svc.failed && ev.entry.service == svc.def
  {
  }

  /** A delete carries the node's record and the definition that was stored, as critical, and
      the new index. */
  lemma DeleteIsStored(s: Registry, k: Key)
    requires Held(s, k)
    ensures var t := Withdraw(s, k);
            && t.index == s.index + 1 && |t.log| == |s.log| + 1 && s.log <= t.log
            && var ev := t.log[|s.log|];
               && ev.kind == ChangeDelete && ev.index == t.index && ev.entry.node == s.metas[k.node]
               && ev.entry.service == s.svcs[k].def && ev.entry.health == Critical
               && ev.entry.maintenance == s.svcs[k].maintenance && ev.entry.modifyIndex == t.index
  {
  }

  // ---- what operations leave alone ----

  /** Every instance of `s` is in `t` with its drain flag and creation index, and the new ones
      start without flags. */
  ghost predicate Grows(s: Registry, t: Registry) {
    && (forall k | k in s.svcs ::
          && k in t.svcs && t.svcs[k].maintenance == s.svcs[k].maintenance
          && t.svcs[k].createIndex == s.svcs[k].createIndex && (t.svcs[k].failed ==> s.svcs[k].failed))
    && (forall k | k in t.svcs && k !in s.svcs :: !t.svcs[k].maintenance && !t.svcs[k].failed)
  }

  /** `t` has no instance that `s` has not, and each with its drain flag and creation index. */
  ghost predicate Shrinks(s: Registry, t: Registry) {
    forall k | k in t.svcs ::
      && k in s.svcs && t.svcs[k].maintenance == s.svcs[k].maintenance
      && t.svcs[k].createIndex == s.svcs[k].createIndex
  }

  lemma {:induction false} RegisterGrows(
    o: Options, s: Registry, n: string, services: seq<ServiceInstance>, generation: nat, now: int)
    requires n in s.metas
    ensures Grows(s, RegisterAll(o, s, n, services, generation, now).0)
    decreases |services|
  {
    if services != [] {
      var r := RegisterOne(o, s, n, Incoming(o, services[0], generation, now), now);
      assert Grows(s, r.0);
      if r.1 == Ok {
        RegisterGrows(o, r.0, n, services[1..], generation, now);
      }
    }
  }

  lemma {:induction false} MergeGrows(o: Options, s: Registry, es: seq<ServiceEntry>, now: int)
    ensures Grows(s, Merge(o, s, es, now).0)
    decreases |es|
  {
    if es != [] {
      var m := MergeOne(o, s, es[0], now).0;
      assert Grows(s, m);
      MergeGrows(o, m, es[1..], now);
    }
  }

  lemma {:induction false} RenewGrows(s: Registry, n: string, ids: seq<string>, now: int)
    ensures Grows(s, RenewEach(s, n, ids, now).0) && RenewEach(s, n, ids, now).0.svcs.Keys == s.svcs.Keys
    decreases |ids|
  {
    if ids != [] && Key(n, ids[0]) in s.svcs {
      RenewGrows(Refresh(s, Key(n, ids[0]), false, now), n, ids[1..], now);
    }
  }

  lemma {:induction false} WithdrawShrinks(s: Registry, order: seq<Key>)
    ensures Shrinks(s, WithdrawAll(s, order))
    decreases |order|
  {
    if order != [] {
      WithdrawShrinks(if Held(s, order[0]) then Withdraw(s, order[0]) else s, order[1..]);
    }
  }

  lemma {:induction false} GcShrinks(o: Options, s: Registry, order: seq<Key>, now: int)
    ensures Shrinks(s, GcAll(o, s, order, now))
    decreases |order|
  {
    if order != [] {
      var m := GcOne(o, s, order[0], now);
      assert Shrinks(s, m);
      GcShrinks(o, m, order[1..], now);
    }
  }

  /** Only SetMaintenance on the instance changes its drain flag, to what it says; a creation
      index never changes; and only registrations and merges bring in instances, which start
      neither drained nor failed. */
  lemma StepFlags(o: Options, s: Registry, op: Op, now: int, t: Registry, k: Key)
    requires WellKeyed(s) && Step(o, s, op, now, t) && k in t.svcs
    ensures k in s.svcs ==>
              && t.svcs[k].createIndex == s.svcs[k].createIndex
              && t.svcs[k].maintenance ==
                   if op.OpSetMaintenance? && op.key == k then op.enabled else s.svcs[k].maintenance
    ensures k !in s.svcs ==> (op.OpRegister? || op.OpMerge?) && !t.svcs[k].maintenance && !t.svcs[k].failed
  {
    match op
    case OpRegister(_) => GrowStep(o, s, op, now, t);
    case OpMerge(_) => GrowStep(o, s, op, now, t);
    case OpRenew(_, _) => GrowStep(o, s, op, now, t);
    case OpFail(_) =>
    case OpSetMaintenance(_, _) =>
    case _ => ShrinkStep(o, s, op, now, t);
  }

  lemma GrowStep(o: Options, s: Registry, op: Op, now: int, t: Registry)
    requires Step(o, s, op, now, t) && (op.OpRegister? || op.OpMerge? || op.OpRenew?)
    ensures Grows(s, t) && (op.OpRenew? ==> t.svcs.Keys == s.svcs.Keys)
  {
    match op
    case OpRegister(reg) =>
      if ValidRegistration(reg) {
        RegisterGrows(o, SetMeta(s, reg.node), reg.node.id, reg.services, reg.generation, now);
      }
    case OpMerge(es) => MergeGrows(o, s, es, now);
    case OpRenew(n, ids) =>
      if n in s.metas && ids != [] {
        RenewGrows(s, n, ids, now);
      }
  }

  lemma ShrinkStep(o: Options, s: Registry, op: Op, now: int, t: Registry)
    requires Step(o, s, op, now, t) && (op.OpDeregister? || op.OpDeregisterService? || op.OpLookup? || op.OpGc?)
    ensures Shrinks(s, t)
  {
    match op
    case OpDeregister(n) =>
      var order :| Enumerates(order, NodeKeys(s, n)) && t == Deregister(s, n, order).0;
      WithdrawShrinks(s, order);
    case OpGc =>
      var order :| Enumerates(order, s.svcs.Keys) && t == Gc(o, s, order, now);
      GcShrinks(o, s, order, now);
    case _ =>
  }

}
