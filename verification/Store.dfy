/** The in-memory store itself: a two-level node map with a secondary name index, updated in
    place, proved to do what StoreSpec says. `spec` is the flat registry it represents. */
module Store {
  import opened Model
  import opened Order
  import opened StoreInvariants
  import opened StoreRep

  class Memory {
    const opts: S.Options
    var nodes: Nodes
    var byName: NameIndex
    var index: nat
    /** Everything handed to OnChange so far. */
    var emitted: seq<ChangeEvent>
    ghost var spec: Registry

    /** The fields represent `spec`, with `pending` events not yet emitted. */
    ghost predicate Rep(pending: seq<ChangeEvent>)
      reads this
    {
      && HoldsNodes(nodes, spec.metas)
      && HoldsServices(nodes, spec.svcs)
      && Inverts(byName, spec.svcs)
      && index == spec.index
      && emitted + pending == spec.log
    }

    ghost predicate Valid()
      reads this
    {
      Rep([]) && opts.defaultTTL > 0 && Good(opts, spec)
    }

    constructor (options: S.Options)
      ensures Valid() && spec == S.Init(opts)
      ensures opts == options.(defaultTTL := if options.defaultTTL <= 0 then 30_000_000_000 else options.defaultTTL)
    {
      opts := S.Normalized(options);
      nodes, byName, index, emitted := map[], map[], options.startIndex, [];
      spec := S.Init(S.Normalized(options));
      new;
      InitGood(opts);
    }

    method SizeLocked() returns (size: nat)
      requires HoldsServices(nodes, spec.svcs)
      ensures size == |spec.svcs|
    {
      size := 0;
      var todo := nodes.Keys;
      ghost var seen: set<Key> := {};
      while todo != {}
        invariant todo <= nodes.Keys
        invariant seen == set k | k in spec.svcs && k.node in nodes.Keys - todo
        invariant size == |seen|
        decreases todo
      {
        var n :| n in todo;
        ghost var here := set id | id in nodes[n].services.Keys :: Key(n, id);
        KeysOfNode(n, nodes[n].services.Keys);
        forall k
          ensures k in here <==> k in spec.svcs && k.node == n
        {
          assert Found(nodes, k) == Stored(spec.svcs, k);
          assert k.node == n ==> k == Key(n, k.service);
        }
        seen := seen + here;
        size := size + |nodes[n].services|;
        todo := todo - {n};
      }
      forall k | k in spec.svcs
        ensures k in seen
      {
        assert Found(nodes, k) == Stored(spec.svcs, k);
      }
      assert seen == spec.svcs.Keys;
    }

    method IndexName(k: Key, name: string)
      modifies this`byName
      ensures Renamed(old(byName), byName, name, k, true)
    {
      if name !in byName {
        byName := byName[name := {}];
      }
      byName := byName[name := byName[name] + {k}];
    }

    method UnindexName(k: Key, name: string)
      modifies this`byName
      ensures Renamed(old(byName), byName, name, k, false)
    {
      if name !in byName {
        return;
      }
      var rest := byName[name] - {k};
      byName := byName[name := rest];
      if |rest| == 0 {
        byName := byName - {name};
      }
    }

    method Next() returns (idx: nat)
      modifies this`index
      ensures idx == index == old(index) + 1
    {
      index := index + 1;
      idx := index;
    }

    /** Brings the name index in line with storing `svc` under `k`. */
    method Reindex(k: Key, svc: Service)
      requires HoldsServices(nodes, spec.svcs) && Inverts(byName, spec.svcs) && k.node in nodes
      modifies this`byName
      ensures Inverts(byName, spec.svcs[k := svc])
    {
      assert Found(nodes, k) == Stored(spec.svcs, k);
      ghost var before := byName;
      if k.service !in nodes[k.node].services {
        IndexName(k, svc.def.name);
        AddName(before, byName, spec.svcs, k, svc);
      } else {
        var oldName := nodes[k.node].services[k.service].def.name;
        if oldName != svc.def.name {
          UnindexName(k, oldName);
          DropName(before, byName, spec.svcs, k);
          ghost var between := byName;
          IndexName(k, svc.def.name);
          AddName(between, byName, spec.svcs - {k}, k, svc);
          assert (spec.svcs - {k})[k := svc] == spec.svcs[k := svc];
        } else {
          SameName(byName, spec.svcs, k, svc);
        }
      }
    }

    /** Stores `svc` at the next index and returns its put event; the shared tail of every
        branch that adds or redefines an instance. */
    method PutService(k: Key, svc: Service, now: int, ghost pending: seq<ChangeEvent>) returns (ev: ChangeEvent)
      requires Rep(pending) && k.node in nodes
      modifies this`nodes, this`byName, this`index, this`spec
      ensures Rep(pending + [ev]) && spec == S.Publish(old(spec), k, svc, now)
      ensures nodes.Keys == old(nodes).Keys
    {
      var idx := Next();
      var v := svc.(modifyIndex := idx);
      PutHolds(nodes, spec.svcs, k, v);
      Reindex(k, v);
      nodes := Put(nodes, k, v);
      ev := S.PutEvent(nodes[k.node].meta, v, now);
      spec := S.Publish(spec, k, svc, now);
    }

    /** Takes an instance out at the next index and returns its delete event. The node
        record stays, possibly empty. */
    method DropService(k: Key, ghost pending: seq<ChangeEvent>) returns (ev: ChangeEvent)
      requires Rep(pending) && S.Held(spec, k)
      modifies this`nodes, this`byName, this`index, this`spec
      ensures Rep(pending + [ev]) && spec == S.Withdraw(old(spec), k)
      ensures nodes.Keys == old(nodes).Keys
    {
      var idx := Next();
      assert Found(nodes, k) == Stored(spec.svcs, k);
      var svc := nodes[k.node].services[k.service];
      ev := S.DeleteEvent(nodes[k.node].meta, svc.(modifyIndex := idx));
      RemoveHolds(nodes, spec.svcs, k);
      nodes := Remove(nodes, k);
      ghost var before := byName;
      UnindexName(k, svc.def.name);
      DropName(before, byName, spec.svcs, k);
      spec := S.Withdraw(spec, k);
    }

    method RefreshService(k: Key, failed: bool, now: int, ghost pending: seq<ChangeEvent>)
      requires Rep(pending) && k in spec.svcs
      modifies this`nodes, this`spec
      ensures Rep(pending) && spec == S.Refresh(old(spec), k, failed, now)
      ensures nodes.Keys == old(nodes).Keys
    {
      assert Found(nodes, k) == Stored(spec.svcs, k);
      var svc := nodes[k.node].services[k.service];
      var v := svc.(def := svc.def.(lastSeen := now), failed := failed);
      PutHolds(nodes, spec.svcs, k, v);
      SameName(byName, spec.svcs, k, v);
      nodes := Put(nodes, k, v);
      spec := S.Refresh(spec, k, failed, now);
    }

    method SetMeta(n: Node, ghost pending: seq<ChangeEvent>)
      requires Rep(pending)
      modifies this`nodes, this`spec
      ensures Rep(pending) && spec == S.SetMeta(old(spec), n)
    {
      ghost var was := nodes;
      if n.id !in nodes {
        nodes := nodes[n.id := NodeRec(n, map[])];
      } else {
        nodes := nodes[n.id := nodes[n.id].(meta := n)];
      }
      spec := S.SetMeta(spec, n);
      forall k
        ensures Found(nodes, k) == Stored(spec.svcs, k)
      {
        assert Found(was, k) == Stored(spec.svcs, k);
      }
    }

    method Emit(events: seq<ChangeEvent>)
      requires Rep(events)
      modifies this`emitted
      ensures Rep([])
    {
      emitted := emitted + events;
    }

    // ---- Register ----

    method Register(reg: Registration, now: int) returns (err: S.Status)
      requires Valid()
      modifies this
      ensures Valid()
      ensures (spec, err) == S.Register(opts, old(spec), reg, now)
    {
      RegisterGood(opts, spec, reg, now);
      var ok := Accepts(reg);
      if !ok {
        return S.ErrInvalid;
      }
      err := RegisterLocked(reg, now);
    }

    static method Accepts(reg: Registration) returns (ok: bool)
      ensures ok <==> S.ValidRegistration(reg)
    {
      if reg.node.id == "" {
        return false;
      }
      for i := 0 to |reg.services|
        invariant forall svc | svc in reg.services[..i] :: svc.name != ""
      {
        if reg.services[i].name == "" {
          return false;
        }
      }
      assert reg.services[..|reg.services|] == reg.services;
      ok := true;
    }

    method RegisterLocked(reg: Registration, now: int) returns (err: S.Status)
      requires Rep([]) && S.ValidRegistration(reg)
      modifies this
      ensures Rep([]) && (spec, err) == S.Register(opts, old(spec), reg, now)
    {
      var size := SizeLocked();
      var n := reg.node.id;
      SetMeta(reg.node, []);
      ghost var goal := S.RegisterAll(opts, spec, n, reg.services, reg.generation, now);
      var events: seq<ChangeEvent> := [];
      var i := 0;
      while i < |reg.services|
        invariant 0 <= i <= |reg.services|
        invariant Rep(events) && n in nodes && size == |spec.svcs|
        invariant goal == S.RegisterAll(opts, spec, n, reg.services[i..], reg.generation, now)
      {
        var def := S.Incoming(opts, reg.services[i], reg.generation, now);
        assert reg.services[i..][1..] == reg.services[i + 1..];
        var one, size', evs := RegisterInstance(n, def, size, now, events);
        size, events := size', events + evs;
        if one != S.Ok {
          Emit(events);
          return one;
        }
        i := i + 1;
      }
      Emit(events);
      err := S.Ok;
    }

    /** One service of a registration: create within the cap, redefine, or refresh. */
    method RegisterInstance(n: string, def: ServiceInstance, size: nat, now: int, ghost pending: seq<ChangeEvent>)
      returns (err: S.Status, size': nat, events: seq<ChangeEvent>)
      requires Rep(pending) && n in nodes && size == |spec.svcs|
      modifies this`nodes, this`byName, this`index, this`spec
      ensures Rep(pending + events) && n in nodes && size' == |spec.svcs|
      ensures (spec, err) == S.RegisterOne(opts, old(spec), n, def, now)
    {
      var k := Key(n, def.id);
      assert Found(nodes, k) == Stored(spec.svcs, k);
      err, size', events := S.Ok, size, [];
      if def.id !in nodes[n].services {
        if opts.maxServices > 0 && size >= opts.maxServices {
          err := S.ErrCapacity;
          return;
        }
        size' := size + 1;
        var ev := PutService(k, S.Service(def, false, false, Passing, index + 1, index + 1), now, pending);
        events := [ev];
      } else {
        var svc := nodes[n].services[def.id];
        if S.Changed(svc.def, def) {
          var ev := PutService(k, svc.(def := def, lastState := Passing), now, pending);
          events := [ev];
          SameSize(old(spec).svcs, k, spec.svcs[k]);
        } else {
          RefreshService(k, svc.failed, now, pending);
          SameSize(old(spec).svcs, k, spec.svcs[k]);
        }
      }
    }

    // ---- Merge ----

    method Merge(entries: seq<ServiceEntry>, now: int) returns (applied: nat)
      requires Valid()
      modifies this
      ensures Valid()
      ensures (spec, applied) == S.Merge(opts, old(spec), entries, now)
    {
      MergeGood(opts, spec, entries, now);
      applied := MergeLocked(entries, now);
    }

    method MergeLocked(entries: seq<ServiceEntry>, now: int) returns (applied: nat)
      requires Rep([])
      modifies this
      ensures Rep([]) && (spec, applied) == S.Merge(opts, old(spec), entries, now)
    {
      var size := SizeLocked();
      var events: seq<ChangeEvent> := [];
      applied := 0;
      var i := 0;
      ghost var goal := S.Merge(opts, spec, entries, now);
      while i < |entries|
        invariant 0 <= i <= |entries|
        invariant Rep(events) && size == |spec.svcs|
        invariant MergesOn(opts, spec, entries[i..], now, applied, goal)
      {
        size, events, applied := MergeNext(entries, i, size, events, applied, now, goal);
        i := i + 1;
      }
      assert entries[i..] == [];
      Emit(events);
    }

    /** The loop body of Merge. */
    method MergeNext(
      entries: seq<ServiceEntry>, i: nat, size: nat, events: seq<ChangeEvent>, applied: nat, now: int,
      ghost goal: (Registry, nat))
      returns (size': nat, events': seq<ChangeEvent>, applied': nat)
      requires i < |entries| && Rep(events) && size == |spec.svcs|
      requires MergesOn(opts, spec, entries[i..], now, applied, goal)
      modifies this`nodes, this`byName, this`index, this`spec
      ensures Rep(events') && size' == |spec.svcs|
      ensures MergesOn(opts, spec, entries[i + 1..], now, applied', goal)
    {
      MergeRest(opts, spec, entries, i, now, applied, goal);
      var evs;
      size', evs := MergeEntry(entries[i], size, now, events);
      events', applied' := events + evs, applied + |evs|;
    }

    /** One pulled entry: skipped, added within the cap, or adopted when it strictly wins. */
    method MergeEntry(e: ServiceEntry, size: nat, now: int, ghost pending: seq<ChangeEvent>)
      returns (size': nat, events: seq<ChangeEvent>)
      requires Rep(pending) && size == |spec.svcs|
      modifies this`nodes, this`byName, this`index, this`spec
      ensures Rep(pending + events) && size' == |spec.svcs|
      ensures (spec, |events|) == S.MergeOne(opts, old(spec), e, now)
    {
      if e.node.id == "" || e.service.id == "" {
        return size, [];
      }
      SetMeta(e.node, pending);
      size', events := MergeKnown(e.Id(), S.Clamped(opts, e.service), size, now, pending);
    }

    method MergeKnown(k: Key, def: ServiceInstance, size: nat, now: int, ghost pending: seq<ChangeEvent>)
      returns (size': nat, events: seq<ChangeEvent>)
      requires Rep(pending) && size == |spec.svcs| && k.node in nodes
      modifies this`nodes, this`byName, this`index, this`spec
      ensures Rep(pending + events) && size' == |spec.svcs|
      ensures (spec, |events|) == S.MergeInstance(opts, old(spec), k, def, now)
    {
      size', events := size, [];
      assert Found(nodes, k) == Stored(spec.svcs, k);
      if k.service !in nodes[k.node].services {
        if !(opts.maxServices > 0 && size >= opts.maxServices) {
          size' := size + 1;
          var ev := PutService(k, S.Service(def, false, false, Passing, index + 1, index + 1), now, pending);
          events := [ev];
        }
      } else {
        var svc := nodes[k.node].services[k.service];
        if def.WinsLWW(svc.def) {
          var ev := PutService(k, svc.(def := def), now, pending);
          events := [ev];
          SameSize(old(spec).svcs, k, spec.svcs[k]);
        }
      }
    }

    // ---- Renew, Fail, SetMaintenance ----

    method Renew(n: string, ids: seq<string>, now: int) returns (err: S.Status)
      requires Valid()
      modifies this
      ensures Valid()
      ensures (spec, err) == S.Renew(old(spec), n, ids, now)
    {
      RenewGood(opts, spec, n, ids, now);
      err := RenewLocked(n, ids, now);
    }

    method RenewLocked(n: string, ids: seq<string>, now: int) returns (err: S.Status)
      requires Rep([])
      modifies this`nodes, this`spec
      ensures Rep([]) && (spec, err) == S.Renew(old(spec), n, ids, now)
    {
      if n !in nodes {
        return S.ErrNotFound;
      }
      if |ids| == 0 {
        RenewWholeNode(n, now);
        return S.Ok;
      }
      ghost var goal := S.RenewEach(spec, n, ids, now);
      for i := 0 to |ids|
        invariant Rep([]) && n in nodes
        invariant goal == S.RenewEach(spec, n, ids[i..], now)
      {
        assert ids[i..][1..] == ids[i + 1..];
        assert Found(nodes, Key(n, ids[i])) == Stored(spec.svcs, Key(n, ids[i]));
        if ids[i] !in nodes[n].services {
          return S.ErrNotFound;
        }
        RefreshService(Key(n, ids[i]), false, now, []);
      }
      err := S.Ok;
    }

    method RenewWholeNode(n: string, now: int)
      requires Rep([]) && n in nodes
      modifies this`nodes, this`spec
      ensures Rep([]) && spec == S.RenewNode(old(spec), n, now)
    {
      var todo := nodes[n].services.Keys;
      ghost var was := spec;
      NodeIds(nodes, spec, n);
      NoneRenewed(spec, n, todo, now);
      while todo != {}
        invariant Rep([]) && spec == PartlyRenewed(was, n, todo, now)
        invariant forall id | id in todo :: Key(n, id) in was.svcs
        decreases todo
      {
        var id :| id in todo;
        RenewedNext(was, n, todo, id, now);
        RefreshService(Key(n, id), false, now, []);
        todo := todo - {id};
      }
    }

    method Fail(k: Key, now: int) returns (err: S.Status)
      requires Valid()
      modifies this
      ensures Valid()
      ensures (spec, err) == S.Fail(old(spec), k, now)
    {
      StepGood(opts, spec, S.OpFail(k), now, S.Fail(spec, k, now).0);
      err := FailLocked(k, now);
    }

    method FailLocked(k: Key, now: int) returns (err: S.Status)
      requires Rep([])
      modifies this
      ensures Rep([]) && (spec, err) == S.Fail(old(spec), k, now)
    {
      assert Found(nodes, k) == Stored(spec.svcs, k);
      if k.node !in nodes || k.service !in nodes[k.node].services {
        return S.ErrNotFound;
      }
      var svc := nodes[k.node].services[k.service];
      if !svc.failed {
        var ev := PutService(k, svc.(failed := true), now, []);
        Emit([ev]);
      }
      err := S.Ok;
    }

    method SetMaintenance(k: Key, enabled: bool, now: int) returns (err: S.Status)
      requires Valid()
      modifies this
      ensures Valid()
      ensures (spec, err) == S.SetMaintenance(old(spec), k, enabled, now)
    {
      StepGood(opts, spec, S.OpSetMaintenance(k, enabled), now, S.SetMaintenance(spec, k, enabled, now).0);
      err := SetMaintenanceLocked(k, enabled, now);
    }

    method SetMaintenanceLocked(k: Key, enabled: bool, now: int) returns (err: S.Status)
      requires Rep([])
      modifies this
      ensures Rep([]) && (spec, err) == S.SetMaintenance(old(spec), k, enabled, now)
    {
      assert Found(nodes, k) == Stored(spec.svcs, k);
      if k.node !in nodes || k.service !in nodes[k.node].services {
        return S.ErrNotFound;
      }
      var svc := nodes[k.node].services[k.service];
      if svc.maintenance != enabled {
        var ev := PutService(k, svc.(maintenance := enabled), now, []);
        Emit([ev]);
      }
      err := S.Ok;
    }

    // ---- Deregister, DeregisterService ----

    /** The order in which Go's map iteration visits the node's instances is not fixed;
        `order` reports the one taken. */
    method Deregister(n: string) returns (err: S.Status, ghost order: seq<Key>)
      requires Valid()
      modifies this
      ensures Valid()
      ensures S.Enumerates(order, S.NodeKeys(old(spec), n))
      ensures (spec, err) == S.Deregister(old(spec), n, order)
    {
      ghost var was := spec;
      if n !in nodes {
        assert S.NodeKeys(spec, n) == {};
        return S.ErrNotFound, [];
      }
      order := DeregisterLocked(n);
      DeregisterGood(opts, was, n, order);
      err := S.Ok;
    }

    method DeregisterLocked(n: string) returns (ghost order: seq<Key>)
      requires Rep([]) && n in nodes
      modifies this
      ensures Rep([])
      ensures S.Enumerates(order, S.NodeKeys(old(spec), n))
      ensures spec == S.DropNode(S.WithdrawAll(old(spec), order), n)
    {
      order := [];
      ghost var was := spec;
      var events: seq<ChangeEvent> := [];
      var todo := nodes[n].services.Keys;
      NodeIds(nodes, spec, n);
      NoneVisited(spec, n, todo);
      while todo != {}
        invariant Rep(events) && n in nodes
        invariant spec == S.WithdrawAll(was, order) && spec.metas == was.metas
        invariant S.Enumerates(order, Visited(was, n, todo))
        invariant forall id | id in todo :: Key(n, id) in S.NodeKeys(was, n) && Key(n, id) in spec.svcs
        decreases todo
      {
        var id :| id in todo;
        var k := Key(n, id);
        WithdrawAllAppend(was, order, k);
        EnumeratesSnoc(order, Visited(was, n, todo), k);
        VisitedNext(was, n, todo, id);
        var ev := DropService(k, events);
        events, todo, order := events + [ev], todo - {id}, order + [k];
      }
      assert Visited(was, n, todo) == S.NodeKeys(was, n);
      EachHeld(old(nodes), was);
      WithdrawnNode(was, n, order);
      ForgetNode(n, events);
      Emit(events);
    }

    /** Deletes a node record that holds nothing. */
    method ForgetNode(n: string, ghost pending: seq<ChangeEvent>)
      requires Rep(pending) && S.NodeKeys(spec, n) == {}
      modifies this`nodes, this`spec
      ensures Rep(pending) && spec == S.DropNode(old(spec), n)
    {
      ghost var full, was := nodes, spec;
      nodes := nodes - {n};
      spec := S.DropNode(spec, n);
      forall k
        ensures Found(nodes, k) == Stored(spec.svcs, k)
      {
        assert Found(full, k) == Stored(spec.svcs, k);
        assert k in spec.svcs ==> k.node != n || k in S.NodeKeys(was, n);
      }
    }

    method DeregisterService(k: Key) returns (err: S.Status)
      requires Valid()
      modifies this
      ensures Valid()
      ensures (spec, err) == S.DeregisterService(old(spec), k)
    {
      DeregisterServiceGood(opts, spec, k);
      err := DeregisterServiceLocked(k);
    }

    method DeregisterServiceLocked(k: Key) returns (err: S.Status)
      requires Rep([])
      modifies this
      ensures Rep([]) && (spec, err) == S.DeregisterService(old(spec), k)
    {
      assert Found(nodes, k) == Stored(spec.svcs, k);
      if k.node !in nodes || k.service !in nodes[k.node].services {
        return S.ErrNotFound;
      }
      var ev := DropService(k, []);
      DropIfEmpty(k.node, [ev]);
      Emit([ev]);
      err := S.Ok;
    }

    method DropIfEmpty(n: string, ghost pending: seq<ChangeEvent>)
      requires Rep(pending) && n in nodes
      modifies this`nodes, this`spec
      ensures Rep(pending)
      ensures spec == if S.NodeKeys(old(spec), n) == {} then S.DropNode(old(spec), n) else old(spec)
    {
      NodeIds(nodes, spec, n);
      if |nodes[n].services| == 0 {
        assert nodes[n].services.Keys == {};
        ForgetNode(n, pending);
      }
    }

    // ---- GC ----

    method Gc(now: int) returns (removed: nat, ghost order: seq<Key>)
      requires Valid()
      modifies this
      ensures Valid()
      ensures S.Enumerates(order, old(spec).svcs.Keys)
      ensures spec == S.Gc(opts, old(spec), order, now)
      ensures removed == |old(spec).svcs| - |spec.svcs|
    {
      ghost var was := spec;
      removed, order := GcLocked(now);
      GcGood(opts, was, order, now);
    }

    method GcLocked(now: int) returns (removed: nat, ghost order: seq<Key>)
      requires Rep([])
      modifies this
      ensures Rep([])
      ensures S.Enumerates(order, old(spec).svcs.Keys)
      ensures spec == S.Gc(opts, old(spec), order, now)
      ensures removed == |old(spec).svcs| - |spec.svcs|
    {
      var events: seq<ChangeEvent>;
      removed, events, order := SweepAll(now);
      Emit(events);
    }

    /** The outer walk over the nodes. */
    method SweepAll(now: int) returns (removed: nat, events: seq<ChangeEvent>, ghost order: seq<Key>)
      requires Rep([])
      modifies this`nodes, this`byName, this`index, this`spec
      ensures Rep(events)
      ensures S.Enumerates(order, old(spec).svcs.Keys)
      ensures spec == S.Gc(opts, old(spec), order, now)
      ensures removed == |old(spec).svcs| - |spec.svcs|
    {
      removed, events, order := 0, [], [];
      var todo := nodes.Keys;
      EachHeld(nodes, spec);
      SweepStarts(opts, spec, todo, now);
      while todo != {}
        invariant Rep(events) && todo <= nodes.Keys
        invariant S.Enumerates(order, Done(old(spec), todo)) && PartlySwept(opts, old(spec), order, now, spec, todo)
        invariant removed + |spec.svcs| == |old(spec).svcs|
        decreases todo
      {
        var n :| n in todo;
        var gone, evs, here := SweepOne(n, now, events, old(spec), order, todo);
        removed, events := removed + gone, events + evs;
        todo, order := todo - {n}, order + here;
      }
      FullySwept(opts, old(spec), order, now, spec);
    }

    /** One turn of the outer walk: sweeps a node and forgets it if that leaves it empty. */
    method SweepOne(
      n: string, now: int, ghost pending: seq<ChangeEvent>, ghost was: Registry, ghost order: seq<Key>,
      ghost todo: set<string>)
      returns (removed: nat, events: seq<ChangeEvent>, ghost here: seq<Key>)
      requires Rep(pending) && n in todo && todo <= nodes.Keys
      requires S.Enumerates(order, Done(was, todo)) && PartlySwept(opts, was, order, now, spec, todo)
      modifies this`nodes, this`byName, this`index, this`spec
      ensures Rep(pending + events) && todo - {n} <= nodes.Keys
      ensures S.Enumerates(order + here, Done(was, todo - {n}))
      ensures PartlySwept(opts, was, order + here, now, spec, todo - {n})
      ensures removed + |spec.svcs| == |old(spec).svcs|
    {
      ghost var mid := spec;
      removed, events, here := GcNode(n, now, pending);
      SweepNode(opts, was, order, now, mid, todo, n, here);
      DropIfEmpty(n, pending + events);
    }

    /** The inner walk over one node's instances. */
    method GcNode(n: string, now: int, ghost pending: seq<ChangeEvent>)
      returns (removed: nat, events: seq<ChangeEvent>, ghost order: seq<Key>)
      requires Rep(pending) && n in nodes
      modifies this`nodes, this`byName, this`index, this`spec
      ensures Rep(pending + events) && nodes.Keys == old(nodes).Keys
      ensures S.Enumerates(order, S.NodeKeys(old(spec), n))
      ensures spec == S.GcAll(opts, old(spec), order, now)
      ensures removed + |spec.svcs| == |old(spec).svcs|
    {
      removed, events, order := 0, [], [];
      ghost var was := spec;
      var todo := nodes[n].services.Keys;
      NodeIds(nodes, spec, n);
      NoneVisited(spec, n, todo);
      while todo != {}
        invariant Rep(pending + events) && nodes.Keys == old(nodes).Keys
        invariant spec == S.GcAll(opts, was, order, now)
        invariant S.Enumerates(order, Visited(was, n, todo))
        invariant forall id | id in todo :: Key(n, id) in S.NodeKeys(was, n)
        invariant removed + |spec.svcs| == |was.svcs|
        decreases todo
      {
        var id :| id in todo;
        var k := Key(n, id);
        SweepNext(opts, was, order, Visited(was, n, todo), now, k);
        VisitedNext(was, n, todo, id);
        var gone, evs := GcService(k, now, pending + events);
        Assoc(pending, events, evs);
        removed, events, todo, order := removed + gone, events + evs, todo - {id}, order + [k];
      }
      assert Visited(was, n, todo) == S.NodeKeys(was, n);
    }

    method GcService(k: Key, now: int, ghost pending: seq<ChangeEvent>) returns (removed: nat, events: seq<ChangeEvent>)
      requires Rep(pending) && k in spec.svcs
      modifies this`nodes, this`byName, this`index, this`spec
      ensures Rep(pending + events) && nodes.Keys == old(nodes).Keys
      ensures spec == S.GcOne(opts, old(spec), k, now)
      ensures removed + |spec.svcs| == |old(spec).svcs|
    {
      removed, events := 0, [];
      assert Found(nodes, k) == Stored(spec.svcs, k);
      var svc := nodes[k.node].services[k.service];
      var state := S.State(svc, now);
      if S.PastGrace(opts, svc, now) {
        var ev := DropService(k, pending);
        removed, events := 1, [ev];
        assert spec.svcs.Keys == old(spec).svcs.Keys - {k};
        assert |spec.svcs.Keys| == |spec.svcs| && |old(spec).svcs.Keys| == |old(spec).svcs|;
      } else if state != svc.lastState {
        var ev := PutService(k, svc.(lastState := state), now, pending);
        events := [ev];
        SameSize(old(spec).svcs, k, spec.svcs[k]);
      }
    }

    // ---- Lookup ----

    /** Appends the entry of `k` if it matches and is not past grace. */
    method Visit(q: Query, k: Key, now: int, out: seq<ServiceEntry>) returns (out': seq<ServiceEntry>)
      requires Rep([]) && k in spec.svcs && (q.name == "" || q.name == spec.svcs[k].def.name)
      ensures var vis := S.Visible(opts, spec, q, now); out' == if k in vis then out + [vis[k]] else out
    {
      assert Found(nodes, k) == Stored(spec.svcs, k);
      var meta, svc := nodes[k.node].meta, nodes[k.node].services[k.service];
      out' := out;
      if q.datacenter != "" && meta.datacenter != q.datacenter {
        return;
      }
      if !svc.def.MatchesTags(q.tags) {
        return;
      }
      if S.PastGrace(opts, svc, now) {
        return;
      }
      out' := out + [S.Entry(meta, svc, S.State(svc, now))];
    }

    method ScanAll(q: Query, now: int) returns (out: seq<ServiceEntry>)
      requires Rep([]) && S.WellKeyed(spec) && q.name == ""
      ensures Collected(out, S.Visible(opts, spec, q, now), spec.svcs.Keys)
    {
      out := [];
      var todo := nodes.Keys;
      assert Done(spec, todo) == {};
      while todo != {}
        invariant todo <= nodes.Keys
        invariant Collected(out, S.Visible(opts, spec, q, now), Done(spec, todo))
        decreases todo
      {
        var n :| n in todo;
        DoneNext(spec, todo, n);
        out := ScanNode(q, n, now, out, S.Visible(opts, spec, q, now), Done(spec, todo));
        todo := todo - {n};
      }
      assert Done(spec, {}) == spec.svcs.Keys;
    }

    method ScanNode(
      q: Query, n: string, now: int, out: seq<ServiceEntry>, ghost vis: map<Key, ServiceEntry>, ghost seen: set<Key>)
      returns (out': seq<ServiceEntry>)
      requires Rep([]) && q.name == "" && n in nodes && vis == S.Visible(opts, spec, q, now) && Keyed(vis)
      requires Collected(out, vis, seen) && seen !! S.NodeKeys(spec, n)
      ensures Collected(out', vis, seen + S.NodeKeys(spec, n))
    {
      out' := out;
      var ids := nodes[n].services.Keys;
      NodeIds(nodes, spec, n);
      NoneVisited(spec, n, ids);
      while ids != {}
        invariant forall id | id in ids :: Key(n, id) in S.NodeKeys(spec, n)
        invariant Collected(out', vis, seen + Visited(spec, n, ids))
        decreases ids
      {
        var id :| id in ids;
        CollectVisited(out', vis, seen, spec, n, ids, id);
        out' := Visit(q, Key(n, id), now, out');
        ids := ids - {id};
      }
      AllVisited(spec, n);
    }

    method ScanName(q: Query, now: int) returns (out: seq<ServiceEntry>)
      requires Rep([]) && S.WellKeyed(spec) && q.name != ""
      ensures Collected(out, S.Visible(opts, spec, q, now), spec.svcs.Keys)
    {
      out := [];
      ghost var vis := S.Visible(opts, spec, q, now);
      var refs := if q.name in byName then byName[q.name] else {};
      ghost var seen: set<Key> := {};
      while refs != {}
        invariant Collected(out, vis, seen) && refs !! seen
        invariant forall k :: k in refs + seen <==> Under(byName, q.name, k)
        decreases refs
      {
        var k :| k in refs;
        assert Under(byName, q.name, k);
        CollectNext(out, vis, seen, k);
        out := Visit(q, k, now, out);
        refs, seen := refs - {k}, seen + {k};
      }
      forall k | k in vis
        ensures k in seen
      {
        assert Under(byName, q.name, k);
      }
    }

    /** A lookup lists, in order, exactly the full scan filtered by name, datacenter, tags and
        lease - whether it walks every node or the name index. */
    method Lookup(q: Query, now: int) returns (res: LookupResult)
      requires Valid()
      ensures res == S.Lookup(opts, spec, q, now)
    {
      var out: seq<ServiceEntry>;
      if q.name == "" {
        out := ScanAll(q, now);
      } else {
        out := ScanName(q, now);
      }
      var sorted := SortEntries(out);
      SortedListing(S.Visible(opts, spec, q, now), sorted);
      res := LookupResult(sorted, index);
    }
  }
}
