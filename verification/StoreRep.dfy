/** How the store's two-level node map and name index represent a flat registry, and how the
    representation follows each elementary update and walk. */
module StoreRep {
  import opened Model
  import opened Order
  import S = StoreSpec
  import opened StoreInvariants
  import opened StoreGc

  type Service = S.Service
  type Registry = S.Registry

  datatype NodeRec = NodeRec(meta: Node, services: map<string, Service>)

  type Nodes = map<string, NodeRec>
  type NameIndex = map<string, set<Key>>

  function Found(nodes: Nodes, k: Key): Option<Service> {
    if k.node in nodes && k.service in nodes[k.node].services then Some(nodes[k.node].services[k.service]) else None
  }

  function Stored(svcs: map<Key, Service>, k: Key): Option<Service> {
    if k in svcs then Some(svcs[k]) else None
  }

  /** The two-level map holds exactly these nodes. */
  ghost predicate HoldsNodes(nodes: Nodes, metas: map<string, Node>) {
    && nodes.Keys == metas.Keys
    && forall n | n in nodes :: nodes[n].meta == metas[n]
  }

  /** The two-level map holds exactly these instances. */
  ghost predicate HoldsServices(nodes: Nodes, svcs: map<Key, Service>) {
    forall k :: Found(nodes, k) == Stored(svcs, k)
  }

  predicate Under(byName: NameIndex, name: string, k: Key) {
    name in byName && k in byName[name]
  }

  /** The name index is the exact inverse of the stored names, with no empty bucket. */
  ghost predicate Inverts(byName: NameIndex, svcs: map<Key, Service>) {
    && (forall name, k :: Under(byName, name, k) <==> k in svcs && svcs[k].def.name == name)
    && (forall name | name in byName :: byName[name] != {})
  }

  // ---- how the representation follows the elementary updates ----

  function Put(nodes: Nodes, k: Key, svc: Service): Nodes
    requires k.node in nodes
  {
    nodes[k.node := nodes[k.node].(services := nodes[k.node].services[k.service := svc])]
  }

  lemma PutHolds(nodes: Nodes, svcs: map<Key, Service>, k: Key, svc: Service)
    requires HoldsServices(nodes, svcs) && k.node in nodes
    ensures HoldsServices(Put(nodes, k, svc), svcs[k := svc])
  {
    forall j
      ensures Found(Put(nodes, k, svc), j) == Stored(svcs[k := svc], j)
    {
      assert Found(nodes, j) == Stored(svcs, j);
    }
  }

  function Remove(nodes: Nodes, k: Key): Nodes
    requires k.node in nodes
  {
    nodes[k.node := nodes[k.node].(services := nodes[k.node].services - {k.service})]
  }

  lemma RemoveHolds(nodes: Nodes, svcs: map<Key, Service>, k: Key)
    requires HoldsServices(nodes, svcs) && k.node in nodes
    ensures HoldsServices(Remove(nodes, k), svcs - {k})
  {
    forall j
      ensures Found(Remove(nodes, k), j) == Stored(svcs - {k}, j)
    {
      assert Found(nodes, j) == Stored(svcs, j);
    }
  }

  lemma SameName(byName: NameIndex, svcs: map<Key, Service>, k: Key, svc: Service)
    requires Inverts(byName, svcs) && k in svcs && svcs[k].def.name == svc.def.name
    ensures Inverts(byName, svcs[k := svc])
  {
    assert forall name :: Under(byName, name, k) <==> k in svcs && svcs[k].def.name == name;
  }

  ghost predicate Renamed(before: NameIndex, after: NameIndex, name: string, k: Key, present: bool) {
    && (forall m, j :: Under(after, m, j) <==> if m == name && j == k then present else Under(before, m, j))
    && ((forall m | m in before :: before[m] != {}) ==> forall m | m in after :: after[m] != {})
  }

  lemma AddName(before: NameIndex, after: NameIndex, svcs: map<Key, Service>, k: Key, svc: Service)
    requires Inverts(before, svcs) && k !in svcs
    requires Renamed(before, after, svc.def.name, k, true)
    ensures Inverts(after, svcs[k := svc])
  {
  }

  lemma DropName(before: NameIndex, after: NameIndex, svcs: map<Key, Service>, k: Key)
    requires Inverts(before, svcs) && k in svcs
    requires Renamed(before, after, svcs[k].def.name, k, false)
    ensures Inverts(after, svcs - {k})
  {
  }

  /** The instances of one node, as keys. */
  lemma {:induction false} KeysOfNode(n: string, ids: set<string>)
    ensures |set id | id in ids :: Key(n, id)| == |ids|
  {
    var ks := set id | id in ids :: Key(n, id);
    if ids != {} {
      var x :| x in ids;
      KeysOfNode(n, ids - {x});
      var less := set id | id in ids - {x} :: Key(n, id);
      assert ks == less + {Key(n, x)};
      assert Key(n, x) !in less;
    }
  }

  lemma SameSize(svcs: map<Key, Service>, k: Key, svc: Service)
    requires k in svcs
    ensures |svcs[k := svc]| == |svcs|
  {
    assert svcs[k := svc].Keys == svcs.Keys;
    assert |svcs.Keys| == |svcs|;
  }

  /** Having applied some already, merging the rest leads to `goal`. */
  ghost predicate MergesOn(
    o: S.Options, s: Registry, es: seq<ServiceEntry>, now: int, applied: nat, goal: (Registry, nat))
  {
    goal == (S.Merge(o, s, es, now).0, applied + S.Merge(o, s, es, now).1)
  }

  lemma MergeRest(
    o: S.Options, s: Registry, es: seq<ServiceEntry>, i: nat, now: int, applied: nat, goal: (Registry, nat))
    requires i < |es|
    requires MergesOn(o, s, es[i..], now, applied, goal)
    ensures var r := S.MergeOne(o, s, es[i], now);
            MergesOn(o, r.0, es[i + 1..], now, applied + r.1, goal)
  {
    assert es[i..][1..] == es[i + 1..];
  }

  lemma NodeIds(nodes: Nodes, s: Registry, n: string)
    requires HoldsServices(nodes, s.svcs) && n in nodes
    ensures forall id :: id in nodes[n].services <==> Key(n, id) in s.svcs
    ensures forall id :: id in nodes[n].services <==> Key(n, id) in S.NodeKeys(s, n)
    ensures nodes[n].services.Keys == {} <==> S.NodeKeys(s, n) == {}
  {
    forall id
      ensures id in nodes[n].services <==> Key(n, id) in s.svcs
    {
      assert Found(nodes, Key(n, id)) == Stored(s.svcs, Key(n, id));
    }
    assert forall k | k in S.NodeKeys(s, n) :: k == Key(n, k.service) && k.service in nodes[n].services.Keys;
    assert forall id | id in nodes[n].services.Keys :: Key(n, id) in S.NodeKeys(s, n);
  }

  lemma EachHeld(nodes: Nodes, s: Registry)
    requires HoldsNodes(nodes, s.metas) && HoldsServices(nodes, s.svcs)
    ensures forall k | k in s.svcs :: k.node in s.metas
  {
    forall k | k in s.svcs
      ensures k.node in s.metas
    {
      assert Found(nodes, k) == Stored(s.svcs, k);
    }
  }

  lemma EnumeratesSnoc(order: seq<Key>, ks: set<Key>, k: Key)
    requires S.Enumerates(order, ks) && k !in ks
    ensures S.Enumerates(order + [k], ks + {k})
  {
    assert multiset(ks + {k}) == multiset(ks) + multiset{k};
  }

  lemma EnumeratesConcat(a: seq<Key>, ka: set<Key>, b: seq<Key>, kb: set<Key>)
    requires S.Enumerates(a, ka) && S.Enumerates(b, kb) && ka !! kb
    ensures S.Enumerates(a + b, ka + kb)
  {
    assert multiset(ka + kb) == multiset(ka) + multiset(kb);
  }

  lemma {:induction false} WithdrawAllAppend(s: Registry, order: seq<Key>, k: Key)
    requires S.Held(S.WithdrawAll(s, order), k)
    ensures S.WithdrawAll(s, order + [k]) == S.Withdraw(S.WithdrawAll(s, order), k)
    decreases |order|
  {
    if order == [] {
      assert [k][1..] == [];
    } else {
      assert (order + [k])[1..] == order[1..] + [k];
      WithdrawAllAppend(if S.Held(s, order[0]) then S.Withdraw(s, order[0]) else s, order[1..], k);
    }
  }

  lemma WithdrawnNode(s: Registry, n: string, order: seq<Key>)
    requires forall k | k in s.svcs :: k.node in s.metas
    requires S.Enumerates(order, S.NodeKeys(s, n))
    ensures S.NodeKeys(S.WithdrawAll(s, order), n) == {}
  {
    WithdrawAllKeys(s, order);
    EnumeratesElements(order, S.NodeKeys(s, n));
  }

  /** The instances of `n` outside `todo`. */
  function Visited(s: Registry, n: string, todo: set<string>): set<Key> {
    set k | k in S.NodeKeys(s, n) && k.service !in todo
  }

  lemma NoneVisited(s: Registry, n: string, todo: set<string>)
    requires forall id :: id in todo <==> Key(n, id) in S.NodeKeys(s, n)
    ensures Visited(s, n, todo) == {}
  {
    assert forall k | k in S.NodeKeys(s, n) :: k == Key(n, k.service);
  }

  lemma AllVisited(s: Registry, n: string)
    ensures Visited(s, n, {}) == S.NodeKeys(s, n)
  {
  }

  lemma VisitedNext(s: Registry, n: string, todo: set<string>, id: string)
    requires id in todo && Key(n, id) in S.NodeKeys(s, n)
    ensures Visited(s, n, todo - {id}) == Visited(s, n, todo) + {Key(n, id)}
  {
    assert forall k | k in S.NodeKeys(s, n) :: k == Key(n, k.service);
  }

  /** The registry with the instances of `n` outside `todo` renewed. */
  function PartlyRenewed(s: Registry, n: string, todo: set<string>, now: int): Registry {
    s.(svcs := map k | k in s.svcs ::
      if k.node == n && k.service !in todo then s.svcs[k].(def := s.svcs[k].def.(lastSeen := now), failed := false)
      else s.svcs[k])
  }

  lemma NoneRenewed(s: Registry, n: string, todo: set<string>, now: int)
    requires forall id :: id in todo <==> Key(n, id) in s.svcs
    ensures PartlyRenewed(s, n, todo, now) == s
  {
    assert forall k | k in s.svcs && k.node == n :: k == Key(n, k.service);
    assert PartlyRenewed(s, n, todo, now).svcs == s.svcs;
  }

  lemma RenewedNext(s: Registry, n: string, todo: set<string>, id: string, now: int)
    requires id in todo && Key(n, id) in s.svcs
    ensures S.Refresh(PartlyRenewed(s, n, todo, now), Key(n, id), false, now) == PartlyRenewed(s, n, todo - {id}, now)
  {
    var a := S.Refresh(PartlyRenewed(s, n, todo, now), Key(n, id), false, now);
    var b := PartlyRenewed(s, n, todo - {id}, now);
    forall k | k in s.svcs
      ensures a.svcs[k] == b.svcs[k]
    {
      assert k.node == n && k.service == id <==> k == Key(n, id);
    }
    assert a.svcs == b.svcs;
  }

  /** The instances of nodes outside `todo`. */
  function Done(s: Registry, todo: set<string>): set<Key> {
    set k | k in s.svcs && k.node !in todo
  }

  lemma DoneNext(s: Registry, todo: set<string>, n: string)
    requires n in todo
    ensures Done(s, todo - {n}) == Done(s, todo) + S.NodeKeys(s, n) && Done(s, todo) !! S.NodeKeys(s, n)
  {
  }

  lemma Assoc(a: seq<ChangeEvent>, b: seq<ChangeEvent>, c: seq<ChangeEvent>)
    ensures a + b + c == a + (b + c)
  {
  }

  // ---- a sweep that has finished with all nodes outside `todo` ----

  /** `t` is the sweep of `s` over `order`, minus the nodes outside `todo` left empty. */
  ghost predicate PartlySwept(o: S.Options, s: Registry, order: seq<Key>, now: int, t: Registry, todo: set<string>) {
    t == S.GcAll(o, s, order, now).(metas := t.metas) && Kept(s, t, todo)
  }

  ghost predicate Kept(s: Registry, t: Registry, todo: set<string>) {
    && (forall n :: n in t.metas <==> n in s.metas && (n in todo || S.NodeKeys(t, n) != {}))
    && (forall n | n in t.metas :: t.metas[n] == s.metas[n])
  }

  lemma KeptNext(s: Registry, t: Registry, u: Registry, todo: set<string>, n: string)
    requires Kept(s, t, todo) && n in todo && u.metas == t.metas
    requires forall m | m != n :: S.NodeKeys(u, m) == S.NodeKeys(t, m)
    ensures Kept(s, if S.NodeKeys(u, n) == {} then S.DropNode(u, n) else u, todo - {n})
  {
    var v := if S.NodeKeys(u, n) == {} then S.DropNode(u, n) else u;
    forall m
      ensures m in v.metas <==> m in s.metas && (m in todo - {n} || S.NodeKeys(v, m) != {})
    {
      assert S.NodeKeys(v, m) == S.NodeKeys(u, m);
    }
  }

  /** Sweeping does not look at other nodes' records. */
  lemma {:induction false} GcAllFrame(
    o: S.Options, s: Registry, metas: map<string, Node>, order: seq<Key>, now: int, n: string)
    requires n in metas && n in s.metas && metas[n] == s.metas[n]
    requires forall k | k in order :: k.node == n
    ensures S.GcAll(o, s.(metas := metas), order, now) == S.GcAll(o, s, order, now).(metas := metas)
    decreases |order|
  {
    if order != [] {
      assert order[0] in order && forall k | k in order[1..] :: k in order;
      var m := S.GcOne(o, s, order[0], now);
      assert S.GcOne(o, s.(metas := metas), order[0], now) == m.(metas := metas);
      GcAllFrame(o, m, metas, order[1..], now, n);
    }
  }

  lemma SweepNode(
    o: S.Options, s: Registry, order: seq<Key>, now: int, t: Registry, todo: set<string>, n: string, here: seq<Key>)
    requires PartlySwept(o, s, order, now, t, todo) && n in todo && n in t.metas
    requires S.Enumerates(order, Done(s, todo)) && S.Enumerates(here, S.NodeKeys(t, n))
    ensures S.Enumerates(order + here, Done(s, todo - {n}))
    ensures var u := S.GcAll(o, t, here, now);
            PartlySwept(o, s, order + here, now, if S.NodeKeys(u, n) == {} then S.DropNode(u, n) else u, todo - {n})
  {
    StillToSweep(o, s, order, now, t, todo, n);
    DoneNext(s, todo, n);
    EnumeratesConcat(order, Done(s, todo), here, S.NodeKeys(s, n));
    SweepBoth(o, s, order, now, t, n, here);
    OtherNodes(o, t, here, now, n);
    SweepMetas(o, t, here, now);
    KeptNext(s, t, S.GcAll(o, t, here, now), todo, n);
  }

  /** The instances of a node still to be swept are untouched so far. */
  lemma StillToSweep(
    o: S.Options, s: Registry, order: seq<Key>, now: int, t: Registry, todo: set<string>, n: string)
    requires PartlySwept(o, s, order, now, t, todo) && n in todo
    requires S.Enumerates(order, Done(s, todo))
    ensures S.NodeKeys(t, n) == S.NodeKeys(s, n)
  {
    EnumeratesElements(order, Done(s, todo));
    forall k: Key | k.node == n
      ensures k in S.NodeKeys(t, n) <==> k in S.NodeKeys(s, n)
    {
      GcAllSkips(o, s, order, now, k);
    }
  }

  lemma SweepBoth(o: S.Options, s: Registry, order: seq<Key>, now: int, t: Registry, n: string, here: seq<Key>)
    requires t == S.GcAll(o, s, order, now).(metas := t.metas)
    requires n in t.metas && n in s.metas && t.metas[n] == s.metas[n]
    requires S.Enumerates(here, S.NodeKeys(t, n))
    ensures S.GcAll(o, t, here, now) == S.GcAll(o, s, order + here, now).(metas := t.metas)
  {
    EnumeratesElements(here, S.NodeKeys(t, n));
    SweepMetas(o, s, order, now);
    GcAllConcat(o, s, order, here, now);
    GcAllFrame(o, S.GcAll(o, s, order, now), t.metas, here, now, n);
  }

  lemma OtherNodes(o: S.Options, t: Registry, here: seq<Key>, now: int, n: string)
    requires S.Enumerates(here, S.NodeKeys(t, n))
    ensures forall m | m != n :: S.NodeKeys(S.GcAll(o, t, here, now), m) == S.NodeKeys(t, m)
  {
    var u := S.GcAll(o, t, here, now);
    EnumeratesElements(here, S.NodeKeys(t, n));
    forall k: Key | k.node != n
      ensures k in u.svcs <==> k in t.svcs
    {
      GcAllSkips(o, t, here, now, k);
    }
  }

  lemma SweepNext(o: S.Options, s: Registry, order: seq<Key>, done: set<Key>, now: int, k: Key)
    requires S.Enumerates(order, done) && k !in done && k in s.svcs
    ensures k in S.GcAll(o, s, order, now).svcs
    ensures S.Enumerates(order + [k], done + {k})
    ensures S.GcAll(o, s, order + [k], now) == S.GcOne(o, S.GcAll(o, s, order, now), k, now)
  {
    EnumeratesElements(order, done);
    GcAllSkips(o, s, order, now, k);
    GcAllAppend(o, s, order, k, now);
    EnumeratesSnoc(order, done, k);
  }

  lemma SweepStarts(o: S.Options, s: Registry, todo: set<string>, now: int)
    requires todo == s.metas.Keys && forall k | k in s.svcs :: k.node in s.metas
    ensures S.Enumerates([], Done(s, todo)) && PartlySwept(o, s, [], now, s, todo)
  {
    assert Done(s, todo) == {};
  }

  lemma FullySwept(o: S.Options, s: Registry, order: seq<Key>, now: int, t: Registry)
    requires PartlySwept(o, s, order, now, t, {}) && S.Enumerates(order, Done(s, {}))
    ensures t == S.Gc(o, s, order, now) && S.Enumerates(order, s.svcs.Keys)
  {
    assert Done(s, {}) == s.svcs.Keys;
    SweepMetas(o, s, order, now);
    assert t.metas == S.Gc(o, s, order, now).metas;
  }

  // ---- collecting the entries of a scan ----

  /** `out` holds the visible entries among `seen`, each once. */
  ghost predicate Collected(out: seq<ServiceEntry>, vis: map<Key, ServiceEntry>, seen: set<Key>) {
    forall e: ServiceEntry ::
      multiset(out)[e] == if e.Id() in seen && e.Id() in vis && vis[e.Id()] == e then 1 else 0
  }

  lemma CollectNext(out: seq<ServiceEntry>, vis: map<Key, ServiceEntry>, seen: set<Key>, k: Key)
    requires Collected(out, vis, seen) && k !in seen && Keyed(vis)
    ensures Collected(if k in vis then out + [vis[k]] else out, vis, seen + {k})
  {
  }

  lemma CollectVisited(
    out: seq<ServiceEntry>, vis: map<Key, ServiceEntry>, seen: set<Key>, s: Registry, n: string, ids: set<string>,
    id: string)
    requires Keyed(vis) && seen !! S.NodeKeys(s, n) && id in ids && Key(n, id) in S.NodeKeys(s, n)
    requires Collected(out, vis, seen + Visited(s, n, ids))
    ensures Collected(if Key(n, id) in vis then out + [vis[Key(n, id)]] else out, vis, seen + Visited(s, n, ids - {id}))
  {
    CollectNext(out, vis, seen + Visited(s, n, ids), Key(n, id));
    VisitedNext(s, n, ids, id);
    assert seen + Visited(s, n, ids) + {Key(n, id)} == seen + Visited(s, n, ids - {id});
  }
}
