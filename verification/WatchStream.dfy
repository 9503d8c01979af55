/** The seed's Watch stream (internal/server): subscribe, then snapshot, then forward the
    queued and live events. A reader that folds the stream ends with the matching live set. */
module WatchStream {
  import opened Model
  import opened Order
  import opened StoreSpec
  import opened StoreInvariants
  import W = Watcher

  // ---- replay, key by key ----

  function Get(m: map<Key, Seen>, k: Key): Option<Seen> {
    if k in m then Some(m[k]) else None
  }

  lemma {:induction false} ReplayConcat(m: map<Key, Seen>, a: seq<ChangeEvent>, b: seq<ChangeEvent>)
    ensures Replay(m, a + b) == Replay(Replay(m, a), b)
    decreases |b|
  {
    if b == [] {
      assert a + b == a;
    } else {
      assert (a + b)[..|a + b| - 1] == a + b[..|b| - 1];
      ReplayConcat(m, a, b[..|b| - 1]);
    }
  }

  // ---- the events and the instances a query selects ----

  /** The events of `log` a subscription is offered. */
  function Chosen(q: Query, log: seq<ChangeEvent>): seq<ChangeEvent>
    decreases |log|
  {
    if log == [] then []
    else
      var rest := Chosen(q, log[..|log| - 1]);
      if W.Selects(q, log[|log| - 1]) then rest + [log[|log| - 1]] else rest
  }

  lemma {:induction false} ChosenConcat(q: Query, a: seq<ChangeEvent>, b: seq<ChangeEvent>)
    ensures Chosen(q, a + b) == Chosen(q, a) + Chosen(q, b)
    decreases |b|
  {
    if b == [] {
      assert a + b == a;
    } else {
      assert (a + b)[..|a + b| - 1] == a + b[..|b| - 1];
      ChosenConcat(q, a, b[..|b| - 1]);
    }
  }

  /** The datacenter each node keeps, by its id; it plays a part only for queries that name
      one. */
  type Placement = string -> string

  predicate Wanted(q: Query, dc: Placement, k: Key, x: Seen) {
    Matches(q, dc(k.node), x.def)
  }

  /** The part of `m` the query asks for. */
  function Restrict(q: Query, dc: Placement, m: map<Key, Seen>): map<Key, Seen> {
    map k | k in m && Wanted(q, dc, k, m[k]) :: m[k]
  }

  /** If the query names a datacenter, `n` is in the one it keeps. */
  predicate InPlace(q: Query, dc: Placement, n: Node) {
    q.datacenter != "" ==> n.datacenter == dc(n.id)
  }

  predicate EventsPlaced(q: Query, dc: Placement, log: seq<ChangeEvent>) {
    forall ev | ev in log :: InPlace(q, dc, ev.entry.node)
  }

  lemma PicksIsWanted(q: Query, dc: Placement, ev: ChangeEvent)
    requires InPlace(q, dc, ev.entry.node)
    ensures W.Selects(q, ev) <==> Wanted(q, dc, ev.entry.Id(), SeenEntry(ev.entry))
  {
    var a, b := ev.entry.service, SeenEntry(ev.entry).def;
    DescribesAlike(q, a, b);
  }

  /** Every event the subscription is not offered concerns a key that is not live, or whose
      live instance the query did not ask for. It fails exactly when an instance changes
      name or tags in place so that it stops matching. */
  predicate Coherent(q: Query, dc: Placement, m: map<Key, Seen>, log: seq<ChangeEvent>)
    decreases |log|
  {
    log == [] ||
    (var before, ev := log[..|log| - 1], log[|log| - 1];
     && Coherent(q, dc, m, before)
     && (!W.Selects(q, ev) ==> ev.entry.Id() !in Restrict(q, dc, Replay(m, before))))
  }

  // ---- filtering commutes with replay, and a suffix is absorbed ----

  /** Folding the offered events gives the wanted part of folding them all. */
  lemma {:induction false} FilteredReplay(q: Query, dc: Placement, m: map<Key, Seen>, log: seq<ChangeEvent>)
    requires EventsPlaced(q, dc, log) && Coherent(q, dc, m, log)
    ensures Replay(Restrict(q, dc, m), Chosen(q, log)) == Restrict(q, dc, Replay(m, log))
    decreases |log|
  {
    if log != [] {
      var before, ev := log[..|log| - 1], log[|log| - 1];
      assert log == before + [ev] && ev in log;
      FilteredReplay(q, dc, m, before);
      PicksIsWanted(q, dc, ev);
      OneMore(q, dc, Replay(m, before), ev);
      if W.Selects(q, ev) {
        ReplayAppend(Restrict(q, dc, m), Chosen(q, before), ev);
      }
    }
  }

  lemma OneMore(q: Query, dc: Placement, m: map<Key, Seen>, ev: ChangeEvent)
    requires W.Selects(q, ev) <==> Wanted(q, dc, ev.entry.Id(), SeenEntry(ev.entry))
    requires !W.Selects(q, ev) ==> ev.entry.Id() !in Restrict(q, dc, m)
    ensures Restrict(q, dc, Absorb(m, ev)) ==
            if W.Selects(q, ev) then Absorb(Restrict(q, dc, m), ev) else Restrict(q, dc, m)
  {
  }

  /** The last event of `evs` about `k`. */
  function LastOf(evs: seq<ChangeEvent>, k: Key): Option<ChangeEvent>
    decreases |evs|
  {
    if evs == [] then None
    else if evs[|evs| - 1].entry.Id() == k then Some(evs[|evs| - 1])
    else LastOf(evs[..|evs| - 1], k)
  }

  /** What a replay leaves under `k` is what the last event about it says. */
  lemma {:induction false} ReplayLast(m: map<Key, Seen>, evs: seq<ChangeEvent>, k: Key)
    ensures Get(Replay(m, evs), k) ==
            match LastOf(evs, k)
            case None => Get(m, k)
            case Some(ev) => if ev.kind == ChangePut then Some(SeenEntry(ev.entry)) else None
    ensures LastOf(evs, k).Some? ==> LastOf(evs, k).value in evs && LastOf(evs, k).value.entry.Id() == k
    decreases |evs|
  {
    if evs != [] {
      ReplayLast(m, evs[..|evs| - 1], k);
    }
  }

  lemma {:induction false} LastChosen(q: Query, evs: seq<ChangeEvent>, k: Key)
    ensures LastOf(evs, k).None? ==> LastOf(Chosen(q, evs), k).None?
    ensures LastOf(evs, k).Some? && W.Selects(q, LastOf(evs, k).value) ==> LastOf(Chosen(q, evs), k) == LastOf(evs, k)
    decreases |evs|
  {
    if evs != [] {
      var before, ev := evs[..|evs| - 1], evs[|evs| - 1];
      LastChosen(q, before, k);
      if W.Selects(q, ev) {
        assert (Chosen(q, before) + [ev])[..|Chosen(q, before)|] == Chosen(q, before);
      }
    }
  }

  predicate Told(last: Option<ChangeEvent>) {
    last.Some? && last.value.kind == ChangePut
  }

  /** No key the query does not want after `log` has a put as its last offered event: whatever
      the subscription still tells about such a key, it ends with its removal. */
  ghost predicate Settled(q: Query, dc: Placement, m: map<Key, Seen>, log: seq<ChangeEvent>) {
    forall k | k !in Restrict(q, dc, Replay(m, log)) :: !Told(LastOf(Chosen(q, log), k))
  }

  /** Events already reflected in the snapshot change nothing when they are applied to it
      again, exactly when they are settled. */
  lemma Absorbed(q: Query, dc: Placement, m: map<Key, Seen>, log: seq<ChangeEvent>)
    requires EventsPlaced(q, dc, log)
    ensures var snap := Restrict(q, dc, Replay(m, log));
            Replay(snap, Chosen(q, log)) == snap <==> Settled(q, dc, m, log)
  {
    var snap := Restrict(q, dc, Replay(m, log));
    forall k
      ensures Get(Replay(snap, Chosen(q, log)), k) == Get(snap, k) <==>
              (k !in snap ==> !Told(LastOf(Chosen(q, log), k)))
    {
      AbsorbedAt(q, dc, m, log, k);
    }
    if Settled(q, dc, m, log) {
      SameMap(Replay(snap, Chosen(q, log)), snap);
    }
  }

  lemma AbsorbedAt(q: Query, dc: Placement, m: map<Key, Seen>, log: seq<ChangeEvent>, k: Key)
    requires EventsPlaced(q, dc, log)
    ensures var snap := Restrict(q, dc, Replay(m, log));
            Get(Replay(snap, Chosen(q, log)), k) == Get(snap, k) <==>
            (k !in snap ==> !Told(LastOf(Chosen(q, log), k)))
  {
    var snap := Restrict(q, dc, Replay(m, log));
    ReplayLast(m, log, k);
    ReplayLast(snap, Chosen(q, log), k);
    LastChosen(q, log, k);
    if k in snap && LastOf(log, k).Some? {
      PicksIsWanted(q, dc, LastOf(log, k).value);
    }
  }

  /** A log that takes no wanted instance away unseen is settled. */
  lemma {:induction false} CoherentSettled(q: Query, dc: Placement, m: map<Key, Seen>, log: seq<ChangeEvent>)
    requires EventsPlaced(q, dc, log) && Coherent(q, dc, m, log)
    ensures Settled(q, dc, m, log)
    decreases |log|
  {
    if log != [] {
      var before, ev := log[..|log| - 1], log[|log| - 1];
      assert log == before + [ev] && ev in log;
      CoherentSettled(q, dc, m, before);
      PicksIsWanted(q, dc, ev);
      OneMore(q, dc, Replay(m, before), ev);
      if W.Selects(q, ev) {
        assert (Chosen(q, before) + [ev])[..|Chosen(q, before)|] == Chosen(q, before);
      }
    }
  }

  lemma SameMap(m: map<Key, Seen>, n: map<Key, Seen>)
    requires forall k :: Get(m, k) == Get(n, k)
    ensures m == n
  {
    forall k
      ensures k in m <==> k in n
      ensures k in m ==> k in n && m[k] == n[k]
    {
      assert Get(m, k) == Get(n, k);
    }
  }

  lemma {:induction false} CoherentSplit(
    q: Query, dc: Placement, m: map<Key, Seen>, a: seq<ChangeEvent>, b: seq<ChangeEvent>)
    requires Coherent(q, dc, m, a + b)
    ensures Coherent(q, dc, m, a) && Coherent(q, dc, Replay(m, a), b)
    decreases |b|
  {
    if b == [] {
      assert a + b == a;
    } else {
      assert (a + b)[..|a + b| - 1] == a + b[..|b| - 1];
      CoherentSplit(q, dc, m, a, b[..|b| - 1]);
      ReplayConcat(m, a, b[..|b| - 1]);
    }
  }

  /** A reader that holds the wanted part of `m` stays right after every prefix of `log` exactly
      when the log is coherent. */
  lemma {:induction false} RightIffCoherent(q: Query, dc: Placement, m: map<Key, Seen>, log: seq<ChangeEvent>)
    requires EventsPlaced(q, dc, log)
    ensures Coherent(q, dc, m, log) <==>
            forall n | 0 <= n <= |log| ::
              Replay(Restrict(q, dc, m), Chosen(q, log[..n])) == Restrict(q, dc, Replay(m, log[..n]))
    decreases |log|
  {
    if Coherent(q, dc, m, log) {
      forall n | 0 <= n <= |log|
        ensures Replay(Restrict(q, dc, m), Chosen(q, log[..n])) == Restrict(q, dc, Replay(m, log[..n]))
      {
        assert log == log[..n] + log[n..];
        CoherentSplit(q, dc, m, log[..n], log[n..]);
        FilteredReplay(q, dc, m, log[..n]);
      }
    } else {
      var n := |log| - 1;
      var before, ev := log[..n], log[n];
      assert log == before + [ev] && ev in log;
      assert log[..|log|] == log;
      RightIffCoherent(q, dc, m, before);
      if Coherent(q, dc, m, before) {
        FilteredReplay(q, dc, m, before);
        PicksIsWanted(q, dc, ev);
        assert Chosen(q, log) == Chosen(q, before);
        assert ev.entry.Id() in Restrict(q, dc, Replay(m, before));
        assert ev.entry.Id() !in Restrict(q, dc, Replay(m, log));
      } else {
        var p :| 0 <= p <= |before| &&
          Replay(Restrict(q, dc, m), Chosen(q, before[..p])) != Restrict(q, dc, Replay(m, before[..p]));
        assert log[..p] == before[..p];
      }
    }
  }

  /** Subscribed at `m`, snapshot after `a`: what the reader has after the snapshot, the offered
      events of `a` and those of the first `n` events of `b` is what the query wants then. */
  ghost predicate Right(q: Query, dc: Placement, m: map<Key, Seen>, a: seq<ChangeEvent>, b: seq<ChangeEvent>, n: nat)
    requires n <= |b|
  {
    Replay(Restrict(q, dc, Replay(m, a)), Chosen(q, a + b[..n])) == Restrict(q, dc, Replay(Replay(m, a), b[..n]))
  }

  ghost predicate StaysRight(q: Query, dc: Placement, m: map<Key, Seen>, a: seq<ChangeEvent>, b: seq<ChangeEvent>) {
    forall n | 0 <= n <= |b| :: Right(q, dc, m, a, b, n)
  }

  /** The stream - subscribe, snapshot, forward - is right from the moment the events up to
      the snapshot are read, exactly when those are settled and the later ones coherent. */
  lemma StreamRightIff(q: Query, dc: Placement, m: map<Key, Seen>, a: seq<ChangeEvent>, b: seq<ChangeEvent>)
    requires EventsPlaced(q, dc, a) && EventsPlaced(q, dc, b)
    ensures StaysRight(q, dc, m, a, b) <==> Settled(q, dc, m, a) && Coherent(q, dc, Replay(m, a), b)
  {
    var snap := Restrict(q, dc, Replay(m, a));
    Absorbed(q, dc, m, a);
    if Replay(snap, Chosen(q, a)) == snap {
      forall n | 0 <= n <= |b|
        ensures Right(q, dc, m, a, b, n) <==>
                Replay(snap, Chosen(q, b[..n])) == Restrict(q, dc, Replay(Replay(m, a), b[..n]))
      {
        ChosenConcat(q, a, b[..n]);
        ReplayConcat(snap, Chosen(q, a), Chosen(q, b[..n]));
      }
      RightIffCoherent(q, dc, Replay(m, a), b);
    } else {
      assert b[..0] == [] && a + [] == a;
      assert !Right(q, dc, m, a, b, 0);
    }
  }

  /** The failing family in the small: an instance re-put under a name or tags the query does
      not select stays with the reader although it no longer matches. */
  lemma InPlaceChangeLeavesStale(q: Query, dc: Placement, x: ChangeEvent, y: ChangeEvent)
    requires x.kind == y.kind == ChangePut && x.entry.Id() == y.entry.Id() && EventsPlaced(q, dc, [x, y])
    requires W.Selects(q, x) && !W.Selects(q, y)
    ensures x.entry.Id() in Replay(map[], Chosen(q, [x, y]))
    ensures x.entry.Id() !in Restrict(q, dc, Replay(map[], [x, y]))
  {
    assert [x, y][0] == x && [x, y][1] == y && [x, y][..1] == [x] && [x][..0] == [];
    assert y in [x, y];
    PicksIsWanted(q, dc, y);
    assert Chosen(q, [x]) == [x];
    assert Chosen(q, [x, y]) == [x];
    assert Replay(map[], [x]) == Absorb(map[], x);
  }

  // ---- the snapshot ----

  function Puts(es: seq<ServiceEntry>): seq<ChangeEvent> {
    seq(|es|, i requires 0 <= i < |es| => ChangeEvent(ChangePut, es[i], 0))
  }

  lemma {:induction false} PutsReplay(es: seq<ServiceEntry>, vis: map<Key, ServiceEntry>, k: Key)
    requires Keyed(vis) && forall e | e in es :: e.Id() in vis && vis[e.Id()] == e
    ensures Get(Replay(map[], Puts(es)), k) ==
            if k in vis && vis[k] in es then Some(SeenEntry(vis[k])) else None
    decreases |es|
  {
    if es != [] {
      var n := |es| - 1;
      assert es == es[..n] + [es[n]];
      assert Puts(es)[..n] == Puts(es[..n]);
      PutsReplay(es[..n], vis, k);
      assert es[n] in es;
    }
  }

  predicate NodesPlaced(q: Query, dc: Placement, s: Registry) {
    forall n | n in s.metas :: InPlace(q, dc, s.metas[n])
  }

  lemma SameWanted(q: Query, dc: Placement, k: Key, svc: Service)
    ensures Wanted(q, dc, k, SeenService(svc)) <==> Matches(q, dc(k.node), svc.def)
  {
    var a, b := svc.def, SeenService(svc).def;
    DescribesAlike(q, a, b);
  }

  /** The snapshot's puts fold to the wanted part of the registry. */
  lemma SnapshotReplay(o: Options, s: Registry, q: Query, dc: Placement, now: int)
    requires WellKeyed(s) && NoneExpired(o, s, now) && NodesPlaced(q, dc, s)
    ensures Replay(map[], Puts(Lookup(o, s, q, now).entries)) == Restrict(q, dc, Projection(s))
  {
    var vis := Visible(o, s, q, now);
    var es := Listing(vis);
    forall k
      ensures Get(Replay(map[], Puts(es)), k) == Get(Restrict(q, dc, Projection(s)), k)
    {
      PutsReplay(es, vis, k);
      SnapshotAt(o, s, q, dc, now, k);
      assert k in vis ==> vis[k].Id() == k && vis[k] in es;
    }
    SameMap(Replay(map[], Puts(es)), Restrict(q, dc, Projection(s)));
  }

  lemma SnapshotAt(o: Options, s: Registry, q: Query, dc: Placement, now: int, k: Key)
    requires WellKeyed(s) && NoneExpired(o, s, now) && NodesPlaced(q, dc, s)
    ensures var vis := Visible(o, s, q, now);
            Get(Restrict(q, dc, Projection(s)), k) == if k in vis then Some(SeenEntry(vis[k])) else None
  {
    if k in s.svcs {
      SameWanted(q, dc, k, s.svcs[k]);
    }
  }

  /** No put takes a live, wanted instance out of the query by changing it in place. */
  predicate StaysPut(q: Query, dc: Placement, m: map<Key, Seen>, log: seq<ChangeEvent>)
    decreases |log|
  {
    log == [] ||
    (var before, ev := log[..|log| - 1], log[|log| - 1];
     && StaysPut(q, dc, m, before)
     && (ev.kind == ChangePut && !W.Selects(q, ev) ==> ev.entry.Id() !in Restrict(q, dc, Replay(m, before))))
  }

  /** In a registry's log deletes never break coherence, so exactly the puts need watching. */
  lemma {:induction false} HonestCoherent(q: Query, dc: Placement, past: seq<ChangeEvent>, log: seq<ChangeEvent>)
    requires Honest(past + log) && EventsPlaced(q, dc, log)
    ensures Coherent(q, dc, Replay(map[], past), log) <==> StaysPut(q, dc, Replay(map[], past), log)
    decreases |log|
  {
    if log != [] {
      var before, ev := log[..|log| - 1], log[|log| - 1];
      assert log == before + [ev] && ev in log;
      assert (past + log)[..|past + log| - 1] == past + before;
      HonestCoherent(q, dc, past, before);
      ReplayConcat(map[], past, before);
      PicksIsWanted(q, dc, ev);
      if ev.kind == ChangeDelete {
        var live := Replay(map[], past + before);
        assert ev.entry.Id() in live && live[ev.entry.Id()].def == SeenEntry(ev.entry).def;
      }
    }
  }

  // ---- nodes keep their datacenter ----

  predicate Placed(q: Query, dc: Placement, s: Registry) {
    && (forall n | n in s.metas :: s.metas[n].id == n && InPlace(q, dc, s.metas[n]))
    && EventsPlaced(q, dc, s.log)
  }

  predicate OpPlaced(q: Query, dc: Placement, op: Op) {
    match op
    case OpRegister(reg) => InPlace(q, dc, reg.node)
    case OpMerge(es) => forall e | e in es :: InPlace(q, dc, e.node)
    case _ => true
  }

  lemma {:induction false} RegisterAllPlaced(
    q: Query, dc: Placement, o: Options, s: Registry, n: string, services: seq<ServiceInstance>, generation: nat,
    now: int)
    requires Placed(q, dc, s) && n in s.metas
    ensures Placed(q, dc, RegisterAll(o, s, n, services, generation, now).0)
    decreases |services|
  {
    if services != [] {
      var r := RegisterOne(o, s, n, Incoming(o, services[0], generation, now), now);
      assert Placed(q, dc, r.0);
      if r.1 == Ok {
        RegisterAllPlaced(q, dc, o, r.0, n, services[1..], generation, now);
      }
    }
  }

  lemma {:induction false} MergePlaced(
    q: Query, dc: Placement, o: Options, s: Registry, es: seq<ServiceEntry>, now: int)
    requires Placed(q, dc, s) && forall e | e in es :: InPlace(q, dc, e.node)
    ensures Placed(q, dc, Merge(o, s, es, now).0)
    decreases |es|
  {
    if es != [] {
      assert es[0] in es;
      MergePlaced(q, dc, o, MergeOne(o, s, es[0], now).0, es[1..], now);
    }
  }

  lemma {:induction false} RenewEachPlaced(q: Query, dc: Placement, s: Registry, n: string, ids: seq<string>, now: int)
    requires Placed(q, dc, s)
    ensures Placed(q, dc, RenewEach(s, n, ids, now).0)
    decreases |ids|
  {
    if ids != [] && Key(n, ids[0]) in s.svcs {
      RenewEachPlaced(q, dc, Refresh(s, Key(n, ids[0]), false, now), n, ids[1..], now);
    }
  }

  lemma {:induction false} WithdrawAllPlaced(q: Query, dc: Placement, s: Registry, order: seq<Key>)
    requires Placed(q, dc, s)
    ensures Placed(q, dc, WithdrawAll(s, order))
    decreases |order|
  {
    if order != [] {
      WithdrawAllPlaced(q, dc, if Held(s, order[0]) then Withdraw(s, order[0]) else s, order[1..]);
    }
  }

  lemma {:induction false} GcAllPlaced(q: Query, dc: Placement, o: Options, s: Registry, order: seq<Key>, now: int)
    requires Placed(q, dc, s)
    ensures Placed(q, dc, GcAll(o, s, order, now))
    decreases |order|
  {
    if order != [] {
      GcAllPlaced(q, dc, o, GcOne(o, s, order[0], now), order[1..], now);
    }
  }

  lemma StepPlaced(q: Query, dc: Placement, o: Options, s: Registry, op: Op, now: int, t: Registry)
    requires Placed(q, dc, s) && OpPlaced(q, dc, op) && Step(o, s, op, now, t)
    ensures Placed(q, dc, t)
  {
    match op
    case OpRegister(reg) =>
      if ValidRegistration(reg) {
        RegisterAllPlaced(q, dc, o, SetMeta(s, reg.node), reg.node.id, reg.services, reg.generation, now);
      }
    case OpMerge(es) => MergePlaced(q, dc, o, s, es, now);
    case OpRenew(n, ids) => RenewEachPlaced(q, dc, s, n, ids, now);
    case OpDeregister(n) =>
      var order :| Enumerates(order, NodeKeys(s, n)) && t == Deregister(s, n, order).0;
      WithdrawAllPlaced(q, dc, s, order);
    case OpGc =>
      var order :| Enumerates(order, s.svcs.Keys) && t == Gc(o, s, order, now);
      GcAllPlaced(q, dc, o, s, order, now);
    case _ =>
  }

  // ---- the pipeline: store, watcher, one stream ----

  /** A Watch call: not started, subscribed when the log had `start` events, or streaming:
      snapshot taken at `snapAt`, and `live` events forwarded since. */
  datatype Phase =
    | Idle
    | Subscribed(id: int, start: nat)
    | Streaming(id: int, start: nat, snapAt: nat, snap: seq<ServiceEntry>, live: seq<ChangeEvent>)

  datatype Pipeline = Pipeline(reg: Registry, w: W.Watch, phase: Phase)

  datatype Move =
    | Store(op: Op, now: int)
    | Open
    | Snapshot(now: int)
    | Forward

  function Queue(p: Pipeline, id: int): seq<ChangeEvent> {
    if id in p.w.subs then p.w.subs[id].queue else []
  }

  function Emitted(s: Registry, t: Registry): seq<ChangeEvent> {
    if |s.log| <= |t.log| then t.log[|s.log|..] else []
  }

  ghost predicate Next(o: Options, q: Query, p: Pipeline, m: Move, r: Pipeline) {
    match m
    case Store(op, now) =>
      && Step(o, p.reg, op, now, r.reg)
      && r.w == W.Notified(p.w, Emitted(p.reg, r.reg))
      && r.phase == p.phase
    case Open =>
      && p.phase.Idle?
      && r == p.(w := p.w.(subs := p.w.subs[p.w.nextID := W.Sub(q, [])], nextID := p.w.nextID + 1),
                 phase := Subscribed(p.w.nextID, |p.reg.log|))
    case Snapshot(now) =>
      && p.phase.Subscribed? && WellKeyed(p.reg)
      && r == p.(phase := Streaming(
                   p.phase.id, p.phase.start, |p.reg.log|, Lookup(o, p.reg, q, now).entries, []))
    case Forward =>
      && p.phase.Streaming? && p.phase.id in p.w.subs && Queue(p, p.phase.id) != []
      && var sub := p.w.subs[p.phase.id];
         r == p.(w := p.w.(subs := p.w.subs[p.phase.id := sub.(queue := sub.queue[1..])]),
                 phase := p.phase.(live := p.phase.live + [sub.queue[0]]))
  }

  /** The move drops no event of the stream, keeps the datacenters the query depends on, and
      snapshots nothing past grace. */
  ghost predicate Clean(o: Options, q: Query, dc: Placement, p: Pipeline, m: Move, r: Pipeline) {
    match m
    case Store(op, _) =>
      && OpPlaced(q, dc, op)
      && (!p.phase.Idle? ==>
            |Queue(p, p.phase.id)| + |W.Selected(q, p.w.index, Emitted(p.reg, r.reg))| <= W.CAPACITY)
    case Snapshot(now) => NoneExpired(o, p.reg, now)
    case _ => true
  }

  ghost predicate Moves(o: Options, q: Query, dc: Placement, p: Pipeline, m: Move, r: Pipeline) {
    Next(o, q, p, m, r) && Clean(o, q, dc, p, m, r)
  }

  ghost predicate Runs(o: Options, q: Query, dc: Placement, p: Pipeline, moves: seq<Move>, r: Pipeline)
    decreases |moves|
  {
    if moves == [] then r == p
    else exists m :: Moves(o, q, dc, p, moves[0], m) && Runs(o, q, dc, m, moves[1..], r)
  }

  /** Events up to the index they are stamped with. */
  function Bodies(evs: seq<ChangeEvent>): seq<ChangeEvent> {
    seq(|evs|, i requires 0 <= i < |evs| => evs[i].(index := 0))
  }

  lemma {:induction false} ReplayBodies(m: map<Key, Seen>, evs: seq<ChangeEvent>)
    ensures Replay(m, Bodies(evs)) == Replay(m, evs)
    decreases |evs|
  {
    if evs != [] {
      assert Bodies(evs)[..|evs| - 1] == Bodies(evs[..|evs| - 1]);
      ReplayBodies(m, evs[..|evs| - 1]);
    }
  }

  lemma BodiesConcat(a: seq<ChangeEvent>, b: seq<ChangeEvent>)
    ensures Bodies(a + b) == Bodies(a) + Bodies(b)
  {
  }

  lemma {:induction false} SelectedBodies(q: Query, base: nat, evs: seq<ChangeEvent>)
    ensures Bodies(W.Selected(q, base, evs)) == Bodies(Chosen(q, evs))
    decreases |evs|
  {
    if evs != [] {
      SelectedBodies(q, base, evs[..|evs| - 1]);
      var ev := evs[|evs| - 1];
      BodiesConcat(W.Selected(q, base, evs[..|evs| - 1]), [ev.(index := base + |evs|)]);
      BodiesConcat(Chosen(q, evs[..|evs| - 1]), [ev]);
      assert Bodies([ev.(index := base + |evs|)]) == Bodies([ev]);
    }
  }

  lemma {:induction false} AllOffered(s: W.Sub, evs: seq<ChangeEvent>)
    requires |s.queue| + |evs| <= W.CAPACITY
    ensures W.OfferAll(s, evs) == s.(queue := s.queue + evs)
    decreases |evs|
  {
    if evs != [] {
      AllOffered(s, evs[..|evs| - 1]);
      assert evs == evs[..|evs| - 1] + [evs[|evs| - 1]];
    }
  }

  /** What the reader has been sent after the snapshot, plus what is queued for it, is what
      the subscription was offered since it began. */
  ghost predicate Carries(q: Query, p: Pipeline, id: int, start: nat, live: seq<ChangeEvent>) {
    && id in p.w.subs && p.w.subs[id].query == q && start <= |p.reg.log|
    && Bodies(live + p.w.subs[id].queue) == Bodies(Chosen(q, p.reg.log[start..]))
  }

  ghost predicate PhaseInv(q: Query, dc: Placement, p: Pipeline) {
    match p.phase
    case Idle => true
    case Subscribed(id, start) => Carries(q, p, id, start, [])
    case Streaming(id, start, snapAt, snap, live) =>
      && Carries(q, p, id, start, live)
      && start <= snapAt <= |p.reg.log|
      && Replay(map[], Puts(snap)) == Restrict(q, dc, Replay(map[], p.reg.log[..snapAt]))
  }

  ghost predicate Inv(o: Options, q: Query, dc: Placement, p: Pipeline) {
    Good(o, p.reg) && Placed(q, dc, p.reg) && PhaseInv(q, dc, p)
  }

  lemma StoreCarries(q: Query, p: Pipeline, r: Pipeline, id: int, start: nat, live: seq<ChangeEvent>)
    requires Carries(q, p, id, start, live) && p.reg.log <= r.reg.log
    requires r.w == W.Notified(p.w, Emitted(p.reg, r.reg))
    requires |Queue(p, id)| + |W.Selected(q, p.w.index, Emitted(p.reg, r.reg))| <= W.CAPACITY
    ensures Carries(q, r, id, start, live)
  {
    var evs := Emitted(p.reg, r.reg);
    var queue, more := p.w.subs[id].queue, W.Selected(q, p.w.index, evs);
    AllOffered(p.w.subs[id], more);
    assert r.reg.log[start..] == p.reg.log[start..] + evs;
    ChosenConcat(q, p.reg.log[start..], evs);
    SelectedBodies(q, p.w.index, evs);
    BodiesConcat(live + queue, more);
    BodiesConcat(Chosen(q, p.reg.log[start..]), Chosen(q, evs));
    assert live + queue + more == live + (queue + more);
  }

  lemma NextInv(o: Options, q: Query, dc: Placement, p: Pipeline, m: Move, r: Pipeline)
    requires o.defaultTTL > 0 && Inv(o, q, dc, p) && Moves(o, q, dc, p, m, r)
    ensures Inv(o, q, dc, r)
  {
    match m
    case Store(op, now) =>
      StepGood(o, p.reg, op, now, r.reg);
      StepPlaced(q, dc, o, p.reg, op, now, r.reg);
      StorePhase(q, dc, p, r);
    case _ => StreamPhase(o, q, dc, p, m, r);
  }

  lemma StreamPhase(o: Options, q: Query, dc: Placement, p: Pipeline, m: Move, r: Pipeline)
    requires WellKeyed(p.reg) && Replays(p.reg) && Placed(q, dc, p.reg) && PhaseInv(q, dc, p)
    requires !m.Store? && Next(o, q, p, m, r) && Clean(o, q, dc, p, m, r)
    ensures r.reg == p.reg && PhaseInv(q, dc, r)
  {
    match m
    case Open => OpenPhase(q, dc, p, r);
    case Snapshot(now) => SnapshotPhase(o, q, dc, p, now, r);
    case Forward => ForwardPhase(q, dc, p, r);
  }

  lemma OpenPhase(q: Query, dc: Placement, p: Pipeline, r: Pipeline)
    requires r == p.(w := p.w.(subs := p.w.subs[p.w.nextID := W.Sub(q, [])], nextID := p.w.nextID + 1),
                     phase := Subscribed(p.w.nextID, |p.reg.log|))
    ensures PhaseInv(q, dc, r)
  {
    assert p.reg.log[|p.reg.log|..] == [];
  }

  lemma SnapshotPhase(o: Options, q: Query, dc: Placement, p: Pipeline, now: int, r: Pipeline)
    requires WellKeyed(p.reg) && Replays(p.reg) && Placed(q, dc, p.reg) && PhaseInv(q, dc, p) && p.phase.Subscribed?
    requires NoneExpired(o, p.reg, now)
    requires r == p.(phase := Streaming(p.phase.id, p.phase.start, |p.reg.log|, Lookup(o, p.reg, q, now).entries, []))
    ensures PhaseInv(q, dc, r)
  {
    SnapshotRight(o, p.reg, q, dc, now);
  }

  lemma SnapshotRight(o: Options, s: Registry, q: Query, dc: Placement, now: int)
    requires WellKeyed(s) && Replays(s) && Placed(q, dc, s) && NoneExpired(o, s, now)
    ensures Replay(map[], Puts(Lookup(o, s, q, now).entries)) == Restrict(q, dc, Replay(map[], s.log[..|s.log|]))
  {
    WholeLog(s);
    SnapshotReplay(o, s, q, dc, now);
  }

  lemma WholeLog(s: Registry)
    requires Replays(s)
    ensures Replay(map[], s.log[..|s.log|]) == Projection(s)
  {
    assert s.log[..|s.log|] == s.log;
  }

  lemma ForwardPhase(q: Query, dc: Placement, p: Pipeline, r: Pipeline)
    requires PhaseInv(q, dc, p) && p.phase.Streaming? && p.w.subs[p.phase.id].queue != []
    requires var sub := p.w.subs[p.phase.id];
             r == p.(w := p.w.(subs := p.w.subs[p.phase.id := sub.(queue := sub.queue[1..])]),
                     phase := p.phase.(live := p.phase.live + [sub.queue[0]]))
    ensures PhaseInv(q, dc, r)
  {
    var queue := p.w.subs[p.phase.id].queue;
    assert p.phase.live + queue == (p.phase.live + [queue[0]]) + queue[1..];
  }

  lemma StorePhase(q: Query, dc: Placement, p: Pipeline, r: Pipeline)
    requires PhaseInv(q, dc, p) && p.reg.log <= r.reg.log && r.phase == p.phase
    requires r.w == W.Notified(p.w, Emitted(p.reg, r.reg))
    requires !p.phase.Idle? ==>
               |Queue(p, p.phase.id)| + |W.Selected(q, p.w.index, Emitted(p.reg, r.reg))| <= W.CAPACITY
    ensures PhaseInv(q, dc, r)
  {
    match p.phase
    case Idle =>
    case Subscribed(id, start) => StoreCarries(q, p, r, id, start, []);
    case Streaming(id, start, snapAt, _, live) =>
      StoreCarries(q, p, r, id, start, live);
      assert r.reg.log[..snapAt] == p.reg.log[..snapAt];
  }

  lemma {:induction false} RunInv(o: Options, q: Query, dc: Placement, p: Pipeline, moves: seq<Move>, r: Pipeline)
    requires o.defaultTTL > 0 && Inv(o, q, dc, p) && Runs(o, q, dc, p, moves, r)
    ensures Inv(o, q, dc, r)
    decreases |moves|
  {
    if moves != [] {
      var m :| Moves(o, q, dc, p, moves[0], m) && Runs(o, q, dc, m, moves[1..], r);
      NextInv(o, q, dc, p, moves[0], m);
      RunInv(o, q, dc, m, moves[1..], r);
    }
  }

  function Start(o: Options, base: nat): Pipeline {
    Pipeline(Init(o), W.New(base), Idle)
  }

  /** The reader has read the snapshot taken after `j` events, and what the subscription made
      after `i` events was offered up to `n` events past the snapshot; it holds what the query
      wants then. */
  ghost predicate ReadRight(
    q: Query, dc: Placement, log: seq<ChangeEvent>, snap: seq<ServiceEntry>, i: nat, j: nat, n: nat)
    requires i <= j && j + n <= |log|
  {
    Replay(Replay(map[], Puts(snap)), Chosen(q, log[i..j + n])) == Restrict(q, dc, Replay(map[], log[..j + n]))
  }

  ghost predicate ReadsRight(q: Query, dc: Placement, log: seq<ChangeEvent>, snap: seq<ServiceEntry>, i: nat, j: nat)
    requires i <= j <= |log|
  {
    forall n | 0 <= n <= |log| - j :: ReadRight(q, dc, log, snap, i, j, n)
  }

  /** Subscribed after `i` events, snapshot after `j`: the events between the two are settled,
      and no later put takes a wanted instance out of the query in place. */
  ghost predicate Undisturbed(q: Query, dc: Placement, log: seq<ChangeEvent>, i: nat, j: nat)
    requires i <= j <= |log|
  {
    && Settled(q, dc, Replay(map[], log[..i]), log[i..j])
    && StaysPut(q, dc, Replay(map[], log[..j]), log[j..])
  }

  /** Subscribe-before-snapshot loses nothing. In every run that drops no event and snapshots
      nothing past grace, a reader of the stream is right after every event since the snapshot
      if and only if the log is undisturbed; and then what was sent so far followed by what is
      still queued folds to exactly the live instances the query selects. */
  lemma StreamIsExact(o: Options, q: Query, dc: Placement, base: nat, moves: seq<Move>, r: Pipeline)
    requires o.defaultTTL > 0 && Runs(o, q, dc, Start(o, base), moves, r) && r.phase.Streaming?
    ensures r.phase.start <= r.phase.snapAt <= |r.reg.log|
    ensures ReadsRight(q, dc, r.reg.log, r.phase.snap, r.phase.start, r.phase.snapAt) <==>
            Undisturbed(q, dc, r.reg.log, r.phase.start, r.phase.snapAt)
    ensures Undisturbed(q, dc, r.reg.log, r.phase.start, r.phase.snapAt) ==>
            Replay(map[], Puts(r.phase.snap) + (r.phase.live + Queue(r, r.phase.id)))
              == Restrict(q, dc, Projection(r.reg))
  {
    InitGood(o);
    RunInv(o, q, dc, Start(o, base), moves, r);
    ReadRightIff(q, dc, r.reg.log, r.phase.snap, r.phase.start, r.phase.snapAt);
    if Undisturbed(q, dc, r.reg.log, r.phase.start, r.phase.snapAt) {
      StreamFolds(q, dc, r);
    }
  }

  lemma StreamFolds(q: Query, dc: Placement, r: Pipeline)
    requires PhaseInv(q, dc, r) && r.phase.Streaming? && Replays(r.reg)
    requires ReadRight(q, dc, r.reg.log, r.phase.snap, r.phase.start, r.phase.snapAt, |r.reg.log| - r.phase.snapAt)
    ensures Replay(map[], Puts(r.phase.snap) + (r.phase.live + Queue(r, r.phase.id)))
              == Restrict(q, dc, Projection(r.reg))
  {
    var log, i := r.reg.log, r.phase.start;
    var sent := r.phase.live + r.w.subs[r.phase.id].queue;
    var snap := Replay(map[], Puts(r.phase.snap));
    assert log[i..|log|] == log[i..] && log[..|log|] == log;
    ReplayConcat(map[], Puts(r.phase.snap), sent);
    ReplayBodies(snap, sent);
    ReplayBodies(snap, Chosen(q, log[i..]));
  }

  /** The same in terms of one log: subscribed at `i`, snapshot at `j`, read to the end. */
  lemma ReadRightIff(q: Query, dc: Placement, log: seq<ChangeEvent>, snap: seq<ServiceEntry>, i: nat, j: nat)
    requires i <= j <= |log| && EventsPlaced(q, dc, log) && Honest(log)
    requires Replay(map[], Puts(snap)) == Restrict(q, dc, Replay(map[], log[..j]))
    ensures ReadsRight(q, dc, log, snap, i, j) <==> Undisturbed(q, dc, log, i, j)
  {
    var past, a, b := log[..i], log[i..j], log[j..];
    Slices(log, i, j, |log| - j);
    ReplayConcat(map[], past, a);
    HonestCoherent(q, dc, log[..j], b);
    StreamRightIff(q, dc, Replay(map[], past), a, b);
    AllSliced(q, dc, log, snap, i, j);
  }

  /** No in-place change since the subscription, so nothing is lost, wherever the snapshot
      falls. */
  lemma StaysPutSuffices(q: Query, dc: Placement, log: seq<ChangeEvent>, i: nat, j: nat)
    requires i <= j <= |log| && EventsPlaced(q, dc, log) && Honest(log)
    requires StaysPut(q, dc, Replay(map[], log[..i]), log[i..])
    ensures Undisturbed(q, dc, log, i, j)
  {
    var past, a, b := log[..i], log[i..j], log[j..];
    ThreeSlices(q, dc, log, i, j);
    HonestCoherent(q, dc, past, a + b);
    CoherentSplit(q, dc, Replay(map[], past), a, b);
    CoherentSettled(q, dc, Replay(map[], past), a);
    ReplayConcat(map[], past, a);
    HonestCoherent(q, dc, log[..j], b);
  }

  lemma ThreeSlices(q: Query, dc: Placement, log: seq<ChangeEvent>, i: nat, j: nat)
    requires i <= j <= |log| && EventsPlaced(q, dc, log)
    ensures log[..i] + (log[i..j] + log[j..]) == log && log[i..j] + log[j..] == log[i..]
    ensures log[..i] + log[i..j] == log[..j] && log[..j] + log[j..] == log
    ensures EventsPlaced(q, dc, log[i..j]) && EventsPlaced(q, dc, log[i..]) && EventsPlaced(q, dc, log[j..])
  {
  }

  lemma Slices(log: seq<ChangeEvent>, i: nat, j: nat, n: nat)
    requires i <= j && j + n <= |log|
    ensures log[..i] + log[i..j] == log[..j]
    ensures log[..j] + log[j..][..n] == log[..j + n]
    ensures log[i..j] + log[j..][..n] == log[i..j + n]
    ensures j + n == |log| ==> log[..j] + log[j..] == log
  {
  }

  lemma AllSliced(q: Query, dc: Placement, log: seq<ChangeEvent>, snap: seq<ServiceEntry>, i: nat, j: nat)
    requires i <= j <= |log| && Replay(map[], Puts(snap)) == Restrict(q, dc, Replay(map[], log[..j]))
    ensures ReadsRight(q, dc, log, snap, i, j) <==> StaysRight(q, dc, Replay(map[], log[..i]), log[i..j], log[j..])
  {
    var m := Replay(map[], log[..i]);
    if ReadsRight(q, dc, log, snap, i, j) {
      forall n | 0 <= n <= |log[j..]|
        ensures Right(q, dc, m, log[i..j], log[j..], n)
      {
        assert ReadRight(q, dc, log, snap, i, j, n);
        SlicedLog(q, dc, log, snap, i, j, n);
      }
    }
    if StaysRight(q, dc, m, log[i..j], log[j..]) {
      forall n | 0 <= n <= |log| - j
        ensures ReadRight(q, dc, log, snap, i, j, n)
      {
        assert Right(q, dc, m, log[i..j], log[j..], n);
        SlicedLog(q, dc, log, snap, i, j, n);
      }
    }
  }

  lemma SlicedLog(q: Query, dc: Placement, log: seq<ChangeEvent>, snap: seq<ServiceEntry>, i: nat, j: nat, n: nat)
    requires i <= j && j + n <= |log|
    requires Replay(map[], Puts(snap)) == Restrict(q, dc, Replay(map[], log[..j]))
    ensures Right(q, dc, Replay(map[], log[..i]), log[i..j], log[j..], n) <==> ReadRight(q, dc, log, snap, i, j, n)
  {
    Slices(log, i, j, n);
    ReplayConcat(map[], log[..i], log[i..j]);
    ReplayConcat(map[], log[..j], log[j..][..n]);
  }

  // ---- the stale instance, as a run ----

  function Single(node: Node, svc: ServiceInstance, generation: nat): Registration {
    Registration(node, [svc], generation)
  }

  lemma RegisterSingle(o: Options, s: Registry, node: Node, svc: ServiceInstance, generation: nat, now: int)
    requires node.id != "" && svc.name != ""
    ensures var s1 := SetMeta(s, node);
            Register(o, s, Single(node, svc, generation), now).0
              == RegisterOne(o, s1, node.id, Incoming(o, svc, generation, now), now).0
  {
    var reg := Single(node, svc, generation);
    assert forall x | x in reg.services :: x == svc;
    assert reg.services[0] == svc && reg.services[1..] == [];
    var r := RegisterOne(o, SetMeta(s, node), node.id, Incoming(o, svc, generation, now), now);
    assert r.1 == Ok ==> RegisterAll(o, r.0, node.id, [], generation, now) == (r.0, Ok);
  }

  /** What the store holds after `x` was registered, and after `y` took its place. */
  lemma ReplacedInPlace(o: Options, node: Node, x: ServiceInstance, y: ServiceInstance, generation: nat, now: int)
    returns (s: Registry, t: Registry)
    requires node.id != "" && x.name != "" && y.name != "" && x.id == y.id != ""
    requires x.name != y.name || x.tags != y.tags
    ensures Step(o, Init(o), OpRegister(Single(node, x, generation)), now, s)
    ensures Step(o, s, OpRegister(Single(node, y, generation)), now, t)
    ensures |s.log| == 1 && |t.log| == 2 && s.log == t.log[..1]
    ensures t.log[0].kind == t.log[1].kind == ChangePut && t.log[0].entry.node == t.log[1].entry.node == node
    ensures t.log[0].entry.service == Incoming(o, x, generation, now)
    ensures t.log[1].entry.service == Incoming(o, y, generation, now)
  {
    s := Register(o, Init(o), Single(node, x, generation), now).0;
    t := Register(o, s, Single(node, y, generation), now).0;
    RegisterSingle(o, Init(o), node, x, generation, now);
    RegisterSingle(o, s, node, y, generation, now);
    assert t.log == s.log + [t.log[1]];
  }

  lemma {:induction false} OfferedShort(s: W.Sub, evs: seq<ChangeEvent>)
    ensures W.OfferAll(s, evs).query == s.query && |W.OfferAll(s, evs).queue| <= |s.queue| + |evs|
    decreases |evs|
  {
    if evs != [] {
      OfferedShort(s, evs[..|evs| - 1]);
    }
  }

  /** At most `n` events are queued for the stream. */
  predicate Backlog(q: Query, p: Pipeline, n: nat) {
    p.phase.Streaming? && p.phase.id in p.w.subs && p.w.subs[p.phase.id].query == q && |Queue(p, p.phase.id)| <= n
  }

  lemma StoreMove(o: Options, q: Query, dc: Placement, p: Pipeline, n: nat, op: Op, now: int, t: Registry)
    returns (r: Pipeline)
    requires Step(o, p.reg, op, now, t) && OpPlaced(q, dc, op) && |t.log| == |p.reg.log| + 1
    requires Backlog(q, p, n) && n < W.CAPACITY
    ensures Moves(o, q, dc, p, Store(op, now), r)
    ensures r.reg == t && r.phase == p.phase && Backlog(q, r, n + 1)
  {
    var evs := Emitted(p.reg, t);
    r := Pipeline(t, W.Notified(p.w, evs), p.phase);
    W.SelectedShort(q, p.w.index, evs);
    OfferedShort(p.w.subs[p.phase.id], W.Selected(q, p.w.index, evs));
  }

  function Then(m: Move, rest: seq<Move>): seq<Move> {
    [m] + rest
  }

  lemma RunsFront(
    o: Options, q: Query, dc: Placement, p: Pipeline, m: Move, mid: Pipeline, rest: seq<Move>, r: Pipeline)
    requires Moves(o, q, dc, p, m, mid) && Runs(o, q, dc, mid, rest, r)
    ensures Runs(o, q, dc, p, Then(m, rest), r)
  {
    assert Then(m, rest)[0] == m && Then(m, rest)[1..] == rest;
  }

  lemma TwoMoves(
    o: Options, q: Query, dc: Placement, p: Pipeline, m: Move, mid: Pipeline, n: Move, s: Pipeline,
    rest: seq<Move>, r: Pipeline)
    requires Moves(o, q, dc, p, m, mid) && Moves(o, q, dc, mid, n, s) && Runs(o, q, dc, s, rest, r)
    ensures Runs(o, q, dc, p, Then(m, Then(n, rest)), r)
  {
    RunsFront(o, q, dc, mid, n, s, rest, r);
    RunsFront(o, q, dc, p, m, mid, Then(n, rest), r);
  }

  lemma FourMoves(
    o: Options, q: Query, dc: Placement, p: Pipeline, m1: Move, p1: Pipeline, m2: Move, p2: Pipeline,
    m3: Move, p3: Pipeline, m4: Move, r: Pipeline)
    requires Moves(o, q, dc, p, m1, p1) && Moves(o, q, dc, p1, m2, p2)
    requires Moves(o, q, dc, p2, m3, p3) && Moves(o, q, dc, p3, m4, r)
    ensures Runs(o, q, dc, p, Then(m1, Then(m2, Then(m3, Then(m4, [])))), r)
  {
    TwoMoves(o, q, dc, p2, m3, p3, m4, r, [], r);
    TwoMoves(o, q, dc, p, m1, p1, m2, p2, Then(m3, Then(m4, [])), r);
  }

  lemma StreamOpened(o: Options, q: Query, dc: Placement, base: nat, now: int) returns (mid: Pipeline, r: Pipeline)
    ensures Moves(o, q, dc, Start(o, base), Open, mid) && Moves(o, q, dc, mid, Snapshot(now), r)
    ensures r.reg == Init(o) && Backlog(q, r, 0) && r.phase.start == r.phase.snapAt == 0
  {
    var p := Start(o, base);
    mid := p.(w := p.w.(subs := p.w.subs[p.w.nextID := W.Sub(q, [])], nextID := p.w.nextID + 1),
              phase := Subscribed(p.w.nextID, 0));
    r := mid.(phase := Streaming(0, 0, 0, Lookup(o, p.reg, q, now).entries, []));
  }

  /** Open a stream, register an instance the query selects, then register it again under a
      name or tags the query does not select: the reader keeps the instance although it no
      longer matches. */
  lemma StaleStream(
    o: Options, q: Query, dc: Placement, base: nat,
    node: Node, x: ServiceInstance, y: ServiceInstance, generation: nat, now: int) returns (r: Pipeline)
    requires o.defaultTTL > 0
    requires node.id != "" && InPlace(q, dc, node) && x.name != "" && y.name != "" && x.id == y.id != ""
    requires Matches(q, node.datacenter, x) && !Matches(q, node.datacenter, y)
    ensures Runs(o, q, dc, Start(o, base),
                 Then(Open, Then(Snapshot(now), Then(Store(OpRegister(Single(node, x, generation)), now),
                 Then(Store(OpRegister(Single(node, y, generation)), now), [])))), r)
    ensures r.phase.Streaming?
    ensures Key(node.id, x.id) in Replay(map[], Puts(r.phase.snap) + (r.phase.live + Queue(r, r.phase.id)))
    ensures Key(node.id, x.id) !in Restrict(q, dc, Projection(r.reg))
  {
    SameSelection(o, q, node.datacenter, x, generation, now);
    SameSelection(o, q, node.datacenter, y, generation, now);
    var s, t := ReplacedInPlace(o, node, x, y, generation, now);
    var a, b := OpRegister(Single(node, x, generation)), OpRegister(Single(node, y, generation));
    var p1, p2 := StreamOpened(o, q, dc, base, now);
    var p3 := StoreMove(o, q, dc, p2, 0, a, now, s);
    r := StoreMove(o, q, dc, p3, 1, b, now, t);
    FourMoves(o, q, dc, Start(o, base), Open, p1, Snapshot(now), p2, Store(a, now), p3, Store(b, now), r);
    InitGood(o);
    RunInv(o, q, dc, Start(o, base), Then(Open, Then(Snapshot(now), Then(Store(a, now), Then(Store(b, now), [])))), r);
    StaleFold(o, q, dc, r);
  }

  lemma SameSelection(o: Options, q: Query, datacenter: string, svc: ServiceInstance, generation: nat, now: int)
    ensures Matches(q, datacenter, Incoming(o, svc, generation, now)) <==> Matches(q, datacenter, svc)
  {
    var in_ := Incoming(o, svc, generation, now);
    DescribesAlike(q, in_, svc);
  }

  lemma StaleFold(o: Options, q: Query, dc: Placement, r: Pipeline)
    requires Inv(o, q, dc, r) && r.phase.Streaming? && r.phase.start == r.phase.snapAt == 0 && |r.reg.log| == 2
    requires var x, y := r.reg.log[0], r.reg.log[1];
             x.kind == y.kind == ChangePut && x.entry.Id() == y.entry.Id() && W.Selects(q, x) && !W.Selects(q, y)
    ensures r.reg.log[0].entry.Id() in Replay(map[], Puts(r.phase.snap) + (r.phase.live + Queue(r, r.phase.id)))
    ensures r.reg.log[0].entry.Id() !in Restrict(q, dc, Projection(r.reg))
  {
    var log := r.reg.log;
    assert log == [log[0], log[1]];
    InPlaceChangeLeavesStale(q, dc, log[0], log[1]);
    SentFold(q, dc, r);
  }

  lemma SentFold(q: Query, dc: Placement, r: Pipeline)
    requires PhaseInv(q, dc, r) && r.phase.Streaming? && r.phase.start == r.phase.snapAt == 0
    ensures Replay(map[], Puts(r.phase.snap) + (r.phase.live + Queue(r, r.phase.id)))
              == Replay(map[], Chosen(q, r.reg.log))
  {
    var log := r.reg.log;
    var sent := r.phase.live + Queue(r, r.phase.id);
    assert log[0..] == log && log[..0] == [];
    assert Replay(map[], Puts(r.phase.snap)) == map[];
    ReplayConcat(map[], Puts(r.phase.snap), sent);
    ReplayBodies(map[], sent);
    ReplayBodies(map[], Chosen(q, log));
  }
}
