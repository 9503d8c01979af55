/** The registry's own last-writer-wins merge, instance by instance, and its agreement with
    the read-path merge. */
module StoreMerge {
  import opened Model
  import opened StoreSpec
  import opened Health

  /** The definition stored under `k`, if any. */
  function DefAt(s: Registry, k: Key): Option<ServiceInstance> {
    if k in s.svcs then Some(s.svcs[k].def) else None
  }

  /** Adopt a candidate only if nothing is stored or it strictly wins. */
  function Adopt(o: Options, cur: Option<ServiceInstance>, e: Option<ServiceEntry>): Option<ServiceInstance> {
    if e.Some? && (cur.None? || e.value.service.WinsLWW(cur.value)) then Some(Clamped(o, e.value.service)) else cur
  }

  lemma AdoptPick(o: Options, cur: Option<ServiceInstance>, a: Option<ServiceEntry>, b: Option<ServiceEntry>)
    ensures Adopt(o, Adopt(o, cur, a), b) == Adopt(o, cur, Pick(a, b))
  {
  }

  predicate Named(k: Key) {
    k.node != "" && k.service != ""
  }

  lemma MergeOneAt(o: Options, s: Registry, e: ServiceEntry, now: int, k: Key)
    requires Named(k) && (k in s.svcs || o.maxServices <= 0)
    ensures DefAt(MergeOne(o, s, e, now).0, k) ==
            Adopt(o, DefAt(s, k), if e.Id() == k then Some(e) else None)
  {
  }

  /** Merging a list leaves each instance with the better of what was stored and the list's
      winner. Instances already stored are updated even when the registry is full. */
  lemma {:induction false} MergeAt(o: Options, s: Registry, es: seq<ServiceEntry>, now: int, k: Key)
    requires Named(k) && (k in s.svcs || o.maxServices <= 0)
    ensures DefAt(Merge(o, s, es, now).0, k) == Adopt(o, DefAt(s, k), Best(es, k))
    decreases |es|
  {
    if es != [] {
      var m := MergeOne(o, s, es[0], now).0;
      var first := if es[0].Id() == k then Some(es[0]) else None;
      MergeOneAt(o, s, es[0], now, k);
      assert k in m.svcs || o.maxServices <= 0;
      MergeAt(o, m, es[1..], now, k);
      BestCons(es, k);
      AdoptPick(o, DefAt(s, k), first, Best(es[1..], k));
    }
  }

  /** Merging never lowers or loses a stored version, capped or not. */
  lemma MergeNeverLowers(o: Options, s: Registry, es: seq<ServiceEntry>, now: int, k: Key)
    requires Named(k) && k in s.svcs
    ensures k in Merge(o, s, es, now).0.svcs
    ensures s.svcs[k].def.Stamp().AtMost(Merge(o, s, es, now).0.svcs[k].def.Stamp())
  {
    MergeAt(o, s, es, now, k);
  }

  /** Two merges agree: merging into an empty uncapped registry keeps, per identity, exactly
      the entry the read path would return, up to the lease clamp and including ties. */
  lemma TwoMergesAgree(o: Options, es: seq<ServiceEntry>, now: int, k: Key)
    requires o.maxServices <= 0 && Named(k)
    ensures var kept := DefAt(Merge(o, Init(o), es, now).0, k);
            if k in Ids(es)
            then exists e | e in Merged(es) :: e.Id() == k && kept == Some(Clamped(o, e.service))
            else kept.None?
  {
    MergeAt(o, Init(o), es, now, k);
    BestPresent(es, k);
    if Best(es, k).Some? {
      MergedHolds(es, k);
    }
  }

  // ---- merging what is already there ----

  /** `e` has nothing to add to `s`: skipped, beaten or tied, or shut out by the cap. */
  predicate Settled(o: Options, s: Registry, e: ServiceEntry) {
    || !Named(e.Id())
    || (if e.Id() in s.svcs then !e.service.WinsLWW(s.svcs[e.Id()].def) else Full(o, s))
  }

  lemma MergeOneSettles(o: Options, s: Registry, e: ServiceEntry, now: int)
    ensures Settled(o, MergeOne(o, s, e, now).0, e)
  {
  }

  lemma StaysSettled(o: Options, s: Registry, e: ServiceEntry, f: ServiceEntry, now: int)
    requires Settled(o, s, f)
    ensures Settled(o, MergeOne(o, s, e, now).0, f)
  {
    var t := MergeOne(o, s, e, now).0;
    if Named(f.Id()) && f.Id() !in s.svcs {
      assert t.svcs.Keys == s.svcs.Keys;
      assert |t.svcs| == |t.svcs.Keys| && |s.svcs| == |s.svcs.Keys|;
    }
  }

  lemma {:induction false} MergeKeepsSettled(o: Options, s: Registry, es: seq<ServiceEntry>, now: int, f: ServiceEntry)
    requires Settled(o, s, f)
    ensures Settled(o, Merge(o, s, es, now).0, f)
    decreases |es|
  {
    if es != [] {
      StaysSettled(o, s, es[0], f, now);
      MergeKeepsSettled(o, MergeOne(o, s, es[0], now).0, es[1..], now, f);
    }
  }

  lemma {:induction false} MergeSettles(o: Options, s: Registry, es: seq<ServiceEntry>, now: int)
    ensures forall e | e in es :: Settled(o, Merge(o, s, es, now).0, e)
    decreases |es|
  {
    if es != [] {
      var m := MergeOne(o, s, es[0], now).0;
      MergeOneSettles(o, s, es[0], now);
      MergeKeepsSettled(o, m, es[1..], now, es[0]);
      MergeSettles(o, m, es[1..], now);
      assert es == [es[0]] + es[1..];
    }
  }

  /** Merging settled entries applies nothing, moves no index and emits nothing; only node
      records may be rewritten. */
  lemma {:induction false} MergeSettled(o: Options, s: Registry, es: seq<ServiceEntry>, now: int)
    requires forall e | e in es :: Settled(o, s, e)
    ensures Merge(o, s, es, now).1 == 0
    ensures Merge(o, s, es, now).0 == s.(metas := Merge(o, s, es, now).0.metas)
    decreases |es|
  {
    if es != [] {
      assert Settled(o, s, es[0]);
      var m := MergeOne(o, s, es[0], now).0;
      assert m == s.(metas := m.metas);
      forall e | e in es[1..]
        ensures Settled(o, m, e)
      {
        assert e in es;
      }
      MergeSettled(o, m, es[1..], now);
    }
  }

  /** Merging the same entries again does nothing, whatever the cap. */
  lemma MergeTwice(o: Options, s: Registry, es: seq<ServiceEntry>, now: int, later: int)
    ensures var t := Merge(o, s, es, now).0;
            var u := Merge(o, t, es, later);
            u.1 == 0 && u.0 == t.(metas := u.0.metas)
  {
    MergeSettles(o, s, es, now);
    MergeSettled(o, Merge(o, s, es, now).0, es, later);
  }
}
