/** What single operations mean to a caller: when a re-registration is really stored, how far
    the lease clamp reaches, and what changes without the index moving. */
module StoreEffects {
  import opened Model
  import opened Order
  import opened Sets
  import opened StoreSpec
  import opened StoreInvariants

  // ---- does the change test see every change? ----

  lemma {:induction false} LongerThanAll(s: set<string>) returns (n: nat)
    ensures forall t | t in s :: |t| < n
  {
    if s == {} {
      n := 0;
    } else {
      var t :| t in s;
      var m := LongerThanAll(s - {t});
      n := if |t| < m then m else |t| + 1;
    }
  }

  lemma FreshKey(s: set<string>) returns (k: string)
    ensures k !in s
  {
    var n := LongerThanAll(s);
    k := seq(n, i => 'x');
  }

  /** The store's map comparison decides equality with `a` exactly when `a` has no empty
      value: an empty value can be traded for any other key unnoticed. */
  lemma EqualMapDecides(a: map<string, string>)
    ensures (forall b :: EqualMap(a, b) <==> a == b) <==> (forall k | k in a :: a[k] != "")
  {
    if forall k | k in a :: a[k] != "" {
      forall b
        ensures EqualMap(a, b) <==> a == b
      {
        if EqualMap(a, b) {
          assert a.Keys <= b.Keys;
          SameSizeSubset(a.Keys, b.Keys);
        }
      }
    } else {
      var k :| k in a && a[k] == "";
      var j := FreshKey(a.Keys);
      var b := (a - {k})[j := "v"];
      assert b.Keys == a.Keys - {k} + {j};
      assert EqualMap(a, b) && k !in b;
    }
  }

  /** A re-registration that only trades one empty metadata value for another is dropped. */
  lemma EmptyValueSwallowed(a: ServiceInstance)
    ensures !Changed(a.(meta := map["zone" := ""]), a.(meta := map["rack" := ""]))
  {
  }

  /** An accepted service is stored exactly as sent, except in exactly one case: the test saw
      no change although the metadata differ, and the stored definition is only refreshed. */
  lemma StoredAsSent(o: Options, s: Registry, n: string, def: ServiceInstance, now: int)
    requires WellKeyed(s) && n in s.metas && def.lastSeen == now && RegisterOne(o, s, n, def, now).1 == Ok
    ensures var k, t := Key(n, def.id), RegisterOne(o, s, n, def, now).0;
            && k in t.svcs
            && (t.svcs[k].def == def <==>
                k !in s.svcs || Changed(s.svcs[k].def, def) || s.svcs[k].def.meta == def.meta)
  {
  }

  /** The effective lease window is positive and within the configured bounds, and a window
      already within them is kept. */
  lemma ClampBounds(o: Options, d: int)
    requires o.defaultTTL > 0 && (o.minTTL > 0 && o.maxTTL > 0 ==> o.minTTL <= o.maxTTL)
    ensures var t := ClampTTL(o, d);
            && t > 0 && (o.minTTL > 0 ==> o.minTTL <= t) && (o.maxTTL > 0 ==> t <= o.maxTTL)
            && (d > 0 && (o.minTTL > 0 ==> o.minTTL <= d) && (o.maxTTL > 0 ==> d <= o.maxTTL) ==> t == d)
  {
  }

  // ---- what changes without the index ----

  lemma VisibleAlike(o: Options, s: Registry, t: Registry, q: Query, then_: int, now: int, k: Key)
    requires WellKeyed(s) && WellKeyed(t) && Projection(s) == Projection(t) && k in Visible(o, s, q, then_)
    ensures var a, b := Visible(o, s, q, then_), Visible(o, t, q, now);
            && Held(t, k)
            && (k in b ==> SeenEntry(b[k]) == SeenEntry(a[k]))
            && (k !in b ==>
                  || PastGrace(o, t.svcs[k], now)
                  || (q.datacenter != "" && t.metas[k.node].datacenter != q.datacenter == s.metas[k.node].datacenter))
  {
    assert k in Projection(t) && Projection(t)[k] == Projection(s)[k];
    var a, b := s.svcs[k].def, t.svcs[k].def;
    assert a.(lastSeen := 0) == b.(lastSeen := 0);
    assert a.name == b.name && a.tags == b.tags;
    DescribesAlike(q, a, b);
  }

  /** `e`, listed for `q` at another state, is stored here too; and it is listed here unless it
      is past grace, or its node is no longer in the datacenter asked for. */
  ghost predicate Accounted(o: Options, t: Registry, q: Query, now: int, e: ServiceEntry)
    requires WellKeyed(t)
  {
    && Held(t, e.Id())
    && ((forall f | f in Lookup(o, t, q, now).entries :: f.Id() != e.Id()) ==>
          || PastGrace(o, t.svcs[e.Id()], now)
          || (q.datacenter != "" && t.metas[e.Id().node].datacenter != q.datacenter == e.node.datacenter))
  }

  /** The two listings agree on every instance both list, up to node record, heartbeat time
      and health. */
  ghost predicate AlikeWhereListed(a: seq<ServiceEntry>, b: seq<ServiceEntry>) {
    forall e, f | e in a && f in b && e.Id() == f.Id() :: SeenEntry(e) == SeenEntry(f)
  }

  /** While the index does not move, no instance comes or goes, and one listed at both ends is
      listed the same up to node record, heartbeat time and health. It can drop out of a
      listing, or enter one, only by passing or leaving the end of its grace, or because its
      node moved from or to the datacenter asked for. */
  lemma SilentChange(
    o: Options, ops: seq<Timed>, s: Registry, later: seq<Timed>, t: Registry, q: Query, then_: int, now: int)
    requires o.defaultTTL > 0 && Reaches(o, Init(o), ops, s) && Reaches(o, s, later, t) && s.index == t.index
    ensures WellKeyed(s) && WellKeyed(t)
    ensures AlikeWhereListed(Lookup(o, s, q, then_).entries, Lookup(o, t, q, now).entries)
    ensures forall e | e in Lookup(o, s, q, then_).entries :: Accounted(o, t, q, now, e)
    ensures forall f | f in Lookup(o, t, q, now).entries :: Accounted(o, s, q, then_, f)
  {
    SilentRun(o, ops, s, later, t);
    forall e | e in Lookup(o, s, q, then_).entries
      ensures Accounted(o, t, q, now, e)
    {
      ListedAlike(o, s, t, q, then_, now, e);
    }
    forall f | f in Lookup(o, t, q, now).entries
      ensures Accounted(o, s, q, then_, f)
    {
      ListedAlike(o, t, s, q, now, then_, f);
    }
    forall e, f | e in Lookup(o, s, q, then_).entries && f in Lookup(o, t, q, now).entries && e.Id() == f.Id()
      ensures SeenEntry(e) == SeenEntry(f)
    {
      ListedAlike(o, s, t, q, then_, now, e);
    }
  }

  lemma SilentRun(o: Options, ops: seq<Timed>, s: Registry, later: seq<Timed>, t: Registry)
    requires o.defaultTTL > 0 && Reaches(o, Init(o), ops, s) && Reaches(o, s, later, t) && s.index == t.index
    ensures WellKeyed(s) && WellKeyed(t) && Projection(s) == Projection(t)
  {
    VisibleChangeRaisesIndex(o, ops, s, later, t);
    RunGood(o, ops, s);
    RunFollows(o, s, later, t);
  }

  lemma ListedAlike(o: Options, s: Registry, t: Registry, q: Query, then_: int, now: int, e: ServiceEntry)
    requires WellKeyed(s) && WellKeyed(t) && Projection(s) == Projection(t) && e in Lookup(o, s, q, then_).entries
    ensures Accounted(o, t, q, now, e)
    ensures forall f | f in Lookup(o, t, q, now).entries && f.Id() == e.Id() :: SeenEntry(f) == SeenEntry(e)
  {
    VisibleAlike(o, s, t, q, then_, now, e.Id());
    var vis := Visible(o, t, q, now);
    if e.Id() in vis {
      assert vis[e.Id()] in Listing(vis);
    }
  }

  const ANYTHING := Query("", "", [], false)

  /** A registration that only changes the record of a known node moves no index and emits
      nothing, yet every listed instance of the node is listed differently. */
  lemma NodeRecordIsSilent(o: Options, s: Registry, n: Node, k: Key, generation: nat, now: int)
    requires WellKeyed(s) && k in s.svcs && n.id == k.node && n != s.metas[k.node] && !PastGrace(o, s.svcs[k], now)
    ensures var t := Register(o, s, Registration(n, [], generation), now).0;
            && t.index == s.index && t.log == s.log && Projection(t) == Projection(s) && WellKeyed(t)
            && Lookup(o, t, ANYTHING, now).entries != Lookup(o, s, ANYTHING, now).entries
  {
    RegisterNodeOnly(o, s, n, generation, now);
    SetMetaSilent(s, n);
    RecordShows(o, s, n, k, now);
  }

  lemma RegisterNodeOnly(o: Options, s: Registry, n: Node, generation: nat, now: int)
    requires n.id != ""
    ensures Register(o, s, Registration(n, [], generation), now).0 == SetMeta(s, n)
  {
  }

  lemma SetMetaSilent(s: Registry, n: Node)
    requires WellKeyed(s)
    ensures WellKeyed(SetMeta(s, n)) && Projection(SetMeta(s, n)) == Projection(s)
  {
  }

  lemma RecordShows(o: Options, s: Registry, n: Node, k: Key, now: int)
    requires WellKeyed(s) && WellKeyed(SetMeta(s, n))
    requires k in s.svcs && n.id == k.node && n != s.metas[k.node] && !PastGrace(o, s.svcs[k], now)
    ensures Lookup(o, SetMeta(s, n), ANYTHING, now).entries != Lookup(o, s, ANYTHING, now).entries
  {
    var a, b := Visible(o, s, ANYTHING, now), Visible(o, SetMeta(s, n), ANYTHING, now);
    assert s.svcs[k].def.MatchesTags([]);
    assert a[k].Id() == k && b[k].node == n != a[k].node;
    assert a[k] in Listing(a) && a[k] !in Listing(b);
  }

}
