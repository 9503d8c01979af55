/** Garbage collection: whatever order the maps are walked in, GC removes exactly the
    past-grace instances, reconciles the rest, and no lookup at that instant can tell. */
module StoreGc {
  import opened Model
  import opened Order
  import opened StoreSpec
  import opened StoreInvariants

  // ---- one sweep, key by key ----

  predicate Distinct(order: seq<Key>) {
    forall i, j | 0 <= i < j < |order| :: order[i] != order[j]
  }

  lemma {:induction false} EnumeratesDistinct(order: seq<Key>, ks: set<Key>)
    requires Enumerates(order, ks)
    ensures Distinct(order)
  {
    forall i, j | 0 <= i < j < |order|
      ensures order[i] != order[j]
    {
      assert order == order[..j] + [order[j]] + order[j + 1..];
      assert multiset(order[..j])[order[j]] + 1 <= multiset(order)[order[j]] == multiset(ks)[order[j]] <= 1;
      assert order[i] in order[..j];
    }
  }

  lemma {:induction false} GcAllAppend(o: Options, s: Registry, order: seq<Key>, k: Key, now: int)
    ensures GcAll(o, s, order + [k], now) == GcOne(o, GcAll(o, s, order, now), k, now)
    decreases |order|
  {
    if order == [] {
      assert [k][1..] == [];
    } else {
      assert (order + [k])[1..] == order[1..] + [k];
      GcAllAppend(o, GcOne(o, s, order[0], now), order[1..], k, now);
    }
  }

  lemma {:induction false} GcAllConcat(o: Options, s: Registry, a: seq<Key>, b: seq<Key>, now: int)
    ensures GcAll(o, s, a + b, now) == GcAll(o, GcAll(o, s, a, now), b, now)
    decreases |a|
  {
    if a == [] {
      assert a + b == b;
    } else {
      assert (a + b)[1..] == a[1..] + b;
      GcAllConcat(o, GcOne(o, s, a[0], now), a[1..], b, now);
    }
  }

  /** A sweep leaves keys it does not visit alone. */
  lemma {:induction false} GcAllSkips(o: Options, s: Registry, order: seq<Key>, now: int, k: Key)
    requires k !in order
    ensures var t := GcAll(o, s, order, now);
            t.metas == s.metas && (k in t.svcs <==> k in s.svcs) && (k in s.svcs ==> t.svcs[k] == s.svcs[k])
    decreases |order|
  {
    if order != [] {
      assert order[0] in order && forall j | j in order[1..] :: j in order;
      GcAllSkips(o, GcOne(o, s, order[0], now), order[1..], now, k);
    }
  }

  /** What a sweep leaves of a visited instance, up to its new ModifyIndex. */
  ghost predicate Reconciled(o: Options, was: Service, t: Registry, k: Key, now: int) {
    if PastGrace(o, was, now) then k !in t.svcs
    else k in t.svcs && t.svcs[k] == was.(lastState := State(was, now), modifyIndex := t.svcs[k].modifyIndex)
  }

  lemma {:induction false} GcAllVisits(o: Options, s: Registry, order: seq<Key>, now: int, k: Key)
    requires Distinct(order) && k in order && Held(s, k)
    ensures Reconciled(o, s.svcs[k], GcAll(o, s, order, now), k, now)
    decreases |order|
  {
    var m := GcOne(o, s, order[0], now);
    if k == order[0] {
      assert k !in order[1..];
      GcAllSkips(o, m, order[1..], now, k);
    } else {
      assert k in order[1..];
      assert m.metas == s.metas && k in m.svcs && m.svcs[k] == s.svcs[k];
      GcAllVisits(o, m, order[1..], now, k);
    }
  }

  /** The whole effect of GC, for any walk order. */
  lemma GcEffect(o: Options, s: Registry, order: seq<Key>, now: int)
    requires WellKeyed(s) && Enumerates(order, s.svcs.Keys)
    ensures var t := Gc(o, s, order, now);
            && (forall k | k in s.svcs :: Reconciled(o, s.svcs[k], t, k, now))
            && (forall k | k in t.svcs :: k in s.svcs)
            && (forall n :: n in t.metas <==> n in s.metas && exists k :: k in t.svcs && k.node == n)
            && (forall n | n in t.metas :: t.metas[n] == s.metas[n])
  {
    var t := GcAll(o, s, order, now);
    EnumeratesDistinct(order, s.svcs.Keys);
    EnumeratesElements(order, s.svcs.Keys);
    forall k | k in s.svcs
      ensures Reconciled(o, s.svcs[k], t, k, now)
    {
      GcAllVisits(o, s, order, now, k);
    }
    forall k | k in t.svcs
      ensures k in s.svcs
    {
      if k !in s.svcs {
        GcAllSkips(o, s, order, now, k);
      }
    }
    SweepMetas(o, s, order, now);
    forall n
      ensures NodeKeys(t, n) != {} <==> exists k :: k in t.svcs && k.node == n
    {
      if k :| k in t.svcs && k.node == n {
        assert k in NodeKeys(t, n);
      }
    }
  }

  lemma {:induction false} SweepMetas(o: Options, s: Registry, order: seq<Key>, now: int)
    ensures GcAll(o, s, order, now).metas == s.metas
    decreases |order|
  {
    if order != [] {
      SweepMetas(o, GcOne(o, s, order[0], now), order[1..], now);
    }
  }

  // ---- main results ----

  /** Nothing is left to do: no past-grace record, no empty node, every lease state current. */
  ghost predicate Swept(o: Options, s: Registry, now: int) {
    && (forall k | k in s.svcs :: !PastGrace(o, s.svcs[k], now) && s.svcs[k].lastState == State(s.svcs[k], now))
    && (forall n | n in s.metas :: exists k :: k in s.svcs && k.node == n)
  }

  lemma GcSweeps(o: Options, s: Registry, order: seq<Key>, now: int)
    requires WellKeyed(s) && Enumerates(order, s.svcs.Keys)
    ensures Swept(o, Gc(o, s, order, now), now)
  {
    GcEffect(o, s, order, now);
    var t := Gc(o, s, order, now);
    forall k | k in t.svcs
      ensures !PastGrace(o, t.svcs[k], now) && t.svcs[k].lastState == State(t.svcs[k], now)
    {
      assert Reconciled(o, s.svcs[k], t, k, now);
    }
  }

  lemma {:induction false} SweptSweep(o: Options, s: Registry, order: seq<Key>, now: int)
    requires Swept(o, s, now)
    ensures GcAll(o, s, order, now) == s
    decreases |order|
  {
    if order != [] {
      SweptSweep(o, s, order[1..], now);
    }
  }

  /** GC is idempotent at one instant: a second pass, in any order, changes nothing at all -
      no removal, no index movement, no event. */
  lemma GcIdempotent(o: Options, s: Registry, order: seq<Key>, again: seq<Key>, now: int)
    requires WellKeyed(s) && Enumerates(order, s.svcs.Keys)
    ensures Gc(o, Gc(o, s, order, now), again, now) == Gc(o, s, order, now)
  {
    var t := Gc(o, s, order, now);
    GcSweeps(o, s, order, now);
    SweptSweep(o, t, again, now);
    forall n | n in t.metas
      ensures NodeKeys(t, n) != {}
    {
      var k :| k in t.svcs && k.node == n;
      assert k in NodeKeys(t, n);
    }
    assert DropEmpty(t).metas == t.metas;
  }

  /** Equal except for ModifyIndex. */
  predicate Alike(a: ServiceEntry, b: ServiceEntry) {
    a == b.(modifyIndex := a.modifyIndex)
  }

  /** GC is invisible: at the same instant every query returns the same instances before and
      after, in the same order, differing at most in ModifyIndex. */
  lemma GcInvisible(o: Options, s: Registry, order: seq<Key>, now: int, q: Query)
    requires Good(o, s) && Enumerates(order, s.svcs.Keys)
    ensures WellKeyed(Gc(o, s, order, now))
    ensures var before, after := Lookup(o, s, q, now).entries, Lookup(o, Gc(o, s, order, now), q, now).entries;
            |before| == |after| && forall i | 0 <= i < |before| :: Alike(before[i], after[i])
  {
    GcGood(o, s, order, now);
    SweptVisible(o, s, order, now, q);
    AlikeListings(Visible(o, s, q, now), Visible(o, Gc(o, s, order, now), q, now));
  }

  lemma SweptVisible(o: Options, s: Registry, order: seq<Key>, now: int, q: Query)
    requires WellKeyed(s) && Enumerates(order, s.svcs.Keys)
    ensures var a, b := Visible(o, s, q, now), Visible(o, Gc(o, s, order, now), q, now);
            a.Keys == b.Keys && forall k | k in a :: Alike(a[k], b[k])
  {
    var t := Gc(o, s, order, now);
    GcEffect(o, s, order, now);
    var a, b := Visible(o, s, q, now), Visible(o, t, q, now);
    forall k
      ensures k in a <==> k in b
      ensures k in a ==> k in b && Alike(a[k], b[k])
    {
      if k in s.svcs {
        ReconciledVisible(o, s, t, q, now, k);
      }
    }
  }

  lemma ReconciledVisible(o: Options, s: Registry, t: Registry, q: Query, now: int, k: Key)
    requires Held(s, k) && Reconciled(o, s.svcs[k], t, k, now)
    requires k in t.svcs ==> k.node in t.metas && t.metas[k.node] == s.metas[k.node]
    ensures var a, b := Visible(o, s, q, now), Visible(o, t, q, now);
            (k in a <==> k in b) && (k in a ==> Alike(a[k], b[k]))
  {
  }

  lemma AlikeListings(a: map<Key, ServiceEntry>, b: map<Key, ServiceEntry>)
    requires Keyed(a) && Keyed(b) && a.Keys == b.Keys
    requires forall k | k in a :: Alike(a[k], b[k])
    ensures |Listing(a)| == |Listing(b)|
    ensures forall i | 0 <= i < |Listing(a)| :: Alike(Listing(a)[i], Listing(b)[i])
  {
    forall i | 0 <= i < |Listing(a)|
      ensures Alike(Listing(a)[i], Listing(b)[i])
    {
      assert Keys(Listing(a))[i] == Keys(Listing(b))[i];
      assert Listing(a)[i] in Listing(a) && Listing(b)[i] in Listing(b);
    }
  }
}
