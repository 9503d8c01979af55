/** The read path every surface shares (internal/health): the last-writer-wins merge of
    several seeds' answers, and the visibility filter. */
module Health {
  import opened Model
  import opened Order

  // ---- visibility ----

  predicate Visible(e: ServiceEntry, onlyPassing: bool) {
    if !onlyPassing then true
    else if e.maintenance then false
    else e.health == Passing || e.health == Warning
  }

  function Filtered(es: seq<ServiceEntry>, onlyPassing: bool): seq<ServiceEntry>
    decreases |es|
  {
    if es == [] then []
    else
      var rest := Filtered(es[..|es| - 1], onlyPassing);
      if Visible(es[|es| - 1], onlyPassing) then rest + [es[|es| - 1]] else rest
  }

  method Filter(es: seq<ServiceEntry>, onlyPassing: bool) returns (out: seq<ServiceEntry>)
    ensures out == Filtered(es, onlyPassing)
  {
    out := [];
    for i := 0 to |es|
      invariant out == Filtered(es[..i], onlyPassing)
    {
      assert es[..i + 1][..i] == es[..i];
      if Visible(es[i], onlyPassing) {
        out := out + [es[i]];
      }
    }
    assert es[..|es|] == es;
  }

  /** The filter keeps exactly the visible entries, with their multiplicity: with OnlyPassing
      those that are not drained and passing or warning, without it all of them. */
  lemma {:induction false} FilterKeepsVisible(es: seq<ServiceEntry>, onlyPassing: bool, e: ServiceEntry)
    ensures multiset(Filtered(es, onlyPassing))[e] ==
            if onlyPassing && (e.maintenance || (e.health != Passing && e.health != Warning)) then 0
            else multiset(es)[e]
    ensures !onlyPassing ==> Filtered(es, onlyPassing) == es
    decreases |es|
  {
    if es != [] {
      FilterKeepsVisible(es[..|es| - 1], onlyPassing, e);
      assert es == es[..|es| - 1] + [es[|es| - 1]];
    }
  }

  /** The filter works entry by entry, so it keeps their order. */
  lemma {:induction false} FilterConcat(a: seq<ServiceEntry>, b: seq<ServiceEntry>, onlyPassing: bool)
    ensures Filtered(a + b, onlyPassing) == Filtered(a, onlyPassing) + Filtered(b, onlyPassing)
    decreases |b|
  {
    if b == [] {
      assert a + b == a;
    } else {
      assert (a + b)[..|a + b| - 1] == a + b[..|b| - 1];
      FilterConcat(a, b[..|b| - 1], onlyPassing);
    }
  }

  // ---- the winner of one identity ----

  /** Of two candidates the later one must strictly win to replace the earlier. */
  function Pick(a: Option<ServiceEntry>, b: Option<ServiceEntry>): Option<ServiceEntry> {
    if a.None? || (b.Some? && b.value.service.WinsLWW(a.value.service)) then b else a
  }

  /** The winner among the entries of `es` identified by `k`. */
  function Best(es: seq<ServiceEntry>, k: Key): Option<ServiceEntry>
    decreases |es|
  {
    if es == [] then None
    else
      var e := es[|es| - 1];
      var rest := Best(es[..|es| - 1], k);
      if e.Id() == k then Pick(rest, Some(e)) else rest
  }

  lemma BestSnoc(es: seq<ServiceEntry>, e: ServiceEntry, k: Key)
    ensures Best(es + [e], k) == if e.Id() == k then Pick(Best(es, k), Some(e)) else Best(es, k)
  {
    assert (es + [e])[..|es + [e]| - 1] == es;
  }

  lemma {:induction false} BestConcat(a: seq<ServiceEntry>, b: seq<ServiceEntry>, k: Key)
    ensures Best(a + b, k) == Pick(Best(a, k), Best(b, k))
    decreases |b|
  {
    if b == [] {
      assert a + b == a;
    } else {
      var e, b' := b[|b| - 1], b[..|b| - 1];
      BestConcat(a, b', k);
      assert a + b == (a + b') + [e] && b == b' + [e];
      BestSnoc(a + b', e, k);
      BestSnoc(b', e, k);
    }
  }

  /** `es[i]` is the first version-maximal entry identified by `k`. */
  ghost predicate FirstMaximal(es: seq<ServiceEntry>, k: Key, i: int) {
    && 0 <= i < |es| && es[i].Id() == k
    && (forall j | 0 <= j < |es| && es[j].Id() == k :: !es[j].service.WinsLWW(es[i].service))
    && (forall j | 0 <= j < i && es[j].Id() == k :: es[i].service.WinsLWW(es[j].service))
  }

  lemma FirstMaximalNew(es: seq<ServiceEntry>, e: ServiceEntry, k: Key)
    requires e.Id() == k && forall f | f in es && f.Id() == k :: e.service.WinsLWW(f.service)
    ensures FirstMaximal(es + [e], k, |es|)
  {
    assert forall j | 0 <= j < |es| :: es[j] in es && (es + [e])[j] == es[j];
  }

  lemma FirstMaximalKept(es: seq<ServiceEntry>, e: ServiceEntry, k: Key, i: int)
    requires FirstMaximal(es, k, i) && (e.Id() == k ==> !e.service.WinsLWW(es[i].service))
    ensures FirstMaximal(es + [e], k, i)
  {
  }

  lemma FirstMaximalBeaten(es: seq<ServiceEntry>, e: ServiceEntry, k: Key, i: int)
    requires FirstMaximal(es, k, i) && e.Id() == k && e.service.WinsLWW(es[i].service)
    ensures FirstMaximal(es + [e], k, |es|)
  {
    forall f | f in es && f.Id() == k
      ensures e.service.WinsLWW(f.service)
    {
      var j :| 0 <= j < |es| && es[j] == f;
      assert !es[j].service.WinsLWW(es[i].service);
    }
    FirstMaximalNew(es, e, k);
  }

  /** `Best` is the first version-maximal entry of its key, and is missing only when the
      key is. */
  lemma {:induction false} BestIsFirstMaximal(es: seq<ServiceEntry>, k: Key)
    ensures Best(es, k).None? ==> forall e | e in es :: e.Id() != k
    ensures Best(es, k).Some? ==> exists i :: FirstMaximal(es, k, i) && Best(es, k).value == es[i]
    decreases |es|
  {
    if es != [] {
      var rest, e := es[..|es| - 1], es[|es| - 1];
      assert es == rest + [e];
      BestIsFirstMaximal(rest, k);
      if Best(rest, k).None? {
        if e.Id() == k {
          FirstMaximalNew(rest, e, k);
        }
      } else {
        var i :| FirstMaximal(rest, k, i) && Best(rest, k).value == rest[i];
        if e.Id() == k && e.service.WinsLWW(rest[i].service) {
          FirstMaximalBeaten(rest, e, k, i);
        } else {
          FirstMaximalKept(rest, e, k, i);
        }
      }
    }
  }

  lemma BestCons(es: seq<ServiceEntry>, k: Key)
    requires es != []
    ensures Best(es, k) == Pick(if es[0].Id() == k then Some(es[0]) else None, Best(es[1..], k))
  {
    assert es == [es[0]] + es[1..];
    BestConcat([es[0]], es[1..], k);
    BestSnoc([], es[0], k);
    assert [] + [es[0]] == [es[0]];
  }

  // ---- the merge ----

  ghost function Ids(es: seq<ServiceEntry>): set<Key> {
    set e | e in es :: e.Id()
  }

  /** The winner of every identity present. */
  ghost function Winners(es: seq<ServiceEntry>): (m: map<Key, ServiceEntry>)
    ensures Keyed(m)
    ensures forall k :: Best(es, k) == if k in m then Some(m[k]) else None
  {
    forall k
      ensures k in Ids(es) <==> Best(es, k).Some?
      ensures Best(es, k).Some? ==> Best(es, k).value.Id() == k
    {
      BestPresent(es, k);
    }
    map k | k in Ids(es) :: Best(es, k).value
  }

  lemma BestPresent(es: seq<ServiceEntry>, k: Key)
    ensures k in Ids(es) <==> Best(es, k).Some?
    ensures Best(es, k).Some? ==> Best(es, k).value.Id() == k && Best(es, k).value in es
  {
    BestIsFirstMaximal(es, k);
    if Best(es, k).None? {
      assert forall e | e in es :: e.Id() != k;
    } else {
      assert Best(es, k).value in es;
    }
  }

  /** What MergeLWW returns. */
  ghost function Merged(es: seq<ServiceEntry>): seq<ServiceEntry> {
    Listing(Winners(es))
  }

  method MergeLWW(es: seq<ServiceEntry>) returns (out: seq<ServiceEntry>)
    ensures out == Merged(es)
  {
    if |es| == 0 {
      out := [];
      ListingIs(Winners(es), out);
      return;
    }
    var winners: map<Key, ServiceEntry> := map[];
    for i := 0 to |es|
      invariant winners == Winners(es[..i])
    {
      var e := es[i];
      var k := e.Id();
      assert es[..i + 1] == es[..i] + [e];
      WinnersSnoc(es[..i], e);
      if !(k in winners && !e.service.WinsLWW(winners[k].service)) {
        winners := winners[k := e];
      }
    }
    assert es[..|es|] == es;
    out := Entries(winners);
    var sorted := SortEntries(out);
    SortedListing(winners, sorted);
    out := sorted;
  }

  lemma WinnersSnoc(es: seq<ServiceEntry>, e: ServiceEntry)
    ensures Winners(es + [e]) ==
            if e.Id() in Winners(es) && !e.service.WinsLWW(Winners(es)[e.Id()].service) then Winners(es)
            else Winners(es)[e.Id() := e]
  {
    forall k
      ensures Best(es + [e], k) == if e.Id() == k then Pick(Best(es, k), Some(e)) else Best(es, k)
    {
      BestSnoc(es, e, k);
    }
  }

  /** The values of a keyed map, in any order. */
  method Entries(m: map<Key, ServiceEntry>) returns (out: seq<ServiceEntry>)
    requires Keyed(m)
    ensures forall e: ServiceEntry :: multiset(out)[e] == if e.Id() in m && m[e.Id()] == e then 1 else 0
  {
    out := [];
    var todo := m.Keys;
    while todo != {}
      invariant todo <= m.Keys
      invariant forall e: ServiceEntry ::
          multiset(out)[e] == if e.Id() in m && e.Id() !in todo && m[e.Id()] == e then 1 else 0
      decreases todo
    {
      var k :| k in todo;
      out := out + [m[k]];
      todo := todo - {k};
    }
  }

  // ---- main results ----

  lemma FirstMaximalUnique(es: seq<ServiceEntry>, k: Key, i: int)
    requires FirstMaximal(es, k, i)
    ensures Best(es, k) == Some(es[i])
  {
    BestIsFirstMaximal(es, k);
    assert es[i] in es;
    var j :| FirstMaximal(es, k, j) && Best(es, k).value == es[j];
    assert i == j;
  }

  /** The merge lists one entry per identity present, in strict key order, and that entry is
      the first version-maximal one of its identity. */
  lemma MergedMeaning(es: seq<ServiceEntry>)
    ensures Ascending(Keys(Merged(es)))
    ensures forall k :: k in Keys(Merged(es)) <==> k in Ids(es)
    ensures forall e | e in Merged(es) :: exists i :: FirstMaximal(es, e.Id(), i) && es[i] == e
  {
    forall k
      ensures k in Keys(Merged(es)) <==> k in Ids(es)
    {
      BestPresent(es, k);
      assert k in SortedKeys(Winners(es).Keys) <==> k in Winners(es).Keys;
    }
    forall e | e in Merged(es)
      ensures exists i :: FirstMaximal(es, e.Id(), i) && es[i] == e
    {
      BestIsFirstMaximal(es, e.Id());
    }
  }

  ghost predicate SameBest(a: seq<ServiceEntry>, b: seq<ServiceEntry>) {
    forall k :: Best(a, k) == Best(b, k)
  }

  /** Two inputs merge alike exactly when every identity has the same winner in both. */
  lemma MergedEqual(a: seq<ServiceEntry>, b: seq<ServiceEntry>)
    ensures Merged(a) == Merged(b) <==> SameBest(a, b)
  {
    var m, n := Winners(a), Winners(b);
    if Listing(m) == Listing(n) {
      ListingInjective(m, n);
    }
    if SameBest(a, b) {
      SameWinners(a, b);
    }
  }

  lemma SameWinners(a: seq<ServiceEntry>, b: seq<ServiceEntry>)
    requires SameBest(a, b)
    ensures Winners(a) == Winners(b)
  {
    var m, n := Winners(a), Winners(b);
    forall k
      ensures k in m <==> k in n
      ensures k in m ==> k in n && m[k] == n[k]
    {
      assert Best(a, k) == Best(b, k);
    }
  }

  lemma MergedHolds(es: seq<ServiceEntry>, k: Key)
    requires Best(es, k).Some?
    ensures Best(es, k).value in Merged(es) && Best(es, k).value.Id() == k
  {
    assert k in Winners(es);
  }

  /** Merging keeps the winner of every identity. */
  lemma BestOfMerged(es: seq<ServiceEntry>, k: Key)
    ensures Best(Merged(es), k) == Best(es, k)
  {
    var m := Winners(es);
    BestPresent(Merged(es), k);
    assert Best(es, k) == if k in m then Some(m[k]) else None;
    if k in m {
      assert m[k] in Merged(es) && m[k].Id() in Ids(Merged(es));
    }
  }

  /** Merging is compositional, ties included: merging two merges is merging everything. */
  lemma MergeOfMerges(xs: seq<ServiceEntry>, ys: seq<ServiceEntry>)
    ensures Merged(Merged(xs) + Merged(ys)) == Merged(xs + ys)
    ensures Merged(Merged(xs)) == Merged(xs)
  {
    forall k
      ensures Best(Merged(xs) + Merged(ys), k) == Best(xs + ys, k)
      ensures Best(Merged(xs), k) == Best(xs, k)
    {
      BestConcat(Merged(xs), Merged(ys), k);
      BestConcat(xs, ys, k);
      BestOfMerged(xs, k);
      BestOfMerged(ys, k);
    }
    MergedEqual(Merged(xs) + Merged(ys), xs + ys);
    MergedEqual(Merged(xs), xs);
  }

  // ---- does the order of the input matter? ----

  ghost predicate Maximal(es: seq<ServiceEntry>, e: ServiceEntry) {
    e in es && forall f | f in es && f.Id() == e.Id() :: !f.service.WinsLWW(e.service)
  }

  /** No identity has two different entries at its highest version. */
  ghost predicate Untied(es: seq<ServiceEntry>) {
    forall a, b | Maximal(es, a) && Maximal(es, b) && a.Id() == b.Id() :: a == b
  }

  predicate Rearranges(ys: seq<ServiceEntry>, es: seq<ServiceEntry>) {
    multiset(ys) == multiset(es)
  }

  ghost predicate OrderFree(es: seq<ServiceEntry>) {
    forall ys | Rearranges(ys, es) :: Merged(ys) == Merged(es)
  }

  lemma RearrangesElements(ys: seq<ServiceEntry>, es: seq<ServiceEntry>)
    requires Rearranges(ys, es)
    ensures forall e :: e in ys <==> e in es
  {
    forall e
      ensures e in ys <==> e in es
    {
      assert e in ys <==> e in multiset(ys);
      assert e in es <==> e in multiset(es);
    }
  }

  lemma BestIsMaximal(es: seq<ServiceEntry>, k: Key)
    requires Best(es, k).Some?
    ensures Maximal(es, Best(es, k).value) && Best(es, k).value.Id() == k
  {
    BestIsFirstMaximal(es, k);
  }

  lemma UntiedOrderFree(es: seq<ServiceEntry>, ys: seq<ServiceEntry>)
    requires Untied(es) && Rearranges(ys, es)
    ensures Merged(ys) == Merged(es)
  {
    RearrangesElements(ys, es);
    forall k
      ensures Best(ys, k) == Best(es, k)
    {
      BestPresent(es, k);
      BestPresent(ys, k);
      assert Ids(es) == Ids(ys);
      if Best(es, k).Some? {
        BestIsMaximal(es, k);
        BestIsMaximal(ys, k);
        assert Maximal(es, Best(ys, k).value);
      }
    }
    MergedEqual(ys, es);
  }

  /** A maximal entry moved to the front wins. */
  lemma FrontWins(es: seq<ServiceEntry>, a: ServiceEntry) returns (ys: seq<ServiceEntry>)
    requires Maximal(es, a)
    ensures Rearranges(ys, es) && Best(ys, a.Id()) == Some(a)
  {
    var i :| 0 <= i < |es| && es[i] == a;
    ys := [a] + (es[..i] + es[i + 1..]);
    assert es == es[..i] + [a] + es[i + 1..];
    RearrangesElements(ys, es);
    assert forall j | 0 <= j < |ys| :: ys[j] in es;
    FirstMaximalUnique(ys, a.Id(), 0);
  }

  /** Merging keeps, for every entry, one of its identity that is at least as new. */
  lemma MergedKeepsVersion(es: seq<ServiceEntry>, e: ServiceEntry)
    requires e in es
    ensures Covers(Merged(es), e)
  {
    BestPresent(es, e.Id());
    assert e.Id() in Ids(es);
    BestIsMaximal(es, e.Id());
    MergedHolds(es, e.Id());
  }

  /** `ws` holds the instance of `e` at its version or a later one. */
  ghost predicate Covers(ws: seq<ServiceEntry>, e: ServiceEntry) {
    exists w | w in ws :: w.Id() == e.Id() && e.service.Stamp().AtMost(w.service.Stamp())
  }

  /** What wins: every merged entry comes from the input, and no entry of its identity has a
      higher generation, or the same one and a later heartbeat. */
  lemma NewestWins(es: seq<ServiceEntry>, w: ServiceEntry, e: ServiceEntry)
    requires w in Merged(es) && e in es && e.Id() == w.Id()
    ensures w in es
    ensures e.service.generation < w.service.generation
            || (e.service.generation == w.service.generation && e.service.lastSeen <= w.service.lastSeen)
  {
    MergedMeaning(es);
    var i :| FirstMaximal(es, w.Id(), i) && es[i] == w;
    var j :| 0 <= j < |es| && es[j] == e;
    assert !es[j].service.WinsLWW(es[i].service);
  }

  /** The merge is independent of the input order exactly for inputs without ties. */
  lemma OrderFreeIffUntied(es: seq<ServiceEntry>)
    ensures OrderFree(es) <==> Untied(es)
  {
    if Untied(es) {
      forall ys | Rearranges(ys, es)
        ensures Merged(ys) == Merged(es)
      {
        UntiedOrderFree(es, ys);
      }
    }
    if OrderFree(es) {
      forall a, b | Maximal(es, a) && Maximal(es, b) && a.Id() == b.Id()
        ensures a == b
      {
        var xs := FrontWins(es, a);
        var ys := FrontWins(es, b);
        MergedEqual(xs, ys);
        assert Best(xs, a.Id()) == Best(ys, a.Id());
      }
    }
  }

  /** A tie whose order shows: one instance, one version, two addresses. */
  lemma TieDependsOnOrder(a: ServiceEntry, b: ServiceEntry)
    requires a.Id() == b.Id() && a.service.Stamp() == b.service.Stamp() && a != b
    ensures Merged([a, b]) != Merged([b, a])
  {
    FirstMaximalUnique([a, b], a.Id(), 0);
    FirstMaximalUnique([b, a], a.Id(), 0);
    MergedEqual([a, b], [b, a]);
    assert Best([a, b], a.Id()) != Best([b, a], a.Id());
  }
}
