/** The agent's read cache (internal/seedclient/cache.go): it must answer what an unfiltered
    fan-out answered recently, health-filtered, and report a change exactly when there is one. */
module Cache {
  import opened Model
  import opened Text
  import opened Order
  import opened Health
  import opened AgentWatch
  import F = FanOut

  // ---- the cache key ----

  datatype CacheKey = CacheKey(name: string, dc: string, tags: string)

  function KeyFor(q: Query): CacheKey {
    CacheKey(q.name, q.datacenter, Join(q.tags, NUL))
  }

  /** Among NUL-free tag lists the joined text confuses exactly one pair: no tags, and the
      single empty tag. */
  lemma JoinConfusion(a: seq<string>, b: seq<string>)
    requires Free(a, NUL) && Free(b, NUL)
    ensures Join(a, NUL) == Join(b, NUL) <==> a == b || (a == [] && b == [""]) || (a == [""] && b == [])
  {
    if a != [] {
      SplitJoin(a, NUL);
    }
    if b != [] {
      SplitJoin(b, NUL);
    }
  }

  predicate Plain(q: Query) {
    Free(q.tags, NUL) && q.tags != [""]
  }

  /** The query a fan-out is asked: everything, whatever the health. */
  function Raw(q: Query): Query {
    q.(onlyHealthy := false)
  }

  lemma KeyForInjective(a: Query, b: Query)
    requires Plain(a) && Plain(b)
    ensures KeyFor(a) == KeyFor(b) <==> Raw(a) == Raw(b)
  {
    JoinConfusion(a.tags, b.tags);
  }

  // ---- change detection ----

  predicate SamePlace(a: ServiceEntry, b: ServiceEntry) {
    a.node.id == b.node.id && a.service.id == b.service.id && !EndpointChanged(a, b)
  }

  /** The positional comparison the cache makes; no previous entry reads as the empty list. */
  predicate Differs(prev: seq<ServiceEntry>, cur: seq<ServiceEntry>) {
    |prev| != |cur| || exists i | 0 <= i < |cur| :: !SamePlace(prev[i], cur[i])
  }

  /** What readers care about in an entry. */
  datatype Fact = Fact(id: Key, address: string, port: nat, generation: nat, health: HealthState)

  function FactOf(e: ServiceEntry): Fact {
    Fact(e.Id(), e.service.address, e.service.port, e.service.generation, e.health)
  }

  function Facts(es: seq<ServiceEntry>): set<Fact> {
    set e | e in es :: FactOf(e)
  }

  lemma AscendingApart(es: seq<ServiceEntry>, i: int, j: int)
    requires Ascending(Keys(es)) && 0 <= i < |es| && 0 <= j < |es| && es[i].Id() == es[j].Id()
    ensures i == j
  {
    BeforeTotal(Keys(es)[i], Keys(es)[j]);
  }

  /** On key-ordered lists, which merges always are, the positional comparison reports a
      difference exactly when the two sets of (identity, address, port, generation, health)
      differ. */
  lemma DiffersIsSetDifference(prev: seq<ServiceEntry>, cur: seq<ServiceEntry>)
    requires Ascending(Keys(prev)) && Ascending(Keys(cur))
    ensures Differs(prev, cur) <==> Facts(prev) != Facts(cur)
  {
    if !Differs(prev, cur) {
      SamePlaces(prev, cur);
      SamePlaces(cur, prev);
    }
    if Facts(prev) == Facts(cur) {
      FactKeys(prev, cur);
      FactKeys(cur, prev);
      ListingUnique(Keys(prev), Keys(cur), set k | k in Keys(prev));
      forall i | 0 <= i < |cur|
        ensures SamePlace(prev[i], cur[i])
      {
        SameFact(prev, cur, i);
      }
    }
  }

  lemma SamePlaces(a: seq<ServiceEntry>, b: seq<ServiceEntry>)
    requires |a| == |b| && forall i | 0 <= i < |a| :: FactOf(a[i]) == FactOf(b[i])
    ensures Facts(a) <= Facts(b)
  {
    forall f | f in Facts(a)
      ensures f in Facts(b)
    {
      var e :| e in a && FactOf(e) == f;
      var i :| 0 <= i < |a| && a[i] == e;
      assert b[i] in b;
    }
  }

  lemma FactKeys(a: seq<ServiceEntry>, b: seq<ServiceEntry>)
    requires Facts(a) <= Facts(b)
    ensures forall k | k in Keys(a) :: k in Keys(b)
  {
    forall k | k in Keys(a)
      ensures k in Keys(b)
    {
      var i :| 0 <= i < |a| && Keys(a)[i] == k;
      assert a[i] in a && FactOf(a[i]) in Facts(b);
      var e :| e in b && FactOf(e) == FactOf(a[i]);
      var j :| 0 <= j < |b| && b[j] == e;
      assert Keys(b)[j] == k;
    }
  }

  lemma SameFact(prev: seq<ServiceEntry>, cur: seq<ServiceEntry>, i: nat)
    requires Ascending(Keys(cur)) && Keys(prev) == Keys(cur) && Facts(prev) == Facts(cur) && i < |cur|
    ensures |prev| == |cur| && FactOf(prev[i]) == FactOf(cur[i])
  {
    assert |Keys(prev)| == |prev| == |cur|;
    assert prev[i] in prev && FactOf(prev[i]) in Facts(cur);
    var e :| e in cur && FactOf(e) == FactOf(prev[i]);
    var j :| 0 <= j < |cur| && cur[j] == e;
    assert Keys(prev)[i] == Keys(cur)[i];
    AscendingApart(cur, i, j);
  }

  // ---- the cache ----

  datatype CacheEntry = CacheEntry(query: Query, merged: seq<ServiceEntry>, index: nat, fetchedAt: int)

  /** One successful fan-out. */
  datatype Fetch = Fetch(query: Query, result: LookupResult, at: int)

  datatype Answer = Served(result: LookupResult, age: int) | Failed | NilDereference

  class Cache {
    const maxAge: int
    var entries: map<CacheKey, CacheEntry>
    /** The names reported through OnChange. */
    var notified: seq<string>
    /** Every successful fan-out so far. */
    ghost var fetches: seq<Fetch>

    /** Every cached entry is the key-ordered answer of some fan-out for a query with that key. */
    ghost predicate Valid()
      reads this
    {
      && maxAge > 0
      && forall key | key in entries ::
           && KeyFor(entries[key].query) == key
           && FetchOf(entries[key]) in fetches
           && Ascending(Keys(entries[key].merged))
    }

    static function FetchOf(e: CacheEntry): Fetch {
      Fetch(Raw(e.query), LookupResult(e.merged, e.index), e.fetchedAt)
    }

    constructor (age: int)
      ensures Valid() && entries == map[] && notified == [] && fetches == []
      ensures maxAge == if age <= 0 then 5_000_000_000 else age
    {
      maxAge := if age <= 0 then 5_000_000_000 else age;
      entries, notified, fetches := map[], [], [];
    }

    static method Compare(prev: Option<CacheEntry>, cur: CacheEntry) returns (changed: bool)
      ensures changed <==> Differs(if prev.Some? then prev.value.merged else [], cur.merged)
    {
      if prev.None? {
        return |cur.merged| > 0;
      }
      if |prev.value.merged| != |cur.merged| {
        return true;
      }
      for i := 0 to |cur.merged|
        invariant forall j | 0 <= j < i :: SamePlace(prev.value.merged[j], cur.merged[j])
      {
        if !SamePlace(prev.value.merged[i], cur.merged[i]) {
          return true;
        }
      }
      changed := false;
    }

    /** A fan-out at `now` that met `replies`: on success the merged answer replaces the cached
        one, and the name is reported exactly when what readers care about differs. */
    method Fetched(q: Query, replies: seq<F.Reply>, now: int) returns (e: Option<CacheEntry>)
      requires Valid()
      modifies this
      ensures Valid()
      ensures e == Entry(q, F.Outcome(replies), now)
      ensures entries == if e.Some? then old(entries)[KeyFor(q) := e.value] else old(entries)
      ensures fetches == old(fetches) + (if e.Some? then [FetchOf(e.value)] else [])
      ensures notified == old(notified) + Report(Cached(old(entries), KeyFor(q)), e)
    {
      var lr := F.Lookup(replies);
      if lr.None? {
        return None;
      }
      OutcomeOrdered(replies);
      e := Some(CacheEntry(q, lr.value.entries, lr.value.index, now));
      Store(e.value);
    }

    method Store(entry: CacheEntry)
      requires Valid() && Ascending(Keys(entry.merged))
      modifies this
      ensures Valid()
      ensures entries == old(entries)[KeyFor(entry.query) := entry]
      ensures fetches == old(fetches) + [FetchOf(entry)]
      ensures notified == old(notified) + Report(Cached(old(entries), KeyFor(entry.query)), Some(entry))
    {
      var key := KeyFor(entry.query);
      var prev := if key in entries then Some(entries[key]) else None;
      entries := entries[key := entry];
      fetches := fetches + [FetchOf(entry)];
      DiffersIsSetDifference(Cached(old(entries), key), entry.merged);
      var changed := Compare(prev, entry);
      if changed {
        notified := notified + [entry.query.name];
      }
    }

    /** The entry to serve at `now`: a fresh cached one, or that of a fan-out. */
    method Current(q: Query, now: int, replies: seq<F.Reply>) returns (e: Option<CacheEntry>)
      requires Valid()
      modifies this
      ensures Valid()
      ensures Fresh(old(entries), maxAge, q, now) ==> e == Some(old(entries)[KeyFor(q)]) && fetches == old(fetches)
      ensures !Fresh(old(entries), maxAge, q, now) ==>
                && e == Entry(q, F.Outcome(replies), now)
                && fetches == old(fetches) + (if e.Some? then [FetchOf(e.value)] else [])
      ensures e.Some? ==> Backed(e.value, q, now)
    {
      var key := KeyFor(q);
      if key in entries && now - entries[key].fetchedAt < maxAge {
        e := Some(entries[key]);
      } else {
        e := Fetched(q, replies, now);
      }
    }

    /** The entry was fetched for a query with the key of `q`, less than maxAge ago. */
    ghost predicate Backed(e: CacheEntry, q: Query, now: int)
      reads this
    {
      KeyFor(e.query) == KeyFor(q) && FetchOf(e) in fetches && now - e.fetchedAt < maxAge
    }

    static method Serve(q: Query, e: CacheEntry, now: int) returns (a: Answer)
      ensures a == Served(LookupResult(if q.onlyHealthy then Filtered(e.merged, true) else e.merged, e.index),
                          now - e.fetchedAt)
    {
      var out := e.merged;
      if q.onlyHealthy {
        out := Filter(e.merged, true);
      }
      a := Served(LookupResult(out, e.index), now - e.fetchedAt);
    }

    /** Serves `q` at `now`; `replies` are what a fan-out would meet if one is needed. */
    method LookupWithAge(q: Query, now: int, replies: seq<F.Reply>) returns (a: Answer)
      requires Valid()
      modifies this
      ensures Valid()
      // every served read is the answer of a fan-out less than maxAge ago, filtered if asked
      ensures a.Served? && Plain(q) && (forall f | f in fetches :: Plain(f.query)) ==>
                exists f | f in fetches ::
                  && f.query == Raw(q) && now - f.at == a.age < maxAge && a.result.index == f.result.index
                  && a.result.entries ==
                       if q.onlyHealthy then Filtered(f.result.entries, true) else f.result.entries
      // a fan-out happens exactly when nothing young is cached
      ensures var young := KeyFor(q) in old(entries) && now - old(entries)[KeyFor(q)].fetchedAt < maxAge;
              var answer := F.Outcome(replies);
              && fetches == old(fetches) + (if !young && answer.Some? then [Fetch(Raw(q), answer.value, now)] else [])
              // the outcome, including the failed refresh of a stale entry
              && (a.Served? <==> young || answer.Some?)
              && (a.NilDereference? <==> !young && answer.None? && KeyFor(q) in old(entries))
    {
      var ok := KeyFor(q) in entries;
      var e := Current(q, now, replies);
      if e.None? {
        return if ok then NilDereference else Failed;
      }
      a := Serve(q, e.value, now);
      if Plain(q) && forall g | g in fetches :: Plain(g.query) {
        assert Plain(FetchOf(e.value).query);
        KeyForInjective(q, e.value.query);
      }
    }

    /** Refetches every cached query, in any order; a failed fan-out leaves its entry as it was,
        and the names whose sets of instances differ are reported. */
    method Refresh(now: int, replies: Query -> seq<F.Reply>)
      requires Valid()
      modifies this
      ensures Valid()
      ensures entries == RefreshedAll(old(entries), replies, now)
      ensures exists order | Visits(order, old(entries).Keys) ::
                && notified == old(notified) + Reports(old(entries), order, replies, now)
                && fetches == old(fetches) + Refetches(old(entries), order, replies, now)
    {
      var todo := entries.Keys;
      ghost var order: seq<CacheKey> := [];
      while todo != {}
        invariant Valid() && PartlyRefreshed(old(entries), entries, todo, order, replies, now)
        invariant notified == old(notified) + Reports(old(entries), order, replies, now)
        invariant fetches == old(fetches) + Refetches(old(entries), order, replies, now)
        decreases todo
      {
        var key :| key in todo;
        VisitMore(old(entries), order, key, replies, now, old(notified), old(fetches));
        RefreshedMore(old(entries), entries, todo, order, key, replies, now);
        RefreshOne(key, replies, now);
        order := order + [key];
        todo := todo - {key};
      }
      AllRefreshed(old(entries), entries, order, replies, now);
    }

    method RefreshOne(key: CacheKey, replies: Query -> seq<F.Reply>, now: int)
      requires Valid() && key in entries
      modifies this
      ensures Valid()
      ensures entries == old(entries)[key := Refreshed(old(entries)[key], replies, now)]
      ensures notified == old(notified) + Reported(old(entries)[key], replies, now)
      ensures fetches == old(fetches) + Refetched(old(entries)[key], replies, now)
    {
      var q := entries[key].query;
      var _ := Fetched(q, replies(Raw(q)), now);
    }
  }

  lemma OutcomeOrdered(replies: seq<F.Reply>)
    requires F.Outcome(replies).Some?
    ensures Ascending(Keys(F.Outcome(replies).value.entries))
  {
    MergedMeaning(F.Pooled(replies));
  }

  function Cached(entries: map<CacheKey, CacheEntry>, key: CacheKey): seq<ServiceEntry> {
    if key in entries then entries[key].merged else []
  }

  function Entry(q: Query, answer: Option<LookupResult>, now: int): Option<CacheEntry> {
    if answer.None? then None else Some(CacheEntry(q, answer.value.entries, answer.value.index, now))
  }

  /** The name to report when `e` replaces `prev`: none if the sets of instances are the same. */
  ghost function Report(prev: seq<ServiceEntry>, e: Option<CacheEntry>): seq<string> {
    if e.None? || Facts(prev) == Facts(e.value.merged) then [] else [e.value.query.name]
  }

  // ---- a refresh, entry by entry ----

  ghost function Refetch(e: CacheEntry, replies: Query -> seq<F.Reply>, now: int): Option<CacheEntry> {
    Entry(e.query, F.Outcome(replies(Raw(e.query))), now)
  }

  ghost function Refreshed(e: CacheEntry, replies: Query -> seq<F.Reply>, now: int): CacheEntry {
    if Refetch(e, replies, now).Some? then Refetch(e, replies, now).value else e
  }

  ghost function RefreshedAll(
    entries: map<CacheKey, CacheEntry>, replies: Query -> seq<F.Reply>, now: int): map<CacheKey, CacheEntry>
  {
    map key | key in entries :: Refreshed(entries[key], replies, now)
  }

  /** The keys of `order` are refetched, those of `todo` are not yet. */
  ghost predicate PartlyRefreshed(
    start: map<CacheKey, CacheEntry>, entries: map<CacheKey, CacheEntry>, todo: set<CacheKey>, order: seq<CacheKey>,
    replies: Query -> seq<F.Reply>, now: int)
  {
    && entries.Keys == start.Keys && todo <= start.Keys && Visits(order, start.Keys - todo)
    && forall key | key in start ::
         entries[key] == if key in todo then start[key] else Refreshed(start[key], replies, now)
  }

  lemma RefreshedMore(
    start: map<CacheKey, CacheEntry>, entries: map<CacheKey, CacheEntry>, todo: set<CacheKey>, order: seq<CacheKey>,
    key: CacheKey, replies: Query -> seq<F.Reply>, now: int)
    requires PartlyRefreshed(start, entries, todo, order, replies, now) && key in todo
    ensures entries[key] == start[key]
    ensures PartlyRefreshed(
              start, entries[key := Refreshed(start[key], replies, now)], todo - {key}, order + [key], replies, now)
  {
    VisitOne(order, start.Keys, todo, key);
  }

  lemma AllRefreshed(
    start: map<CacheKey, CacheEntry>, entries: map<CacheKey, CacheEntry>, order: seq<CacheKey>,
    replies: Query -> seq<F.Reply>, now: int)
    requires PartlyRefreshed(start, entries, {}, order, replies, now)
    ensures entries == RefreshedAll(start, replies, now) && Visits(order, start.Keys)
  {
    assert start.Keys - {} == start.Keys;
  }

  /** `order` lists each of `keys` once. */
  ghost predicate Visits(order: seq<CacheKey>, keys: set<CacheKey>) {
    multiset(order) == multiset(keys)
  }

  lemma VisitOne(order: seq<CacheKey>, keys: set<CacheKey>, todo: set<CacheKey>, key: CacheKey)
    requires Visits(order, keys - todo) && key in todo && todo <= keys
    ensures Visits(order + [key], keys - (todo - {key}))
  {
    assert keys - (todo - {key}) == (keys - todo) + {key};
    assert multiset((keys - todo) + {key}) == multiset(keys - todo) + multiset{key};
  }

  ghost function Reported(e: CacheEntry, replies: Query -> seq<F.Reply>, now: int): seq<string> {
    Report(e.merged, Refetch(e, replies, now))
  }

  ghost function Refetched(e: CacheEntry, replies: Query -> seq<F.Reply>, now: int): seq<Fetch> {
    if Refetch(e, replies, now).Some? then [Cache.FetchOf(Refetch(e, replies, now).value)] else []
  }

  /** The names reported when the keys of `order` are refetched in turn. */
  ghost function Reports(
    entries: map<CacheKey, CacheEntry>, order: seq<CacheKey>, replies: Query -> seq<F.Reply>, now: int): seq<string>
    decreases |order|
  {
    if order == [] then []
    else
      var key := order[|order| - 1];
      Reports(entries, order[..|order| - 1], replies, now) +
      if key in entries then Reported(entries[key], replies, now) else []
  }

  /** The fan-outs that succeed when the keys of `order` are refetched in turn. */
  ghost function Refetches(
    entries: map<CacheKey, CacheEntry>, order: seq<CacheKey>, replies: Query -> seq<F.Reply>, now: int): seq<Fetch>
    decreases |order|
  {
    if order == [] then []
    else
      var key := order[|order| - 1];
      Refetches(entries, order[..|order| - 1], replies, now) +
      if key in entries then Refetched(entries[key], replies, now) else []
  }

  lemma VisitMore(
    entries: map<CacheKey, CacheEntry>, order: seq<CacheKey>, key: CacheKey, replies: Query -> seq<F.Reply>, now: int,
    names: seq<string>, fetches: seq<Fetch>)
    requires key in entries
    ensures names + Reports(entries, order + [key], replies, now)
              == names + Reports(entries, order, replies, now) + Reported(entries[key], replies, now)
    ensures fetches + Refetches(entries, order + [key], replies, now)
              == fetches + Refetches(entries, order, replies, now) + Refetched(entries[key], replies, now)
  {
    assert (order + [key])[..|order + [key]| - 1] == order;
  }

  /** An entry for `q` younger than `maxAge` is cached. */
  predicate Fresh(entries: map<CacheKey, CacheEntry>, maxAge: int, q: Query, now: int) {
    KeyFor(q) in entries && now - entries[KeyFor(q)].fetchedAt < maxAge
  }
}
