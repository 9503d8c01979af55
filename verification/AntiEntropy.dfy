/** Anti-entropy between seeds (internal/membership): each seed pulls its peers' registries
    and merges them. The pulls and merges of all seeds interleave freely; after one complete
    round every seed holds the same versions, and later rounds do nothing. */
module AntiEntropy {
  import opened Model
  import opened StoreSpec
  import opened StoreInvariants
  import opened Health
  import opened StoreMerge
  import F = FanOut
  import Store

  /** What one sync makes of a registry: the peers' merged answer merged in, or nothing. */
  ghost function Synced(o: Options, s: Registry, replies: seq<F.Reply>, now: int): (Registry, nat) {
    match F.Outcome(replies)
    case None => (s, 0)
    case Some(res) => Merge(o, s, res.entries, now)
  }

  /** One sync: merge the peers' merged answer, or do nothing when no peer answered. */
  method SyncOnce(store: Store.Memory, replies: seq<F.Reply>, now: int) returns (applied: nat)
    requires store.Valid()
    modifies store
    ensures store.Valid()
    ensures (store.spec, applied) == Synced(store.opts, old(store.spec), replies, now)
  {
    var res := F.Lookup(replies);
    if res.None? {
      return 0;
    }
    applied := store.Merge(res.value.entries, now);
  }

  lemma {:induction false} NothingPooled(replies: seq<F.Reply>)
    requires !F.AnyAnswer(replies)
    ensures F.Pooled(replies) == []
    decreases |replies|
  {
    if replies != [] {
      var n := |replies| - 1;
      assert replies[n] in replies && forall r | r in replies[..n] :: r in replies;
      NothingPooled(replies[..n]);
    }
  }

  /** A sync merges the winners of everything answered, whether or not anything was. */
  lemma SyncedMerges(o: Options, s: Registry, replies: seq<F.Reply>, now: int)
    ensures Synced(o, s, replies, now) == Merge(o, s, Merged(F.Pooled(replies)), now)
  {
    if !F.AnyAnswer(replies) {
      NothingPooled(replies);
      assert Winners([]) == map[];
    }
  }

  // ---- a round as a protocol ----

  /** A seed in the middle of a round: what it has pulled so far, from whom, and how many
      entries it applied once it merged. */
  datatype Seed = Seed(
    opts: Options,
    reg: Registry,
    pulled: set<int>,
    replies: seq<F.Reply>,
    applied: Option<nat>)
  {
    /** Everything the peers answered. */
    function Inbox(): seq<ServiceEntry> {
      F.Pooled(replies)
    }
  }

  type Cluster = seq<Seed>

  datatype Move =
    | Pull(seed: int, peer: int, now: int)
    | Apply(seed: int, now: int)

  const EVERYTHING := Query("", "", [], false)

  ghost predicate SaneSeed(d: Seed) {
    d.opts.defaultTTL > 0 && d.opts.maxServices <= 0 && Good(d.opts, d.reg)
  }

  ghost predicate Sane(c: Cluster) {
    forall i | 0 <= i < |c| :: SaneSeed(c[i])
  }

  /** A round starts with nothing pulled. */
  predicate Fresh(c: Cluster) {
    forall i | 0 <= i < |c| :: c[i].pulled == {} && c[i].replies == [] && c[i].applied.None?
  }

  /** Seed `i` has heard from every peer. */
  predicate PulledAll(c: Cluster, i: int)
    requires 0 <= i < |c|
  {
    forall j | 0 <= j < |c| && j != i :: j in c[i].pulled
  }

  predicate Enabled(c: Cluster, m: Move) {
    match m
    case Pull(i, j, _) => 0 <= i < |c| && 0 <= j < |c| && i != j && c[i].applied.None? && j !in c[i].pulled
    case Apply(i, _) => 0 <= i < |c| && c[i].applied.None?
  }

  /** `d` after merging its inbox. */
  ghost function Applied(d: Seed, now: int): Seed
    requires SaneSeed(d)
  {
    var r := Synced(d.opts, d.reg, d.replies, now);
    d.(reg := r.0, applied := Some(r.1))
  }

  lemma AppliedMerges(d: Seed, now: int)
    requires SaneSeed(d)
    ensures var r := Merge(d.opts, d.reg, Merged(d.Inbox()), now);
            Applied(d, now) == d.(reg := r.0, applied := Some(r.1))
  {
    SyncedMerges(d.opts, d.reg, d.replies, now);
  }

  /** `d` after the answer of peer `j`. */
  ghost function Received(d: Seed, j: int, peer: Seed, now: int): Seed
    requires Good(peer.opts, peer.reg)
  {
    d.(replies := d.replies + [F.Answered(Lookup(peer.opts, peer.reg, EVERYTHING, now))], pulled := d.pulled + {j})
  }

  lemma ReceivedInbox(d: Seed, j: int, peer: Seed, now: int)
    requires Good(peer.opts, peer.reg)
    ensures Received(d, j, peer, now).Inbox() == d.Inbox() + Lookup(peer.opts, peer.reg, EVERYTHING, now).entries
  {
    var r := F.Answered(Lookup(peer.opts, peer.reg, EVERYTHING, now));
    assert (d.replies + [r])[..|d.replies + [r]| - 1] == d.replies;
  }

  ghost function Do(c: Cluster, m: Move): Cluster
    requires Sane(c) && Enabled(c, m)
  {
    match m
    case Pull(i, j, now) => c[i := Received(c[i], j, c[j], now)]
    case Apply(i, now) => c[i := Applied(c[i], now)]
  }

  lemma AppliedSane(d: Seed, now: int)
    requires SaneSeed(d)
    ensures SaneSeed(Applied(d, now))
  {
    AppliedMerges(d, now);
    MergeGood(d.opts, d.reg, Merged(d.Inbox()), now);
  }

  lemma UpdateSane(c: Cluster, i: int, d: Seed)
    requires Sane(c) && SaneSeed(d) && 0 <= i < |c|
    ensures Sane(c[i := d])
  {
  }

  lemma DoSane(c: Cluster, m: Move)
    requires Sane(c) && Enabled(c, m)
    ensures Sane(Do(c, m)) && |Do(c, m)| == |c|
  {
    assert SaneSeed(c[m.seed]);
    if m.Apply? {
      AppliedSane(c[m.seed], m.now);
    }
    UpdateSane(c, m.seed, Do(c, m)[m.seed]);
  }

  /** `moves` runs from `c` to `d`. */
  ghost predicate Rounds(c: Cluster, moves: seq<Move>, d: Cluster)
    requires Sane(c)
    decreases |moves|
  {
    if moves == [] then d == c
    else Enabled(c, moves[0]) && (DoSane(c, moves[0]); Rounds(Do(c, moves[0]), moves[1..], d))
  }

  /** No pull of the run meets a past-grace copy, and no seed merges before every peer has
      answered. */
  ghost predicate SeesAll(c: Cluster, moves: seq<Move>)
    requires Sane(c)
    decreases |moves|
  {
    moves == [] ||
    (&& Enabled(c, moves[0])
     && (match moves[0]
         case Pull(_, j, now) => NoneExpired(c[j].opts, c[j].reg, now)
         case Apply(i, _) => PulledAll(c, i))
     && (DoSane(c, moves[0]); SeesAll(Do(c, moves[0]), moves[1..])))
  }

  // ---- what a round keeps, relative to the state it started from ----

  /** A definition without its lease window, which each seed clamps for itself. */
  function Bare(def: ServiceInstance): ServiceInstance {
    def.(ttl := 0)
  }

  ghost predicate HeldBy(c: Cluster, j: int, k: Key) {
    0 <= j < |c| && k in c[j].reg.svcs
  }

  function VersionAt(c: Cluster, j: int, k: Key): Version
    requires 0 <= j < |c| && k in c[j].reg.svcs
  {
    c[j].reg.svcs[k].def.Stamp()
  }

  /** `def` is, up to the lease window, what some seed held for `k` at the start. */
  ghost predicate Original(c0: Cluster, k: Key, def: ServiceInstance) {
    exists j :: HeldBy(c0, j, k) && Bare(c0[j].reg.svcs[k].def) == Bare(def)
  }

  /** `es` offers `k` at version `v` or later. */
  ghost predicate Offers(es: seq<ServiceEntry>, k: Key, v: Version) {
    exists e | e in es :: e.Id() == k && v.AtMost(e.service.Stamp())
  }

  /** `s` holds `k` at version `v` or later. */
  predicate AtLeast(s: Registry, k: Key, v: Version) {
    k in s.svcs && v.AtMost(s.svcs[k].def.Stamp())
  }

  ghost predicate Stored(c0: Cluster, s: Registry) {
    forall k | k in s.svcs :: Original(c0, k, s.svcs[k].def)
  }

  ghost predicate Offered(c0: Cluster, es: seq<ServiceEntry>) {
    forall e | e in es :: Named(e.Id()) && Original(c0, e.Id(), e.service)
  }

  /** Nothing stored or pulled is made up. */
  ghost predicate Genuine(c0: Cluster, d: Seed) {
    Stored(c0, d.reg) && Offered(c0, d.Inbox())
  }

  /** Nothing is made up; nothing the seed started with is lost; every pulled peer's original
      copies are in the inbox; and once merged, everyone's original copies are in the registry. */
  ghost predicate SeedInv(c0: Cluster, i: int, d: Seed) {
    && Genuine(c0, d)
    && (forall k | HeldBy(c0, i, k) :: AtLeast(d.reg, k, VersionAt(c0, i, k)))
    && (forall j, k | j in d.pulled && HeldBy(c0, j, k) :: Offers(d.Inbox(), k, VersionAt(c0, j, k)))
    && (d.applied.Some? ==> forall j, k | HeldBy(c0, j, k) :: AtLeast(d.reg, k, VersionAt(c0, j, k)))
  }

  ghost predicate Inv(c0: Cluster, c: Cluster) {
    |c| == |c0| && forall i | 0 <= i < |c| :: SeedInv(c0, i, c[i])
  }

  lemma StartInv(c0: Cluster)
    requires Fresh(c0)
    ensures Inv(c0, c0)
  {
    forall i | 0 <= i < |c0|
      ensures SeedInv(c0, i, c0[i])
    {
      forall k | k in c0[i].reg.svcs
        ensures Original(c0, k, c0[i].reg.svcs[k].def)
      {
        assert HeldBy(c0, i, k);
      }
    }
  }

  lemma VisibleToAll(d: Seed, now: int, k: Key)
    requires WellKeyed(d.reg) && k in d.reg.svcs && !PastGrace(d.opts, d.reg.svcs[k], now)
    ensures var vis := StoreSpec.Visible(d.opts, d.reg, EVERYTHING, now);
            k in vis && vis[k].Id() == k && vis[k].service == d.reg.svcs[k].def
  {
    assert d.reg.svcs[k].def.MatchesTags([]);
  }

  /** What a peer answers: every copy that is not past grace. */
  lemma AnswerHas(d: Seed, now: int, k: Key) returns (e: ServiceEntry)
    requires WellKeyed(d.reg) && k in d.reg.svcs && !PastGrace(d.opts, d.reg.svcs[k], now)
    ensures e in Lookup(d.opts, d.reg, EVERYTHING, now).entries && e.Id() == k && e.service == d.reg.svcs[k].def
  {
    VisibleToAll(d, now, k);
    e := StoreSpec.Visible(d.opts, d.reg, EVERYTHING, now)[k];
  }

  lemma AnswerIsStored(d: Seed, now: int, e: ServiceEntry)
    requires Good(d.opts, d.reg) && e in Lookup(d.opts, d.reg, EVERYTHING, now).entries
    ensures Named(e.Id()) && e.Id() in d.reg.svcs && e.service == d.reg.svcs[e.Id()].def
  {
    var vis := StoreSpec.Visible(d.opts, d.reg, EVERYTHING, now);
    assert vis[e.Id()] == e;
  }

  lemma AnswerOffered(c0: Cluster, peer: Seed, now: int)
    requires Good(peer.opts, peer.reg) && Stored(c0, peer.reg)
    ensures Offered(c0, Lookup(peer.opts, peer.reg, EVERYTHING, now).entries)
  {
    forall e | e in Lookup(peer.opts, peer.reg, EVERYTHING, now).entries
      ensures Named(e.Id()) && Original(c0, e.Id(), e.service)
    {
      AnswerIsStored(peer, now, e);
    }
  }

  lemma OfferedConcat(c0: Cluster, a: seq<ServiceEntry>, b: seq<ServiceEntry>)
    requires Offered(c0, a) && Offered(c0, b)
    ensures Offered(c0, a + b)
  {
    assert forall e | e in a + b :: e in a || e in b;
  }

  lemma ReceivedOriginal(c0: Cluster, d: Seed, j: int, peer: Seed, now: int)
    requires Good(peer.opts, peer.reg) && Genuine(c0, d) && Genuine(c0, peer)
    ensures Genuine(c0, Received(d, j, peer, now))
  {
    ReceivedInbox(d, j, peer, now);
    AnswerOffered(c0, peer, now);
    OfferedConcat(c0, d.Inbox(), Lookup(peer.opts, peer.reg, EVERYTHING, now).entries);
  }

  lemma ReceivedOffers(d: Seed, j: int, peer: Seed, now: int, k: Key, v: Version)
    requires Good(peer.opts, peer.reg) && NoneExpired(peer.opts, peer.reg, now)
    requires Offers(d.Inbox(), k, v) || AtLeast(peer.reg, k, v)
    ensures Offers(Received(d, j, peer, now).Inbox(), k, v)
  {
    var inbox := Received(d, j, peer, now).Inbox();
    ReceivedInbox(d, j, peer, now);
    if Offers(d.Inbox(), k, v) {
      var e :| e in d.Inbox() && e.Id() == k && v.AtMost(e.service.Stamp());
      assert e in inbox;
    } else {
      var e := AnswerHas(peer, now, k);
      assert e in inbox;
    }
  }

  lemma PullInv(c0: Cluster, c: Cluster, i: int, j: int, now: int)
    requires Sane(c) && Inv(c0, c) && Enabled(c, Pull(i, j, now)) && NoneExpired(c[j].opts, c[j].reg, now)
    ensures Inv(c0, Do(c, Pull(i, j, now)))
  {
    assert SeedInv(c0, i, c[i]) && SeedInv(c0, j, c[j]);
    assert SaneSeed(c[j]);
    var d := Received(c[i], j, c[j], now);
    ReceivedInv(c0, i, c[i], j, c[j], now);
    UpdateInv(c0, c, i, d);
  }

  lemma ReceivedInv(c0: Cluster, i: int, d: Seed, j: int, peer: Seed, now: int)
    requires Good(peer.opts, peer.reg) && NoneExpired(peer.opts, peer.reg, now) && SeedInv(c0, i, d)
    requires SeedInv(c0, j, peer)
    requires d.applied.None?
    ensures SeedInv(c0, i, Received(d, j, peer, now))
  {
    ReceivedOriginal(c0, d, j, peer, now);
    ReceivedOffersAll(c0, i, d, j, peer, now);
  }

  lemma ReceivedOffersAll(c0: Cluster, i: int, d: Seed, j: int, peer: Seed, now: int)
    requires Good(peer.opts, peer.reg) && NoneExpired(peer.opts, peer.reg, now)
    requires SeedInv(c0, i, d) && SeedInv(c0, j, peer)
    ensures forall j', k | j' in Received(d, j, peer, now).pulled && HeldBy(c0, j', k) ::
              Offers(Received(d, j, peer, now).Inbox(), k, VersionAt(c0, j', k))
  {
    forall j', k | j' in Received(d, j, peer, now).pulled && HeldBy(c0, j', k)
      ensures Offers(Received(d, j, peer, now).Inbox(), k, VersionAt(c0, j', k))
    {
      ReceivedOffers(d, j, peer, now, k, VersionAt(c0, j', k));
    }
  }

  lemma UpdateInv(c0: Cluster, c: Cluster, i: int, d: Seed)
    requires Inv(c0, c) && 0 <= i < |c| && SeedInv(c0, i, d)
    ensures Inv(c0, c[i := d])
  {
  }

  /** After merging an inbox the registry is at least as new as the inbox and as itself. */
  lemma ApplyReaches(o: Options, s: Registry, inbox: seq<ServiceEntry>, now: int, k: Key, v: Version)
    requires o.maxServices <= 0 && Named(k) && (Offers(inbox, k, v) || AtLeast(s, k, v))
    ensures AtLeast(Merge(o, s, Merged(inbox), now).0, k, v)
  {
    MergeAt(o, s, Merged(inbox), now, k);
    BestOfMerged(inbox, k);
    if Offers(inbox, k, v) {
      BestReaches(inbox, k, v);
    }
  }

  lemma BestReaches(es: seq<ServiceEntry>, k: Key, v: Version)
    requires Offers(es, k, v)
    ensures Best(es, k).Some? && v.AtMost(Best(es, k).value.service.Stamp())
  {
    var e :| e in es && e.Id() == k && v.AtMost(e.service.Stamp());
    BestPresent(es, k);
    assert k in Ids(es);
    BestIsMaximal(es, k);
  }

  /** Merging brings in nothing that was not stored or offered. */
  lemma ApplyOriginal(c0: Cluster, d: Seed, now: int, k: Key)
    requires d.opts.maxServices <= 0 && Genuine(c0, d) && Named(k)
    ensures var t := Merge(d.opts, d.reg, Merged(d.Inbox()), now).0;
            k in t.svcs ==> Original(c0, k, t.svcs[k].def)
  {
    var kept := DefAt(Merge(d.opts, d.reg, Merged(d.Inbox()), now).0, k);
    MergeAt(d.opts, d.reg, Merged(d.Inbox()), now, k);
    BestOfMerged(d.Inbox(), k);
    if kept.Some? && kept != DefAt(d.reg, k) {
      BestPresent(d.Inbox(), k);
      var e := Best(d.Inbox(), k).value;
      var j :| HeldBy(c0, j, k) && Bare(c0[j].reg.svcs[k].def) == Bare(e.service);
      assert Bare(kept.value) == Bare(e.service);
    }
  }

  lemma MergeStored(c0: Cluster, d: Seed, now: int)
    requires SaneSeed(d) && Genuine(c0, d)
    ensures Stored(c0, Merge(d.opts, d.reg, Merged(d.Inbox()), now).0)
  {
    var t := Merge(d.opts, d.reg, Merged(d.Inbox()), now).0;
    MergeGood(d.opts, d.reg, Merged(d.Inbox()), now);
    forall k | k in t.svcs
      ensures Original(c0, k, t.svcs[k].def)
    {
      ApplyOriginal(c0, d, now, k);
    }
  }

  lemma ApplyGenuine(c0: Cluster, d: Seed, now: int)
    requires SaneSeed(d) && Genuine(c0, d)
    ensures Genuine(c0, Applied(d, now))
  {
    AppliedMerges(d, now);
    MergeStored(c0, d, now);
  }

  lemma ApplyInv(c0: Cluster, c: Cluster, i: int, now: int)
    requires Sane(c0) && Sane(c) && Inv(c0, c) && Enabled(c, Apply(i, now)) && PulledAll(c, i)
    ensures Inv(c0, Do(c, Apply(i, now)))
  {
    assert SeedInv(c0, i, c[i]) && SaneSeed(c[i]);
    ApplyGenuine(c0, c[i], now);
    ApplyReachesAll(c0, c, i, now);
    UpdateInv(c0, c, i, Applied(c[i], now));
  }

  lemma ApplyReachesAll(c0: Cluster, c: Cluster, i: int, now: int)
    requires Sane(c0) && Sane(c) && Inv(c0, c) && Enabled(c, Apply(i, now)) && PulledAll(c, i)
    ensures forall j, k | HeldBy(c0, j, k) :: AtLeast(Applied(c[i], now).reg, k, VersionAt(c0, j, k))
  {
    assert SeedInv(c0, i, c[i]) && SaneSeed(c[i]);
    forall j, k | HeldBy(c0, j, k)
      ensures AtLeast(Applied(c[i], now).reg, k, VersionAt(c0, j, k))
    {
      assert SaneSeed(c0[j]) && Named(k);
      AppliedReaches(c[i], now, k, VersionAt(c0, j, k));
    }
  }

  lemma AppliedReaches(d: Seed, now: int, k: Key, v: Version)
    requires SaneSeed(d) && Named(k) && (Offers(d.Inbox(), k, v) || AtLeast(d.reg, k, v))
    ensures AtLeast(Applied(d, now).reg, k, v)
  {
    AppliedMerges(d, now);
    ApplyReaches(d.opts, d.reg, d.Inbox(), now, k, v);
  }

  lemma {:induction false} RoundInv(c0: Cluster, c: Cluster, moves: seq<Move>, d: Cluster)
    requires Sane(c0) && Sane(c) && Inv(c0, c) && Rounds(c, moves, d) && SeesAll(c, moves)
    ensures Inv(c0, d)
    decreases |moves|
  {
    if moves != [] {
      var m := moves[0];
      DoSane(c, m);
      match m {
        case Pull(i, j, now) => PullInv(c0, c, i, j, now);
        case Apply(i, now) => ApplyInv(c0, c, i, now);
      }
      RoundInv(c0, Do(c, m), moves[1..], d);
    }
  }

  // ---- main results ----

  /** Every seed has merged. */
  predicate Complete(c: Cluster) {
    forall i | 0 <= i < |c| :: c[i].applied.Some?
  }

  /** Each seed holds exactly the instances some seed held in `c0`, each at the highest
      version any seed held, and unaltered up to the lease window. */
  ghost predicate Converged(c0: Cluster, c: Cluster) {
    && |c| == |c0|
    && (forall i, k | 0 <= i < |c| :: k in c[i].reg.svcs <==> exists j :: HeldBy(c0, j, k))
    && (forall i, j, k | 0 <= i < |c| && HeldBy(c0, j, k) :: AtLeast(c[i].reg, k, VersionAt(c0, j, k)))
    && (forall i, k | 0 <= i < |c| && k in c[i].reg.svcs :: Original(c0, k, c[i].reg.svcs[k].def))
  }

  /** Runs keep the cluster sane. */
  lemma {:induction false} RoundSane(c: Cluster, moves: seq<Move>, d: Cluster)
    requires Sane(c) && Rounds(c, moves, d)
    ensures Sane(d) && |d| == |c|
    decreases |moves|
  {
    if moves != [] {
      DoSane(c, moves[0]);
      RoundSane(Do(c, moves[0]), moves[1..], d);
    }
  }

  /** Anti-entropy converges: whatever the interleaving of pulls and merges, one complete
      round leaves every seed with the highest version of every instance. */
  lemma RoundConverges(c0: Cluster, moves: seq<Move>, d: Cluster)
    requires Sane(c0) && Fresh(c0) && Rounds(c0, moves, d) && SeesAll(c0, moves) && Complete(d)
    ensures Sane(d) && Converged(c0, d)
  {
    RoundSane(c0, moves, d);
    StartInv(c0);
    RoundInv(c0, c0, moves, d);
    InvConverges(c0, d);
  }

  lemma InvConverges(c0: Cluster, c: Cluster)
    requires Inv(c0, c) && Complete(c)
    ensures Converged(c0, c)
  {
    forall i, k | 0 <= i < |c|
      ensures k in c[i].reg.svcs <==> exists j :: HeldBy(c0, j, k)
    {
      assert SeedInv(c0, i, c[i]);
    }
    forall i, j, k | 0 <= i < |c| && HeldBy(c0, j, k)
      ensures AtLeast(c[i].reg, k, VersionAt(c0, j, k))
    {
      assert SeedInv(c0, i, c[i]);
    }
    forall i, k | 0 <= i < |c| && k in c[i].reg.svcs
      ensures Original(c0, k, c[i].reg.svcs[k].def)
    {
      assert SeedInv(c0, i, c[i]);
    }
  }

  /** Converged seeds agree pairwise on every version; and on every definition, if no two
      seeds started with different definitions at the same version. */
  lemma ConvergedAgree(c0: Cluster, c: Cluster, a: int, b: int, k: Key)
    requires Converged(c0, c) && 0 <= a < |c| && 0 <= b < |c| && k in c[a].reg.svcs
    ensures k in c[b].reg.svcs && VersionAt(c, a, k) == VersionAt(c, b, k)
    ensures (forall i, j | HeldBy(c0, i, k) && HeldBy(c0, j, k) && VersionAt(c0, i, k) == VersionAt(c0, j, k) ::
               Bare(c0[i].reg.svcs[k].def) == Bare(c0[j].reg.svcs[k].def)) ==>
            Bare(c[a].reg.svcs[k].def) == Bare(c[b].reg.svcs[k].def)
  {
    var i :| HeldBy(c0, i, k) && Bare(c0[i].reg.svcs[k].def) == Bare(c[a].reg.svcs[k].def);
    assert k in c[b].reg.svcs;
    var j :| HeldBy(c0, j, k) && Bare(c0[j].reg.svcs[k].def) == Bare(c[b].reg.svcs[k].def);
    assert AtLeast(c[b].reg, k, VersionAt(c0, i, k)) && AtLeast(c[a].reg, k, VersionAt(c0, j, k));
    SameStamp(c0[i].reg.svcs[k].def, c[a].reg.svcs[k].def);
    SameStamp(c0[j].reg.svcs[k].def, c[b].reg.svcs[k].def);
  }

  lemma SameStamp(a: ServiceInstance, b: ServiceInstance)
    requires Bare(a) == Bare(b)
    ensures a.Stamp() == b.Stamp()
  {
    assert Bare(a).generation == Bare(b).generation && Bare(a).lastSeen == Bare(b).lastSeen;
  }

  // ---- rounds after convergence ----

  /** The start of the next round. */
  function NextRound(c: Cluster): (d: Cluster)
    ensures |d| == |c| && Fresh(d)
  {
    seq(|c|, i requires 0 <= i < |c| => c[i].(pulled := {}, replies := [], applied := None))
  }

  ghost predicate Agreed(c: Cluster) {
    forall i, j, k | HeldBy(c, i, k) && 0 <= j < |c| :: HeldBy(c, j, k) && VersionAt(c, i, k) == VersionAt(c, j, k)
  }

  /** Untouched except, possibly, for node records. */
  predicate SameServices(s: Registry, t: Registry) {
    t.svcs == s.svcs && t.index == s.index && t.log == s.log
  }

  ghost predicate Stale(b: Cluster, e: ServiceEntry) {
    Named(e.Id()) ==> exists j :: HeldBy(b, j, e.Id()) && e.service.Stamp() == VersionAt(b, j, e.Id())
  }

  ghost predicate AllStale(b: Cluster, es: seq<ServiceEntry>) {
    forall e | e in es :: Stale(b, e)
  }

  ghost predicate QuietSeed(b: Cluster, i: int, d: Seed)
    requires 0 <= i < |b|
  {
    && SameServices(b[i].reg, d.reg)
    && AllStale(b, d.Inbox())
    && (d.applied == None || d.applied == Some(0))
  }

  ghost predicate Quiet(b: Cluster, c: Cluster) {
    |c| == |b| && forall i | 0 <= i < |c| :: QuietSeed(b, i, c[i])
  }

  lemma StaleAnswer(b: Cluster, j: int, peer: Seed, now: int)
    requires Good(peer.opts, peer.reg) && 0 <= j < |b| && SameServices(b[j].reg, peer.reg)
    ensures AllStale(b, Lookup(peer.opts, peer.reg, EVERYTHING, now).entries)
  {
    forall e | e in Lookup(peer.opts, peer.reg, EVERYTHING, now).entries
      ensures Stale(b, e)
    {
      AnswerIsStored(peer, now, e);
      assert HeldBy(b, j, e.Id());
    }
  }

  lemma StaleConcat(b: Cluster, es: seq<ServiceEntry>, fs: seq<ServiceEntry>)
    requires AllStale(b, es) && AllStale(b, fs)
    ensures AllStale(b, es + fs)
  {
    assert forall e | e in es + fs :: e in es || e in fs;
  }

  lemma QuietReceived(b: Cluster, i: int, d: Seed, j: int, peer: Seed, now: int)
    requires Good(peer.opts, peer.reg) && 0 <= i < |b| && 0 <= j < |b| && QuietSeed(b, i, d) && QuietSeed(b, j, peer)
    ensures QuietSeed(b, i, Received(d, j, peer, now))
  {
    StaleAnswer(b, j, peer, now);
    StaleConcat(b, d.Inbox(), Lookup(peer.opts, peer.reg, EVERYTHING, now).entries);
    ReceivedInbox(d, j, peer, now);
  }

  lemma QuietUpdate(b: Cluster, c: Cluster, i: int, d: Seed)
    requires Quiet(b, c) && 0 <= i < |c| && QuietSeed(b, i, d)
    ensures Quiet(b, c[i := d])
  {
  }

  lemma QuietPull(b: Cluster, c: Cluster, i: int, j: int, now: int)
    requires Sane(c) && Quiet(b, c) && Enabled(c, Pull(i, j, now))
    ensures Quiet(b, Do(c, Pull(i, j, now)))
  {
    assert SaneSeed(c[j]);
    assert QuietSeed(b, i, c[i]) && QuietSeed(b, j, c[j]);
    QuietReceived(b, i, c[i], j, c[j], now);
    QuietUpdate(b, c, i, Received(c[i], j, c[j], now));
  }

  lemma QuietApply(b: Cluster, c: Cluster, i: int, now: int)
    requires Sane(c) && Agreed(b) && Quiet(b, c) && Enabled(c, Apply(i, now))
    ensures Quiet(b, Do(c, Apply(i, now)))
  {
    assert QuietSeed(b, i, c[i]);
    var es := Merged(c[i].Inbox());
    forall e | e in es
      ensures Settled(c[i].opts, c[i].reg, e)
    {
      BestPresent(c[i].Inbox(), e.Id());
      StaleSettled(b, i, c[i], e);
    }
    AppliedMerges(c[i], now);
    QuietMerge(b, i, c[i], es, now);
    QuietUpdate(b, c, i, Applied(c[i], now));
  }

  lemma StaleSettled(b: Cluster, i: int, d: Seed, e: ServiceEntry)
    requires Agreed(b) && 0 <= i < |b| && SameServices(b[i].reg, d.reg) && Stale(b, e)
    ensures Settled(d.opts, d.reg, e)
  {
    if Named(e.Id()) {
      var j :| HeldBy(b, j, e.Id()) && e.service.Stamp() == VersionAt(b, j, e.Id());
      assert HeldBy(b, i, e.Id()) && VersionAt(b, i, e.Id()) == VersionAt(b, j, e.Id());
    }
  }

  lemma QuietMerge(b: Cluster, i: int, d: Seed, es: seq<ServiceEntry>, now: int)
    requires 0 <= i < |b| && QuietSeed(b, i, d) && forall e | e in es :: Settled(d.opts, d.reg, e)
    ensures var r := Merge(d.opts, d.reg, es, now);
            QuietSeed(b, i, d.(reg := r.0, applied := Some(r.1)))
  {
    MergeSettled(d.opts, d.reg, es, now);
  }

  lemma {:induction false} QuietRounds(b: Cluster, c: Cluster, moves: seq<Move>, d: Cluster)
    requires Sane(c) && Agreed(b) && Quiet(b, c) && Rounds(c, moves, d)
    ensures Quiet(b, d)
    decreases |moves|
  {
    if moves != [] {
      DoSane(c, moves[0]);
      match moves[0] {
        case Pull(i, j, now) => QuietPull(b, c, i, j, now);
        case Apply(i, now) => QuietApply(b, c, i, now);
      }
      QuietRounds(b, Do(c, moves[0]), moves[1..], d);
    }
  }

  lemma NextAgreed(c0: Cluster, c: Cluster)
    requires Converged(c0, c)
    ensures Agreed(NextRound(c))
  {
    var b := NextRound(c);
    forall i, j, k | HeldBy(b, i, k) && 0 <= j < |b|
      ensures HeldBy(b, j, k) && VersionAt(b, i, k) == VersionAt(b, j, k)
    {
      ConvergedAgree(c0, c, i, j, k);
    }
  }

  /** `d` differs from `c` in node records at most, and no merge applied anything. */
  ghost predicate Undisturbed(c: Cluster, d: Cluster) {
    && |d| == |c|
    && forall i | 0 <= i < |c| :: SameServices(c[i].reg, d[i].reg) && (d[i].applied.Some? ==> d[i].applied.value == 0)
  }

  lemma ConvergedIsQuiet(c0: Cluster, c: Cluster, moves: seq<Move>, d: Cluster)
    requires Converged(c0, c) && Sane(NextRound(c)) && Rounds(NextRound(c), moves, d)
    ensures Undisturbed(c, d)
  {
    var b := NextRound(c);
    NextAgreed(c0, c);
    QuietRounds(b, b, moves, d);
    forall i | 0 <= i < |c|
      ensures SameServices(c[i].reg, d[i].reg) && (d[i].applied.Some? ==> d[i].applied.value == 0)
    {
      assert QuietSeed(b, i, d[i]);
    }
  }

  lemma NextSane(c: Cluster)
    requires Sane(c)
    ensures Sane(NextRound(c))
  {
    forall i | 0 <= i < |c|
      ensures SaneSeed(NextRound(c)[i])
    {
      assert SaneSeed(c[i]);
    }
  }

  /** Two rounds: after one complete round every merge of the next - in any interleaving,
      complete or not, with or without expired copies - applies nothing, moves no index and
      emits nothing. */
  lemma NextRoundIsQuiet(c0: Cluster, moves: seq<Move>, c: Cluster)
    requires Sane(c0) && Fresh(c0) && Rounds(c0, moves, c) && SeesAll(c0, moves) && Complete(c)
    ensures Converged(c0, c) && Sane(NextRound(c))
    ensures forall more, d | Rounds(NextRound(c), more, d) :: Undisturbed(c, d)
  {
    RoundConverges(c0, moves, c);
    NextSane(c);
    forall more, d | Rounds(NextRound(c), more, d)
      ensures Undisturbed(c, d)
    {
      ConvergedIsQuiet(c0, c, more, d);
    }
  }

}
