/** Node records under anti-entropy: a merge overwrites the record of every node it meets,
    whichever copy of the instance wins, so records are passed around rather than merged. */
module NodeRecords {
  import opened Model
  import opened Order
  import opened StoreSpec
  import opened StoreInvariants
  import opened Health
  import opened StoreMerge
  import opened AntiEntropy

  /** Every entry of node `n` carries the record `r`. */
  predicate Carry(es: seq<ServiceEntry>, n: string, r: Node) {
    forall e | e in es && e.node.id == n :: e.node == r
  }

  predicate Meets(es: seq<ServiceEntry>, n: string) {
    exists e | e in es :: e.node.id == n && Named(e.Id())
  }

  lemma MergeOneRecord(o: Options, s: Registry, e: ServiceEntry, now: int, n: string)
    ensures var t := MergeOne(o, s, e, now).0;
            if e.node.id == n && Named(e.Id()) then n in t.metas && t.metas[n] == e.node
            else (n in t.metas <==> n in s.metas) && (n in t.metas ==> t.metas[n] == s.metas[n])
  {
  }

  /** Merging entries that agree on the record of `n` leaves that record, or the old one when
      none of them is about `n`. */
  lemma {:induction false} MergeRecord(o: Options, s: Registry, es: seq<ServiceEntry>, now: int, n: string, r: Node)
    requires Carry(es, n, r)
    ensures var t := Merge(o, s, es, now).0;
            if Meets(es, n) then n in t.metas && t.metas[n] == r
            else (n in t.metas <==> n in s.metas) && (n in t.metas ==> t.metas[n] == s.metas[n])
    decreases |es|
  {
    if es != [] {
      var rest := es[1..];
      assert es == [es[0]] + rest && es[0] in es;
      assert forall e | e in rest :: e in es;
      MergeOneRecord(o, s, es[0], now, n);
      MergeRecord(o, MergeOne(o, s, es[0], now).0, rest, now, n, r);
      assert Meets(es, n) <==> (es[0].node.id == n && Named(es[0].Id())) || Meets(rest, n);
    }
  }

  lemma MergedCarries(es: seq<ServiceEntry>, n: string, r: Node)
    requires Carry(es, n, r)
    ensures Carry(Merged(es), n, r)
  {
    forall e | e in Merged(es) && e.node.id == n
      ensures e.node == r
    {
      BestPresent(es, e.Id());
    }
  }

  lemma MergedMeets(es: seq<ServiceEntry>, n: string)
    requires Meets(es, n)
    ensures Meets(Merged(es), n)
  {
    var e :| e in es && e.node.id == n && Named(e.Id());
    MergedKeepsVersion(es, e);
    var w :| w in Merged(es) && w.Id() == e.Id() && e.service.Stamp().AtMost(w.service.Stamp());
    assert w.node.id == n;
  }

  // ---- records that agree stay ----

  ghost predicate Recorded(d: Seed, n: string, r: Node) {
    (n in d.reg.metas ==> d.reg.metas[n] == r) && Carry(d.Inbox(), n, r)
  }

  /** Every seed that knows `n` has the record `r`. */
  ghost predicate AllRecorded(c: Cluster, n: string, r: Node) {
    forall i | 0 <= i < |c| :: Recorded(c[i], n, r)
  }

  lemma AnswerCarries(d: Seed, now: int, n: string, r: Node)
    requires Good(d.opts, d.reg) && (n in d.reg.metas ==> d.reg.metas[n] == r)
    ensures Carry(Lookup(d.opts, d.reg, EVERYTHING, now).entries, n, r)
  {
    var vis := StoreSpec.Visible(d.opts, d.reg, EVERYTHING, now);
    forall e | e in Listing(vis) && e.node.id == n
      ensures e.node == r
    {
      assert vis[e.Id()] == e;
    }
  }

  lemma PullRecorded(d: Seed, j: int, peer: Seed, now: int, n: string, r: Node)
    requires Good(peer.opts, peer.reg) && Recorded(d, n, r) && Recorded(peer, n, r)
    ensures Recorded(Received(d, j, peer, now), n, r)
  {
    ReceivedInbox(d, j, peer, now);
    AnswerCarries(peer, now, n, r);
    var answer := Lookup(peer.opts, peer.reg, EVERYTHING, now).entries;
    assert forall e | e in d.Inbox() + answer :: e in d.Inbox() || e in answer;
  }

  lemma ApplyRecorded(d: Seed, now: int, n: string, r: Node)
    requires SaneSeed(d) && Recorded(d, n, r)
    ensures Recorded(Applied(d, now), n, r)
  {
    AppliedMerges(d, now);
    MergedCarries(d.Inbox(), n, r);
    MergeRecord(d.opts, d.reg, Merged(d.Inbox()), now, n, r);
  }

  /** Agreement is kept: if all seeds that know a node start with one record of it, they have
      that record at every point of every run. */
  lemma {:induction false} RecordsKept(c: Cluster, moves: seq<Move>, d: Cluster, n: string, r: Node)
    requires Sane(c) && Rounds(c, moves, d) && AllRecorded(c, n, r)
    ensures AllRecorded(d, n, r)
    decreases |moves|
  {
    if moves != [] {
      DoSane(c, moves[0]);
      DoRecorded(c, moves[0], n, r);
      RecordsKept(Do(c, moves[0]), moves[1..], d, n, r);
    }
  }

  lemma DoRecorded(c: Cluster, m: Move, n: string, r: Node)
    requires Sane(c) && Enabled(c, m) && AllRecorded(c, n, r)
    ensures AllRecorded(Do(c, m), n, r)
  {
    assert SaneSeed(c[m.seed]) && Recorded(c[m.seed], n, r);
    match m
    case Pull(i, j, now) =>
      assert SaneSeed(c[j]) && Recorded(c[j], n, r);
      PullRecorded(c[i], j, c[j], now, n, r);
    case Apply(i, now) => ApplyRecorded(c[i], now, n, r);
  }

  // ---- records that differ are swapped ----

  /** `d` holds an instance of `n` that it lists at `now`. */
  ghost predicate Serves(d: Seed, n: string, now: int) {
    exists k :: k in d.reg.svcs && k.node == n && !PastGrace(d.opts, d.reg.svcs[k], now)
  }

  lemma AnswerMeets(d: Seed, now: int, n: string)
    requires Good(d.opts, d.reg) && Serves(d, n, now)
    ensures n in d.reg.metas && Meets(Lookup(d.opts, d.reg, EVERYTHING, now).entries, n)
  {
    var k :| k in d.reg.svcs && k.node == n && !PastGrace(d.opts, d.reg.svcs[k], now);
    var e := AnswerHas(d, now, k);
    assert e.node.id == n && Named(e.Id());
  }

  lemma AdoptsRecord(d: Seed, now: int, n: string, r: Node)
    requires SaneSeed(d) && Carry(d.Inbox(), n, r) && Meets(d.Inbox(), n)
    ensures var t := Applied(d, now).reg; n in t.metas && t.metas[n] == r
  {
    MergedMeets(d.Inbox(), n);
    MergedCarries(d.Inbox(), n, r);
    AppliedMerges(d, now);
    MergeRecord(d.opts, d.reg, Merged(d.Inbox()), now, n, r);
  }

  lemma OnlyAnswer(d: Seed, j: int, peer: Seed, now: int)
    requires Good(peer.opts, peer.reg) && d.replies == []
    ensures Received(d, j, peer, now).Inbox() == Lookup(peer.opts, peer.reg, EVERYTHING, now).entries
  {
    ReceivedInbox(d, j, peer, now);
    assert d.Inbox() == [];
  }

  /** A seed that pulled only from `peer` takes over the peer's record of `n`. */
  lemma TakesRecord(d: Seed, j: int, peer: Seed, pulledAt: int, now: int, n: string)
    requires SaneSeed(d) && SaneSeed(peer) && d.replies == [] && Serves(peer, n, pulledAt)
    ensures var t := Applied(Received(d, j, peer, pulledAt), now).reg;
            n in peer.reg.metas && n in t.metas && t.metas[n] == peer.reg.metas[n]
  {
    AnswerMeets(peer, pulledAt, n);
    AnswerCarries(peer, pulledAt, n, peer.reg.metas[n]);
    OnlyAnswer(d, j, peer, pulledAt);
    AdoptsRecord(Received(d, j, peer, pulledAt), now, n, peer.reg.metas[n]);
  }

  /** Both seeds pull, then both merge. */
  function SwapMoves(now: int): seq<Move> {
    Then(Pull(0, 1, now), Then(Pull(1, 0, now), Then(Apply(0, now), Then(Apply(1, now), []))))
  }

  function Then(m: Move, rest: seq<Move>): seq<Move> {
    [m] + rest
  }

  /** Two seeds that both pull before either merges swap their records of every node they both
      serve: after that complete round the records agree exactly if they agreed before. */
  lemma RecordsSwap(c: Cluster, n: string, now: int) returns (d: Cluster)
    requires |c| == 2 && Sane(c) && Fresh(c) && Serves(c[0], n, now) && Serves(c[1], n, now)
    ensures Rounds(c, SwapMoves(now), d) && Complete(d)
    ensures |d| == 2 && n in c[0].reg.metas && n in c[1].reg.metas && n in d[0].reg.metas && n in d[1].reg.metas
    ensures d[0].reg.metas[n] == c[1].reg.metas[n] && d[1].reg.metas[n] == c[0].reg.metas[n]
  {
    var a, b := c[0], c[1];
    assert SaneSeed(a) && SaneSeed(b);
    TakesRecord(a, 1, b, now, now, n);
    TakesRecord(b, 0, a, now, now, n);
    d := SwapRound(c, now);
  }

  /** All seeds that know `n` have one record of it. */
  predicate SameRecord(c: Cluster, n: string) {
    forall i, j | 0 <= i < |c| && 0 <= j < |c| && n in c[i].reg.metas && n in c[j].reg.metas ::
      c[i].reg.metas[n] == c[j].reg.metas[n]
  }

  /** Every complete round ends with one record of `n`. */
  ghost predicate AlwaysAgree(c: Cluster, n: string)
    requires Sane(c)
  {
    forall moves, d | Rounds(c, moves, d) && Complete(d) :: SameRecord(d, n)
  }

  /** For two seeds that both serve a node: every complete round ends with equal records of it
      exactly if the records were equal at the start. */
  lemma RecordsAgreeIff(c: Cluster, n: string, now: int)
    requires |c| == 2 && Sane(c) && Fresh(c) && Serves(c[0], n, now) && Serves(c[1], n, now)
    ensures AlwaysAgree(c, n) <==> SameRecord(c, n)
  {
    if SameRecord(c, n) {
      AgreementKept(c, n);
    } else {
      DisagreementKept(c, n, now);
    }
  }

  lemma TwoRecords(c: Cluster, n: string)
    requires |c| == 2 && n in c[0].reg.metas && n in c[1].reg.metas
    ensures SameRecord(c, n) <==> c[0].reg.metas[n] == c[1].reg.metas[n]
  {
  }

  lemma DisagreementKept(c: Cluster, n: string, now: int)
    requires |c| == 2 && Sane(c) && Fresh(c) && Serves(c[0], n, now) && Serves(c[1], n, now) && !SameRecord(c, n)
    ensures !AlwaysAgree(c, n)
  {
    var d := RecordsSwap(c, n, now);
    TwoRecords(c, n);
    TwoRecords(d, n);
    NotAlways(c, SwapMoves(now), d, n);
  }

  lemma NotAlways(c: Cluster, moves: seq<Move>, d: Cluster, n: string)
    requires Sane(c) && Rounds(c, moves, d) && Complete(d) && !SameRecord(d, n)
    ensures !AlwaysAgree(c, n)
  {
  }

  /** Of any cluster: records that are equal at the start are equal after every complete round. */
  lemma AgreementKept(c: Cluster, n: string)
    requires Sane(c) && Fresh(c) && SameRecord(c, n)
    ensures AlwaysAgree(c, n)
  {
    var r := TheRecord(c, n);
    forall moves, d | Rounds(c, moves, d) && Complete(d)
      ensures SameRecord(d, n)
    {
      RecordsKept(c, moves, d, n, r);
      assert forall i | 0 <= i < |d| :: Recorded(d[i], n, r);
    }
  }

  lemma TheRecord(c: Cluster, n: string) returns (r: Node)
    requires Fresh(c) && SameRecord(c, n)
    ensures AllRecorded(c, n, r)
  {
    if i :| 0 <= i < |c| && n in c[i].reg.metas {
      r := c[i].reg.metas[n];
    } else {
      r := Node(n, "", "", "", map[], map[]);
    }
    forall i | 0 <= i < |c|
      ensures Recorded(c[i], n, r)
    {
      assert c[i].Inbox() == [];
    }
  }

  lemma SwapRound(c: Cluster, now: int) returns (d: Cluster)
    requires |c| == 2 && Sane(c) && Fresh(c)
    ensures SaneSeed(c[0]) && SaneSeed(c[1])
    ensures Rounds(c, SwapMoves(now), d) && Complete(d)
    ensures d == [Applied(Received(c[0], 1, c[1], now), now), Applied(Received(c[1], 0, c[0], now), now)]
  {
    assert SaneSeed(c[0]) && SaneSeed(c[1]);
    var c1, c2 := BothPull(c, now);
    var c3, c4 := BothApply(c2, now);
    d := c4;
    FourMoves(c, Pull(0, 1, now), c1, Pull(1, 0, now), c2, Apply(0, now), c3, Apply(1, now), d);
  }

  ghost predicate Moves(c: Cluster, m: Move, d: Cluster) {
    Sane(c) && Enabled(c, m) && d == Do(c, m)
  }

  lemma BothPull(c: Cluster, now: int) returns (mid: Cluster, d: Cluster)
    requires |c| == 2 && Sane(c) && Fresh(c) && SaneSeed(c[0]) && SaneSeed(c[1])
    ensures Moves(c, Pull(0, 1, now), mid) && Moves(mid, Pull(1, 0, now), d) && Sane(d)
    ensures d == [Received(c[0], 1, c[1], now), Received(c[1], 0, c[0], now)]
  {
    var x, y := Received(c[0], 1, c[1], now), Received(c[1], 0, c[0], now);
    DoSane(c, Pull(0, 1, now));
    mid := Do(c, Pull(0, 1, now));
    Updated(c, 0, x);
    assert y == Received(mid[1], 0, mid[0], now) by {
      assert mid[1] == c[1] && mid[0].reg == c[0].reg && mid[0].opts == c[0].opts;
    }
    DoSane(mid, Pull(1, 0, now));
    d := Do(mid, Pull(1, 0, now));
    Updated(mid, 1, y);
  }

  lemma BothApply(c: Cluster, now: int) returns (mid: Cluster, d: Cluster)
    requires |c| == 2 && Sane(c) && SaneSeed(c[0]) && SaneSeed(c[1])
    requires c[0].applied.None? && c[1].applied.None?
    ensures Moves(c, Apply(0, now), mid) && Moves(mid, Apply(1, now), d) && Complete(d)
    ensures d == [Applied(c[0], now), Applied(c[1], now)]
  {
    mid := FirstApply(c, now);
    d := ApplyMove(mid, 1, now);
    BothUpdated(c, Applied(c[0], now), mid, Applied(c[1], now), d);
  }

  lemma FirstApply(c: Cluster, now: int) returns (d: Cluster)
    requires |c| == 2 && Sane(c) && SaneSeed(c[0]) && c[0].applied.None?
    ensures Moves(c, Apply(0, now), d) && Sane(d) && d == c[0 := Applied(c[0], now)]
    ensures |d| == 2 && d[1] == c[1]
  {
    d := ApplyMove(c, 0, now);
  }

  lemma BothUpdated(c: Cluster, x: Seed, mid: Cluster, y: Seed, d: Cluster)
    requires |c| == 2 && mid == c[0 := x] && d == mid[1 := y]
    ensures d == [x, y] && (x.applied.Some? && y.applied.Some? ==> Complete(d))
  {
  }

  lemma ApplyMove(c: Cluster, i: int, now: int) returns (d: Cluster)
    requires Sane(c) && 0 <= i < |c| && SaneSeed(c[i]) && c[i].applied.None?
    ensures Moves(c, Apply(i, now), d) && Sane(d) && d == c[i := Applied(c[i], now)]
  {
    DoSane(c, Apply(i, now));
    d := Do(c, Apply(i, now));
  }

  lemma Updated(c: Cluster, i: int, x: Seed)
    requires |c| == 2 && 0 <= i < 2
    ensures c[i := x] == if i == 0 then [x, c[1]] else [c[0], x]
  {
  }

  lemma FourMoves(c: Cluster, m1: Move, c1: Cluster, m2: Move, c2: Cluster, m3: Move, c3: Cluster, m4: Move, d: Cluster)
    requires Moves(c, m1, c1) && Moves(c1, m2, c2) && Moves(c2, m3, c3) && Moves(c3, m4, d)
    ensures Rounds(c, Then(m1, Then(m2, Then(m3, Then(m4, [])))), d)
  {
    DoSane(c3, m4);
    TwoMoves(c2, m3, c3, m4, d, [], d);
    TwoMoves(c, m1, c1, m2, c2, Then(m3, Then(m4, [])), d);
  }

  lemma TwoMoves(c: Cluster, m: Move, mid: Cluster, n: Move, s: Cluster, rest: seq<Move>, d: Cluster)
    requires Moves(c, m, mid) && Moves(mid, n, s) && Sane(s) && Rounds(s, rest, d)
    ensures Rounds(c, Then(m, Then(n, rest)), d)
  {
    MoveFront(mid, n, s, rest, d);
    MoveFront(c, m, mid, Then(n, rest), d);
  }

  lemma MoveFront(c: Cluster, m: Move, mid: Cluster, rest: seq<Move>, d: Cluster)
    requires Moves(c, m, mid) && Sane(mid) && Rounds(mid, rest, d)
    ensures Rounds(c, Then(m, rest), d)
  {
    assert Then(m, rest)[0] == m && Then(m, rest)[1..] == rest;
    DoSane(c, m);
  }

}
