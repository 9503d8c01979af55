/** The agent's Watch stream (internal/seedclient/proxy.go) and the SDK that folds it
    (client/sdk): deltas between successive merged snapshots rebuild the snapshot. */
module AgentWatch {
  import opened Model

  const NUL: char := '\0'

  function EntryKey(e: ServiceEntry): string {
    e.node.id + [NUL] + e.service.id
  }

  predicate EndpointChanged(a: ServiceEntry, b: ServiceEntry) {
    || a.service.address != b.service.address || a.service.port != b.service.port
    || a.service.generation != b.service.generation || a.health != b.health
  }

  /** The textual key identifies an instance exactly, as long as ids are free of NUL. */
  lemma EntryKeyIdentifies(a: ServiceEntry, b: ServiceEntry)
    requires NUL !in a.node.id && NUL !in b.node.id
    ensures EntryKey(a) == EntryKey(b) <==> a.Id() == b.Id()
  {
    if EntryKey(a) == EntryKey(b) {
      var x, y := EntryKey(a), EntryKey(b);
      var n, m := |a.node.id|, |b.node.id|;
      assert x[n] == NUL && y[m] == NUL;
      assert forall i | 0 <= i < n :: x[i] == a.node.id[i] && a.node.id[i] in a.node.id;
      assert forall i | 0 <= i < m :: y[i] == b.node.id[i] && b.node.id[i] in b.node.id;
      assert n == m;
      assert a.node.id == x[..n] && a.service.id == x[n + 1..];
      assert b.node.id == y[..n] && b.service.id == y[n + 1..];
    }
  }

  datatype Msg =
    | Event(kind: ChangeType, entry: ServiceEntry)
    | SnapshotDone

  type Instances = map<string, ServiceEntry>

  // ---- the SDK's fold ----

  function Apply(set_: Instances, m: Msg): Instances {
    match m
    case Event(ChangePut, e) => set_[EntryKey(e) := e]
    case Event(ChangeDelete, e) => set_ - {EntryKey(e)}
    case SnapshotDone => set_
  }

  function Fold(set_: Instances, ms: seq<Msg>): Instances
    decreases |ms|
  {
    if ms == [] then set_ else Apply(Fold(set_, ms[..|ms| - 1]), ms[|ms| - 1])
  }

  lemma FoldSnoc(set_: Instances, ms: seq<Msg>, m: Msg)
    ensures Fold(set_, ms + [m]) == Apply(Fold(set_, ms), m)
  {
    assert (ms + [m])[..|ms + [m]| - 1] == ms;
  }

  lemma {:induction false} FoldConcat(set_: Instances, a: seq<Msg>, b: seq<Msg>)
    ensures Fold(set_, a + b) == Fold(Fold(set_, a), b)
    decreases |b|
  {
    if b == [] {
      assert a + b == a;
    } else {
      assert (a + b)[..|a + b| - 1] == a + b[..|b| - 1];
      FoldConcat(set_, a, b[..|b| - 1]);
    }
  }

  /** The SDK's Watch goroutine: the folded set, whether the initial snapshot is complete,
      and the one-slot output channel. */
  class SdkWatch {
    var set_: Instances
    var ready: bool
    var out: seq<seq<ServiceEntry>>
    /** The sets the consumer has taken from the channel. */
    var taken: seq<seq<ServiceEntry>>

    ghost predicate Valid()
      reads this
    {
      |out| <= 1 && (!ready ==> out == [])
    }

    constructor ()
      ensures Valid() && set_ == map[] && !ready && taken == []
    {
      set_, ready, out, taken := map[], false, [], [];
    }

    /** The consumer's side of the channel. */
    method Take() returns (snap: Option<seq<ServiceEntry>>)
      requires Valid()
      modifies this`out, this`taken
      ensures Valid() && out == []
      ensures taken == old(taken) + old(out)
      ensures snap == if old(out) == [] then None else Some(old(out)[0])
    {
      if |out| == 0 {
        return None;
      }
      snap := Some(out[0]);
      taken := taken + [out[0]];
      out := [];
    }

    method Recv(m: Msg)
      requires Valid()
      modifies this
      ensures Valid()
      ensures set_ == Apply(old(set_), m) && ready == (old(ready) || m == SnapshotDone)
      ensures ready ==> |out| == 1 && Lists(out[0], set_)
      ensures taken == old(taken) || taken == old(taken) + old(out)
    {
      match m {
        case Event(kind, e) =>
          if kind == ChangePut {
            set_ := set_[EntryKey(e) := e];
          } else {
            set_ := set_ - {EntryKey(e)};
          }
        case SnapshotDone =>
          ready := true;
      }
      if ready {
        var snap := Snapshot();
        Emit(snap);
      }
    }

    method Snapshot() returns (snap: seq<ServiceEntry>)
      ensures Lists(snap, set_)
    {
      snap := [];
      var todo := set_.Keys;
      while todo != {}
        invariant todo <= set_.Keys
        invariant |snap| + |todo| == |set_|
        invariant forall e :: e in snap <==> exists k :: k in set_ && k !in todo && set_[k] == e
        decreases todo
      {
        var k :| k in todo;
        snap := snap + [set_[k]];
        todo := todo - {k};
      }
    }

    /** Delivers `snap`, replacing an undelivered older set; the consumer may take that set at
        any point before it is replaced. */
    method Emit(snap: seq<ServiceEntry>)
      requires |out| <= 1
      modifies this`out, this`taken
      ensures out == [snap]
      ensures taken == old(taken) || taken == old(taken) + old(out)
    {
      while true
        invariant out == old(out) || out == []
        invariant taken == old(taken) || (out == [] && taken == old(taken) + old(out))
        decreases |out|
      {
        if * {
          taken, out := taken + out, [];
        }
        if |out| < 1 {
          out := out + [snap];
          return;
        }
        if * {
          taken, out := taken + out, [];
        }
        if |out| > 0 {
          out := out[1..];
        }
      }
    }
  }

  /** `snap` holds the values of `m`, one element per key. */
  ghost predicate Lists(snap: seq<ServiceEntry>, m: Instances) {
    |snap| == |m| && forall e :: e in snap <==> exists k :: k in m && m[k] == e
  }

  // ---- the agent's rounds ----

  function Indexed(es: seq<ServiceEntry>): Instances
    decreases |es|
  {
    if es == [] then map[] else Indexed(es[..|es| - 1])[EntryKey(es[|es| - 1]) := es[|es| - 1]]
  }

  lemma {:induction false} IndexedKeys(es: seq<ServiceEntry>)
    ensures forall k | k in Indexed(es) :: EntryKey(Indexed(es)[k]) == k && Indexed(es)[k] in es
    ensures forall e | e in es :: EntryKey(e) in Indexed(es)
    decreases |es|
  {
    if es != [] {
      IndexedKeys(es[..|es| - 1]);
      assert es == es[..|es| - 1] + [es[|es| - 1]];
    }
  }

  function Puts(es: seq<ServiceEntry>): seq<Msg> {
    seq(|es|, i requires 0 <= i < |es| => Event(ChangePut, es[i]))
  }

  ghost predicate OwnKeys(m: Instances) {
    forall k | k in m :: EntryKey(m[k]) == k
  }

  predicate NeedsPut(last: Instances, cur: Instances, k: string) {
    k in cur && (k !in last || EndpointChanged(last[k], cur[k]))
  }

  /** A put of a new or changed instance of `cur`. */
  predicate IsPut(last: Instances, cur: Instances, m: Msg) {
    m.Event? && m.kind == ChangePut && NeedsPut(last, cur, EntryKey(m.entry)) && m.entry == cur[EntryKey(m.entry)]
  }

  /** A delete of an instance of `last` that is gone from `cur`. */
  predicate IsDelete(last: Instances, cur: Instances, m: Msg) {
    && m.Event? && m.kind == ChangeDelete && EntryKey(m.entry) in last && EntryKey(m.entry) !in cur
    && m.entry == last[EntryKey(m.entry)]
  }

  /** `ms` are the deltas from `last` to `cur`, in some order. */
  ghost predicate Delta(last: Instances, cur: Instances, ms: seq<Msg>) {
    && (forall m | m in ms :: IsPut(last, cur, m) || IsDelete(last, cur, m))
    && (forall k | NeedsPut(last, cur, k) :: Event(ChangePut, cur[k]) in ms)
    && (forall k | k in last && k !in cur :: Event(ChangeDelete, last[k]) in ms)
  }

  /** One pass of the agent's Watch loop after a successful lookup. */
  ghost predicate Round(first: bool, last: Instances, es: seq<ServiceEntry>, ms: seq<Msg>) {
    if first then ms == Puts(es) + [SnapshotDone] else Delta(last, Indexed(es), ms)
  }

  class DeltaStream {
    var last: Instances
    var first: bool

    constructor ()
      ensures last == map[] && first
    {
      last, first := map[], true;
    }

    method OnLookup(es: seq<ServiceEntry>) returns (ms: seq<Msg>)
      requires OwnKeys(last)
      modifies this
      ensures OwnKeys(last) && last == Indexed(es) && !first
      ensures Round(old(first), old(last), es, ms)
    {
      var cur := IndexAll(es);
      IndexedKeys(es);
      if first {
        ms := AllPuts(es);
        ms := ms + [SnapshotDone];
        first := false;
      } else {
        var puts := ChangedPuts(cur);
        var deletes := GoneDeletes(cur);
        ms := puts + deletes;
      }
      last := cur;
    }

    static method IndexAll(es: seq<ServiceEntry>) returns (cur: Instances)
      ensures cur == Indexed(es)
    {
      cur := map[];
      for i := 0 to |es|
        invariant cur == Indexed(es[..i])
      {
        assert es[..i + 1][..i] == es[..i];
        cur := cur[EntryKey(es[i]) := es[i]];
      }
      assert es[..|es|] == es;
    }

    static method AllPuts(es: seq<ServiceEntry>) returns (ms: seq<Msg>)
      ensures ms == Puts(es)
    {
      ms := [];
      for i := 0 to |es|
        invariant ms == Puts(es[..i])
      {
        assert Puts(es[..i + 1]) == Puts(es[..i]) + [Event(ChangePut, es[i])];
        ms := ms + [Event(ChangePut, es[i])];
      }
      assert es[..|es|] == es;
    }

    method ChangedPuts(cur: Instances) returns (ms: seq<Msg>)
      requires OwnKeys(cur)
      ensures forall m :: m in ms <==> IsPut(last, cur, m)
    {
      ms := [];
      var todo := cur.Keys;
      while todo != {}
        invariant todo <= cur.Keys
        invariant forall m :: m in ms <==> IsPut(last, cur, m) && EntryKey(m.entry) !in todo
        decreases todo
      {
        var k :| k in todo;
        if k !in last || EndpointChanged(last[k], cur[k]) {
          ms := ms + [Event(ChangePut, cur[k])];
        }
        todo := todo - {k};
      }
    }

    method GoneDeletes(cur: Instances) returns (ms: seq<Msg>)
      requires OwnKeys(last)
      ensures forall m :: m in ms <==> IsDelete(last, cur, m)
    {
      ms := [];
      var todo := last.Keys;
      while todo != {}
        invariant todo <= last.Keys
        invariant forall m :: m in ms <==> IsDelete(last, cur, m) && EntryKey(m.entry) !in todo
        decreases todo
      {
        var k :| k in todo;
        if k !in cur {
          ms := ms + [Event(ChangeDelete, last[k])];
        }
        todo := todo - {k};
      }
    }
  }

  // ---- the reader stays in step ----

  /** Same instances, agreeing on address, port, generation and health. */
  ghost predicate InStep(set_: Instances, last: Instances) {
    && set_.Keys == last.Keys
    && forall k | k in last ::
         && set_[k].service.address == last[k].service.address && set_[k].service.port == last[k].service.port
         && set_[k].service.generation == last[k].service.generation && set_[k].health == last[k].health
  }

  /** Some message of `ms` is about `k`. */
  predicate Mentions(ms: seq<Msg>, k: string) {
    exists m | m in ms :: m.Event? && EntryKey(m.entry) == k
  }

  /** Every message says what `cur` says about its key. */
  predicate Says(cur: Instances, m: Msg) {
    && m.Event?
    && if m.kind == ChangePut then EntryKey(m.entry) in cur && m.entry == cur[EntryKey(m.entry)]
       else EntryKey(m.entry) !in cur
  }

  /** Whatever the order, each key ends as its messages say, or as it was. */
  lemma {:induction false} FoldDelta(set_: Instances, cur: Instances, ms: seq<Msg>, k: string)
    requires forall m | m in ms :: Says(cur, m)
    ensures var r := Fold(set_, ms);
            if !Mentions(ms, k) then (k in r <==> k in set_) && (k in r ==> r[k] == set_[k])
            else if k in cur then k in r && r[k] == cur[k]
            else k !in r
    decreases |ms|
  {
    if ms != [] {
      var n := |ms| - 1;
      assert ms == ms[..n] + [ms[n]] && ms[n] in ms;
      FoldDelta(set_, cur, ms[..n], k);
      assert Mentions(ms, k) <==> Mentions(ms[..n], k) || EntryKey(ms[n].entry) == k;
    }
  }

  lemma DeltaInStep(set_: Instances, last: Instances, cur: Instances, ms: seq<Msg>)
    requires InStep(set_, last) && OwnKeys(last) && OwnKeys(cur) && Delta(last, cur, ms)
    ensures InStep(Fold(set_, ms), cur)
  {
    var r := Fold(set_, ms);
    forall k
      ensures k in r <==> k in cur
      ensures k in cur ==>
                && k in r
                && r[k].service.address == cur[k].service.address && r[k].service.port == cur[k].service.port
                && r[k].service.generation == cur[k].service.generation && r[k].health == cur[k].health
    {
      FoldDelta(set_, cur, ms, k);
      if NeedsPut(last, cur, k) {
        assert Event(ChangePut, cur[k]) in ms;
      }
      if k in last && k !in cur {
        assert Event(ChangeDelete, last[k]) in ms;
      }
    }
  }

  lemma {:induction false} FoldPuts(es: seq<ServiceEntry>)
    ensures Fold(map[], Puts(es)) == Indexed(es)
    decreases |es|
  {
    if es != [] {
      assert Puts(es)[..|es| - 1] == Puts(es[..|es| - 1]);
      FoldPuts(es[..|es| - 1]);
    }
  }

  /** The rounds of one Watch call: a timeout or failed lookup sends nothing, a successful
      one sends its deltas. */
  datatype Pass = Skipped | Looked(entries: seq<ServiceEntry>, sent: seq<Msg>)

  ghost predicate Passes(first: bool, last: Instances, ps: seq<Pass>)
    decreases |ps|
  {
    ps == [] ||
    match ps[0]
    case Skipped => Passes(first, last, ps[1..])
    case Looked(es, ms) => Round(first, last, es, ms) && Passes(false, Indexed(es), ps[1..])
  }

  /** What a pass sends, and the snapshot it leaves. */
  function SentIn(p: Pass): seq<Msg> {
    if p.Looked? then p.sent else []
  }

  function SnapshotOf(last: Instances, p: Pass): Instances {
    if p.Looked? then Indexed(p.entries) else last
  }

  function Sent(ps: seq<Pass>): seq<Msg>
    decreases |ps|
  {
    if ps == [] then []
    else SentIn(ps[0]) + Sent(ps[1..])
  }

  /** The snapshot of the last successful pass, `last` if there is none. */
  function LastSnapshot(last: Instances, ps: seq<Pass>): Instances
    decreases |ps|
  {
    if ps == [] then last
    else LastSnapshot(SnapshotOf(last, ps[0]), ps[1..])
  }

  lemma {:induction false} PassesInStep(first: bool, last: Instances, set_: Instances, ps: seq<Pass>)
    requires Passes(first, last, ps) && InStep(set_, last) && OwnKeys(last) && (first ==> set_ == map[])
    ensures InStep(Fold(set_, Sent(ps)), LastSnapshot(last, ps))
    decreases |ps|
  {
    if ps != [] {
      if ps[0].Skipped? {
        assert [] + Sent(ps[1..]) == Sent(ps[1..]);
        PassesInStep(first, last, set_, ps[1..]);
      } else {
        var es, ms := ps[0].entries, ps[0].sent;
        IndexedKeys(es);
        FoldConcat(set_, ms, Sent(ps[1..]));
        if first {
          FoldPuts(es);
          FoldSnoc(map[], Puts(es), SnapshotDone);
        } else {
          DeltaInStep(set_, last, Indexed(es), ms);
        }
        PassesInStep(false, Indexed(es), Fold(set_, ms), ps[1..]);
      }
    }
  }

  /** Delta stream round trip: after any number of passes, whatever the map iteration order
      and whichever passes were skipped, the SDK's set has exactly the keys of the last merged
      snapshot and agrees with it on address, port, generation and health. */
  lemma DeltaRoundTrip(ps: seq<Pass>)
    requires Passes(true, map[], ps)
    ensures InStep(Fold(map[], Sent(ps)), LastSnapshot(map[], ps))
  {
    PassesInStep(true, map[], map[], ps);
  }

  // ---- the same by identity ----

  predicate NulFree(es: seq<ServiceEntry>) {
    forall e | e in es :: NUL !in e.node.id
  }

  /** Every looked-up node id is free of NUL. */
  predicate AllNulFree(ps: seq<Pass>) {
    forall i | 0 <= i < |ps| && ps[i].Looked? :: NulFree(ps[i].entries)
  }

  /** Every instance of the set is stored under its own key and has a NUL-free node id. */
  ghost predicate Proper(set_: Instances) {
    forall k | k in set_ :: EntryKey(set_[k]) == k && NUL !in set_[k].node.id
  }

  /** The entries of the last successful pass. */
  function LastEntries(es: seq<ServiceEntry>, ps: seq<Pass>): seq<ServiceEntry>
    decreases |ps|
  {
    if ps == [] then es else LastEntries(if ps[0].Looked? then ps[0].entries else es, ps[1..])
  }

  lemma {:induction false} SnapshotOfEntries(es: seq<ServiceEntry>, ps: seq<Pass>)
    ensures LastSnapshot(Indexed(es), ps) == Indexed(LastEntries(es, ps))
    decreases |ps|
  {
    if ps != [] {
      SnapshotOfEntries(if ps[0].Looked? then ps[0].entries else es, ps[1..]);
    }
  }

  lemma {:induction false} IndexedProper(es: seq<ServiceEntry>)
    requires NulFree(es)
    ensures Proper(Indexed(es)) && forall k | k in Indexed(es) :: Indexed(es)[k] in es
    decreases |es|
  {
    if es != [] {
      assert forall e | e in es[..|es| - 1] :: e in es;
      IndexedProper(es[..|es| - 1]);
    }
  }

  /** The messages are about NUL-free nodes. */
  predicate CleanMsgs(ms: seq<Msg>) {
    forall m | m in ms && m.Event? :: NUL !in m.entry.node.id
  }

  lemma {:induction false} FoldProper(set_: Instances, ms: seq<Msg>)
    requires Proper(set_) && CleanMsgs(ms)
    ensures Proper(Fold(set_, ms))
    decreases |ms|
  {
    if ms != [] {
      assert forall m | m in ms[..|ms| - 1] :: m in ms;
      FoldProper(set_, ms[..|ms| - 1]);
      assert ms[|ms| - 1] in ms;
    }
  }

  lemma RoundClean(first: bool, last: Instances, p: Pass)
    requires p.Looked? && Proper(last) && NulFree(p.entries) && Round(first, last, p.entries, p.sent)
    ensures CleanMsgs(p.sent) && Proper(Indexed(p.entries))
  {
    IndexedProper(p.entries);
    forall m | m in p.sent && m.Event?
      ensures NUL !in m.entry.node.id
    {
      if !first {
        assert IsPut(last, Indexed(p.entries), m) || IsDelete(last, Indexed(p.entries), m);
      }
    }
  }

  lemma {:induction false} PassesProper(first: bool, last: Instances, set_: Instances, ps: seq<Pass>)
    requires Passes(first, last, ps) && Proper(last) && Proper(set_) && AllNulFree(ps)
    ensures Proper(Fold(set_, Sent(ps))) && Proper(LastSnapshot(last, ps))
    decreases |ps|
  {
    if ps != [] {
      assert forall i | 0 <= i < |ps[1..]| :: ps[1..][i] == ps[i + 1];
      FoldConcat(set_, SentIn(ps[0]), Sent(ps[1..]));
      if ps[0].Looked? {
        RoundClean(first, last, ps[0]);
        FoldProper(set_, ps[0].sent);
        PassesProper(false, Indexed(ps[0].entries), Fold(set_, ps[0].sent), ps[1..]);
      } else {
        PassesProper(first, last, set_, ps[1..]);
      }
    }
  }

  lemma LastApart(es: seq<ServiceEntry>, e: ServiceEntry)
    requires NulFree(es) && Distinct(es) && es != [] && e in es[..|es| - 1]
    ensures EntryKey(es[|es| - 1]) != EntryKey(e)
  {
    var i :| 0 <= i < |es| - 1 && es[i] == e;
    assert es[i] in es && es[|es| - 1] in es;
    EntryKeyIdentifies(es[|es| - 1], es[i]);
  }

  /** In a list without repeated identities, as merges are, every entry is indexed. */
  lemma {:induction false} IndexedHolds(es: seq<ServiceEntry>, e: ServiceEntry)
    requires NulFree(es) && Distinct(es) && e in es
    ensures EntryKey(e) in Indexed(es) && Indexed(es)[EntryKey(e)] == e
    decreases |es|
  {
    var n := |es| - 1;
    assert es == es[..n] + [es[n]];
    assert forall x | x in es[..n] :: x in es;
    if e in es[..n] {
      IndexedHolds(es[..n], e);
      LastApart(es, e);
    }
  }

  predicate Distinct(es: seq<ServiceEntry>) {
    forall i, j | 0 <= i < j < |es| :: es[i].Id() != es[j].Id()
  }

  /** `x` is the instance `e`, agreeing on address, port, generation and health. */
  predicate SameInstance(x: ServiceEntry, e: ServiceEntry) {
    && x.Id() == e.Id()
    && x.service.address == e.service.address && x.service.port == e.service.port
    && x.service.generation == e.service.generation && x.health == e.health
  }

  /** The set holds the instances of `es` and no others, each once. */
  ghost predicate HoldsExactly(set_: Instances, es: seq<ServiceEntry>) {
    && (forall e | e in es :: exists k | k in set_ :: SameInstance(set_[k], e))
    && (forall k | k in set_ :: exists e | e in es :: SameInstance(set_[k], e))
    && (forall j, k | j in set_ && k in set_ && set_[j].Id() == set_[k].Id() :: j == k)
  }

  /** Delta stream round trip by identity: with NUL-free node ids, the SDK's set holds, once
      each, exactly the instances of the last merged answer. */
  lemma RoundTripByIdentity(ps: seq<Pass>)
    requires Passes(true, map[], ps) && AllNulFree(ps) && Distinct(LastEntries([], ps))
    ensures HoldsExactly(Fold(map[], Sent(ps)), LastEntries([], ps))
  {
    var set_, es := Fold(map[], Sent(ps)), LastEntries([], ps);
    DeltaRoundTrip(ps);
    PassesProper(true, map[], map[], ps);
    SnapshotOfEntries([], ps);
    LastNulFree([], ps);
    IndexedProper(es);
    InstancesAgree(set_, es);
  }

  lemma {:induction false} LastNulFree(es: seq<ServiceEntry>, ps: seq<Pass>)
    requires NulFree(es) && AllNulFree(ps)
    ensures NulFree(LastEntries(es, ps))
    decreases |ps|
  {
    if ps != [] {
      assert forall i | 0 <= i < |ps[1..]| :: ps[1..][i] == ps[i + 1];
      LastNulFree(if ps[0].Looked? then ps[0].entries else es, ps[1..]);
    }
  }

  lemma InstancesAgree(set_: Instances, es: seq<ServiceEntry>)
    requires Proper(set_) && NulFree(es) && Distinct(es) && InStep(set_, Indexed(es))
    requires Proper(Indexed(es)) && forall k | k in Indexed(es) :: Indexed(es)[k] in es
    ensures HoldsExactly(set_, es)
  {
    forall e | e in es
      ensures exists k | k in set_ :: SameInstance(set_[k], e)
    {
      IndexedHolds(es, e);
      EntryKeyIdentifies(set_[EntryKey(e)], e);
    }
    forall k | k in set_
      ensures exists e | e in es :: SameInstance(set_[k], e)
    {
      EntryKeyIdentifies(set_[k], Indexed(es)[k]);
    }
  }

  // ---- full equality ----

  /** No instance changed only in fields the delta does not compare (tags, meta, weights,
      maintenance, lease times). */
  ghost predicate NothingHidden(last: Instances, cur: Instances) {
    forall k | k in last && k in cur
               && last[k].service.address == cur[k].service.address && last[k].service.port == cur[k].service.port
               && last[k].service.generation == cur[k].service.generation && last[k].health == cur[k].health ::
      last[k] == cur[k]
  }

  /** One pass keeps a fully equal reader fully equal exactly when nothing is hidden. */
  lemma PassEqualIff(last: Instances, cur: Instances, ms: seq<Msg>)
    requires OwnKeys(last) && OwnKeys(cur) && Delta(last, cur, ms)
    ensures Fold(last, ms) == cur <==> NothingHidden(last, cur)
  {
    var r := Fold(last, ms);
    forall k
      ensures k in r <==> k in cur
      ensures k in cur ==> k in r && r[k] == if NeedsPut(last, cur, k) then cur[k] else last[k]
    {
      FoldDelta(last, cur, ms, k);
      if NeedsPut(last, cur, k) {
        assert Event(ChangePut, cur[k]) in ms;
      }
      if k in last && k !in cur {
        assert Event(ChangeDelete, last[k]) in ms;
      }
    }
  }

  /** No pass after the first hides a change. */
  ghost predicate NoneHidden(first: bool, last: Instances, ps: seq<Pass>)
    decreases |ps|
  {
    ps == [] ||
    match ps[0]
    case Skipped => NoneHidden(first, last, ps[1..])
    case Looked(es, _) => (first || NothingHidden(last, Indexed(es))) && NoneHidden(false, Indexed(es), ps[1..])
  }

  /** A reader that started with `set_` equals the snapshot in every field after `n` passes. */
  ghost predicate EqualAfter(set_: Instances, last: Instances, ps: seq<Pass>, n: nat)
    requires n <= |ps|
  {
    Fold(set_, Sent(ps[..n])) == LastSnapshot(last, ps[..n])
  }

  ghost predicate AlwaysEqual(set_: Instances, last: Instances, ps: seq<Pass>) {
    forall n | 0 <= n <= |ps| :: EqualAfter(set_, last, ps, n)
  }

  lemma EqualNext(set_: Instances, last: Instances, ps: seq<Pass>, n: nat)
    requires 1 <= n <= |ps|
    ensures EqualAfter(set_, last, ps, n) <==>
            EqualAfter(Fold(set_, SentIn(ps[0])), SnapshotOf(last, ps[0]), ps[1..], n - 1)
  {
    assert ps[..n][0] == ps[0] && ps[..n][1..] == ps[1..][..n - 1];
    FoldConcat(set_, SentIn(ps[0]), Sent(ps[1..][..n - 1]));
  }

  lemma AlwaysEqualNext(set_: Instances, last: Instances, ps: seq<Pass>)
    requires ps != [] && set_ == last
    ensures AlwaysEqual(set_, last, ps) <==>
            AlwaysEqual(Fold(set_, SentIn(ps[0])), SnapshotOf(last, ps[0]), ps[1..])
  {
    var next, snap := Fold(set_, SentIn(ps[0])), SnapshotOf(last, ps[0]);
    if AlwaysEqual(set_, last, ps) {
      forall n | 0 <= n <= |ps[1..]|
        ensures EqualAfter(next, snap, ps[1..], n)
      {
        assert EqualAfter(set_, last, ps, n + 1);
        EqualNext(set_, last, ps, n + 1);
      }
    }
    if AlwaysEqual(next, snap, ps[1..]) {
      forall n | 0 <= n <= |ps|
        ensures EqualAfter(set_, last, ps, n)
      {
        if n > 0 {
          assert EqualAfter(next, snap, ps[1..], n - 1);
          EqualNext(set_, last, ps, n);
        }
      }
    }
  }

  lemma {:induction false} AlwaysEqualIff(first: bool, last: Instances, ps: seq<Pass>)
    requires Passes(first, last, ps) && OwnKeys(last) && (first ==> last == map[])
    ensures AlwaysEqual(last, last, ps) <==> NoneHidden(first, last, ps)
    decreases |ps|
  {
    if ps == [] {
      assert ps[..0] == [];
    } else {
      var next, snap := Fold(last, SentIn(ps[0])), SnapshotOf(last, ps[0]);
      AlwaysEqualNext(last, last, ps);
      if ps[0].Skipped? {
        AlwaysEqualIff(first, last, ps[1..]);
      } else {
        FirstPass(first, last, ps[0]);
        if next == snap {
          AlwaysEqualIff(false, snap, ps[1..]);
        } else {
          assert ps[1..][..0] == [];
          assert !EqualAfter(next, snap, ps[1..], 0);
        }
      }
    }
  }

  lemma FirstPass(first: bool, last: Instances, p: Pass)
    requires p.Looked? && OwnKeys(last) && (first ==> last == map[]) && Round(first, last, p.entries, p.sent)
    ensures OwnKeys(Indexed(p.entries))
    ensures Fold(last, p.sent) == Indexed(p.entries) <==> first || NothingHidden(last, Indexed(p.entries))
  {
    IndexedKeys(p.entries);
    if first {
      FoldPuts(p.entries);
      FoldSnoc(map[], Puts(p.entries), SnapshotDone);
    } else {
      PassEqualIff(last, Indexed(p.entries), p.sent);
    }
  }

  /** The SDK's set equals the merged snapshot in every field after every pass exactly when no
      later pass changes an instance only in fields the delta does not compare. */
  lemma FullyEqualIff(ps: seq<Pass>)
    requires Passes(true, map[], ps)
    ensures AlwaysEqual(map[], map[], ps) <==> NoneHidden(true, map[], ps)
  {
    AlwaysEqualIff(true, map[], ps);
  }

  /** A maintenance toggle alone needs no message, so after the second of these two passes the
      reader keeps the old flag. */
  lemma MaintenanceNotSent(e: ServiceEntry)
    ensures var ps := [Looked([e], Puts([e]) + [SnapshotDone]), Looked([e.(maintenance := !e.maintenance)], [])];
            Passes(true, map[], ps) && !EqualAfter(map[], map[], ps, 2)
  {
    var toggled := e.(maintenance := !e.maintenance);
    var p1, p2 := Looked([e], Puts([e]) + [SnapshotDone]), Looked([toggled], []);
    var ps := [p1, p2];
    assert [e][..0] == [] && [toggled][..0] == [];
    assert Indexed([e]) == map[EntryKey(e) := e] && Indexed([toggled]) == map[EntryKey(e) := toggled];
    assert ps[1..] == [p2] && [p2][1..] == [];
    assert Passes(false, Indexed([toggled]), []);
    assert Passes(false, Indexed([e]), [p2]);
    var a, b := Indexed([e]), Indexed([toggled]);
    assert EntryKey(e) in a && EntryKey(e) in b && a[EntryKey(e)] != b[EntryKey(e)];
    assert !NothingHidden(a, b);
    TwoPasses(p1, p2);
  }

  lemma TwoPasses(p1: Pass, p2: Pass)
    requires p1.Looked? && p2.Looked? && Passes(true, map[], [p1, p2])
    requires !NothingHidden(Indexed(p1.entries), Indexed(p2.entries))
    ensures !EqualAfter(map[], map[], [p1, p2], 2)
  {
    var ps := [p1, p2];
    assert ps[1..] == [p2] && [p2][1..] == [] && [p2][..0] == [];
    FirstPass(true, map[], p1);
    FirstPass(false, Indexed(p1.entries), p2);
    EqualNext(map[], map[], ps, 2);
    EqualNext(Indexed(p1.entries), Indexed(p1.entries), [p2], 1);
  }

}
