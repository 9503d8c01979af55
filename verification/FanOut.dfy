/** The agent's fan-out to the seeds (internal/seedclient/client.go). Callbacks run
    concurrently but update their accumulators under a mutex, so a fan-out is the sequence
    of its replies in arrival order. */
module FanOut {
  import opened Model
  import opened Health

  // ---- reads ----

  datatype Reply = Failed | Answered(result: LookupResult)

  function EntriesOf(r: Reply): seq<ServiceEntry> {
    if r.Answered? then r.result.entries else []
  }

  /** All answered entries, in arrival order. */
  function Pooled(rs: seq<Reply>): seq<ServiceEntry>
    decreases |rs|
  {
    if rs == [] then [] else Pooled(rs[..|rs| - 1]) + EntriesOf(rs[|rs| - 1])
  }

  predicate AnyAnswer(rs: seq<Reply>) {
    exists r | r in rs :: r.Answered?
  }

  /** The highest index among the answers, 0 if there is none. */
  function TopIndex(rs: seq<Reply>): nat
    decreases |rs|
  {
    if rs == [] then 0
    else
      var top := TopIndex(rs[..|rs| - 1]);
      var r := rs[|rs| - 1];
      if r.Answered? && r.result.index > top then r.result.index else top
  }

  /** The merged answer, or nothing when every seed failed. */
  ghost function Outcome(rs: seq<Reply>): Option<LookupResult> {
    if AnyAnswer(rs) then Some(LookupResult(Merged(Pooled(rs)), TopIndex(rs))) else None
  }

  method Lookup(rs: seq<Reply>) returns (res: Option<LookupResult>)
    ensures res == Outcome(rs)
  {
    var all: seq<ServiceEntry> := [];
    var maxIndex: nat, okCount: nat := 0, 0;
    for i := 0 to |rs|
      invariant all == Pooled(rs[..i]) && maxIndex == TopIndex(rs[..i])
      invariant okCount > 0 <==> AnyAnswer(rs[..i])
    {
      assert rs[..i + 1] == rs[..i] + [rs[i]];
      assert rs[..i + 1][..i] == rs[..i];
      if rs[i].Answered? {
        assert rs[i] in rs[..i + 1];
        okCount := okCount + 1;
        all := all + rs[i].result.entries;
        if rs[i].result.index > maxIndex {
          maxIndex := rs[i].result.index;
        }
      }
    }
    assert rs[..|rs|] == rs;
    if okCount == 0 {
      return None;
    }
    var merged := MergeLWW(all);
    res := Some(LookupResult(merged, maxIndex));
  }

  lemma {:induction false} PooledConcat(a: seq<Reply>, b: seq<Reply>)
    ensures Pooled(a + b) == Pooled(a) + Pooled(b)
    decreases |b|
  {
    if b == [] {
      assert a + b == a;
    } else {
      assert (a + b)[..|a + b| - 1] == a + b[..|b| - 1];
      PooledConcat(a, b[..|b| - 1]);
    }
  }

  lemma {:induction false} TopConcat(a: seq<Reply>, b: seq<Reply>)
    ensures TopIndex(a + b) == if TopIndex(a) >= TopIndex(b) then TopIndex(a) else TopIndex(b)
    decreases |b|
  {
    if b == [] {
      assert a + b == a;
    } else {
      assert (a + b)[..|a + b| - 1] == a + b[..|b| - 1];
      TopConcat(a, b[..|b| - 1]);
    }
  }

  /** Taking one reply out of the middle takes its entries and its index out. */
  lemma PooledWithout(a: seq<Reply>, r: Reply, b: seq<Reply>)
    ensures multiset(Pooled(a + [r] + b)) == multiset(Pooled(a + b)) + multiset(EntriesOf(r))
  {
    PooledConcat(a + [r], b);
    PooledConcat(a, [r]);
    PooledConcat(a, b);
    assert Pooled([r]) == [] + EntriesOf(r) == EntriesOf(r);
  }

  lemma TopWithout(a: seq<Reply>, r: Reply, b: seq<Reply>)
    ensures TopIndex(a + [r] + b) == if TopIndex(a + b) >= TopIndex([r]) then TopIndex(a + b) else TopIndex([r])
  {
    TopConcat(a + [r], b);
    TopConcat(a, [r]);
    TopConcat(a, b);
  }

  /** Some reply can be taken out of `ys` so that what remains rearranges `xs`. */
  lemma TakeOut(xs: seq<Reply>, r: Reply, ys: seq<Reply>) returns (a: seq<Reply>, b: seq<Reply>)
    requires multiset(xs + [r]) == multiset(ys)
    ensures ys == a + [r] + b && multiset(xs) == multiset(a + b)
  {
    assert r in multiset(xs + [r]);
    var i :| 0 <= i < |ys| && ys[i] == r;
    a, b := ys[..i], ys[i + 1..];
    assert ys == a + [r] + b;
    assert multiset(xs) == multiset(xs + [r]) - multiset{r};
    assert multiset(a + b) == multiset(ys) - multiset{r};
  }

  lemma {:induction false} PooledRearranged(xs: seq<Reply>, ys: seq<Reply>)
    requires multiset(xs) == multiset(ys)
    ensures Rearranges(Pooled(xs), Pooled(ys)) && TopIndex(xs) == TopIndex(ys)
    decreases |xs|
  {
    if xs == [] {
      assert |multiset(ys)| == 0;
    } else {
      var r, xs' := xs[|xs| - 1], xs[..|xs| - 1];
      assert xs == xs' + [r];
      var a, b := TakeOut(xs', r, ys);
      PooledRearranged(xs', a + b);
      PooledWithout(a, r, b);
      PooledWithout(xs', r, []);
      TopWithout(a, r, b);
      TopWithout(xs', r, []);
      assert xs' + [r] + [] == xs && xs' + [] == xs';
    }
  }

  lemma SameAnswers(xs: seq<Reply>, ys: seq<Reply>)
    requires multiset(xs) == multiset(ys)
    ensures AnyAnswer(xs) <==> AnyAnswer(ys)
  {
    forall r
      ensures r in xs <==> r in ys
    {
      assert r in xs <==> r in multiset(xs);
      assert r in ys <==> r in multiset(ys);
    }
  }

  /** A fan-out read does not depend on the order in which the seeds reply, provided no
      instance is reported with two different entries at its highest version. */
  lemma ReplyOrderIrrelevant(xs: seq<Reply>, ys: seq<Reply>)
    requires multiset(xs) == multiset(ys) && Untied(Pooled(xs))
    ensures Outcome(xs) == Outcome(ys)
  {
    PooledRearranged(xs, ys);
    SameAnswers(xs, ys);
    UntiedOrderFree(Pooled(xs), Pooled(ys));
  }

  lemma {:induction false} PooledHolds(rs: seq<Reply>, r: Reply, e: ServiceEntry)
    requires r in rs && e in EntriesOf(r)
    ensures e in Pooled(rs)
    decreases |rs|
  {
    if rs[|rs| - 1] != r {
      assert rs == rs[..|rs| - 1] + [rs[|rs| - 1]];
      PooledHolds(rs[..|rs| - 1], r, e);
    }
  }

  /** Anything some seed answered is in the merged result at that version or a later one. */
  lemma AnsweredSurvives(rs: seq<Reply>, r: Reply, e: ServiceEntry)
    requires r in rs && r.Answered? && e in r.result.entries
    ensures Outcome(rs).Some?
    ensures Covers(Outcome(rs).value.entries, e)
  {
    assert AnyAnswer(rs);
    PooledHolds(rs, r, e);
    MergedKeepsVersion(Pooled(rs), e);
  }

  lemma {:induction false} TopIndexIsMax(rs: seq<Reply>)
    ensures forall r | r in rs && r.Answered? :: r.result.index <= TopIndex(rs)
    ensures TopIndex(rs) == 0 || exists r | r in rs :: r.Answered? && r.result.index == TopIndex(rs)
    decreases |rs|
  {
    if rs != [] {
      assert rs == rs[..|rs| - 1] + [rs[|rs| - 1]];
      TopIndexIsMax(rs[..|rs| - 1]);
    }
  }

  lemma {:induction false} PooledFrom(rs: seq<Reply>, e: ServiceEntry)
    requires e in Pooled(rs)
    ensures exists r | r in rs :: r.Answered? && e in r.result.entries
    decreases |rs|
  {
    if e in Pooled(rs[..|rs| - 1]) {
      PooledFrom(rs[..|rs| - 1], e);
      var r :| r in rs[..|rs| - 1] && r.Answered? && e in r.result.entries;
      assert r in rs;
    } else {
      assert rs[|rs| - 1] in rs;
    }
  }

  /** A read fails exactly when no seed answered. Otherwise its index is the highest answered,
      and every entry of it was answered by some seed. */
  lemma OutcomeMeaning(rs: seq<Reply>)
    ensures Outcome(rs).None? <==> forall r | r in rs :: r.Failed?
    ensures Outcome(rs).Some? ==>
              && (forall r | r in rs && r.Answered? :: r.result.index <= Outcome(rs).value.index)
              && (Outcome(rs).value.index == 0
                  || exists r | r in rs :: r.Answered? && r.result.index == Outcome(rs).value.index)
              && (forall w | w in Outcome(rs).value.entries ::
                    exists r | r in rs :: r.Answered? && w in r.result.entries)
  {
    TopIndexIsMax(rs);
    if Outcome(rs).Some? {
      forall w | w in Merged(Pooled(rs))
        ensures exists r | r in rs :: r.Answered? && w in r.result.entries
      {
        MergedFrom(Pooled(rs), w);
        PooledFrom(rs, w);
      }
    }
  }

  lemma MergedFrom(es: seq<ServiceEntry>, w: ServiceEntry)
    requires w in Merged(es)
    ensures w in es
  {
    BestPresent(es, w.Id());
  }

  // ---- writes ----

  /** The seeds whose write was accepted. */
  function Accepted(outcomes: seq<bool>): set<int> {
    set i | 0 <= i < |outcomes| && outcomes[i]
  }

  /** The write fan-out counts the accepting seeds. */
  method Write(outcomes: seq<bool>) returns (succeeded: nat)
    ensures succeeded == |Accepted(outcomes)| == multiset(outcomes)[true]
  {
    succeeded := 0;
    for i := 0 to |outcomes|
      invariant succeeded == |set j | 0 <= j < i && outcomes[j]| == multiset(outcomes[..i])[true]
    {
      assert outcomes[..i + 1] == outcomes[..i] + [outcomes[i]];
      ghost var before := set j | 0 <= j < i && outcomes[j];
      ghost var after := set j | 0 <= j < i + 1 && outcomes[j];
      if outcomes[i] {
        assert after == before + {i};
        succeeded := succeeded + 1;
      } else {
        assert after == before;
      }
    }
    assert outcomes[..|outcomes|] == outcomes;
  }
}
