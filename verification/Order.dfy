/** The order in which lookups list instances: by node id, then service id, each compared
    lexicographically; and the enumeration of a keyed collection in that order. */
module Order {
  import opened Model

  predicate Less(a: string, b: string) {
    if b == [] then false
    else if a == [] then true
    else a[0] < b[0] || (a[0] == b[0] && Less(a[1..], b[1..]))
  }

  lemma {:induction false} LessIrreflexive(a: string)
    ensures !Less(a, a)
  {
    if a != [] {
      LessIrreflexive(a[1..]);
    }
  }

  lemma {:induction false} LessTransitive(a: string, b: string, c: string)
    requires Less(a, b) && Less(b, c)
    ensures Less(a, c)
  {
    if a != [] && a[0] == b[0] && b[0] == c[0] {
      LessTransitive(a[1..], b[1..], c[1..]);
    }
  }

  lemma {:induction false} LessTotal(a: string, b: string)
    ensures a == b || Less(a, b) || Less(b, a)
  {
    if a != [] && b != [] && a[0] == b[0] {
      LessTotal(a[1..], b[1..]);
      assert a == [a[0]] + a[1..] && b == [b[0]] + b[1..];
    }
  }

  /** `a` comes first where the two first differ, or is a proper beginning of `b`. */
  predicate Precedes(a: string, b: string) {
    exists i | 0 <= i <= |a| && i < |b| :: a[..i] == b[..i] && (i == |a| || a[i] < b[i])
  }

  lemma {:induction false} LessPrecedes(a: string, b: string)
    ensures Less(a, b) <==> Precedes(a, b)
    decreases |a|
  {
    if b != [] {
      if a == [] {
        assert a[..0] == b[..0];
      } else {
        LessPrecedes(a[1..], b[1..]);
        if a[0] < b[0] {
          assert a[..0] == b[..0];
        }
        if a[0] == b[0] && Precedes(a[1..], b[1..]) {
          var i :| 0 <= i <= |a[1..]| && i < |b[1..]| && a[1..][..i] == b[1..][..i]
                   && (i == |a[1..]| || a[1..][i] < b[1..][i]);
          assert a[..i + 1] == [a[0]] + a[1..][..i] && b[..i + 1] == [b[0]] + b[1..][..i];
        }
        if Precedes(a, b) {
          var i :| 0 <= i <= |a| && i < |b| && a[..i] == b[..i] && (i == |a| || a[i] < b[i]);
          if i > 0 {
            assert a[..i][0] == a[0] && b[..i][0] == b[0];
            assert a[1..][..i - 1] == a[..i][1..] && b[1..][..i - 1] == b[..i][1..];
          }
        }
      }
    }
  }

  predicate Before(a: Key, b: Key) {
    if a.node != b.node then Less(a.node, b.node) else Less(a.service, b.service)
  }

  lemma BeforeTransitive(a: Key, b: Key, c: Key)
    requires Before(a, b) && Before(b, c)
    ensures Before(a, c) && a != c
  {
    if a.node == b.node == c.node {
      LessTransitive(a.service, b.service, c.service);
      LessIrreflexive(a.service);
    } else if a.node != b.node && b.node != c.node {
      LessTransitive(a.node, b.node, c.node);
      LessIrreflexive(a.node);
    } else {
      LessIrreflexive(a.node);
    }
  }

  lemma BeforeTotal(a: Key, b: Key)
    ensures a == b || Before(a, b) || Before(b, a)
    ensures !Before(a, a)
    ensures !(Before(a, b) && Before(b, a))
  {
    LessTotal(a.node, b.node);
    LessTotal(a.service, b.service);
    LessIrreflexive(a.service);
    if Before(a, b) && Before(b, a) {
      BeforeTransitive(a, b, a);
    }
  }

  predicate Ascending(ks: seq<Key>) {
    forall i, j | 0 <= i < j < |ks| :: Before(ks[i], ks[j])
  }

  /** `ks` lists exactly the keys of `s`, in order. */
  ghost predicate Lists(ks: seq<Key>, s: set<Key>) {
    && Ascending(ks)
    && forall k :: k in ks <==> k in s
  }

  ghost predicate IsLeast(k: Key, s: set<Key>) {
    k in s && forall j | j in s && j != k :: Before(k, j)
  }

  ghost function Least(s: set<Key>): (k: Key)
    requires s != {}
    ensures IsLeast(k, s)
  {
    var x :| x in s;
    if s == {x} then x
    else
      var y := Least(s - {x});
      LeastOfTwo(s, x, y);
      if Before(x, y) then x else y
  }

  lemma LeastOfTwo(s: set<Key>, x: Key, y: Key)
    requires x in s && IsLeast(y, s - {x})
    ensures IsLeast(if Before(x, y) then x else y, s)
  {
    BeforeTotal(x, y);
    if Before(x, y) {
      forall j | j in s && j != x
        ensures Before(x, j)
      {
        if j != y {
          BeforeTransitive(x, y, j);
        }
      }
    }
  }

  ghost function SortedKeys(s: set<Key>): (ks: seq<Key>)
    ensures Lists(ks, s)
    ensures |ks| == |s|
  {
    if s == {} then [] else [Least(s)] + SortedKeys(s - {Least(s)})
  }

  /** There is only one way to list a set of keys in order. */
  lemma {:induction false} ListingUnique(a: seq<Key>, b: seq<Key>, s: set<Key>)
    requires Lists(a, s) && Lists(b, s)
    ensures a == b
  {
    if a != [] {
      assert a[0] in b;
    }
    if b != [] {
      assert b[0] in a;
    }
    if a != [] && b != [] {
      var i :| 0 <= i < |a| && a[i] == b[0];
      var j :| 0 <= j < |b| && b[j] == a[0];
      BeforeTotal(a[0], b[0]);
      assert a[0] == b[0];
      TailLists(a, s);
      TailLists(b, s);
      ListingUnique(a[1..], b[1..], s - {a[0]});
      assert a == [a[0]] + a[1..] && b == [b[0]] + b[1..];
    }
  }

  lemma TailLists(a: seq<Key>, s: set<Key>)
    requires Lists(a, s) && a != []
    ensures Lists(a[1..], s - {a[0]})
  {
    forall k
      ensures k in a[1..] <==> k in s - {a[0]}
    {
      BeforeTotal(a[0], a[0]);
      assert a == [a[0]] + a[1..];
      assert forall i | 1 <= i < |a| :: Before(a[0], a[i]) && a[1..][i - 1] == a[i];
    }
  }

  function Keys(es: seq<ServiceEntry>): (ks: seq<Key>)
    ensures |ks| == |es|
  {
    seq(|es|, i requires 0 <= i < |es| => es[i].Id())
  }

  /** The entries of `m`, keyed by their own identity, in listing order. */
  ghost predicate Keyed(m: map<Key, ServiceEntry>) {
    forall k | k in m :: m[k].Id() == k
  }

  ghost function Listing(m: map<Key, ServiceEntry>): (es: seq<ServiceEntry>)
    requires Keyed(m)
    ensures Keys(es) == SortedKeys(m.Keys)
    ensures |es| == |m|
    ensures forall e: ServiceEntry :: e in es <==> e.Id() in m && m[e.Id()] == e
  {
    var ks := SortedKeys(m.Keys);
    ListingElements(m, ks);
    At(m, ks)
  }

  function At(m: map<Key, ServiceEntry>, ks: seq<Key>): (es: seq<ServiceEntry>)
    requires forall k | k in ks :: k in m
  {
    seq(|ks|, i requires 0 <= i < |ks| => m[ks[i]])
  }

  lemma ListingElements(m: map<Key, ServiceEntry>, ks: seq<Key>)
    requires Keyed(m) && Lists(ks, m.Keys)
    ensures Keys(At(m, ks)) == ks
    ensures forall e: ServiceEntry :: e in At(m, ks) <==> e.Id() in m && m[e.Id()] == e
  {
    var es := At(m, ks);
    assert forall i | 0 <= i < |ks| :: ks[i] in ks && es[i] == m[ks[i]];
    forall e: ServiceEntry | e.Id() in m && m[e.Id()] == e
      ensures e in es
    {
      var i :| 0 <= i < |ks| && ks[i] == e.Id();
      assert es[i] == e;
    }
  }

  /** `es` holds exactly the entries of `m`. */
  ghost predicate Holds(es: seq<ServiceEntry>, m: map<Key, ServiceEntry>) {
    forall e: ServiceEntry :: e in es <==> e.Id() in m && m[e.Id()] == e
  }

  /** A key-ordered sequence holding exactly the entries of `m` is its listing. */
  lemma ListingIs(m: map<Key, ServiceEntry>, es: seq<ServiceEntry>)
    requires Keyed(m)
    requires Ascending(Keys(es))
    requires Holds(es, m)
    ensures es == Listing(m)
  {
    KeysListed(m, es);
    ListingUnique(Keys(es), SortedKeys(m.Keys), m.Keys);
    SameKeysSame(m, es, Listing(m));
  }

  lemma KeysListed(m: map<Key, ServiceEntry>, es: seq<ServiceEntry>)
    requires Keyed(m) && Holds(es, m)
    ensures forall k :: k in Keys(es) <==> k in m.Keys
  {
    forall k
      ensures k in Keys(es) <==> k in m.Keys
    {
      if k in m {
        assert m[k] in es;
        var i :| 0 <= i < |es| && es[i] == m[k];
        assert Keys(es)[i] == k;
      }
      assert forall i | 0 <= i < |es| :: es[i] in es && Keys(es)[i] == es[i].Id();
    }
  }

  lemma SameKeysSame(m: map<Key, ServiceEntry>, xs: seq<ServiceEntry>, ys: seq<ServiceEntry>)
    requires Holds(xs, m) && Holds(ys, m) && Keys(xs) == Keys(ys)
    ensures xs == ys
  {
    assert |Keys(xs)| == |xs| == |ys|;
    forall i | 0 <= i < |xs|
      ensures xs[i] == ys[i]
    {
      assert xs[i] in xs && ys[i] in ys;
      assert Keys(xs)[i] == xs[i].Id() && Keys(ys)[i] == ys[i].Id();
    }
  }

  lemma ListedIn(a: map<Key, ServiceEntry>, b: map<Key, ServiceEntry>, k: Key)
    requires Keyed(a) && Keyed(b) && Listing(a) == Listing(b) && k in a
    ensures k in b && b[k] == a[k]
  {
    assert a[k] in Listing(a);
  }

  lemma ListingInjective(a: map<Key, ServiceEntry>, b: map<Key, ServiceEntry>)
    requires Keyed(a) && Keyed(b)
    requires Listing(a) == Listing(b)
    ensures a == b
  {
    ListedWithin(a, b);
    ListedWithin(b, a);
    WithinBoth(a, b);
  }

  ghost predicate Within(a: map<Key, ServiceEntry>, b: map<Key, ServiceEntry>) {
    forall k | k in a :: k in b && b[k] == a[k]
  }

  lemma ListedWithin(a: map<Key, ServiceEntry>, b: map<Key, ServiceEntry>)
    requires Keyed(a) && Keyed(b) && Listing(a) == Listing(b)
    ensures Within(a, b)
  {
    forall k | k in a
      ensures k in b && b[k] == a[k]
    {
      ListedIn(a, b, k);
    }
  }

  lemma WithinBoth(a: map<Key, ServiceEntry>, b: map<Key, ServiceEntry>)
    requires Within(a, b) && Within(b, a)
    ensures a == b
  {
    assert forall k :: k in a <==> k in b;
  }

  /** Orders `es` by key; the entries are kept, with their multiplicity. Equal keys never
      occur in the callers' inputs, so any sort gives the same answer there. */
  method SortEntries(es: seq<ServiceEntry>) returns (sorted: seq<ServiceEntry>)
    ensures multiset(sorted) == multiset(es)
    ensures forall i, j | 0 <= i < j < |sorted| :: !Before(sorted[j].Id(), sorted[i].Id())
  {
    sorted := [];
    for n := 0 to |es|
      invariant multiset(sorted) == multiset(es[..n])
      invariant InOrder(sorted)
    {
      sorted := InsertEntry(sorted, es[n]);
      assert es[..n + 1] == es[..n] + [es[n]];
    }
    assert es[..|es|] == es;
  }

  predicate InOrder(es: seq<ServiceEntry>) {
    forall i, j | 0 <= i < j < |es| :: !Before(es[j].Id(), es[i].Id())
  }

  method InsertEntry(es: seq<ServiceEntry>, e: ServiceEntry) returns (r: seq<ServiceEntry>)
    requires InOrder(es)
    ensures InOrder(r)
    ensures multiset(r) == multiset(es) + multiset{e}
  {
    var p := |es|;
    while p > 0 && Before(e.Id(), es[p - 1].Id())
      invariant 0 <= p <= |es|
      invariant forall i | p <= i < |es| :: Before(e.Id(), es[i].Id())
    {
      p := p - 1;
    }
    r := es[..p] + [e] + es[p..];
    InsertedInOrder(es, e, p);
    InsertedOnce(es, e, p);
  }

  lemma InsertedOnce(es: seq<ServiceEntry>, e: ServiceEntry, p: nat)
    requires p <= |es|
    ensures multiset(es[..p] + [e] + es[p..]) == multiset(es) + multiset{e}
  {
    var l, r := es[..p], es[p..];
    assert es == l + r;
    assert multiset(l + [e] + r) == multiset(l) + multiset{e} + multiset(r);
  }

  lemma InsertedInOrder(es: seq<ServiceEntry>, e: ServiceEntry, p: nat)
    requires InOrder(es) && p <= |es|
    requires forall x | p <= x < |es| :: Before(e.Id(), es[x].Id())
    requires p > 0 ==> !Before(e.Id(), es[p - 1].Id())
    ensures InOrder(es[..p] + [e] + es[p..])
  {
    var r := es[..p] + [e] + es[p..];
    forall i, j | 0 <= i < j < |r|
      ensures !Before(r[j].Id(), r[i].Id())
    {
      InsertOrder(es, e, p, i, j);
    }
  }

  lemma InsertOrder(es: seq<ServiceEntry>, e: ServiceEntry, p: nat, i: nat, j: nat)
    requires InOrder(es) && p <= |es| && i < j <= |es|
    requires forall x | p <= x < |es| :: Before(e.Id(), es[x].Id())
    requires p > 0 ==> !Before(e.Id(), es[p - 1].Id())
    ensures var r := es[..p] + [e] + es[p..]; !Before(r[j].Id(), r[i].Id())
  {
    var r := es[..p] + [e] + es[p..];
    if j < p {
      assert r[i] == es[i] && r[j] == es[j];
    } else if j == p {
      assert r[j] == e && r[i] == es[i];
      if Before(e.Id(), es[i].Id()) && i < p - 1 {
        BeforeTotal(es[i].Id(), es[p - 1].Id());
        BeforeTotal(e.Id(), es[p - 1].Id());
        if es[i].Id() != es[p - 1].Id() {
          BeforeTransitive(e.Id(), es[i].Id(), es[p - 1].Id());
        }
      }
    } else if i == p {
      assert r[i] == e && r[j] == es[j - 1];
      BeforeTotal(e.Id(), es[j - 1].Id());
    } else if i < p {
      assert r[i] == es[i] && r[j] == es[j - 1];
    } else {
      assert r[i] == es[i - 1] && r[j] == es[j - 1];
    }
  }

  /** Sorting the values of a keyed map, each present once, gives its listing. */
  lemma SortedListing(m: map<Key, ServiceEntry>, sorted: seq<ServiceEntry>)
    requires Keyed(m) && InOrder(sorted)
    requires forall e: ServiceEntry :: multiset(sorted)[e] == if e.Id() in m && m[e.Id()] == e then 1 else 0
    ensures sorted == Listing(m)
  {
    forall e: ServiceEntry
      ensures e in sorted <==> e.Id() in m && m[e.Id()] == e
    {
      assert e in sorted <==> e in multiset(sorted);
    }
    forall i, j | 0 <= i < j < |sorted|
      ensures Before(sorted[i].Id(), sorted[j].Id())
    {
      OnceEach(sorted, i, j);
      assert sorted[i] in sorted && sorted[j] in sorted;
      BeforeTotal(sorted[i].Id(), sorted[j].Id());
    }
    ListingIs(m, sorted);
  }

  lemma OnceEach(es: seq<ServiceEntry>, i: nat, j: nat)
    requires i < j < |es| && multiset(es)[es[j]] <= 1
    ensures es[i] != es[j]
  {
    assert es == es[..j] + [es[j]] + es[j + 1..];
    assert multiset(es[..j])[es[j]] + 1 <= multiset(es)[es[j]];
    assert es[i] in es[..j];
  }
}
