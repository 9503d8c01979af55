/** The fixed-window limiter (internal/ratelimit) over whole request traces. */
module RateLimit {

  const SECOND: int := 1_000_000_000

  /** Counts of the current window and the instant after which it ends. */
  datatype Window = Window(counts: map<string, nat>, resetAt: int)

  /** Go's zero time stands for 0. */
  function Fresh(): Window {
    Window(map[], 0)
  }

  function CountOf(w: Window, key: string): nat {
    if key in w.counts then w.counts[key] else 0
  }

  function Rolled(w: Window, now: int): Window {
    if now > w.resetAt then Window(map[], now + SECOND) else w
  }

  function Counted(w: Window, key: string, now: int): Window {
    var r := Rolled(w, now);
    r.(counts := r.counts[key := CountOf(r, key) + 1])
  }

  predicate Admits(limit: int, w: Window, key: string, now: int) {
    limit <= 0 || CountOf(Counted(w, key, now), key) <= limit
  }

  function Next(limit: int, w: Window, key: string, now: int): Window {
    if limit <= 0 then w else Counted(w, key, now)
  }

  class Limiter {
    const limit: int
    var counts: map<string, nat>
    var resetAt: int

    ghost function View(): Window
      reads this
    {
      Window(counts, resetAt)
    }

    constructor (perSecond: int)
      ensures limit == perSecond && View() == Fresh()
    {
      limit, counts, resetAt := perSecond, map[], 0;
    }

    method Allow(key: string, now: int) returns (ok: bool)
      modifies this
      ensures View() == Next(limit, old(View()), key, now)
      ensures ok <==> Admits(limit, old(View()), key, now)
    {
      if limit <= 0 {
        return true;
      }
      if now > resetAt {
        counts := map[];
        resetAt := now + SECOND;
      }
      counts := counts[key := (if key in counts then counts[key] else 0) + 1];
      ok := counts[key] <= limit;
    }
  }

  // ---- traces ----

  datatype Request = Request(key: string, now: int)

  /** The requests of `key` admitted in the interval [from, till], over a whole trace. */
  function Admitted(limit: int, w: Window, reqs: seq<Request>, key: string, from: int, till: int): nat
    decreases |reqs|
  {
    if reqs == [] then 0
    else
      var r := reqs[0];
      (if r.key == key && from <= r.now <= till && Admits(limit, w, r.key, r.now) then 1 else 0)
      + Admitted(limit, Next(limit, w, r.key, r.now), reqs[1..], key, from, till)
  }

  function Asked(reqs: seq<Request>, key: string): nat
    decreases |reqs|
  {
    if reqs == [] then 0 else (if reqs[0].key == key then 1 else 0) + Asked(reqs[1..], key)
  }

  predicate Ordered(reqs: seq<Request>) {
    forall i, j | 0 <= i < j < |reqs| :: reqs[i].now <= reqs[j].now
  }

  predicate Within(reqs: seq<Request>, from: int, till: int) {
    forall i | 0 <= i < |reqs| :: from <= reqs[i].now <= till
  }

  function Min(a: int, b: int): int {
    if a < b then a else b
  }

  /** What is left of the key's allowance in the current window. */
  function Left(limit: int, w: Window, key: string): nat {
    if CountOf(w, key) >= limit then 0 else limit - CountOf(w, key)
  }

  lemma Tail(reqs: seq<Request>)
    requires reqs != []
    ensures forall i | 0 <= i < |reqs[1..]| :: reqs[1..][i] == reqs[i + 1]
  {
  }

  /** Inside one window a key is admitted exactly until its allowance is used up, whatever
      other keys do. */
  lemma {:induction false} WindowExact(limit: int, w: Window, reqs: seq<Request>, key: string, from: int, till: int)
    requires limit > 0 && Within(reqs, from, till) && till <= w.resetAt
    ensures Admitted(limit, w, reqs, key, from, till) == Min(Asked(reqs, key), Left(limit, w, key))
    decreases |reqs|
  {
    if reqs != [] {
      Tail(reqs);
      WindowExact(limit, Next(limit, w, reqs[0].key, reqs[0].now), reqs[1..], key, from, till);
    }
  }

  /** A window opened by a request at `t` admits, of each key, exactly the first `limit`
      requests made until t + 1s. */
  lemma WindowBound(limit: int, w: Window, reqs: seq<Request>, key: string, t: int)
    requires limit > 0 && t > w.resetAt
    requires reqs != [] && reqs[0].now == t && Within(reqs, t, t + SECOND)
    ensures Admitted(limit, w, reqs, key, t, t + SECOND) == Min(Asked(reqs, key), limit)
  {
    Tail(reqs);
    WindowExact(limit, Next(limit, w, reqs[0].key, t), reqs[1..], key, t, t + SECOND);
  }

  /** Past the interval nothing more is admitted in it. */
  lemma {:induction false} NothingAfter(limit: int, w: Window, reqs: seq<Request>, key: string, from: int, till: int)
    requires forall i | 0 <= i < |reqs| :: reqs[i].now > till
    ensures Admitted(limit, w, reqs, key, from, till) == 0
    decreases |reqs|
  {
    if reqs != [] {
      Tail(reqs);
      NothingAfter(limit, Next(limit, w, reqs[0].key, reqs[0].now), reqs[1..], key, from, till);
    }
  }

  /** Once a window covers the rest of the interval, only its remaining allowance is left. */
  lemma {:induction false} LastWindow(limit: int, w: Window, reqs: seq<Request>, key: string, from: int, till: int)
    requires limit > 0 && Ordered(reqs) && till <= w.resetAt
    ensures Admitted(limit, w, reqs, key, from, till) <= Left(limit, w, key)
    decreases |reqs|
  {
    if reqs != [] {
      Tail(reqs);
      if reqs[0].now > till {
        NothingAfter(limit, w, reqs, key, from, till);
      } else {
        LastWindow(limit, Next(limit, w, reqs[0].key, reqs[0].now), reqs[1..], key, from, till);
      }
    }
  }

  /** An interval of one second meets at most two windows. */
  lemma {:induction false} TwoWindows(limit: int, w: Window, reqs: seq<Request>, key: string, from: int)
    requires limit > 0 && Ordered(reqs) && forall i | 0 <= i < |reqs| :: reqs[i].now >= from
    ensures Admitted(limit, w, reqs, key, from, from + SECOND) <= Left(limit, w, key) + limit
    decreases |reqs|
  {
    if reqs != [] {
      Tail(reqs);
      var w' := Next(limit, w, reqs[0].key, reqs[0].now);
      if reqs[0].now > w.resetAt {
        LastWindow(limit, w', reqs[1..], key, from, from + SECOND);
      } else {
        TwoWindows(limit, w', reqs[1..], key, from);
      }
    }
  }

  /** Rate bound: over any trace under a non-decreasing clock, no key is admitted more than
      twice the limit in any interval of one second. */
  lemma {:induction false} RateBound(limit: int, w: Window, reqs: seq<Request>, key: string, from: int)
    requires limit > 0 && Ordered(reqs)
    ensures Admitted(limit, w, reqs, key, from, from + SECOND) <= 2 * limit
    decreases |reqs|
  {
    if reqs != [] {
      Tail(reqs);
      if reqs[0].now >= from {
        TwoWindows(limit, w, reqs, key, from);
      } else {
        RateBound(limit, Next(limit, w, reqs[0].key, reqs[0].now), reqs[1..], key, from);
      }
    }
  }

  /** The requests of `key` made in the interval. */
  function Made(reqs: seq<Request>, key: string, from: int, till: int): nat
    decreases |reqs|
  {
    if reqs == [] then 0
    else (if reqs[0].key == key && from <= reqs[0].now <= till then 1 else 0) + Made(reqs[1..], key, from, till)
  }

  /** Without a positive limit every request is admitted and nothing is counted. */
  lemma {:induction false} Unlimited(limit: int, w: Window, reqs: seq<Request>, key: string, from: int, till: int)
    requires limit <= 0
    ensures Admitted(limit, w, reqs, key, from, till) == Made(reqs, key, from, till)
    ensures After(limit, w, reqs) == w
    decreases |reqs|
  {
    if reqs != [] {
      Unlimited(limit, w, reqs[1..], key, from, till);
    }
  }

  // ---- the bound is reached ----

  function After(limit: int, w: Window, reqs: seq<Request>): Window
    decreases |reqs|
  {
    if reqs == [] then w else After(limit, Next(limit, w, reqs[0].key, reqs[0].now), reqs[1..])
  }

  lemma {:induction false} AdmittedConcat(
    limit: int, w: Window, a: seq<Request>, b: seq<Request>, key: string, from: int, till: int)
    ensures Admitted(limit, w, a + b, key, from, till)
              == Admitted(limit, w, a, key, from, till) + Admitted(limit, After(limit, w, a), b, key, from, till)
    decreases |a|
  {
    if a == [] {
      assert a + b == b;
    } else {
      assert (a + b)[0] == a[0] && (a + b)[1..] == a[1..] + b;
      AdmittedConcat(limit, Next(limit, w, a[0].key, a[0].now), a[1..], b, key, from, till);
    }
  }

  function Burst(key: string, now: int, n: nat): seq<Request> {
    seq(n, i => Request(key, now))
  }

  /** Within a window, a burst that fits the allowance is admitted in full. */
  lemma {:induction false} BurstAdmitted(limit: int, w: Window, key: string, now: int, n: nat, from: int, till: int)
    requires limit > 0 && from <= now <= till && now <= w.resetAt && n <= Left(limit, w, key)
    ensures Admitted(limit, w, Burst(key, now, n), key, from, till) == n
    ensures After(limit, w, Burst(key, now, n)).resetAt == w.resetAt
    decreases n
  {
    if n > 0 {
      assert Burst(key, now, n)[0] == Request(key, now) && Burst(key, now, n)[1..] == Burst(key, now, n - 1);
      BurstAdmitted(limit, Next(limit, w, key, now), key, now, n - 1, from, till);
    }
  }

  /** A burst of `limit` that opens a window is admitted in full. */
  lemma OpeningBurst(limit: int, w: Window, key: string, now: int, from: int, till: int)
    requires limit > 0 && from <= now <= till && now > w.resetAt
    ensures Admitted(limit, w, Burst(key, now, limit), key, from, till) == limit
  {
    assert Burst(key, now, limit)[0] == Request(key, now) && Burst(key, now, limit)[1..] == Burst(key, now, limit - 1);
    BurstAdmitted(limit, Next(limit, w, key, now), key, now, limit - 1, from, till);
  }

  /** The bound is reached, whatever the limit: with another key opening the window, one
      allowance spent at its end and the next just after it lie within one second. */
  lemma RateBoundIsTight(limit: int, key: string, other: string)
    requires limit > 0 && key != other
    ensures var reqs := [Request(other, 1)] + (Burst(key, SECOND, limit) + Burst(key, SECOND + 2, limit));
            Ordered(reqs) && Admitted(limit, Fresh(), reqs, key, SECOND, SECOND + SECOND) == 2 * limit
  {
    var a, b := Burst(key, SECOND, limit), Burst(key, SECOND + 2, limit);
    var first := [Request(other, 1)];
    var w := Next(limit, Fresh(), other, 1);
    assert first[0] == Request(other, 1) && first[1..] == [];
    assert After(limit, Fresh(), first) == w && Admitted(limit, w, [], key, SECOND, SECOND + SECOND) == 0;
    AdmittedConcat(limit, Fresh(), first, a + b, key, SECOND, SECOND + SECOND);
    AdmittedConcat(limit, w, a, b, key, SECOND, SECOND + SECOND);
    BurstAdmitted(limit, w, key, SECOND, limit, SECOND, SECOND + SECOND);
    OpeningBurst(limit, After(limit, w, a), key, SECOND + 2, SECOND, SECOND + SECOND);
  }

}
