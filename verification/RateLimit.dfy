/** The fixed-window rate limiter over one Redis key, and the sliding-window bound that it gives. */
module RateLimit {
  import opened Types

  /** The stored counter and when it expires; both belong to one key. */
  datatype Counter = Counter(count: nat, expiresAt: int)

  datatype Result = Result(allowed: bool, count: nat, retryAfterSec: int)

  /** What Redis still holds of the key at time `now`. */
  function Live(c: Option<Counter>, now: int): Option<Counter> {
    if c.Some? && now < c.value.expiresAt then c else None
  }

  /** `INCR`, with `EXPIRE` on the first increment of a lifetime. */
  function Next(c: Option<Counter>, now: int, windowSec: Positive): Counter {
    match Live(c, now)
    case None => Counter(1, now + windowSec)
    case Some(x) => Counter(x.count + 1, x.expiresAt)
  }

  class Limiter {
    const limit: int
    const windowSec: Positive
    var key: Option<Counter>

    constructor (limit: int, windowSec: Positive)
      ensures this.limit == limit && this.windowSec == windowSec && key == None
    {
      this.limit, this.windowSec, this.key := limit, windowSec, None;
    }

    /** The count goes up even over the limit, so a refused call does not prolong the window. */
    method ConsumeRateLimit(now: int) returns (r: Result)
      modifies this`key
      ensures key == Some(Next(old(key), now, windowSec))
      ensures r.count == key.value.count && r.allowed == (r.count <= limit)
      ensures r.retryAfterSec == key.value.expiresAt - now && 0 < r.retryAfterSec
      ensures Live(old(key), now).None? ==> r.retryAfterSec == windowSec
    {
      var count := 1;
      var expiresAt := now + windowSec;
      if key.Some? && now < key.value.expiresAt {
        count, expiresAt := key.value.count + 1, key.value.expiresAt;
      }
      key := Some(Counter(count, expiresAt));
      var ttl := expiresAt - now;
      return Result(count <= limit, count, if ttl > 0 then ttl else windowSec);
    }
  }

  // ---------- runs ----------

  predicate Ordered(times: seq<int>) {
    forall i, j :: 0 <= i <= j < |times| ==> times[i] <= times[j]
  }

  /** The key after calls at these times. */
  function After(times: seq<int>, windowSec: Positive): Option<Counter> {
    if times == [] then None
    else Some(Next(After(times[..|times| - 1], windowSec), times[|times| - 1], windowSec))
  }

  /** The count that call `i` sees, and the index of the call that began its lifetime. */
  function CountAt(times: seq<int>, windowSec: Positive, i: nat): nat
    requires i < |times|
  {
    After(times[..i + 1], windowSec).value.count
  }

  predicate Allowed(times: seq<int>, windowSec: Positive, limit: int, i: nat)
    requires i < |times|
  {
    CountAt(times, windowSec, i) <= limit
  }

  function FirstOf(times: seq<int>, windowSec: Positive, i: nat): int
    requires i < |times|
  {
    i + 1 - CountAt(times, windowSec, i)
  }

  function ExpiryAt(times: seq<int>, windowSec: Positive, i: nat): int
    requires i < |times|
  {
    After(times[..i + 1], windowSec).value.expiresAt
  }

  /** A call continues the lifetime of the call before it, or begins one. */
  lemma CallAfter(times: seq<int>, windowSec: Positive, i: nat)
    requires i < |times|
    ensures
      if i > 0 && times[i] < ExpiryAt(times, windowSec, i - 1) then
        && CountAt(times, windowSec, i) == CountAt(times, windowSec, i - 1) + 1
        && ExpiryAt(times, windowSec, i) == ExpiryAt(times, windowSec, i - 1)
      else CountAt(times, windowSec, i) == 1 && ExpiryAt(times, windowSec, i) == times[i] + windowSec
  {
    assert times[..i + 1][..i] == times[..i] && times[..i + 1][i] == times[i];
    if i > 0 {
      assert times[..i] == times[..(i - 1) + 1];
    }
  }

  /**
   * A lifetime begins at a call `f` and holds exactly the calls before `times[f] + windowSec`;
   * its calls are counted from one.
   */
  lemma {:induction false} LifetimeOf(times: seq<int>, windowSec: Positive, i: nat)
    requires i < |times| && Ordered(times)
    ensures var f := FirstOf(times, windowSec, i);
      && 0 <= f <= i
      && CountAt(times, windowSec, f) == 1 && FirstOf(times, windowSec, f) == f
      && ExpiryAt(times, windowSec, i) == times[f] + windowSec
      && times[f] <= times[i] < times[f] + windowSec
      && (f > 0 ==> var g := FirstOf(times, windowSec, f - 1); 0 <= g < f && times[f] >= times[g] + windowSec)
    decreases i
  {
    CallAfter(times, windowSec, i);
    if i > 0 {
      LifetimeOf(times, windowSec, i - 1);
    }
  }

  /** The lifetime that a call `f` begins holds exactly the calls of its window. */
  lemma {:induction false} LifetimeHolds(times: seq<int>, windowSec: Positive, f: nat, k: nat)
    requires f <= k < |times| && Ordered(times) && FirstOf(times, windowSec, f) == f
    ensures FirstOf(times, windowSec, k) == f <==> times[k] < times[f] + windowSec
    decreases k
  {
    LifetimeOf(times, windowSec, k);
    if f < k && times[k] < times[f] + windowSec {
      LifetimeHolds(times, windowSec, f, k - 1);
      LifetimeOf(times, windowSec, k - 1);
      CallAfter(times, windowSec, k);
    }
  }

  /** In each lifetime exactly the first `limit` calls are allowed. */
  lemma FirstCallsAllowed(times: seq<int>, windowSec: Positive, limit: int, f: nat, k: nat)
    requires f <= k < |times| && Ordered(times) && FirstOf(times, windowSec, f) == f
    requires times[k] < times[f] + windowSec
    ensures Allowed(times, windowSec, limit, k) <==> k < f + limit
  {
    LifetimeHolds(times, windowSec, f, k);
  }

  /** Calls of one lifetime are consecutive. */
  lemma {:induction false} SameLifetime(times: seq<int>, windowSec: Positive, i: nat, j: nat)
    requires i <= j < |times| && Ordered(times) && FirstOf(times, windowSec, j) <= i
    ensures FirstOf(times, windowSec, i) == FirstOf(times, windowSec, j)
    decreases j
  {
    if i < j {
      LifetimeOf(times, windowSec, j);
      CallAfter(times, windowSec, j);
      SameLifetime(times, windowSec, i, j - 1);
    }
  }

  /** The number of allowed calls from `i` up to, but not including, `j`. */
  function AllowedBetween(times: seq<int>, windowSec: Positive, limit: int, i: nat, j: nat): nat
    requires i <= j <= |times|
    decreases j
  {
    if i == j then 0
    else AllowedBetween(times, windowSec, limit, i, j - 1) + if Allowed(times, windowSec, limit, j - 1) then 1 else 0
  }

  /** Within one lifetime at most `limit` calls are allowed. */
  lemma {:induction false} AllowedInLifetime(times: seq<int>, windowSec: Positive, limit: nat, i: nat, j: nat)
    requires i < j <= |times| && Ordered(times) && FirstOf(times, windowSec, j - 1) <= i
    ensures var f := FirstOf(times, windowSec, j - 1);
      AllowedBetween(times, windowSec, limit, i, j) <= limit
      && (j - f <= limit ==> AllowedBetween(times, windowSec, limit, i, j) <= j - f)
    decreases j
  {
    if i < j - 1 {
      SameLifetime(times, windowSec, i, j - 1);
      SameLifetime(times, windowSec, j - 2, j - 1);
      AllowedInLifetime(times, windowSec, limit, i, j - 1);
    } else {
      LifetimeOf(times, windowSec, j - 1);
    }
  }

  lemma {:induction false} AllowedSplits(times: seq<int>, windowSec: Positive, limit: int, i: nat, m: nat, j: nat)
    requires i <= m <= j <= |times|
    ensures AllowedBetween(times, windowSec, limit, i, j)
         == AllowedBetween(times, windowSec, limit, i, m) + AllowedBetween(times, windowSec, limit, m, j)
    decreases j
  {
    if m < j {
      AllowedSplits(times, windowSec, limit, i, m, j - 1);
    }
  }

  /** Between the calls of one lifetime and those of the next but one lies more than a whole window. */
  lemma LifetimesApart(times: seq<int>, windowSec: Positive, i: nat, f: nat)
    requires i < f < |times| && Ordered(times)
    requires FirstOf(times, windowSec, f) == f && i < FirstOf(times, windowSec, f - 1)
    ensures times[i] + windowSec < times[f]
  {
    var g := FirstOf(times, windowSec, f - 1);
    LifetimeOf(times, windowSec, f);
    LifetimeOf(times, windowSec, f - 1);
    LifetimeOf(times, windowSec, g);
    LifetimeOf(times, windowSec, g - 1);
  }

  /** Any span of time as long as the window allows at most twice the limit. */
  lemma SlidingWindowBound(times: seq<int>, windowSec: Positive, limit: nat, i: nat, j: nat)
    requires Ordered(times) && i < j <= |times| && times[j - 1] - times[i] <= windowSec
    ensures AllowedBetween(times, windowSec, limit, i, j) <= 2 * limit
  {
    var f := FirstOf(times, windowSec, j - 1);
    LifetimeOf(times, windowSec, j - 1);
    if f <= i {
      AllowedInLifetime(times, windowSec, limit, i, j);
    } else {
      if i < FirstOf(times, windowSec, f - 1) {
        LifetimesApart(times, windowSec, i, f);
        assert false;
      }
      AllowedInLifetime(times, windowSec, limit, i, f);
      AllowedInLifetime(times, windowSec, limit, f, j);
      AllowedSplits(times, windowSec, limit, i, f, j);
    }
  }

  // ---------- the bound is reached ----------

  /** `n` calls when a lifetime begins and `n` calls when the next one does. */
  function TwoBursts(n: nat, windowSec: Positive): seq<int> {
    seq(2 * n, k requires 0 <= k < 2 * n => if k < n then 0 else windowSec)
  }

  lemma {:induction false} BurstCount(n: nat, windowSec: Positive, k: nat)
    requires k < 2 * n
    ensures After(TwoBursts(n, windowSec)[..k + 1], windowSec)
         == Some(if k < n then Counter(k + 1, windowSec) else Counter(k + 1 - n, 2 * windowSec))
    decreases k
  {
    var times := TwoBursts(n, windowSec);
    assert times[..k + 1][..k] == times[..k] && times[..k + 1][k] == times[k];
    if k > 0 {
      BurstCount(n, windowSec, k - 1);
      assert times[..k] == times[..(k - 1) + 1];
    }
  }

  /** No smaller bound holds: a span of one window can allow twice the limit. */
  lemma {:induction false} BoundIsReached(limit: nat, windowSec: Positive, j: nat)
    requires j <= 2 * limit
    ensures Ordered(TwoBursts(limit, windowSec))
    ensures forall a, b :: 0 <= a < 2 * limit && 0 <= b < 2 * limit ==>
      TwoBursts(limit, windowSec)[b] - TwoBursts(limit, windowSec)[a] <= windowSec
    ensures AllowedBetween(TwoBursts(limit, windowSec), windowSec, limit, 0, j) == j
    decreases j
  {
    if j > 0 {
      BoundIsReached(limit, windowSec, j - 1);
      BurstCount(limit, windowSec, j - 1);
    }
  }
}
