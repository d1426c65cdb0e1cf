/** The token bucket of the LLM middleware: a run of attempts by any number of waiters,
    at times that never go back, each of which refills the bucket and either takes a
    token or is told how long to sleep. */
module TokenBucket {

  /** The capacity and the refill rate in tokens per second. */
  datatype Limit = Limit(max: real, rate: real)

  datatype Bucket = Bucket(tokens: real, lastRefill: real)

  function NewLimit(maxRequests: int, window: real): Limit
    requires window != 0.0
  {
    Limit(maxRequests as real, maxRequests as real / window)
  }

  function Full(c: Limit, now: real): Bucket {
    Bucket(c.max, now)
  }

  function Min(x: real, y: real): real {
    if x <= y then x else y
  }

  function Earned(c: Limit, from: real, to: real): real {
    c.rate * (to - from)
  }

  function Refilled(c: Limit, b: Bucket, now: real): Bucket {
    Bucket(Min(b.tokens + Earned(c, b.lastRefill, now), c.max), now)
  }

  predicate Granted(c: Limit, b: Bucket, now: real) {
    1.0 <= Refilled(c, b, now).tokens
  }

  /** One turn of the loop in Wait: refill, then take a token if there is one. */
  function Attempt(c: Limit, b: Bucket, now: real): Bucket {
    var r := Refilled(c, b, now);
    if Granted(c, b, now) then r.(tokens := r.tokens - 1.0) else r
  }

  function SleepTime(c: Limit, b: Bucket): real
    requires c.rate != 0.0
  {
    (1.0 - b.tokens) / c.rate
  }

  class TokenBucketObject {
    var tokens: real
    const maxTokens: real
    const refillRate: real
    var lastRefill: real

    ghost function View(): Bucket
      reads this
    {
      Bucket(tokens, lastRefill)
    }

    ghost function Config(): Limit {
      Limit(maxTokens, refillRate)
    }

    constructor (maxRequests: int, window: real, now: real)
      requires window != 0.0
      ensures Config() == NewLimit(maxRequests, window) && View() == Full(Config(), now)
    {
      tokens, maxTokens := maxRequests as real, maxRequests as real;
      refillRate, lastRefill := maxRequests as real / window, now;
    }

    /** The part of Wait that runs under the lock; a refused waiter sleeps for `wait`. */
    method TryTake(now: real) returns (granted: bool, wait: real)
      modifies this
      ensures View() == Attempt(Config(), old(View()), now) && granted == Granted(Config(), old(View()), now)
      ensures !granted && refillRate != 0.0 ==> wait == SleepTime(Config(), View())
    {
      var elapsed := now - lastRefill;
      assert elapsed * refillRate == Earned(Config(), lastRefill, now);
      tokens := tokens + elapsed * refillRate;
      if tokens > maxTokens {
        tokens := maxTokens;
      }
      lastRefill := now;
      if tokens >= 1.0 {
        tokens := tokens - 1.0;
        return true, 0.0;
      }
      return false, if refillRate == 0.0 then 0.0 else (1.0 - tokens) / refillRate;
    }
  }

  // ----- Runs -----

  /** The bucket, full at `start`, after attempts at these times. */
  function After(c: Limit, start: real, times: seq<real>): Bucket {
    if times == [] then Full(c, start) else Attempt(c, After(c, start, times[..|times| - 1]), times[|times| - 1])
  }

  /** The time of the last attempt. */
  function Last(start: real, times: seq<real>): real {
    if times == [] then start else times[|times| - 1]
  }

  /** The times never go back. */
  predicate Ordered(start: real, times: seq<real>) {
    times == [] ||
    (Last(start, times[..|times| - 1]) <= times[|times| - 1] && Ordered(start, times[..|times| - 1]))
  }

  /** How many attempts at time `from` or later were granted. */
  function Grants(c: Limit, start: real, times: seq<real>, from: real): nat {
    if times == [] then 0
    else
      var n := |times| - 1;
      Grants(c, start, times[..n], from)
      + (if from <= times[n] && Granted(c, After(c, start, times[..n]), times[n]) then 1 else 0)
  }

  predicate ValidLimit(c: Limit) {
    0.0 <= c.max && 0.0 <= c.rate
  }

  lemma EarnedNonNegative(c: Limit, from: real, to: real)
    requires ValidLimit(c) && from <= to
    ensures 0.0 <= Earned(c, from, to)
  {
  }

  lemma EarnedAdds(c: Limit, from: real, mid: real, to: real)
    ensures Earned(c, from, to) == Earned(c, from, mid) + Earned(c, mid, to)
  {
  }

  lemma NothingEarned(c: Limit, now: real)
    ensures Earned(c, now, now) == 0.0
  {
  }

  lemma AttemptCounts(c: Limit, b: Bucket, now: real)
    ensures Attempt(c, b, now).tokens
         == Min(b.tokens + Earned(c, b.lastRefill, now), c.max) - (if Granted(c, b, now) then 1.0 else 0.0)
  {
  }

  /** Refilling takes one window from empty to full. */
  lemma WindowRefills(maxRequests: int, window: real, now: real)
    requires window != 0.0
    ensures var c := NewLimit(maxRequests, window);
            c.max == maxRequests as real && Earned(c, now, now + window) == c.max
  {
    assert now + window - now == window;
    assert maxRequests as real / window * window == maxRequests as real;
  }

  /** Tokens stay between none and the maximum. */
  lemma {:induction false} TokensInRange(c: Limit, start: real, times: seq<real>)
    requires ValidLimit(c) && Ordered(start, times)
    ensures 0.0 <= After(c, start, times).tokens <= c.max && After(c, start, times).lastRefill == Last(start, times)
  {
    if times != [] {
      var n := |times| - 1;
      TokensInRange(c, start, times[..n]);
      EarnedNonNegative(c, Last(start, times[..n]), times[n]);
    }
  }

  lemma {:induction false} NoGrantsYet(c: Limit, start: real, times: seq<real>, from: real)
    requires Ordered(start, times) && Last(start, times) < from
    ensures Grants(c, start, times, from) == 0
  {
    if times != [] {
      NoGrantsYet(c, start, times[..|times| - 1], from);
    }
  }

  /** At most `max + rate * (to - from)` tokens are handed out from `from` up to the last
      attempt, at `to`. */
  lemma {:induction false} GrantsBound(c: Limit, start: real, times: seq<real>, from: real)
    requires ValidLimit(c) && Ordered(start, times) && from <= Last(start, times)
    ensures Grants(c, start, times, from) as real + After(c, start, times).tokens
         <= c.max + Earned(c, from, Last(start, times))
  {
    EarnedNonNegative(c, from, Last(start, times));
    if times != [] {
      var n := |times| - 1;
      var last := Last(start, times[..n]);
      TokensInRange(c, start, times[..n]);
      if last < from {
        NoGrantsYet(c, start, times[..n], from);
      } else {
        GrantsBound(c, start, times[..n], from);
        EarnedAdds(c, from, last, times[n]);
      }
    }
  }

  /** Since some moment nothing has spilled over the top: what the bucket lacks it has
      handed out. */
  lemma {:induction false} NothingSpilledSince(c: Limit, start: real, times: seq<real>) returns (from: real)
    requires ValidLimit(c) && Ordered(start, times)
    ensures from <= Last(start, times)
    ensures c.max + Earned(c, from, Last(start, times))
         <= After(c, start, times).tokens + Grants(c, start, times, from) as real
  {
    from := start;
    if times != [] {
      var n := |times| - 1;
      var last := Last(start, times[..n]);
      TokensInRange(c, start, times[..n]);
      AttemptCounts(c, After(c, start, times[..n]), times[n]);
      from := NothingSpilledSince(c, start, times[..n]);
      if c.max < After(c, start, times[..n]).tokens + Earned(c, last, times[n]) {
        from := times[n];
        NothingEarned(c, from);
      } else {
        EarnedAdds(c, from, last, times[n]);
      }
    }
  }

  /** An attempt at `now`, if granted, keeps the interval from `from` within its allowance. */
  predicate WithinAllowance(c: Limit, start: real, times: seq<real>, from: real, now: real) {
    Grants(c, start, times, from) as real + 1.0 <= c.max + Earned(c, from, now)
  }

  /** The bucket lets an attempt through exactly when that keeps every interval ending now
      within its allowance of `max + rate * length`: it never grants too much, and never
      refuses what it could have granted. */
  lemma GrantsExactlyTheAllowance(c: Limit, start: real, times: seq<real>, now: real)
    requires ValidLimit(c) && Ordered(start, times) && Last(start, times) <= now
    ensures Granted(c, After(c, start, times), now)
       <==> forall from: real | from <= now :: WithinAllowance(c, start, times, from, now)
  {
    var all := times + [now];
    assert all[..|times|] == times;
    TokensInRange(c, start, times);
    TokensInRange(c, start, all);
    if Granted(c, After(c, start, times), now) {
      forall from: real | from <= now
        ensures WithinAllowance(c, start, times, from, now)
      {
        GrantsBound(c, start, all, from);
      }
    } else {
      var from := NothingSpilledSince(c, start, all);
      assert !WithinAllowance(c, start, times, from, now);
    }
  }

  /** The computed sleep earns what is missing to a whole token. */
  lemma SleepEarns(c: Limit, b: Bucket, now: real)
    requires 0.0 < c.rate
    ensures Earned(c, now, now + SleepTime(c, b)) == 1.0 - b.tokens
  {
    assert now + SleepTime(c, b) - now == SleepTime(c, b);
  }

  lemma Grows(rate: real, d: real)
    requires 0.0 < rate && 0.0 <= d
    ensures 0.0 <= rate * d
  {
  }

  /** A lone waiter that sleeps the computed time, or longer, is granted on waking exactly
      when the bucket can hold a token at all. */
  lemma LoneWaiterIsServed(c: Limit, b: Bucket, now: real, wake: real)
    requires 0.0 < c.rate && !Granted(c, b, now) && now + SleepTime(c, Attempt(c, b, now)) <= wake
    ensures Granted(c, Attempt(c, b, now), wake) <==> 1.0 <= c.max
  {
    var a := Attempt(c, b, now);
    var due := now + SleepTime(c, a);
    SleepEarns(c, a, now);
    EarnedAdds(c, now, due, wake);
    Grows(c.rate, wake - due);
  }
}
