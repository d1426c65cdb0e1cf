/** The per-IP sliding-window limiter of the API server, against the history of every
    request it ever let through.

    The clock is read before the lock is taken; the requests are taken in lock order
    and their clock readings are assumed not to go back in that order. */
module RateLimiter {

  const MAX_IPS: nat := 10000

  datatype Hit = Hit(ip: string, time: real)

  type Table = map<string, seq<real>>

  /** The times less than a window before `now`, in order. */
  function Fresh(times: seq<real>, now: real, window: real): seq<real> {
    if times == [] then []
    else
      var n := |times| - 1;
      Fresh(times[..n], now, window) + (if now - times[n] < window then [times[n]] else [])
  }

  function TimesOf(history: seq<Hit>, ip: string): seq<real> {
    if history == [] then []
    else
      var n := |history| - 1;
      TimesOf(history[..n], ip) + (if history[n].ip == ip then [history[n].time] else [])
  }

  function Bucket(hits: Table, ip: string): seq<real> {
    if ip in hits then hits[ip] else []
  }

  /** How many admissions of `ip` fall into the window [from, from + window). */
  function InWindow(history: seq<Hit>, ip: string, from: real, window: real): nat {
    if history == [] then 0
    else
      var n := |history| - 1;
      InWindow(history[..n], ip, from, window)
      + (if history[n].ip == ip && from <= history[n].time < from + window then 1 else 0)
  }

  /** Admissions are in order of time, and each one saw fewer than `limit` fresh ones. */
  predicate Lawful(history: seq<Hit>, limit: nat, window: real) {
    history == [] ||
    (var n := |history| - 1;
     && Lawful(history[..n], limit, window)
     && (n > 0 ==> history[n - 1].time <= history[n].time)
     && |Fresh(TimesOf(history[..n], history[n].ip), history[n].time, window)| < limit)
  }

  // ----- The window bound -----

  lemma {:induction false} WindowWithinFresh(history: seq<Hit>, ip: string, from: real, window: real, now: real)
    requires now < from + window
    ensures InWindow(history, ip, from, window) <= |Fresh(TimesOf(history, ip), now, window)|
  {
    if history != [] {
      var n := |history| - 1;
      WindowWithinFresh(history[..n], ip, from, window, now);
      var times := TimesOf(history, ip);
      if history[n].ip == ip {
        assert times[..|times| - 1] == TimesOf(history[..n], ip);
      } else {
        assert times == TimesOf(history[..n], ip);
      }
    }
  }

  /** Any window-long interval holds at most `limit` admissions of an IP. */
  lemma {:induction false} WindowBound(history: seq<Hit>, ip: string, from: real, limit: nat, window: real)
    requires Lawful(history, limit, window)
    ensures InWindow(history, ip, from, window) <= limit
  {
    if history != [] {
      var n := |history| - 1;
      WindowBound(history[..n], ip, from, limit, window);
      if history[n].ip == ip && from <= history[n].time < from + window {
        WindowWithinFresh(history[..n], ip, from, window, history[n].time);
      }
    }
  }

  // ----- Filtering old times away loses nothing that is still fresh -----

  lemma {:induction false} FreshAgain(times: seq<real>, now: real, later: real, window: real)
    requires now <= later
    ensures Fresh(Fresh(times, now, window), later, window) == Fresh(times, later, window)
  {
    if times != [] {
      var n := |times| - 1;
      FreshAgain(times[..n], now, later, window);
      var kept := Fresh(times, now, window);
      if now - times[n] < window {
        assert kept[..|kept| - 1] == Fresh(times[..n], now, window);
      } else {
        assert kept == Fresh(times[..n], now, window);
      }
    }
  }

  lemma FreshAppend(times: seq<real>, time: real, now: real, window: real)
    ensures Fresh(times + [time], now, window)
            == Fresh(times, now, window) + (if now - time < window then [time] else [])
  {
    assert (times + [time])[..|times|] == times;
  }

  /** From `clock` on, the table shows the same fresh admissions as the whole history. */
  ghost predicate Faithful(hits: Table, history: seq<Hit>, clock: real, window: real) {
    forall ip, now | clock <= now :: Fresh(Bucket(hits, ip), now, window) == Fresh(TimesOf(history, ip), now, window)
  }

  /** `after` only drops times that were no longer fresh at `now`. */
  ghost predicate Swept(hits: Table, after: Table, now: real, window: real) {
    forall ip :: Bucket(after, ip) == Bucket(hits, ip) || Bucket(after, ip) == Fresh(Bucket(hits, ip), now, window)
  }

  lemma SweepIsFaithful(hits: Table, after: Table, history: seq<Hit>, clock: real, now: real, window: real)
    requires Faithful(hits, history, clock, window) && clock <= now && Swept(hits, after, now, window)
    ensures Faithful(after, history, now, window)
  {
    forall ip, later | now <= later
      ensures Fresh(Bucket(after, ip), later, window) == Fresh(TimesOf(history, ip), later, window)
    {
      FreshAgain(Bucket(hits, ip), now, later, window);
      assert Bucket(after, ip) == Bucket(hits, ip) || Bucket(after, ip) == Fresh(Bucket(hits, ip), now, window);
    }
  }

  lemma AdmitIsFaithful(hits: Table, history: seq<Hit>, ip: string, now: real, window: real)
    requires Faithful(hits, history, now, window)
    ensures Faithful(hits[ip := Fresh(Bucket(hits, ip), now, window) + [now]], history + [Hit(ip, now)], now, window)
  {
    var after, all := hits[ip := Fresh(Bucket(hits, ip), now, window) + [now]], history + [Hit(ip, now)];
    assert all[..|history|] == history;
    forall other, later | now <= later
      ensures Fresh(Bucket(after, other), later, window) == Fresh(TimesOf(all, other), later, window)
    {
      assert Fresh(Bucket(hits, other), later, window) == Fresh(TimesOf(history, other), later, window);
      if other == ip {
        FreshAgain(Bucket(hits, ip), now, later, window);
        FreshAppend(Fresh(Bucket(hits, ip), now, window), now, later, window);
        FreshAppend(TimesOf(history, ip), now, later, window);
        assert TimesOf(all, ip) == TimesOf(history, ip) + [now];
      } else {
        assert TimesOf(all, other) == TimesOf(history, other);
      }
    }
  }

  // ----- The limiter -----

  /** Keep the fresh times of a slice by moving them to its front. */
  method FilterInPlace(bucket: array<real>, now: real, window: real) returns (kept: nat)
    modifies bucket
    ensures kept <= bucket.Length && bucket[..kept] == Fresh(old(bucket[..]), now, window)
  {
    kept := 0;
    ghost var was := bucket[..];
    for i := 0 to bucket.Length
      invariant kept <= i
      invariant bucket[..kept] == Fresh(was[..i], now, window)
      invariant forall j | i <= j < bucket.Length :: bucket[j] == was[j]
    {
      assert was[..i + 1][..i] == was[..i];
      if now - bucket[i] < window {
        bucket[kept] := bucket[i];
        kept := kept + 1;
        assert bucket[..kept] == Fresh(was[..i], now, window) + [was[i]];
      }
    }
    assert was[..bucket.Length] == was;
  }

  /** What decides a request of `ip`: its own fresh admissions, and room in the table. */
  ghost predicate Decision(hits: Table, ip: string, now: real, limit: int, window: real) {
    var recent := Fresh(Bucket(hits, ip), now, window);
    |recent| < limit &&
    (recent != [] || |hits| < MAX_IPS || exists k :: k in hits && Fresh(hits[k], now, window) == [])
  }

  /** In terms of the history: a request is refused only if its IP used up its limit within
      the window, or every one of the 10000 IPs in the table had an admission within it. */
  lemma RefusalIsJustified(hits: Table, history: seq<Hit>, clock: real, ip: string, now: real, limit: int, window: real)
    requires Faithful(hits, history, clock, window) && clock <= now && |hits| <= MAX_IPS
    requires !Decision(hits, ip, now, limit, window)
    ensures |Fresh(TimesOf(history, ip), now, window)| >= limit
            || (|hits| == 10000 && forall k | k in hits :: Fresh(TimesOf(history, k), now, window) != [])
  {
    assert Fresh(Bucket(hits, ip), now, window) == Fresh(TimesOf(history, ip), now, window);
    forall k | k in hits
      ensures Fresh(hits[k], now, window) == Fresh(TimesOf(history, k), now, window)
    {
      assert Bucket(hits, k) == hits[k];
    }
  }

  /** In terms of the history: a request is admitted exactly when its IP is below its limit
      within the window and has an admission in it, or there is room for one more IP, or the
      table holds an IP without any. */
  lemma AdmittedIff(hits: Table, history: seq<Hit>, clock: real, ip: string, now: real, limit: int, window: real)
    requires Faithful(hits, history, clock, window) && clock <= now
    ensures var recent := Fresh(TimesOf(history, ip), now, window);
            Decision(hits, ip, now, limit, window) <==>
              && |recent| < limit
              && (recent != [] || |hits| < 10000
                  || exists k :: k in hits && Fresh(TimesOf(history, k), now, window) == [])
  {
    assert Fresh(Bucket(hits, ip), now, window) == Fresh(TimesOf(history, ip), now, window);
    forall k | k in hits
      ensures Fresh(hits[k], now, window) == Fresh(TimesOf(history, k), now, window)
    {
      assert Bucket(hits, k) == hits[k];
    }
  }

  /** What is fresh is what is younger than the window, oldest first; what was admitted for
      an IP are the times of its own hits. */
  lemma {:induction false} FreshIs(history: seq<Hit>, ip: string, now: real, window: real)
    ensures var times := TimesOf(history, ip);
            && (forall time :: time in times <==> Hit(ip, time) in history)
            && (forall time :: time in Fresh(times, now, window) <==> time in times && now - time < window)
            && |times| == multiset(Addresses(history))[ip]
  {
    if history != [] {
      var n := |history| - 1;
      var times := TimesOf(history, ip);
      FreshIs(history[..n], ip, now, window);
      FreshMembers(times, now, window);
      assert history == history[..n] + [history[n]];
      assert forall time :: Hit(ip, time) in history <==> Hit(ip, time) in history[..n] || Hit(ip, time) == history[n];
    }
  }

  function Addresses(history: seq<Hit>): seq<string> {
    if history == [] then [] else Addresses(history[..|history| - 1]) + [history[|history| - 1].ip]
  }

  lemma {:induction false} FreshMembers(times: seq<real>, now: real, window: real)
    ensures forall time :: time in Fresh(times, now, window) <==> time in times && now - time < window
  {
    if times != [] {
      var n := |times| - 1;
      FreshMembers(times[..n], now, window);
      assert times == times[..n] + [times[n]];
    }
  }

  class Limiter {
    const limit: int
    const window: real
    const disabled: bool
    var hits: Table
    ghost var history: seq<Hit>
    ghost var clock: real

    ghost predicate Valid()
      reads this
    {
      && |hits| <= MAX_IPS
      && (disabled || limit <= 0 || (Lawful(history, limit, window) && Faithful(hits, history, clock, window)))
      && forall i | 0 <= i < |history| :: history[i].time <= clock
    }

    constructor (limit: int, window: real, disabled: bool, ghost now: real)
      ensures Valid() && history == [] && clock == now
      ensures this.limit == limit && this.window == window && this.disabled == disabled
    {
      this.limit, this.window, this.disabled := limit, window, disabled;
      hits, history, clock := map[], [], now;
    }

    /** The sweep of a full table, which stops as soon as it has made room. */
    method Sweep(now: real)
      requires |hits| == MAX_IPS
      modifies this`hits
      ensures Swept(old(hits), hits, now, window) && hits.Keys <= old(hits).Keys && |hits| <= MAX_IPS
      ensures |hits| < MAX_IPS <==> exists k :: k in old(hits) && Fresh(old(hits)[k], now, window) == []
    {
      var left := hits.Keys;
      ghost var before := hits;
      while left != {}
        invariant left <= hits.Keys <= before.Keys && |hits| == MAX_IPS
        invariant forall k | k in left :: hits[k] == before[k]
        invariant forall k | k in before && k !in left ::
                    k in hits && hits[k] == Fresh(before[k], now, window) && hits[k] != []
        decreases |left|
      {
        var k :| k in left;
        left := left - {k};
        var keep := Fresh(hits[k], now, window);
        if keep == [] {
          hits := hits - {k};
        } else {
          hits := hits[k := keep];
        }
        if |hits| < MAX_IPS {
          return;
        }
      }
    }

    method Record(ip: string, now: real, recent: seq<real>)
      requires Valid() && now == clock && !disabled && (ip in hits || |hits| < MAX_IPS)
      requires recent == Fresh(Bucket(hits, ip), clock, window) && |recent| < limit
      modifies this
      ensures Valid() && clock == old(clock)
      ensures hits == old(hits)[ip := recent + [now]] && history == old(history) + [Hit(ip, now)]
    {
      AdmitIsFaithful(hits, history, ip, clock, window);
      AdmitIsLawful(history, ip, clock, limit, window);
      hits := hits[ip := recent + [now]];
      history := history + [Hit(ip, now)];
    }

    /** A request is let through exactly when its IP has used less than its limit within
        the window and, if it has used none, the table has room or can make room. */
    method Allow(ip: string, now: real) returns (allowed: bool)
      requires Valid() && clock <= now
      modifies this
      ensures Valid()
      ensures disabled || limit <= 0 ==> allowed && history == old(history)
      ensures !disabled && 0 < limit ==>
                && (allowed <==> Decision(old(hits), ip, now, limit, window))
                && clock == now && history == (if allowed then old(history) + [Hit(ip, now)] else old(history))
    {
      if disabled || limit <= 0 {
        return true;
      }
      var recent := Fresh(Bucket(hits, ip), now, window);
      ghost var before, past := hits, clock;
      clock := now;
      if |recent| >= limit {
        hits := hits[ip := recent];
        SweepIsFaithful(before, hits, history, past, now, window);
        return false;
      }
      if |recent| == 0 && |hits| >= MAX_IPS {
        Sweep(now);
        SweepIsFaithful(before, hits, history, past, now, window);
        if |hits| >= MAX_IPS {
          return false;
        }
      } else {
        SweepIsFaithful(before, hits, history, past, now, window);
      }
      FreshAgain(Bucket(before, ip), now, now, window);
      Record(ip, now, recent);
      return true;
    }
  }

  lemma AdmitIsLawful(history: seq<Hit>, ip: string, now: real, limit: nat, window: real)
    requires Lawful(history, limit, window) && (forall i | 0 <= i < |history| :: history[i].time <= now)
    requires |Fresh(TimesOf(history, ip), now, window)| < limit
    ensures Lawful(history + [Hit(ip, now)], limit, window)
  {
    assert (history + [Hit(ip, now)])[..|history|] == history;
  }
}
