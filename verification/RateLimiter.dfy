/** The limiters of src/indexer/ingestion.ts: the sliding-window rate limit on ingest requests
    and the bound on concurrent writes. Times are in milliseconds. */
module RateLimiter {
  import opened Options

  const RATE_LIMIT_WINDOW_MS := 60_000
  const MAX_RATE_LIMIT_REQUESTS := 30

  /** The timestamps less than one window old. */
  function Young(timestamps: seq<int>, now: int): seq<int> {
    if timestamps == [] then []
    else
      Young(timestamps[..|timestamps| - 1], now)
      + if now - timestamps[|timestamps| - 1] < RATE_LIMIT_WINDOW_MS then [timestamps[|timestamps| - 1]] else []
  }

  ghost predicate Sorted(s: seq<int>) { forall i, j :: 0 <= i < j < |s| ==> s[i] <= s[j] }

  /** Pruning at one time loses nothing that is young later. */
  lemma {:induction false} YoungOfYoung(s: seq<int>, early: int, late: int)
    requires early <= late
    ensures Young(Young(s, early), late) == Young(s, late)
  {
    if s != [] {
      var n := |s| - 1;
      var before := Young(s[..n], early);
      YoungOfYoung(s[..n], early, late);
      if early - s[n] < RATE_LIMIT_WINDOW_MS {
        assert Young(s, early) == before + [s[n]];
        YoungAppend(before, s[n], late);
      } else {
        assert Young(s, early) == before && Young(s, late) == Young(s[..n], late);
      }
    }
  }

  lemma YoungAppend(s: seq<int>, t: int, now: int)
    ensures Young(s + [t], now) == Young(s, now) + if now - t < RATE_LIMIT_WINDOW_MS then [t] else []
  {
    assert (s + [t])[..|s|] == s;
  }

  /** When the j-th of a sorted list is young, so are all after it. */
  lemma {:induction false} YoungFrom(s: seq<int>, j: nat, now: int)
    requires Sorted(s) && j < |s| && now - s[j] < RATE_LIMIT_WINDOW_MS
    ensures |Young(s, now)| >= |s| - j
  {
    var n := |s| - 1;
    if j < n {
      assert s[j] <= s[n];
      YoungFrom(s[..n], j, now);
    }
  }

  /** Any 31 consecutive admissions span at least a window. */
  ghost predicate Spaced(admitted: seq<int>) {
    forall i: nat :: i + MAX_RATE_LIMIT_REQUESTS < |admitted| ==>
      admitted[i + MAX_RATE_LIMIT_REQUESTS] - admitted[i] >= RATE_LIMIT_WINDOW_MS
  }

  lemma AdmitKeepsSpaced(admitted: seq<int>, now: int)
    requires Spaced(admitted) && Sorted(admitted) && forall i :: 0 <= i < |admitted| ==> admitted[i] <= now
    requires |Young(admitted, now)| < MAX_RATE_LIMIT_REQUESTS
    ensures Spaced(admitted + [now]) && Sorted(admitted + [now])
  {
    var first := |admitted| - MAX_RATE_LIMIT_REQUESTS;
    if first >= 0 && now - admitted[first] < RATE_LIMIT_WINDOW_MS {
      YoungFrom(admitted, first, now);
    }
  }

  /** More than 30 admissions always span a window, so no shorter stretch of time holds that many. */
  lemma WindowBound(admitted: seq<int>, i: nat, j: nat)
    requires Spaced(admitted) && Sorted(admitted) && i <= j < |admitted|
    requires j - i + 1 > MAX_RATE_LIMIT_REQUESTS
    ensures admitted[j] - admitted[i] >= RATE_LIMIT_WINDOW_MS
  {
    assert admitted[i + MAX_RATE_LIMIT_REQUESTS] <= admitted[j];
  }

  function HistoryOf(history: map<string, seq<int>>, actor: string): seq<int> {
    if actor in history then history[actor] else []
  }

  /** `history` is the full list of each actor's admitted requests, which the pruned buckets stand in for. */
  class IngestRateLimiter {
    var rateLimits: map<string, seq<int>>
    ghost var history: map<string, seq<int>>
    ghost var clock: int

    ghost predicate Valid()
      reads this
    {
      && (forall actor, now :: now >= clock ==>
            Young(HistoryOf(rateLimits, actor), now) == Young(HistoryOf(history, actor), now))
      && (forall actor :: Recorded(HistoryOf(history, actor), clock))
    }

    constructor (ghost start: int)
      ensures Valid() && clock == start && history == map[]
    {
      rateLimits, history, clock := map[], map[], start;
    }

    /** With a clock that does not go back, the pruned bucket decides as the full history does. */
    method EnforceRateLimit(actor: string, now: int) returns (admitted: bool)
      requires Valid() && clock <= now
      modifies this
      ensures Valid() && clock == now
      ensures admitted <==> |Young(HistoryOf(old(history), actor), now)| < MAX_RATE_LIMIT_REQUESTS
      ensures history == if admitted then old(history)[actor := HistoryOf(old(history), actor) + [now]] else old(history)
    {
      hide Young, Recorded;
      var timestamps := Pruned(HistoryOf(rateLimits, actor), now);
      assert timestamps == Young(HistoryOf(history, actor), now);
      ghost var past := HistoryOf(history, actor);
      forall later | later >= now ensures Young(timestamps, later) == Young(past, later) {
        YoungOfYoung(past, now, later);
      }
      forall a ensures Recorded(HistoryOf(history, a), now) {
        assert Recorded(HistoryOf(history, a), clock);
        RecordedLater(HistoryOf(history, a), clock, now);
      }
      clock := now;
      if |timestamps| >= MAX_RATE_LIMIT_REQUESTS {
        // The bucket object is already in the map, so its pruned list stays there.
        rateLimits := rateLimits[actor := timestamps];
        return false;
      }
      Admit(past, now);
      forall later | later >= now ensures Young(timestamps + [now], later) == Young(past + [now], later) {
        YoungAppend(timestamps, now, later);
        YoungAppend(past, now, later);
      }
      rateLimits := rateLimits[actor := timestamps + [now]];
      history := history[actor := past + [now]];
      forall a, later | later >= now ensures Young(HistoryOf(rateLimits, a), later) == Young(HistoryOf(history, a), later) {
        if a != actor {
          assert HistoryOf(rateLimits, a) == HistoryOf(old(rateLimits), a) && HistoryOf(history, a) == HistoryOf(old(history), a);
        }
      }
      forall a ensures Recorded(HistoryOf(history, a), now) {
        assert a != actor ==> HistoryOf(history, a) == HistoryOf(old(history), a);
      }
      return true;
    }

    method Pruned(timestamps: seq<int>, now: int) returns (kept: seq<int>)
      ensures kept == Young(timestamps, now)
    {
      kept := [];
      for i := 0 to |timestamps|
        invariant kept == Young(timestamps[..i], now)
      {
        assert timestamps[..i + 1][..i] == timestamps[..i];
        if now - timestamps[i] < RATE_LIMIT_WINDOW_MS {
          kept := kept + [timestamps[i]];
        }
      }
      assert timestamps[..|timestamps|] == timestamps;
    }
  }

  /** A list of admissions up to `clock`: in order and spaced. */
  ghost predicate Recorded(admitted: seq<int>, clock: int) {
    Sorted(admitted) && Spaced(admitted) && forall i :: 0 <= i < |admitted| ==> admitted[i] <= clock
  }

  lemma RecordedLater(admitted: seq<int>, clock: int, now: int)
    requires Recorded(admitted, clock) && clock <= now
    ensures Recorded(admitted, now)
  {
  }

  lemma Admit(admitted: seq<int>, now: int)
    requires Recorded(admitted, now) && |Young(admitted, now)| < MAX_RATE_LIMIT_REQUESTS
    ensures Recorded(admitted + [now], now)
  {
    AdmitKeepsSpaced(admitted, now);
  }

  // ----- createConcurrencyLimiter -----

  /** At most `limit` holders; the others wait in arrival order, and only while all places are taken. */
  class ConcurrencyLimiter {
    const limit: nat
    var active: nat
    var waiters: seq<nat>         // the callers waiting, identified by number
    ghost var holders: multiset<nat>

    ghost predicate Valid()
      reads this
    {
      && limit >= 1 && active <= limit && active == |holders|
      && (waiters != [] ==> active == limit)
    }

    constructor (limit: nat)
      requires limit >= 1
      ensures Valid() && this.limit == limit && waiters == [] && holders == multiset{}
    {
      this.limit, active, waiters, holders := limit, 0, [], multiset{};
    }

    method Acquire(caller: nat) returns (granted: bool)
      requires Valid()
      modifies this
      ensures Valid() && (granted <==> |old(holders)| < limit)
      ensures granted ==> holders == old(holders) + multiset{caller} && waiters == old(waiters)
      ensures !granted ==> holders == old(holders) && waiters == old(waiters) + [caller]
    {
      if active < limit {
        active := active + 1;
        holders := holders + multiset{caller};
        return true;
      }
      waiters := waiters + [caller];
      return false;
    }

    /** A holder leaves and the longest-waiting caller, if any, takes its place. */
    method Release(ghost caller: nat)
      requires Valid() && caller in holders
      modifies this
      ensures Valid()
      ensures holders == old(holders) - multiset{caller} + if old(waiters) == [] then multiset{} else multiset{old(waiters)[0]}
      ensures waiters == if old(waiters) == [] then [] else old(waiters)[1..]
    {
      active := active - 1;
      holders := holders - multiset{caller};
      if |waiters| > 0 {
        var next := waiters[0];
        waiters := waiters[1..];
        active := active + 1;
        holders := holders + multiset{next};
      }
    }
  }
}
