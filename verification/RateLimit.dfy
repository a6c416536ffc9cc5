/** The sliding-window rate limiter, whose log is pruned at every call, against the full
    history of requests of each key. */
module RateLimit {
  import opened RedisModel
  import opened RedisMemory

  /** How many of the requests at `ts` came at `from` or later. */
  function CountFrom(ts: seq<int>, from: int): nat {
    if ts == [] then 0
    else CountFrom(ts[..|ts| - 1], from) + if ts[|ts| - 1] >= from then 1 else 0
  }

  ghost predicate Sorted(ts: seq<int>) {
    forall j, k :: 0 <= j < k < |ts| ==> ts[j] <= ts[k]
  }

  /** What the sorted set of a key holds after requests at `ts`. */
  ghost function Log(ts: seq<int>, windowMs: int): seq<int> {
    if ts == [] then []
    else
      var n := |ts| - 1;
      Kept(Log(ts[..n], windowMs), ts[n] - windowMs) + [ts[n]]
  }

  /** The last request of `ts` fits: the trailing window, itself and all rejected requests
      included, holds at most `max` requests. */
  predicate Fits(ts: seq<int>, windowMs: int, max: int)
    requires ts != []
  {
    CountFrom(ts, ts[|ts| - 1] - windowMs) <= max
  }

  lemma {:induction false} KeptTwice(ts: seq<int>, a: int, b: int)
    requires a <= b
    ensures Kept(Kept(ts, a), b) == Kept(ts, b)
  {
    if ts != [] {
      var n := |ts| - 1;
      KeptTwice(ts[..n], a, b);
      KeptAppend(Kept(ts[..n], a), ts[n], b);
    }
  }

  lemma KeptAppend(ts: seq<int>, t: int, a: int)
    ensures Kept(ts + [t], a) == if t < a then Kept(ts, a) else Kept(ts, a) + [t]
  {
  }

  lemma {:induction false} KeptCounts(ts: seq<int>, a: int)
    ensures |Kept(ts, a)| == CountFrom(ts, a)
  {
    if ts != [] {
      KeptCounts(ts[..|ts| - 1], a);
    }
  }

  /** At nondecreasing times nothing that was pruned would ever have counted again: the
      log is exactly the history's trailing window. */
  lemma {:induction false} LogIsTrailingWindow(ts: seq<int>, windowMs: nat)
    requires Sorted(ts) && ts != []
    ensures Log(ts, windowMs) == Kept(ts, ts[|ts| - 1] - windowMs)
  {
    hide Sorted, Kept, Log;
    var n := |ts| - 1;
    var cutoff := ts[n] - windowMs;
    LogStep(ts, windowMs);
    if n > 0 {
      SortedPrefix(ts);
      LogIsTrailingWindow(ts[..n], windowMs);
      KeptTwice(ts[..n], ts[n - 1] - windowMs, cutoff);
    }
  }

  lemma LogStep(ts: seq<int>, windowMs: nat)
    requires ts != []
    ensures var n := |ts| - 1;
            var cutoff := ts[n] - windowMs;
            && Log(ts, windowMs) == Kept(Log(ts[..n], windowMs), cutoff) + [ts[n]]
            && Kept(ts, cutoff) == Kept(ts[..n], cutoff) + [ts[n]]
            && (n == 0 ==> Kept(Log(ts[..n], windowMs), cutoff) == Kept(ts[..n], cutoff))
  {
  }

  lemma SortedPrefix(ts: seq<int>)
    requires Sorted(ts) && |ts| >= 2
    ensures Sorted(ts[..|ts| - 1]) && ts[|ts| - 2] <= ts[|ts| - 1]
  {
  }

  lemma NextLog(ts: seq<int>, now: int, windowMs: nat)
    requires Sorted(ts) && (ts != [] ==> ts[|ts| - 1] <= now)
    ensures Sorted(ts + [now])
    ensures Log(ts + [now], windowMs) == Kept(Log(ts, windowMs), now - windowMs) + [now]
    ensures |Log(ts + [now], windowMs)| == CountFrom(ts + [now], now - windowMs)
    ensures Log([], windowMs) == []
  {
    assert (ts + [now])[..|ts|] == ts;
    LogIsTrailingWindow(ts + [now], windowMs);
    KeptCounts(ts + [now], now - windowMs);
  }

  // ---- the bound -----------------------------------------------------------

  /** Times of the admitted requests. */
  ghost function Admitted(ts: seq<int>, windowMs: int, max: int): seq<int> {
    if ts == [] then []
    else
      var n := |ts| - 1;
      var before := Admitted(ts[..n], windowMs, max);
      if Fits(ts, windowMs, max) then before + [ts[n]] else before
  }

  ghost function CountWithin(ts: seq<int>, lo: int, hi: int): nat {
    if ts == [] then 0
    else
      var n := |ts| - 1;
      CountWithin(ts[..n], lo, hi) + if lo <= ts[n] <= hi then 1 else 0
  }

  lemma WithinAppend(ts: seq<int>, t: int, lo: int, hi: int)
    ensures CountWithin(ts + [t], lo, hi) == CountWithin(ts, lo, hi) + if lo <= t <= hi then 1 else 0
  {
  }

  lemma {:induction false} AdmittedAreRequests(ts: seq<int>, windowMs: int, max: int, lo: int, hi: int)
    ensures CountWithin(Admitted(ts, windowMs, max), lo, hi) <= CountFrom(ts, lo)
  {
    if ts != [] {
      var n := |ts| - 1;
      AdmittedAreRequests(ts[..n], windowMs, max, lo, hi);
      WithinAppend(Admitted(ts[..n], windowMs, max), ts[n], lo, hi);
    }
  }

  lemma {:induction false} EarlierCountsMore(ts: seq<int>, a: int, b: int)
    requires a <= b
    ensures CountFrom(ts, b) <= CountFrom(ts, a)
  {
    if ts != [] {
      EarlierCountsMore(ts[..|ts| - 1], a, b);
    }
  }

  /** For every history, any closed interval as long as the window holds at most `max`
      admitted requests. */
  lemma {:induction false} RateIsBounded(ts: seq<int>, windowMs: nat, max: nat, lo: int)
    ensures CountWithin(Admitted(ts, windowMs, max), lo, lo + windowMs) <= max
  {
    if ts != [] {
      var n := |ts| - 1;
      var hi := lo + windowMs;
      WithinAppend(Admitted(ts[..n], windowMs, max), ts[n], lo, hi);
      if Fits(ts, windowMs, max) && lo <= ts[n] <= hi {
        AdmittedAreRequests(ts, windowMs, max, lo, hi);
        EarlierCountsMore(ts, ts[n] - windowMs, lo);
      } else {
        RateIsBounded(ts[..n], windowMs, max, lo);
      }
    }
  }

  // ---- "consume no window quota" -------------------------------------------

  /** Times of the rejected requests. */
  ghost function Rejected(ts: seq<int>, windowMs: int, max: int): seq<int> {
    if ts == [] then []
    else
      var n := |ts| - 1;
      var before := Rejected(ts[..n], windowMs, max);
      if Fits(ts, windowMs, max) then before else before + [ts[n]]
  }

  lemma CountAppend(ts: seq<int>, t: int, from: int)
    ensures CountFrom(ts + [t], from) == CountFrom(ts, from) + if t >= from then 1 else 0
  {
    assert (ts + [t])[..|ts|] == ts;
  }

  /** The window is used up by admitted and by rejected requests alike. */
  lemma {:induction false} WindowSplits(ts: seq<int>, windowMs: int, max: int, from: int)
    ensures CountFrom(ts, from) ==
            CountFrom(Admitted(ts, windowMs, max), from) + CountFrom(Rejected(ts, windowMs, max), from)
  {
    if ts != [] {
      var n := |ts| - 1;
      WindowSplits(ts[..n], windowMs, max, from);
      CountAppend(Admitted(ts[..n], windowMs, max), ts[n], from);
      CountAppend(Rejected(ts[..n], windowMs, max), ts[n], from);
    }
  }

  /** Admitted and rejected requests in the window that ends with the last of `ts`, not
      counting that one. */
  ghost function AdmittedInWindow(ts: seq<int>, windowMs: int, max: int): nat
    requires ts != []
  {
    CountFrom(Admitted(ts[..|ts| - 1], windowMs, max), ts[|ts| - 1] - windowMs)
  }

  ghost function RejectedInWindow(ts: seq<int>, windowMs: int, max: int): nat
    requires ts != []
  {
    CountFrom(Rejected(ts[..|ts| - 1], windowMs, max), ts[|ts| - 1] - windowMs)
  }

  /** The admitted requests leave room for the last one; the rejected ones take it. */
  ghost predicate Squeezed(ts: seq<int>, windowMs: int, max: int)
    requires ts != []
  {
    var admitted := AdmittedInWindow(ts, windowMs, max);
    admitted < max <= admitted + RejectedInWindow(ts, windowMs, max)
  }

  /** A request is admitted exactly if admitted and rejected requests together leave room.
      So it is refused although the admitted ones leave room exactly if it is squeezed,
      and never with no rejected request in the window. */
  lemma RejectedRequestsCount(ts: seq<int>, windowMs: nat, max: int)
    requires ts != []
    ensures var admitted := AdmittedInWindow(ts, windowMs, max);
            var rejected := RejectedInWindow(ts, windowMs, max);
            && (Fits(ts, windowMs, max) <==> admitted + rejected < max)
            && (admitted < max && !Fits(ts, windowMs, max) <==> Squeezed(ts, windowMs, max))
            && (rejected == 0 ==> (Fits(ts, windowMs, max) <==> admitted < max))
  {
    var n := |ts| - 1;
    assert ts == ts[..n] + [ts[n]];
    CountAppend(ts[..n], ts[n], ts[n] - windowMs);
    WindowSplits(ts[..n], windowMs, max, ts[n] - windowMs);
  }

  /** The documented limiter: it counts its own admissions and nothing else. */
  ghost function AdmittedAsDocumented(ts: seq<int>, windowMs: int, max: int): seq<int> {
    if ts == [] then []
    else
      var n := |ts| - 1;
      var before := AdmittedAsDocumented(ts[..n], windowMs, max);
      if CountFrom(before, ts[n] - windowMs) < max then before + [ts[n]] else before
  }

  /** The documented limiter admits the last request of `ts`. */
  ghost predicate FitsAsDocumented(ts: seq<int>, windowMs: int, max: int)
    requires ts != []
  {
    var n := |ts| - 1;
    CountFrom(AdmittedAsDocumented(ts[..n], windowMs, max), ts[n] - windowMs) < max
  }

  lemma {:induction false} DocumentedAreRequests(ts: seq<int>, windowMs: int, max: int, from: int)
    ensures CountFrom(AdmittedAsDocumented(ts, windowMs, max), from) <= CountFrom(ts, from)
  {
    if ts != [] {
      var n := |ts| - 1;
      DocumentedAreRequests(ts[..n], windowMs, max, from);
      CountAppend(AdmittedAsDocumented(ts[..n], windowMs, max), ts[n], from);
    }
  }

  /** Whatever came before, the limiter admits nothing that the documented one refuses. */
  lemma StricterThanDocumented(ts: seq<int>, windowMs: nat, max: int)
    requires ts != []
    ensures Fits(ts, windowMs, max) ==> FitsAsDocumented(ts, windowMs, max)
  {
    var n := |ts| - 1;
    assert ts == ts[..n] + [ts[n]];
    CountAppend(ts[..n], ts[n], ts[n] - windowMs);
    DocumentedAreRequests(ts[..n], windowMs, max, ts[n] - windowMs);
  }

  /** On every request of the history the two limiters decide alike. */
  ghost predicate SameDecisions(ts: seq<int>, windowMs: int, max: int) {
    forall k :: 1 <= k <= |ts| ==> (Fits(ts[..k], windowMs, max) <==> FitsAsDocumented(ts[..k], windowMs, max))
  }

  ghost predicate NeverSqueezed(ts: seq<int>, windowMs: int, max: int) {
    forall k :: 1 <= k <= |ts| ==> !Squeezed(ts[..k], windowMs, max)
  }

  lemma PrefixOfPrefix(ts: seq<int>, n: nat, k: nat)
    requires k <= n <= |ts|
    ensures ts[..n][..k] == ts[..k]
  {
  }

  /** What the decisions on `ts` say about all of it but the last request. */
  lemma DecisionsOnPrefix(ts: seq<int>, windowMs: int, max: int)
    requires ts != []
    ensures var before := ts[..|ts| - 1];
            && (SameDecisions(ts, windowMs, max) <==>
                && SameDecisions(before, windowMs, max)
                && (Fits(ts, windowMs, max) <==> FitsAsDocumented(ts, windowMs, max)))
            && (NeverSqueezed(ts, windowMs, max) <==>
                NeverSqueezed(before, windowMs, max) && !Squeezed(ts, windowMs, max))
  {
    hide Fits, FitsAsDocumented, Squeezed;
    var n := |ts| - 1;
    forall k | 1 <= k <= n ensures ts[..n][..k] == ts[..k] {
      PrefixOfPrefix(ts, n, k);
    }
    assert ts[..|ts|] == ts;
  }

  /** Rejected requests are the whole difference: over a history the limiter decides as
      documented exactly if no request is ever squeezed by rejected ones. */
  lemma {:induction false} DecidesAsDocumentedIff(ts: seq<int>, windowMs: nat, max: int)
    ensures SameDecisions(ts, windowMs, max) <==> NeverSqueezed(ts, windowMs, max)
    ensures SameDecisions(ts, windowMs, max) ==>
              Admitted(ts, windowMs, max) == AdmittedAsDocumented(ts, windowMs, max)
  {
    hide SameDecisions, NeverSqueezed, CountFrom;
    if ts == [] {
      NothingToDecide(windowMs, max);
    } else {
      DecidesAsDocumentedIff(ts[..|ts| - 1], windowMs, max);
      DecisionsOnPrefix(ts, windowMs, max);
      RejectedRequestsCount(ts, windowMs, max);
      StricterThanDocumented(ts, windowMs, max);
    }
  }

  lemma NothingToDecide(windowMs: int, max: int)
    ensures SameDecisions([], windowMs, max) && NeverSqueezed([], windowMs, max)
  {
  }

  lemma {:induction false} SomeRejection(ts: seq<int>, windowMs: int, max: int, from: int) returns (j: nat)
    requires CountFrom(Rejected(ts, windowMs, max), from) > 0
    ensures j < |ts| && !Fits(ts[..j + 1], windowMs, max) && ts[j] >= from
  {
    var n := |ts| - 1;
    if Fits(ts, windowMs, max) || ts[n] < from {
      CountAppend(Rejected(ts[..n], windowMs, max), ts[n], from);
      j := SomeRejection(ts[..n], windowMs, max, from);
      PrefixOfPrefix(ts, n, j + 1);
    } else {
      j := n;
      assert ts[..j + 1] == ts;
    }
  }

  /** A client that stays silent for more than the window after each rejection. */
  ghost predicate Patient(ts: seq<int>, windowMs: int, max: int) {
    forall j, k :: 0 <= j < k < |ts| && !Fits(ts[..j + 1], windowMs, max) ==> ts[k] > ts[j] + windowMs
  }

  lemma PatienceAvoidsSqueezing(ts: seq<int>, windowMs: nat, max: int, k: nat)
    requires Patient(ts, windowMs, max) && 1 <= k <= |ts|
    ensures !Squeezed(ts[..k], windowMs, max)
  {
    hide Fits, CountFrom, Admitted, Rejected;
    if Squeezed(ts[..k], windowMs, max) {
      PrefixOfPrefix(ts, k, k - 1);
      var j := SomeRejection(ts[..k - 1], windowMs, max, ts[k - 1] - windowMs);
      PrefixOfPrefix(ts, k - 1, j + 1);
    }
  }

  /** Patient clients are served exactly as documented. */
  lemma PatientClientsSeeTheDocumentedLimiter(ts: seq<int>, windowMs: nat, max: int)
    requires Patient(ts, windowMs, max)
    ensures SameDecisions(ts, windowMs, max)
  {
    hide Patient, Squeezed, Fits, FitsAsDocumented;
    forall k | 1 <= k <= |ts| ensures !Squeezed(ts[..k], windowMs, max) {
      PatienceAvoidsSqueezing(ts, windowMs, max, k);
    }
    DecidesAsDocumentedIff(ts, windowMs, max);
  }

  /** One request per second allowed, requests at 0, 900 and 1800 ms: the rejected one at
      900 makes the one at 1800 rejected too, 1.8 seconds after the last admission. */
  lemma RejectionCanRejectTheNext()
    ensures Fits([0], 1000, 1) && !Fits([0, 900], 1000, 1) && !Fits([0, 900, 1800], 1000, 1)
    ensures FitsAsDocumented([0, 900, 1800], 1000, 1)
  {
    ThreeRequests(0, 900, 1800, 1000);
  }

  /** Waiting for exactly the announced Retry-After is not patient enough: a request one
      window after a rejected one still finds it in the closed window. */
  lemma RetryAfterIsTooShort()
    ensures !Fits([0, 500], 1000, 1) && !Fits([0, 500, 500 + 1000], 1000, 1)
    ensures FitsAsDocumented([0, 500, 500 + 1000], 1000, 1)
  {
    ThreeRequests(0, 500, 1500, 1000);
  }

  lemma CountTwo(a: int, b: int, from: int)
    ensures CountFrom([a], from) == if a >= from then 1 else 0
    ensures CountFrom([a, b], from) == (if a >= from then 1 else 0) + if b >= from then 1 else 0
  {
    assert [a][..0] == [] && [a, b][..1] == [a];
  }

  lemma ThreeRequests(a: int, b: int, c: int, windowMs: nat)
    requires a <= b <= a + windowMs < c <= b + windowMs
    ensures Fits([a], windowMs, 1) && !Fits([a, b], windowMs, 1) && !Fits([a, b, c], windowMs, 1)
    ensures FitsAsDocumented([a, b, c], windowMs, 1)
  {
    assert [a, b, c] == [a, b] + [c] && [a, b, c][..2] == [a, b] && [a, b][..1] == [a] && [a][..0] == [];
    assert AdmittedAsDocumented([], windowMs, 1) == [];
    assert CountFrom([], a - windowMs) == 0;
    CountTwo(a, b, a - windowMs);
    CountTwo(a, b, b - windowMs);
    CountTwo(a, b, c - windowMs);
    CountAppend([a, b], c, c - windowMs);
    hide CountFrom;
    assert AdmittedAsDocumented([a], windowMs, 1) == [a];
    assert AdmittedAsDocumented([a, b], windowMs, 1) == [a];
  }

  // ---- the middleware ------------------------------------------------------

  class RateLimiter {
    const redis: RedisMemory
    const windowSeconds: nat
    const max: nat
    // history per key, written and never read by the limiter
    ghost var history: map<string, seq<int>>

    ghost function HistoryOf(key: string): seq<int>
      reads this
    {
      if key in history then history[key] else []
    }

    /** Every sorted set is what the history of its key leaves of it. */
    ghost predicate Valid()
      reads this, redis
    {
      && (forall key :: key in history ==> Sorted(history[key]) && history[key] != [])
      && redis.sortedSets.Keys == history.Keys
      && (forall key :: key in history ==>
            redis.sortedSets[key] == Log(history[key], windowSeconds * MS_PER_SECOND))
    }

    constructor (redis: RedisMemory, windowSeconds: nat, max: nat)
      requires redis.sortedSets == map[]
      ensures Valid() && history == map[] && this.redis == redis
      ensures this.windowSeconds == windowSeconds && this.max == max
    {
      this.redis, this.windowSeconds, this.max := redis, windowSeconds, max;
      history := map[];
    }

    /** Adds the request to the window first, then decides. */
    method Check(id: string, now: int) returns (admitted: bool, remaining: int)
      requires Valid() && (HistoryOf("rl:" + id) != [] ==> HistoryOf("rl:" + id)[|HistoryOf("rl:" + id)| - 1] <= now)
      modifies this`history, redis`sortedSets
      ensures Valid() && history == old(history)["rl:" + id := old(HistoryOf("rl:" + id)) + [now]]
      ensures admitted <==> Fits(history["rl:" + id], windowSeconds * MS_PER_SECOND, max)
      ensures remaining == Max(0, max - CountFrom(history["rl:" + id], now - windowSeconds * MS_PER_SECOND))
    {
      var key := "rl:" + id;
      ghost var before := HistoryOf(key);
      hide Kept, CountFrom, Log, Sorted;
      NextLog(before, now, windowSeconds * MS_PER_SECOND);
      assert ScoresAt(redis.sortedSets, key) == Log(before, windowSeconds * MS_PER_SECOND);
      var count := redis.SlidingWindowAdd(key, windowSeconds, now);
      history := history[key := before + [now]];
      remaining := Max(0, max - count);
      admitted := count <= max;
    }
  }
}
