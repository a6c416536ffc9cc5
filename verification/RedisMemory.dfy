/** The in-memory Redis object: every method is proved against the eager map, and a whole
    session gives the eager map's answers. */
module RedisMemory {
  import opened Options
  import opened RedisModel

  /** Scores of one sorted set in insertion order; members are distinct, so an entry is
      known by its place. */
  type Scores = seq<int>

  function Kept(scores: Scores, cutoff: int): (kept: Scores)
    ensures |kept| <= |scores|
  {
    if scores == [] then []
    else
      var n := |scores| - 1;
      if scores[n] < cutoff then Kept(scores[..n], cutoff) else Kept(scores[..n], cutoff) + [scores[n]]
  }

  function ScoresAt(sets: map<string, Scores>, key: string): Scores {
    if key in sets then sets[key] else []
  }

  class RedisMemory {
    var store: Store
    var sortedSets: map<string, Scores>
    const bump: string -> string

    constructor (bump: string -> string)
      ensures store == map[] && sortedSets == map[] && this.bump == bump
    {
      store, sortedSets := map[], map[];
      this.bump := bump;
    }

    /** The entry if it has not expired; an expired entry is deleted on the way. */
    method Lookup(key: string, now: int) returns (e: Option<Entry>)
      modifies this`store
      ensures Purge(store, now) == Purge(old(store), now)
      ensures if key in Purge(old(store), now) then e == Some(Purge(old(store), now)[key]) else e == None
      ensures e.Some? ==> key in store && store[key] == e.value
      ensures e.None? ==> key !in store
      ensures store == old(store) || store == old(store) - {key}
    {
      if key !in store {
        return None;
      }
      var entry := store[key];
      if entry.expiresAt.Some? && entry.expiresAt.value <= now {
        DropExpired(store, key, now);
        store := store - {key};
        return None;
      }
      return Some(entry);
    }

    method Get(key: string, now: int) returns (text: Option<string>)
      modifies this`store
      ensures (Purge(store, now), Text(text)) == Eager(old(store), RedisModel.Get(key), now, bump)
    {
      PurgeTwice(store, now, now);
      var e := Lookup(key, now);
      return if e.Some? then Some(e.value.value) else None;
    }

    method Set(key: string, value: string, ttlSeconds: Option<int>, now: int)
      modifies this`store
      ensures (Purge(store, now), Nothing) == Eager(old(store), RedisModel.Set(key, value, ttlSeconds), now, bump)
    {
      Written(store, key, Entry(value, ExpiryOf(ttlSeconds, now)), now);
      store := store[key := Entry(value, ExpiryOf(ttlSeconds, now))];
    }

    method Del(keys: seq<string>, now: int)
      modifies this`store
      ensures (Purge(store, now), Nothing) == Eager(old(store), RedisModel.Del(keys), now, bump)
    {
      var k := 0;
      while k < |keys|
        invariant k <= |keys|
        invariant store == old(store) - (set x | x in keys[..k])
      {
        assert keys[..k + 1] == keys[..k] + [keys[k]];
        store := store - {keys[k]};
        k := k + 1;
      }
      assert keys[..k] == keys;
      Removed(old(store), (set x | x in keys), now);
    }

    method Incr(key: string, now: int) returns (next: string)
      modifies this`store
      ensures (Purge(store, now), Text(Some(next))) == Eager(old(store), RedisModel.Incr(key), now, bump)
      ensures key in store && store[key].value == next
      ensures var before := Purge(old(store), now);
              store[key].expiresAt == if key in before then before[key].expiresAt else None
    {
      var cur := Lookup(key, now);
      next := bump(if cur.Some? then cur.value.value else "0");
      var entry := Entry(next, if cur.Some? then cur.value.expiresAt else None);
      Written(store, key, entry, now);
      store := store[key := entry];
    }

    method Expire(key: string, seconds: int, now: int)
      modifies this`store
      ensures (Purge(store, now), Nothing) == Eager(old(store), RedisModel.Expire(key, seconds), now, bump)
    {
      PurgeTwice(store, now, now);
      var e := Lookup(key, now);
      if e.Some? {
        var entry := e.value.(expiresAt := Some(now + seconds * MS_PER_SECOND));
        Written(store, key, entry, now);
        store := store[key := entry];
      }
    }

    method Ttl(key: string, now: int) returns (seconds: int)
      modifies this`store
      ensures (Purge(store, now), Seconds(seconds)) == Eager(old(store), RedisModel.Ttl(key), now, bump)
    {
      PurgeTwice(store, now, now);
      var e := Lookup(key, now);
      if e.None? || e.value.expiresAt.None? {
        return -1;
      }
      return Max(0, (e.value.expiresAt.value - now) / MS_PER_SECOND);
    }

    method Exists(key: string, now: int) returns (found: bool)
      modifies this`store
      ensures (Purge(store, now), Flag(found)) == Eager(old(store), RedisModel.Exists(key), now, bump)
    {
      PurgeTwice(store, now, now);
      var e := Lookup(key, now);
      return e.Some?;
    }

    method IncrWithTtl(key: string, seconds: int, now: int) returns (next: string)
      modifies this`store
      ensures (Purge(store, now), Text(Some(next))) ==
              Eager(old(store), RedisModel.IncrWithTtl(key, seconds), now, bump)
    {
      next := Incr(key, now);
      ghost var first := store[key];
      ghost var before := Purge(old(store), now);
      assert Purge(store, now) == Purge(before[key := first], now);
      var live := Lookup(key, now);
      assert key in before ==> Live(before[key], now);
      assert live == Some(first);
      if live.Some? && live.value.expiresAt.None? {
        var entry := live.value.(expiresAt := Some(now + seconds * MS_PER_SECOND));
        Overwritten(before, key, first, entry, now);
        Written(store, key, entry, now);
        store := store[key := entry];
      }
    }

    method SetNx(key: string, value: string, ttlSeconds: Option<int>, now: int) returns (taken: bool)
      modifies this`store
      ensures (Purge(store, now), Flag(taken)) == Eager(old(store), RedisModel.SetNx(key, value, ttlSeconds), now, bump)
    {
      PurgeTwice(store, now, now);
      var e := Lookup(key, now);
      if e.Some? {
        return false;
      }
      Set(key, value, ttlSeconds, now);
      return true;
    }

    method Execute(c: Command, now: int) returns (a: Answer)
      modifies this`store
      ensures (Purge(store, now), a) == Eager(old(store), c, now, bump)
    {
      a := Nothing;
      match c
      case Get(k) =>
        var text := Get(k, now);
        a := Text(text);
      case Set(k, v, ttl) => Set(k, v, ttl, now);
      case Del(ks) => Del(ks, now);
      case Incr(k) =>
        var next := Incr(k, now);
        a := Text(Some(next));
      case Expire(k, seconds) => Expire(k, seconds, now);
      case Ttl(k) =>
        var seconds := Ttl(k, now);
        a := Seconds(seconds);
      case Exists(k) =>
        var found := Exists(k, now);
        a := Flag(found);
      case IncrWithTtl(k, seconds) =>
        var next := IncrWithTtl(k, seconds, now);
        a := Text(Some(next));
      case SetNx(k, v, ttl) =>
        var taken := SetNx(k, v, ttl, now);
        a := Flag(taken);
    }

    /** Any session at nondecreasing times: lazy expiry is not observable. */
    method Serve(rs: seq<Request>) returns (answers: seq<Answer>)
      requires InOrder(rs)
      modifies this`store
      ensures answers == EagerAnswers(old(store), rs, bump)
    {
      answers := [];
      var k := 0;
      while k < |rs|
        invariant k <= |rs|
        invariant answers + EagerAnswers(store, rs[k..], bump) == EagerAnswers(old(store), rs, bump)
      {
        var rest := rs[k..];
        ghost var before := store;
        ghost var eager := Eager(before, rs[k].command, rs[k].at, bump);
        var a := Execute(rs[k].command, rs[k].at);
        assert rest[1..] == rs[k + 1..];
        PurgeTwice(store, rs[k].at, rs[k].at);
        SameAnswers(store, eager.0, rs[k + 1..], rs[k].at, bump);
        assert answers + EagerAnswers(before, rest, bump) == answers + [a] + EagerAnswers(eager.0, rs[k + 1..], bump);
        answers := answers + [a];
        k := k + 1;
      }
    }

    /** Drops the scores below the window, appends `now`, and counts. */
    method SlidingWindowAdd(key: string, windowSeconds: int, now: int) returns (count: nat)
      modifies this`sortedSets
      ensures sortedSets ==
              old(sortedSets)[key := Kept(ScoresAt(old(sortedSets), key), now - windowSeconds * MS_PER_SECOND) + [now]]
      ensures count == |sortedSets[key]|
    {
      var scores := if key in sortedSets then sortedSets[key] else [];
      var cutoff := now - windowSeconds * MS_PER_SECOND;
      var kept: Scores := [];
      var k := 0;
      while k < |scores|
        invariant k <= |scores|
        invariant kept == Kept(scores[..k], cutoff)
      {
        assert scores[..k + 1][..k] == scores[..k];
        if scores[k] >= cutoff {
          kept := kept + [scores[k]];
        }
        k := k + 1;
      }
      assert scores[..k] == scores;
      kept := kept + [now];
      sortedSets := sortedSets[key := kept];
      return |kept|;
    }
  }
}
