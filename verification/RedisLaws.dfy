/** What the commands of the store mean to its callers: laws between commands, read off the
    answers alone. */
module RedisLaws {
  import opened Options
  import opened RedisModel

  /** What Get answers at `at`. */
  function ValueAt(s: Store, key: string, at: int, bump: string -> string): Option<string> {
    Eager(s, Get(key), at, bump).1.text
  }

  /** What Ttl answers at `at`. */
  function SecondsLeft(s: Store, key: string, at: int, bump: string -> string): int {
    Eager(s, Ttl(key), at, bump).1.seconds
  }

  function Done(s: Store, c: Command, now: int, bump: string -> string): Store {
    Eager(s, c, now, bump).0
  }

  predicate Touches(c: Command, key: string) {
    match c
    case Set(k, _, _) => k == key
    case Del(ks) => key in ks
    case Incr(k) => k == key
    case Expire(k, _) => k == key
    case IncrWithTtl(k, _) => k == key
    case SetNx(k, _, _) => k == key
    case _ => false
  }

  /** A value set can be read until its time to live is over and not from then on; with no
      time to live, or zero, for ever. */
  lemma GetAfterSet(
    s: Store, key: string, value: string, ttl: Option<int>, now: int, later: int, bump: string -> string)
    requires now <= later
    ensures ValueAt(Done(s, Set(key, value, ttl), now, bump), key, later, bump) ==
            if ttl.None? || ttl.value == 0 || later < now + ttl.value * 1000 then Some(value) else None
  {
  }

  lemma GetAfterDel(s: Store, keys: seq<string>, key: string, now: int, later: int, bump: string -> string)
    requires now <= later && key in keys
    ensures ValueAt(Done(s, Del(keys), now, bump), key, later, bump) == None
  {
  }

  /** Commands leave other keys alone, with their values and their expiry. */
  lemma OthersAreUntouched(s: Store, c: Command, key: string, now: int, later: int, bump: string -> string)
    requires now <= later && !Touches(c, key)
    ensures ValueAt(Done(s, c, now, bump), key, later, bump) == ValueAt(s, key, later, bump)
    ensures SecondsLeft(Done(s, c, now, bump), key, later, bump) == SecondsLeft(s, key, later, bump)
  {
  }

  /** SetNx sets exactly if Get would find nothing, and otherwise leaves value and expiry. */
  lemma SetNxSetsIfAbsent(s: Store, key: string, value: string, ttl: Option<int>, now: int, bump: string -> string)
    ensures Eager(s, SetNx(key, value, ttl), now, bump) ==
            if ValueAt(s, key, now, bump) == None then (Done(s, Set(key, value, ttl), now, bump), Flag(true))
            else (Purge(s, now), Flag(false))
  {
    PurgeTwice(s, now, now);
  }

  /** Incr answers the successor of what Get finds, or of "0", stores it, and moves no
      expiry. */
  lemma IncrCountsOn(s: Store, key: string, now: int, later: int, bump: string -> string)
    requires now <= later
    ensures var before := ValueAt(s, key, now, bump);
            var next := bump(if before.Some? then before.value else "0");
            && Eager(s, Incr(key), now, bump).1 == Text(Some(next))
            && (before.None? ==> ValueAt(Done(s, Incr(key), now, bump), key, later, bump) == Some(next)
                                 && SecondsLeft(Done(s, Incr(key), now, bump), key, later, bump) == -1)
            && (before.Some? ==>
                  && SecondsLeft(Done(s, Incr(key), now, bump), key, later, bump) == SecondsLeft(s, key, later, bump)
                  && (ValueAt(Done(s, Incr(key), now, bump), key, later, bump) ==
                      if ValueAt(s, key, later, bump).Some? then Some(next) else None))
  {
  }

  /** Expire gives a key that Get finds exactly that long to live, and makes no other key. */
  lemma ExpireEndsKey(s: Store, key: string, seconds: int, now: int, later: int, bump: string -> string)
    requires now <= later
    ensures ValueAt(Done(s, Expire(key, seconds), now, bump), key, later, bump) ==
            if later < now + seconds * 1000 then ValueAt(s, key, now, bump) else None
  {
  }

  /** Ttl tells the whole seconds left, for a key set with a time to live. */
  lemma TtlAfterSet(s: Store, key: string, value: string, ttl: int, now: int, later: int, bump: string -> string)
    requires now <= later && ttl > 0
    ensures var left := SecondsLeft(Done(s, Set(key, value, Some(ttl)), now, bump), key, later, bump);
            && (later == now ==> left == ttl)
            && (later < now + ttl * 1000 ==> left * 1000 <= now + ttl * 1000 - later < (left + 1) * 1000)
            && (later >= now + ttl * 1000 ==> left == -1)
  {
  }

  /** A counter made by IncrWithTtl lives for the time to live of its first increment; the
      ones that follow count on and never move its expiry. */
  lemma WindowOpensOnce(
    s: Store, key: string, ttl: int, again: int, first: int, second: int, later: int, bump: string -> string)
    requires first <= second <= later && second < first + ttl * 1000
    requires ValueAt(s, key, first, bump) == None
    ensures var once := Done(s, IncrWithTtl(key, ttl), first, bump);
            var twice := Done(once, IncrWithTtl(key, again), second, bump);
            ValueAt(twice, key, later, bump) == if later < first + ttl * 1000 then Some(bump(bump("0"))) else None
  {
  }
}
