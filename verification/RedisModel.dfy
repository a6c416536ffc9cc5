/** The key-value part of the in-memory Redis: entries that expire, dropped lazily by the
    code and eagerly by the specification. */
module RedisModel {
  import opened Options

  datatype Entry = Entry(value: string, expiresAt: Option<int>)

  type Store = map<string, Entry>

  const MS_PER_SECOND := 1000

  predicate Live(e: Entry, now: int) {
    e.expiresAt.None? || e.expiresAt.value > now
  }

  /** What is left at `now` when every key vanishes the instant it expires. */
  function Purge(s: Store, now: int): Store {
    map k | k in s && Live(s[k], now) :: s[k]
  }

  /** Commands; `bump` in the functions below is what String(Number(v) + 1) makes of a
      stored text. */
  datatype Command =
    | Get(key: string)
    | Set(key: string, value: string, ttlSeconds: Option<int>)
    | Del(keys: seq<string>)
    | Incr(key: string)
    | Expire(key: string, seconds: int)
    | Ttl(key: string)
    | Exists(key: string)
    | IncrWithTtl(key: string, seconds: int)
    | SetNx(key: string, value: string, ttlSeconds: Option<int>)

  datatype Answer = Nothing | Text(text: Option<string>) | Seconds(seconds: int) | Flag(flag: bool)

  /** No time to live, or zero, means the entry never expires. */
  function ExpiryOf(ttlSeconds: Option<int>, now: int): Option<int> {
    if ttlSeconds.None? || ttlSeconds.value == 0 then None else Some(now + ttlSeconds.value * MS_PER_SECOND)
  }

  function Max(a: int, b: int): int {
    if a >= b then a else b
  }

  function Next(s: Store, key: string, bump: string -> string): string {
    bump(if key in s then s[key].value else "0")
  }

  /** The command on a plain map that holds no expired entry. */
  function Executed(s: Store, c: Command, now: int, bump: string -> string): (Store, Answer) {
    match c
    case Get(k) => (s, Text(if k in s then Some(s[k].value) else None))
    case Set(k, v, ttl) => (s[k := Entry(v, ExpiryOf(ttl, now))], Nothing)
    case Del(ks) => (s - (set k | k in ks), Nothing)
    case Incr(k) =>
      var next := Next(s, k, bump);
      (s[k := Entry(next, if k in s then s[k].expiresAt else None)], Text(Some(next)))
    case Expire(k, seconds) =>
      (if k in s then s[k := s[k].(expiresAt := Some(now + seconds * MS_PER_SECOND))] else s, Nothing)
    case Ttl(k) =>
      (s, Seconds(if k !in s || s[k].expiresAt.None? then -1
                  else Max(0, (s[k].expiresAt.value - now) / MS_PER_SECOND)))
    case Exists(k) => (s, Flag(k in s))
    case IncrWithTtl(k, seconds) =>
      var next := Next(s, k, bump);
      var expiry := if k in s && s[k].expiresAt.Some? then s[k].expiresAt else Some(now + seconds * MS_PER_SECOND);
      (s[k := Entry(next, expiry)], Text(Some(next)))
    case SetNx(k, v, ttl) =>
      (if k in s then s else s[k := Entry(v, ExpiryOf(ttl, now))], Flag(k !in s))
  }

  /** The eager map: expired keys go first, then the command runs, and an entry that is
      written already expired goes at once. */
  function Eager(s: Store, c: Command, now: int, bump: string -> string): (Store, Answer) {
    var (s', a) := Executed(Purge(s, now), c, now, bump);
    (Purge(s', now), a)
  }

  datatype Request = Request(command: Command, at: int)

  ghost predicate InOrder(rs: seq<Request>) {
    forall j, k :: 0 <= j < k < |rs| ==> rs[j].at <= rs[k].at
  }

  /** All answers of the eager map, one after the other. */
  ghost function EagerAnswers(s: Store, rs: seq<Request>, bump: string -> string): seq<Answer>
    decreases |rs|
  {
    if rs == [] then []
    else
      var (s', a) := Eager(s, rs[0].command, rs[0].at, bump);
      [a] + EagerAnswers(s', rs[1..], bump)
  }

  /** What has expired stays expired: purging early and again is purging once. */
  lemma PurgeTwice(s: Store, now: int, later: int)
    requires now <= later
    ensures Purge(Purge(s, now), later) == Purge(s, later)
  {
  }

  /** Stores that agree on what is live give the same answers from then on. */
  lemma SameAnswers(s: Store, s': Store, rs: seq<Request>, now: int, bump: string -> string)
    requires Purge(s, now) == Purge(s', now) && InOrder(rs)
    requires rs != [] ==> now <= rs[0].at
    ensures EagerAnswers(s, rs, bump) == EagerAnswers(s', rs, bump)
  {
    if rs != [] {
      PurgeTwice(s, now, rs[0].at);
      PurgeTwice(s', now, rs[0].at);
    }
  }

  /** Dropping an expired entry changes nothing anyone can see. */
  lemma DropExpired(s: Store, key: string, now: int)
    requires key in s && !Live(s[key], now)
    ensures Purge(s - {key}, now) == Purge(s, now) && key !in Purge(s, now)
  {
  }

  lemma Written(s: Store, key: string, e: Entry, now: int)
    ensures Purge(s[key := e], now) == Purge(Purge(s, now)[key := e], now)
  {
  }

  lemma Overwritten(s: Store, key: string, e: Entry, e': Entry, now: int)
    ensures Purge(Purge(s[key := e], now)[key := e'], now) == Purge(s[key := e'], now)
  {
  }

  lemma Removed(s: Store, keys: set<string>, now: int)
    ensures Purge(s - keys, now) == Purge(Purge(s, now) - keys, now)
  {
  }
}
