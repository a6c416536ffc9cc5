/** Duplicate suppression at ingest: two idempotency keys per call, held in the expiring
    store for the dedupe window. Calls do not overlap. */
module EventGate {
  import opened Options
  import opened RedisModel
  import opened RedisMemory

  const DEDUPE_WINDOW_MS := 120000
  const DEDUPE_WINDOW_SECONDS := 120

  /** One ingest call: its idempotency keys (the first only when the client sent a request
      id), when it came, and what was decided. */
  datatype Call = Call(requestKey: Option<string>, payloadKey: string, at: int, accepted: bool)

  function KeyList(requestKey: Option<string>, payloadKey: string): (keys: seq<string>)
    ensures forall k :: k in keys <==> k == payloadKey || requestKey == Some(k)
  {
    (if requestKey.Some? then [requestKey.value] else []) + [payloadKey]
  }

  predicate HasKey(c: Call, k: string) {
    k == c.payloadKey || c.requestKey == Some(k)
  }

  /** The live entries once call `c` has written its keys. */
  function WithKeys(live: Store, c: Call): Store {
    var entry := Entry("1", Some(c.at + DEDUPE_WINDOW_MS));
    (if c.requestKey.Some? then live[c.requestKey.value := entry] else live)[c.payloadKey := entry]
  }

  /** An accepted call of the last window that has key `k`. */
  ghost predicate Holds(c: Call, k: string, now: int) {
    c.accepted && HasKey(c, k) && now < c.at + DEDUPE_WINDOW_MS
  }

  ghost predicate Held(calls: seq<Call>, k: string, now: int) {
    exists j :: 0 <= j < |calls| && Holds(calls[j], k, now)
  }

  /** The live entries are exactly the keys of the accepted calls of the last window. */
  ghost predicate Mirrors(calls: seq<Call>, live: Store, now: int) {
    && (forall k :: k in live ==> Held(calls, k, now))
    && (forall j, k :: 0 <= j < |calls| && Holds(calls[j], k, now) ==>
          k in live && live[k].expiresAt == Some(calls[j].at + DEDUPE_WINDOW_MS))
  }

  lemma MirrorsLater(calls: seq<Call>, live: Store, now: int, later: int)
    requires Mirrors(calls, live, now) && now <= later
    ensures Mirrors(calls, Purge(live, later), later)
  {
  }

  lemma HeldAppend(calls: seq<Call>, c: Call, k: string, now: int)
    ensures Held(calls + [c], k, now) <==> Held(calls, k, now) || Holds(c, k, now)
  {
    if Held(calls, k, now) {
      var j :| 0 <= j < |calls| && Holds(calls[j], k, now);
      assert (calls + [c])[j] == calls[j];
    }
    assert (calls + [c])[|calls|] == c;
  }

  lemma RejectedMirrors(calls: seq<Call>, c: Call, live: Store, now: int)
    requires Mirrors(calls, live, now) && !c.accepted
    ensures Mirrors(calls + [c], live, now)
  {
    forall k | k in live ensures Held(calls + [c], k, now) {
      HeldAppend(calls, c, k, now);
    }
  }

  lemma AcceptedMirrors(calls: seq<Call>, c: Call, live: Store, live': Store)
    requires Mirrors(calls, live, c.at) && c.accepted
    requires forall k :: HasKey(c, k) ==> k !in live
    requires forall k :: k in live' <==> k in live || HasKey(c, k)
    requires forall k :: k in live' ==>
               if HasKey(c, k) then live'[k].expiresAt == Some(c.at + DEDUPE_WINDOW_MS)
               else live'[k] == live[k]
    ensures Mirrors(calls + [c], live', c.at)
  {
    forall k | k in live' ensures Held(calls + [c], k, c.at) {
      HeldAppend(calls, c, k, c.at);
    }
    forall j, k | 0 <= j < |calls + [c]| && Holds((calls + [c])[j], k, c.at)
      ensures k in live' && live'[k].expiresAt == Some((calls + [c])[j].at + DEDUPE_WINDOW_MS)
    {
      if j < |calls| {
        assert Holds(calls[j], k, c.at);
      }
    }
  }

  /** The decisions of a whole history are what the calls alone imply: a call is refused
      exactly when an earlier accepted call, less than the window ago, has a key in common. */
  ghost predicate Decided(calls: seq<Call>) {
    forall i :: 0 <= i < |calls| ==>
      (calls[i].accepted <==> forall k :: HasKey(calls[i], k) ==> !Held(calls[..i], k, calls[i].at))
  }

  /** Two accepted calls with a common key are at least the window apart. */
  lemma AcceptedCallsAreApart(calls: seq<Call>, i: nat, j: nat, k: string)
    requires Decided(calls) && i < j < |calls| && calls[i].accepted && calls[j].accepted
    requires HasKey(calls[i], k) && HasKey(calls[j], k)
    ensures calls[i].at + 120000 <= calls[j].at
  {
  }

  /** A refused call was answered by an accepted one less than the window before it:
      refusals never extend the window. */
  lemma RefusalHasAcceptedOrigin(calls: seq<Call>, i: nat) returns (j: nat)
    requires Decided(calls) && i < |calls| && !calls[i].accepted
    ensures j < i && calls[j].accepted && calls[i].at < calls[j].at + 120000
    ensures exists k :: HasKey(calls[i], k) && HasKey(calls[j], k)
  {
    var k :| HasKey(calls[i], k) && Held(calls[..i], k, calls[i].at);
    j :| 0 <= j < |calls[..i]| && Holds(calls[..i][j], k, calls[i].at);
  }

  lemma ExistsAnswer(s: Store, k: string, now: int, bump: string -> string)
    ensures Eager(s, Exists(k), now, bump) == (Purge(s, now), Flag(k in Purge(s, now)))
  {
    PurgeTwice(s, now, now);
  }

  lemma SetAnswer(s: Store, k: string, v: string, now: int, bump: string -> string)
    ensures Eager(s, Set(k, v, Some(DEDUPE_WINDOW_SECONDS)), now, bump).0 ==
            Purge(s, now)[k := Entry(v, Some(now + DEDUPE_WINDOW_MS))]
  {
  }

  predicate NoneLive(keys: seq<string>, live: Store) {
    forall k :: k in keys ==> k !in live
  }

  class EventGate {
    const redis: RedisMemory
    // history, written and never read by the gate
    ghost var calls: seq<Call>
    ghost var clock: int

    ghost predicate Valid()
      reads this, redis
    {
      Decided(calls) && Mirrors(calls, Purge(redis.store, clock), clock)
    }

    constructor (redis: RedisMemory, now: int)
      requires redis.store == map[]
      ensures Valid() && calls == [] && this.redis == redis && clock == now
    {
      this.redis := redis;
      calls, clock := [], now;
    }

    /** Is one of the keys still held? */
    method AnyHeld(keys: seq<string>, now: int) returns (found: bool)
      modifies redis`store
      ensures Purge(redis.store, now) == Purge(old(redis.store), now)
      ensures found <==> !NoneLive(keys, Purge(old(redis.store), now))
    {
      var i := 0;
      while i < |keys|
        invariant i <= |keys|
        invariant Purge(redis.store, now) == Purge(old(redis.store), now)
        invariant forall k :: k in keys[..i] ==> k !in Purge(old(redis.store), now)
      {
        ExistsAnswer(redis.store, keys[i], now, redis.bump);
        found := redis.Exists(keys[i], now);
        if found {
          assert keys[i] in keys;
          return;
        }
        assert keys[..i + 1] == keys[..i] + [keys[i]];
        i := i + 1;
      }
      assert keys[..i] == keys;
      found := false;
    }

    /** Writes both keys with the window as their time to live. */
    method TakeKeys(requestKey: Option<string>, payloadKey: string, now: int)
      modifies redis`store
      ensures Purge(redis.store, now) ==
              WithKeys(Purge(old(redis.store), now), Call(requestKey, payloadKey, now, true))
    {
      if requestKey.Some? {
        SetAnswer(redis.store, requestKey.value, "1", now, redis.bump);
        redis.Set(requestKey.value, "1", Some(DEDUPE_WINDOW_SECONDS), now);
      }
      SetAnswer(redis.store, payloadKey, "1", now, redis.bump);
      redis.Set(payloadKey, "1", Some(DEDUPE_WINDOW_SECONDS), now);
    }

    /** Refuses the call if either key is still held; otherwise takes both keys for the
        window. A refused call changes nothing that can be seen. */
    method IngestEvent(requestKey: Option<string>, payloadKey: string, now: int) returns (accepted: bool)
      requires Valid() && clock <= now
      modifies this, redis`store
      ensures Valid() && clock == now
      ensures calls == old(calls) + [Call(requestKey, payloadKey, now, accepted)]
      ensures !accepted ==> Purge(redis.store, now) == Purge(old(redis.store), now)
    {
      PurgeTwice(redis.store, clock, now);
      MirrorsLater(calls, Purge(redis.store, clock), clock, now);
      hide Mirrors, Decided, Purge, KeyList, NoneLive, WithKeys;
      ghost var live := Purge(redis.store, now);
      var keys := KeyList(requestKey, payloadKey);
      var found := AnyHeld(keys, now);
      ghost var call := Call(requestKey, payloadKey, now, !found);
      DecidedOnce(calls, call, live);
      if !found {
        TakeKeys(requestKey, payloadKey, now);
      }
      calls, clock := calls + [call], now;
      return !found;
    }
  }

  /** A call that is accepted exactly when none of its keys is live extends the history. */
  lemma DecidedOnce(calls: seq<Call>, c: Call, live: Store)
    requires Decided(calls) && Mirrors(calls, live, c.at)
    requires c.accepted <==> NoneLive(KeyList(c.requestKey, c.payloadKey), live)
    ensures Decided(calls + [c])
    ensures Mirrors(calls + [c], if c.accepted then WithKeys(live, c) else live, c.at)
  {
    if c.accepted {
      Taken(calls, c, live);
    } else {
      var k :| k in KeyList(c.requestKey, c.payloadKey) && k in live;
      Refused(calls, c, live, k);
    }
  }

  lemma Refused(calls: seq<Call>, c: Call, live: Store, k: string)
    requires Decided(calls) && Mirrors(calls, live, c.at) && !c.accepted && HasKey(c, k) && k in live
    ensures Decided(calls + [c]) && Mirrors(calls + [c], live, c.at)
  {
    RejectedMirrors(calls, c, live, c.at);
    DecidedAppend(calls, c);
  }

  lemma Taken(calls: seq<Call>, c: Call, live: Store)
    requires Decided(calls) && Mirrors(calls, live, c.at) && c.accepted
    requires forall k :: HasKey(c, k) ==> k !in live
    ensures Decided(calls + [c]) && Mirrors(calls + [c], WithKeys(live, c), c.at)
  {
    AcceptedMirrors(calls, c, live, WithKeys(live, c));
    forall k | HasKey(c, k) ensures !Held(calls, k, c.at) {
      if Held(calls, k, c.at) {
        var j :| 0 <= j < |calls| && Holds(calls[j], k, c.at);
      }
    }
    DecidedAppend(calls, c);
  }

  lemma DecidedAppend(calls: seq<Call>, c: Call)
    requires Decided(calls)
    requires c.accepted <==> forall k :: HasKey(c, k) ==> !Held(calls, k, c.at)
    ensures Decided(calls + [c])
  {
    var all := calls + [c];
    forall i | 0 <= i < |all|
      ensures all[i].accepted <==> forall k :: HasKey(all[i], k) ==> !Held(all[..i], k, all[i].at)
    {
      assert all[..i] == if i < |calls| then calls[..i] else calls;
    }
  }
}
