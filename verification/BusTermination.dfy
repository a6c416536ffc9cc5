/** Retries end: every handler run uses up an attempt, so without new publishes the bus
    empties, and then every accepted message has been handled or dead-lettered. */
module BusTermination {
  import opened BusModel
  import opened BusConservation
  import opened BusHistory

  /** Runs the items in `ps` may still get on a consumer with this retry limit. */
  ghost function AttemptsLeft(ps: seq<Pending>, maxRetries: int): int {
    if ps == [] then 0 else Limit(maxRetries) - ps[0].attempts + AttemptsLeft(ps[1..], maxRetries)
  }

  ghost function LeftInQueues(cs: seq<Consumer>): int {
    if cs == [] then 0 else AttemptsLeft(cs[0].pending, cs[0].maxRetries) + LeftInQueues(cs[1..])
  }

  ghost function LeftInFlight(cs: seq<Consumer>, ch: Chain): int {
    if ch.Sweeping? && ch.at < |cs| then AttemptsLeft(ch.due, cs[ch.at].maxRetries) else 0
  }

  ghost function LeftInChains(cs: seq<Consumer>, chs: seq<Chain>): int {
    if chs == [] then 0 else LeftInFlight(cs, chs[0]) + LeftInChains(cs, chs[1..])
  }

  /** All the handler runs the messages now on the bus can still cause. */
  ghost function Remaining(b: Bus): int {
    LeftInQueues(b.consumers) + LeftInChains(b.consumers, b.chains)
  }

  // ---- bookkeeping ---------------------------------------------------------

  lemma {:induction false} LeftAppend(ps: seq<Pending>, p: Pending, maxRetries: int)
    ensures AttemptsLeft(ps + [p], maxRetries) == AttemptsLeft(ps, maxRetries) + Limit(maxRetries) - p.attempts
  {
    if ps == [] {
      assert ps + [p] == [p];
    } else {
      assert (ps + [p])[1..] == ps[1..] + [p];
      LeftAppend(ps[1..], p, maxRetries);
    }
  }

  lemma {:induction false} LeftSplit(ps: seq<Pending>, now: nat, maxRetries: int)
    ensures AttemptsLeft(Due(ps, now), maxRetries) + AttemptsLeft(Later(ps, now), maxRetries)
            == AttemptsLeft(ps, maxRetries)
  {
    if ps != [] {
      LeftSplit(ps[1..], now, maxRetries);
      if ps[0].retryAt <= now {
        assert Due(ps, now)[1..] == Due(ps[1..], now);
        assert Later(ps, now) == Later(ps[1..], now);
      } else {
        assert Later(ps, now)[1..] == Later(ps[1..], now);
        assert Due(ps, now) == Due(ps[1..], now);
      }
    }
  }

  lemma {:induction false} QueuesUpdate(cs: seq<Consumer>, i: nat, c: Consumer)
    requires i < |cs| && c.maxRetries == cs[i].maxRetries
    ensures LeftInQueues(cs[i := c]) == LeftInQueues(cs)
            - AttemptsLeft(cs[i].pending, c.maxRetries) + AttemptsLeft(c.pending, c.maxRetries)
  {
    if i == 0 {
      assert cs[0 := c][1..] == cs[1..];
    } else {
      assert cs[i := c][1..] == cs[1..][i - 1 := c];
      QueuesUpdate(cs[1..], i - 1, c);
    }
  }

  lemma {:induction false} QueuesAppend(cs: seq<Consumer>, c: Consumer)
    requires c.pending == []
    ensures LeftInQueues(cs + [c]) == LeftInQueues(cs)
  {
    if cs == [] {
      assert cs + [c] == [c];
    } else {
      assert (cs + [c])[1..] == cs[1..] + [c];
      QueuesAppend(cs[1..], c);
    }
  }

  lemma {:induction false} ChainsUpdated(cs: seq<Consumer>, chs: seq<Chain>, i: nat, ch: Chain)
    requires i < |chs|
    ensures LeftInChains(cs, chs[i := ch]) == LeftInChains(cs, chs) - LeftInFlight(cs, chs[i]) + LeftInFlight(cs, ch)
  {
    if i == 0 {
      assert chs[0 := ch][1..] == chs[1..];
    } else {
      assert chs[i := ch][1..] == chs[1..][i - 1 := ch];
      ChainsUpdated(cs, chs[1..], i - 1, ch);
    }
  }

  lemma {:induction false} ChainsAppended(cs: seq<Consumer>, chs: seq<Chain>)
    ensures LeftInChains(cs, chs + [Waiting]) == LeftInChains(cs, chs)
  {
    if chs == [] {
      assert chs + [Waiting] == [Waiting];
    } else {
      assert (chs + [Waiting])[1..] == chs[1..] + [Waiting];
      ChainsAppended(cs, chs[1..]);
    }
  }

  /** The chains' share depends on the consumers' limits only. */
  lemma {:induction false} ChainsFrame(cs: seq<Consumer>, cs': seq<Consumer>, chs: seq<Chain>)
    requires |cs| <= |cs'| && forall i :: 0 <= i < |cs| ==> SameConfig(cs[i], cs'[i])
    requires forall ch :: ch in chs && InFlight(ch) != [] ==> ch.at < |cs|
    ensures LeftInChains(cs', chs) == LeftInChains(cs, chs)
  {
    if chs != [] {
      ChainsFrame(cs, cs', chs[1..]);
      assert chs[0] in chs;
      if InFlight(chs[0]) != [] {
        assert SameConfig(cs[chs[0].at], cs'[chs[0].at]);
      }
    }
  }

  lemma FlightsInRange(b: Bus)
    requires Inv(b)
    ensures forall ch :: ch in b.chains && InFlight(ch) != [] ==> ch.at < |b.consumers|
  {
    forall ch | ch in b.chains && InFlight(ch) != [] ensures ch.at < |b.consumers| {
      var c: nat :| c < |b.chains| && b.chains[c] == ch;
      InFlightIsTracked(b, c, InFlight(ch)[0]);
    }
  }

  lemma {:induction false} LeftAtLeastLength(ps: seq<Pending>, maxRetries: int)
    requires forall p :: p in ps ==> p.attempts < Limit(maxRetries)
    ensures AttemptsLeft(ps, maxRetries) >= |ps|
  {
    if ps != [] {
      LeftAtLeastLength(ps[1..], maxRetries);
    }
  }

  lemma {:induction false} QueuesNonNegative(cs: seq<Consumer>)
    requires forall i, p :: 0 <= i < |cs| && p in cs[i].pending ==> p.attempts < Limit(cs[i].maxRetries)
    ensures LeftInQueues(cs) >= 0
    ensures forall i :: 0 <= i < |cs| && cs[i].pending != [] ==> LeftInQueues(cs) > 0
  {
    if cs != [] {
      LeftAtLeastLength(cs[0].pending, cs[0].maxRetries);
      forall i, p | 0 <= i < |cs[1..]| && p in cs[1..][i].pending ensures p.attempts < Limit(cs[1..][i].maxRetries) {
        assert cs[1..][i] == cs[i + 1];
      }
      QueuesNonNegative(cs[1..]);
      forall i | 0 <= i < |cs| && cs[i].pending != [] ensures LeftInQueues(cs) > 0 {
        if i > 0 {
          assert cs[1..][i - 1] == cs[i];
        }
      }
    }
  }

  ghost predicate AttemptsInRange(cs: seq<Consumer>, ch: Chain) {
    forall p :: p in InFlight(ch) ==> ch.at < |cs| && p.attempts < Limit(cs[ch.at].maxRetries)
  }

  lemma {:induction false} ChainsNonNegative(cs: seq<Consumer>, chs: seq<Chain>)
    requires forall ch :: ch in chs ==> AttemptsInRange(cs, ch)
    ensures LeftInChains(cs, chs) >= 0
    ensures forall ch :: ch in chs && InFlight(ch) != [] ==> LeftInChains(cs, chs) > 0
  {
    if chs != [] {
      ChainsNonNegative(cs, chs[1..]);
      var ch := chs[0];
      assert AttemptsInRange(cs, ch);
      if ch.Sweeping? && ch.at < |cs| {
        assert InFlight(ch) == ch.due;
        LeftAtLeastLength(ch.due, cs[ch.at].maxRetries);
      } else {
        assert InFlight(ch) == [] || InFlight(ch)[0] in InFlight(ch);
      }
    }
  }

  /** Nothing remains only when the bus is idle. */
  lemma RemainingNonNegative(b: Bus)
    requires Inv(b)
    ensures Remaining(b) >= 0
    ensures forall i :: 0 <= i < |b.consumers| && b.consumers[i].pending != [] ==> Remaining(b) > 0
    ensures forall c :: 0 <= c < |b.chains| && InFlight(b.chains[c]) != [] ==> Remaining(b) > 0
  {
    forall i, p | 0 <= i < |b.consumers| && p in b.consumers[i].pending
      ensures p.attempts < Limit(b.consumers[i].maxRetries)
    {
      assert Tracked(b, i, p);
    }
    QueuesNonNegative(b.consumers);
    forall ch | ch in b.chains ensures AttemptsInRange(b.consumers, ch) {
      var c: nat :| c < |b.chains| && b.chains[c] == ch;
      forall p | p in InFlight(ch) ensures Tracked(b, ch.at, p) {
        InFlightIsTracked(b, c, p);
      }
    }
    ChainsNonNegative(b.consumers, b.chains);
  }

  // ---- every step ----------------------------------------------------------

  lemma CollectedRemaining(b: Bus, c: nat)
    requires Inv(b) && CanCollect(b, c)
    ensures Remaining(Collected(b, c)) == Remaining(b)
  {
    var ch := b.chains[c];
    var consumer := b.consumers[ch.at];
    var due := Due(consumer.pending, ch.now);
    if due == [] {
      ChainsUpdated(b.consumers, b.chains, c, Sweeping(ch.now, ch.at + 1, []));
    } else {
      var rest := consumer.(pending := Later(consumer.pending, ch.now));
      LeftSplit(consumer.pending, ch.now, consumer.maxRetries);
      QueuesUpdate(b.consumers, ch.at, rest);
      ChainsUpdated(b.consumers, b.chains, c, Sweeping(ch.now, ch.at, due));
      var b' := Collected(b, c);
      FlightsInRange(b);
      CollectedInv(b, c);
      FlightsInRange(b');
      ChainsFrame(b.consumers, b'.consumers, b'.chains);
    }
  }

  /** Each handler run uses up at least one of the remaining attempts. */
  lemma SettledRemaining(b: Bus, c: nat, ok: bool)
    requires Inv(b) && CanSettle(b, c)
    ensures Remaining(Settled(b, c, ok)) <= Remaining(b) - 1
  {
    var ch := b.chains[c];
    var item := ch.due[0];
    var consumer := b.consumers[ch.at];
    HeadIsTracked(b, c);
    TakenRemaining(b, c);
    if !ok && item.attempts + 1 < consumer.maxRetries {
      var retry := RetryOf(item, ch.now, consumer.retryBaseMs);
      RequeuedRemaining(Taken(b, c), ch.at, retry);
      SettledInv(b, c, ok);
      FlightsInRange(Settled(b, c, ok));
    }
  }

  lemma TakenRemaining(b: Bus, c: nat)
    requires Inv(b) && CanSettle(b, c)
    ensures var ch := b.chains[c];
            Remaining(Taken(b, c)) ==
            Remaining(b) - (Limit(b.consumers[ch.at].maxRetries) - ch.due[0].attempts)
    ensures forall x :: x in Taken(b, c).chains && InFlight(x) != [] ==> x.at < |b.consumers|
  {
    var ch := b.chains[c];
    ChainsUpdated(b.consumers, b.chains, c, Advanced(ch));
    var limit := b.consumers[ch.at].maxRetries;
    assert AttemptsLeft(ch.due, limit) == Limit(limit) - ch.due[0].attempts + AttemptsLeft(ch.due[1..], limit);
    if |ch.due| == 1 {
      assert ch.due[1..] == [];
    }
    assert LeftInFlight(b.consumers, Advanced(ch)) == AttemptsLeft(ch.due[1..], limit);
    FlightsInRange(b);
  }

  lemma RequeuedRemaining(b: Bus, i: nat, p: Pending)
    requires i < |b.consumers|
    requires forall x :: x in b.chains && InFlight(x) != [] ==> x.at < |b.consumers|
    ensures Remaining(b.(consumers := b.consumers[i := Enqueue(b.consumers[i], p)])) ==
            Remaining(b) + Limit(b.consumers[i].maxRetries) - p.attempts
  {
    var c' := Enqueue(b.consumers[i], p);
    LeftAppend(b.consumers[i].pending, p, c'.maxRetries);
    QueuesUpdate(b.consumers, i, c');
    ChainsFrame(b.consumers, b.consumers[i := c'], b.chains);
  }

  /** Only a publish can add work; a handler run always removes some. */
  lemma StepRemaining(b: Bus, e: Step)
    requires Inv(b) && Enabled(b, e) && !e.Publish?
    ensures Remaining(Next(b, e)) <= Remaining(b) - if e.Settle? then 1 else 0
    ensures |Next(b, e).runs| == |b.runs| + if e.Settle? then 1 else 0
    ensures Next(b, e).accepted == b.accepted
  {
    match e
    case Consume(s, maxRetries, base) =>
      var c := Consumer(s, maxRetries, base, []);
      QueuesAppend(b.consumers, c);
      ChainsAppended(b.consumers + [c], b.chains);
      FlightsInRange(b);
      ChainsFrame(b.consumers, b.consumers + [c], b.chains);
    case StartTick(c, now) => ChainsUpdated(b.consumers, b.chains, c, Sweeping(now, 0, []));
    case Collect(c) => CollectedRemaining(b, c);
    case Settle(c, ok) => SettledRemaining(b, c, ok);
    case EndTick(c) => ChainsUpdated(b.consumers, b.chains, c, Waiting);
  }

  /** Without publishes, no interleaving of the tick chains runs handlers more often
      than the attempts that remained at the start. */
  lemma {:induction false} RunsAreBounded(b: Bus, es: seq<Step>)
    requires Inv(b) && Runnable(b, es)
    requires forall e :: e in es ==> !e.Publish?
    ensures After(b, es).accepted == b.accepted
    ensures |After(b, es).runs| - |b.runs| <= Remaining(b) - Remaining(After(b, es))
    ensures |After(b, es).runs| - |b.runs| <= Remaining(b)
    decreases |es|
  {
    RemainingNonNegative(b);
    if es != [] {
      StepRemaining(b, es[0]);
      StepKeepsInv(b, es[0]);
      RunsAreBounded(Next(b, es[0]), es[1..]);
    }
  }

  // ---- draining ------------------------------------------------------------

  /** Chain `c` is in the middle of a tick and stands where its items came from. */
  ghost predicate MidTick(b: Bus, c: nat) {
    c < |b.chains| && b.chains[c].Sweeping? && (b.chains[c].due != [] ==> b.chains[c].at < |b.consumers|)
  }

  /** Chain `c` finishes its tick alone; `oracle(n)` is the outcome of the n-th run of
      the bus. */
  ghost function Sweep(b: Bus, c: nat, oracle: nat -> bool): Bus
    requires MidTick(b, c)
    decreases |b.consumers| - b.chains[c].at, if b.chains[c].due == [] then 1 else 0, |b.chains[c].due|
  {
    if CanSettle(b, c) then Sweep(Settled(b, c, oracle(|b.runs|)), c, oracle)
    else if CanCollect(b, c) then Sweep(Collected(b, c), c, oracle)
    else Ended(b, c)
  }

  /** How a tick goes on, one atomic piece at a time. */
  lemma SweepSettles(b: Bus, c: nat, oracle: nat -> bool)
    requires MidTick(b, c) && CanSettle(b, c)
    ensures var b' := Settled(b, c, oracle(|b.runs|));
            && MidTick(b', c) && Sweep(b, c, oracle) == Sweep(b', c, oracle)
            && |b'.consumers| == |b.consumers| && b'.chains[c] == Advanced(b.chains[c])
  {
  }

  lemma SweepCollects(b: Bus, c: nat, oracle: nat -> bool)
    requires MidTick(b, c) && CanCollect(b, c)
    ensures var b' := Collected(b, c);
            && MidTick(b', c) && Sweep(b, c, oracle) == Sweep(b', c, oracle)
            && |b'.consumers| == |b.consumers|
            && b'.chains[c].at == b.chains[c].at + if b'.chains[c].due == [] then 1 else 0
  {
  }

  lemma SweepEnds(b: Bus, c: nat, oracle: nat -> bool)
    requires MidTick(b, c) && CanEnd(b, c)
    ensures Sweep(b, c, oracle) == Ended(b, c)
  {
  }

  ghost function Tick(b: Bus, c: nat, now: nat, oracle: nat -> bool): Bus
    requires CanStart(b, c)
  {
    Sweep(Started(b, c, now), c, oracle)
  }

  /** Something that the rest of the tick of chain `c` will run. */
  ghost predicate HasWork(b: Bus, c: nat)
    requires MidTick(b, c)
  {
    || b.chains[c].due != []
    || exists i, p :: b.chains[c].at <= i < |b.consumers| && p in b.consumers[i].pending && p.retryAt <= b.chains[c].now
  }

  lemma {:induction false} DueIsComplete(ps: seq<Pending>, now: nat)
    ensures forall p :: p in ps && p.retryAt <= now ==> p in Due(ps, now)
  {
    if ps != [] {
      DueIsComplete(ps[1..], now);
    }
  }

  /** A tick that finds something due uses up an attempt, whatever the handlers do. */
  lemma {:induction false} SweepRemaining(b: Bus, c: nat, oracle: nat -> bool)
    requires Inv(b) && MidTick(b, c)
    ensures var b' := Sweep(b, c, oracle);
            && Inv(b')
            && b'.accepted == b.accepted && |b'.consumers| == |b.consumers|
            && b'.chains == b.chains[c := Waiting]
            && Remaining(b') <= Remaining(b) - if HasWork(b, c) then 1 else 0
    decreases |b.consumers| - b.chains[c].at, if b.chains[c].due == [] then 1 else 0, |b.chains[c].due|
  {
    hide Inv, Remaining, RetryOf, Limit;
    if CanSettle(b, c) {
      var ok := oracle(|b.runs|);
      StepRemaining(b, Settle(c, ok));
      SettledInv(b, c, ok);
      SweepRemaining(Settled(b, c, ok), c, oracle);
    } else if CanCollect(b, c) {
      CollectedRemaining(b, c);
      CollectedInv(b, c);
      CollectKeepsWork(b, c);
      SweepRemaining(Collected(b, c), c, oracle);
    } else {
      StepRemaining(b, EndTick(c));
      EndedInv(b, c);
    }
  }

  lemma CollectKeepsWork(b: Bus, c: nat)
    requires CanCollect(b, c)
    ensures MidTick(Collected(b, c), c)
    ensures HasWork(b, c) ==> HasWork(Collected(b, c), c)
  {
    if !HasWork(b, c) { return; }
    var ch := b.chains[c];
    DueIsComplete(b.consumers[ch.at].pending, ch.now);
    var i, p :| ch.at <= i < |b.consumers| && p in b.consumers[i].pending && p.retryAt <= ch.now;
    if Due(b.consumers[ch.at].pending, ch.now) == [] {
      assert i != ch.at;
      assert Collected(b, c).consumers == b.consumers;
    }
  }

  /** No message waits on a consumer, and no chain has one in flight. */
  ghost predicate Idle(b: Bus) {
    && (forall i :: 0 <= i < |b.consumers| ==> b.consumers[i].pending == [])
    && (forall c :: 0 <= c < |b.chains| ==> InFlight(b.chains[c]) == [])
  }

  /** A clock reading at which every waiting message is due. */
  ghost predicate AllDue(b: Bus, now: nat) {
    forall i, p :: 0 <= i < |b.consumers| && p in b.consumers[i].pending ==> p.retryAt <= now
  }

  /** Chain `c` ticks at the readings `times`, each taken once everything waiting then
      is due. */
  ghost predicate LateTicks(b: Bus, c: nat, times: seq<nat>, oracle: nat -> bool)
    decreases |times|
  {
    times != [] ==>
      && CanStart(b, c) && AllDue(b, times[0])
      && LateTicks(Tick(b, c, times[0], oracle), c, times[1..], oracle)
  }

  ghost function AfterTicks(b: Bus, c: nat, times: seq<nat>, oracle: nat -> bool): Bus
    requires LateTicks(b, c, times, oracle)
    decreases |times|
  {
    if times == [] then b else AfterTicks(Tick(b, c, times[0], oracle), c, times[1..], oracle)
  }

  lemma {:induction false} NothingIn(cs: seq<Consumer>, id: nat)
    requires forall i :: 0 <= i < |cs| ==> cs[i].pending == []
    ensures InConsumers(cs, id) == 0
  {
    if cs != [] {
      forall i | 0 <= i < |cs[1..]| ensures cs[1..][i].pending == [] {
        assert cs[1..][i] == cs[i + 1];
      }
      NothingIn(cs[1..], id);
    }
  }

  lemma {:induction false} NothingInFlight(chs: seq<Chain>, id: nat)
    requires forall c :: 0 <= c < |chs| ==> InFlight(chs[c]) == []
    ensures InChains(chs, id) == 0
  {
    if chs != [] {
      forall c | 0 <= c < |chs[1..]| ensures InFlight(chs[1..][c]) == [] {
        assert chs[1..][c] == chs[c + 1];
      }
      NothingInFlight(chs[1..], id);
    }
  }

  /** How many messages of `ms` have an identity below `n`, counted identity by identity. */
  ghost function CountBelow(ms: seq<Message>, n: nat): nat {
    if n == 0 then 0 else CountBelow(ms, n - 1) + InMessages(ms, n - 1)
  }

  lemma {:induction false} CountBelowHead(ms: seq<Message>, n: nat)
    requires ms != []
    ensures CountBelow(ms, n) == CountBelow(ms[1..], n) + if ms[0].id < n then 1 else 0
  {
    if n > 0 {
      CountBelowHead(ms, n - 1);
    }
  }

  lemma {:induction false} CountBelowNone(n: nat)
    ensures CountBelow([], n) == 0
  {
    if n > 0 {
      CountBelowNone(n - 1);
    }
  }

  lemma {:induction false} CountBelowAll(ms: seq<Message>, n: nat)
    requires forall m :: m in ms ==> m.id < n
    ensures CountBelow(ms, n) == |ms|
  {
    if ms == [] {
      CountBelowNone(n);
    } else {
      CountBelowHead(ms, n);
      CountBelowAll(ms[1..], n);
    }
  }

  lemma {:induction false} CountsAddUp(ms: seq<Message>, ms': seq<Message>, n: nat)
    requires forall id: nat :: id < n ==> InMessages(ms, id) + InMessages(ms', id) == 1
    ensures CountBelow(ms, n) + CountBelow(ms', n) == n
  {
    if n > 0 {
      CountsAddUp(ms, ms', n - 1);
    }
  }

  /** On an idle bus every accepted message is handled or dead-lettered, once, and these
      are all there are. */
  lemma IdleMeansDone(b: Bus)
    requires Inv(b) && Idle(b)
    ensures forall id: nat :: id < |b.accepted| ==> InMessages(b.handled, id) + InMessages(b.deadLetters, id) == 1
    ensures |b.handled| + |b.deadLetters| == |b.accepted|
  {
    EachOnce(b);
    CountBelowAll(b.handled, |b.accepted|);
    CountBelowAll(b.deadLetters, |b.accepted|);
    CountsAddUp(b.handled, b.deadLetters, |b.accepted|);
  }

  lemma EachOnce(b: Bus)
    requires Inv(b) && Idle(b)
    ensures forall id: nat :: id < |b.accepted| ==> InMessages(b.handled, id) + InMessages(b.deadLetters, id) == 1
    ensures forall m :: m in b.handled || m in b.deadLetters ==> m.id < |b.accepted|
  {
    forall id: nat | id < |b.accepted| ensures InMessages(b.handled, id) + InMessages(b.deadLetters, id) == 1 {
      NothingIn(b.consumers, id);
      NothingInFlight(b.chains, id);
      assert Occurrences(b, id) == 1;
    }
  }

  lemma TickRemaining(b: Bus, c: nat, now: nat, oracle: nat -> bool)
    requires Inv(b) && CanStart(b, c) && AllDue(b, now)
    ensures var b' := Tick(b, c, now, oracle);
            && Inv(b') && b'.accepted == b.accepted && b'.chains == b.chains
            && Remaining(b') <= Remaining(b)
            && (Remaining(b') == Remaining(b) ==> forall i :: 0 <= i < |b.consumers| ==> b.consumers[i].pending == [])
  {
    var s := Started(b, c, now);
    StepRemaining(b, StartTick(c, now));
    StartedInv(b, c, now);
    SweepRemaining(s, c, oracle);
    assert s.chains[c := Waiting] == b.chains;
    if i :| 0 <= i < |b.consumers| && b.consumers[i].pending != [] {
      assert b.consumers[i].pending[0] in s.consumers[i].pending;
      assert HasWork(s, c);
    }
  }

  /** A chain that has the bus to itself needs no more ticks over due messages than
      attempts remain. */
  lemma {:induction false} LoneChainDrains(b: Bus, c: nat, times: seq<nat>, oracle: nat -> bool)
    requires Inv(b) && LateTicks(b, c, times, oracle)
    requires forall d :: 0 <= d < |b.chains| ==> InFlight(b.chains[d]) == []
    requires |times| >= Remaining(b)
    ensures var b' := AfterTicks(b, c, times, oracle);
            && b'.accepted == b.accepted && Idle(b')
            && |b'.handled| + |b'.deadLetters| == |b.accepted|
            && forall id: nat :: id < |b.accepted| ==> InMessages(b'.handled, id) + InMessages(b'.deadLetters, id) == 1
    decreases |times|
  {
    RemainingNonNegative(b);
    if times == [] {
      IdleMeansDone(b);
    } else {
      var b1 := Tick(b, c, times[0], oracle);
      TickRemaining(b, c, times[0], oracle);
      if Remaining(b1) < Remaining(b) {
        LoneChainDrains(b1, c, times[1..], oracle);
      } else {
        EmptyTick(b, c, times[0], oracle);
        IdleTicks(b1, c, times[1..], oracle);
      }
    }
  }

  lemma {:induction false} EmptySweep(b: Bus, c: nat, oracle: nat -> bool)
    requires MidTick(b, c) && b.chains[c].due == []
    requires forall i :: 0 <= i < |b.consumers| ==> b.consumers[i].pending == []
    ensures Sweep(b, c, oracle) == b.(chains := b.chains[c := Waiting])
    decreases |b.consumers| - b.chains[c].at
  {
    if CanCollect(b, c) {
      var b' := Collected(b, c);
      EmptySweep(b', c, oracle);
      assert b'.chains[c := Waiting] == b.chains[c := Waiting];
    }
  }

  lemma EmptyTick(b: Bus, c: nat, now: nat, oracle: nat -> bool)
    requires CanStart(b, c)
    requires forall i :: 0 <= i < |b.consumers| ==> b.consumers[i].pending == []
    ensures Tick(b, c, now, oracle) == b
  {
    EmptySweep(Started(b, c, now), c, oracle);
    assert Started(b, c, now).chains[c := Waiting] == b.chains;
  }

  lemma {:induction false} IdleTicks(b: Bus, c: nat, times: seq<nat>, oracle: nat -> bool)
    requires Inv(b) && Idle(b) && LateTicks(b, c, times, oracle)
    ensures var b' := AfterTicks(b, c, times, oracle);
            && b' == b
            && |b'.handled| + |b'.deadLetters| == |b.accepted|
            && forall id: nat :: id < |b.accepted| ==> InMessages(b'.handled, id) + InMessages(b'.deadLetters, id) == 1
    decreases |times|
  {
    if times == [] {
      IdleMeansDone(b);
    } else {
      EmptyTick(b, c, times[0], oracle);
      IdleTicks(b, c, times[1..], oracle);
    }
  }
}
