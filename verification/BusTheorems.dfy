/** What the invariant of the bus means for a publisher, over every run. */
module BusTheorems {
  import opened BusModel
  import opened BusConservation
  import opened BusHistory
  import opened BusOrigins

  lemma {:induction false} LoggedUnderItsId(runs: seq<HandlerRun>, r: HandlerRun)
    requires r in runs
    ensures r in RunsOf(runs, r.seen.id)
  {
    var n := |runs| - 1;
    if runs[n] != r {
      assert r in runs[..n];
      LoggedUnderItsId(runs[..n], r);
    }
  }

  /** `m` is what its publisher handed in, apart from the attempt count. */
  ghost predicate Genuine(b: Bus, m: Message) {
    m.id < |b.accepted| && m == b.accepted[m.id].message.(attempts := m.attempts)
  }

  /** `m` is genuine and consumer `i`, of the message's own subject, is where it was routed. */
  ghost predicate Belongs(b: Bus, m: Message, i: nat) {
    && Genuine(b, m)
    && b.accepted[m.id].consumer == i < |b.consumers|
    && b.consumers[i].subject == b.accepted[m.id].subject
  }

  lemma TrackedBelongs(b: Bus, i: nat, p: Pending)
    requires AllLived(b) && Tracked(b, i, p)
    ensures Belongs(b, p.message, i)
  {
    assert Lived(b, p.message.id);
  }

  lemma RunBelongs(b: Bus, r: HandlerRun)
    requires AllLived(b) && r in b.runs
    ensures Belongs(b, r.seen, r.consumer)
  {
    LoggedUnderItsId(b.runs, r);
    assert Lived(b, r.seen.id);
  }

  lemma SettledIsGenuine(b: Bus, m: Message)
    requires AllLived(b) && OutcomesRecorded(b) && (m in b.handled || m in b.deadLetters)
    ensures Genuine(b, m)
  {
    assert m.id < |b.accepted| by {
      assert m in b.handled ==> HandledOnce(b, m);
      assert m in b.deadLetters ==> Exhausted(b, m);
    }
    var rs := RunsOf(b.runs, m.id);
    assert rs != [] && rs[|rs| - 1].seen == m by {
      assert m in b.handled ==> HandledOnce(b, m);
      assert m in b.deadLetters ==> Exhausted(b, m);
    }
    RunBelongs(b, rs[|rs| - 1]);
  }

  /** From the empty bus, whatever is published, consumed and failed, and however the
      tick chains interleave: every accepted message is in exactly one place; every copy
      that waits, is in flight, was handled or dead-lettered has its content, type and
      publish time unchanged; and it waits, flies and is run only on the consumer, of its
      own subject, that it was routed to. */
  lemma EveryRunIsSafe(es: seq<Step>)
    requires Runnable(EMPTY_BUS, es)
    ensures var b := After(EMPTY_BUS, es);
            && (forall id: nat :: Occurrences(b, id) == if id < |b.accepted| then 1 else 0)
            && (forall r :: r in b.runs ==> Belongs(b, r.seen, r.consumer))
            && (forall i, p :: 0 <= i < |b.consumers| && p in b.consumers[i].pending ==> Belongs(b, p.message, i))
            && (forall c, p :: 0 <= c < |b.chains| && p in InFlight(b.chains[c]) ==>
                  Belongs(b, p.message, b.chains[c].at))
            && (forall m :: m in b.handled || m in b.deadLetters ==> Genuine(b, m))
  {
    EmptyBusInv();
    RunKeepsInv(EMPTY_BUS, es);
    EverythingBelongs(After(EMPTY_BUS, es));
  }

  lemma EverythingBelongs(b: Bus)
    requires Inv(b)
    ensures forall r :: r in b.runs ==> Belongs(b, r.seen, r.consumer)
    ensures forall i, p :: 0 <= i < |b.consumers| && p in b.consumers[i].pending ==> Belongs(b, p.message, i)
    ensures forall c, p :: 0 <= c < |b.chains| && p in InFlight(b.chains[c]) ==>
              Belongs(b, p.message, b.chains[c].at)
    ensures forall m :: m in b.handled || m in b.deadLetters ==> Genuine(b, m)
  {
    hide Tracked, Belongs, Genuine, AllLived, OutcomesRecorded, Conserved;
    forall r | r in b.runs ensures Belongs(b, r.seen, r.consumer) {
      RunBelongs(b, r);
    }
    forall i, p | 0 <= i < |b.consumers| && p in b.consumers[i].pending ensures Belongs(b, p.message, i) {
      TrackedBelongs(b, i, p);
    }
    forall c, p | 0 <= c < |b.chains| && p in InFlight(b.chains[c]) ensures Belongs(b, p.message, b.chains[c].at) {
      InFlightIsTracked(b, c, p);
      TrackedBelongs(b, b.chains[c].at, p);
    }
    forall m | m in b.handled || m in b.deadLetters ensures Genuine(b, m) {
      SettledIsGenuine(b, m);
    }
  }

  /** The consume call that set up the consumer to which message `id` was routed. */
  ghost function ConsumeOf(es: seq<Step>, id: nat): (e: Step)
    requires Runnable(EMPTY_BUS, es) && id < |After(EMPTY_BUS, es).accepted|
    ensures e.Consume? && e.subject == After(EMPTY_BUS, es).accepted[id].subject
  {
    var b := After(EMPTY_BUS, es);
    EmptyBusInv();
    RunKeepsInv(EMPTY_BUS, es);
    assert Lived(b, id);
    ConsumersAreAsConsumed(es, b.accepted[id].consumer);
    Consumes(es)[b.accepted[id].consumer]
  }

  /** A message ends in the dead-letter list exactly when max(1, maxRetries) runs have
      failed, for the maxRetries its consumer was started with, and it is handled exactly
      when one run, its last, succeeded. */
  lemma RetryBound(es: seq<Step>, id: nat)
    requires Runnable(EMPTY_BUS, es) && id < |After(EMPTY_BUS, es).accepted|
    ensures var b := After(EMPTY_BUS, es);
            var maxRetries := ConsumeOf(es, id).maxRetries;
            var limit := if maxRetries >= 1 then maxRetries else 1;
            var rs := RunsOf(b.runs, id);
            && |rs| <= limit
            && (forall k :: 0 <= k < |rs| - 1 ==> !rs[k].ok)
            && (InMessages(b.handled, id) == 1 <==> Succeeded(rs))
            && (InMessages(b.deadLetters, id) == 1 <==> GaveUp(rs, limit))
  {
    EmptyBusInv();
    RunKeepsInv(EMPTY_BUS, es);
    var b := After(EMPTY_BUS, es);
    assert Lived(b, id);
    Whereabouts(b, id);
    ConsumersAreAsConsumed(es, b.accepted[id].consumer);
  }

  lemma {:induction false} FindPending(ps: seq<Pending>, id: nat) returns (p: Pending)
    requires InPending(ps, id) >= 1
    ensures p in ps && p.message.id == id
  {
    if ps[0].message.id == id {
      p := ps[0];
    } else {
      p := FindPending(ps[1..], id);
    }
  }

  lemma {:induction false} FindInConsumers(cs: seq<Consumer>, id: nat) returns (i: nat, p: Pending)
    requires InConsumers(cs, id) >= 1
    ensures i < |cs| && p in cs[i].pending && p.message.id == id
  {
    if InPending(cs[0].pending, id) >= 1 {
      i := 0;
      p := FindPending(cs[0].pending, id);
    } else {
      i, p := FindInConsumers(cs[1..], id);
      i := i + 1;
    }
  }

  lemma {:induction false} FindInChains(chs: seq<Chain>, id: nat) returns (c: nat, p: Pending)
    requires InChains(chs, id) >= 1
    ensures c < |chs| && p in InFlight(chs[c]) && p.message.id == id
  {
    if InPending(InFlight(chs[0]), id) >= 1 {
      c := 0;
      p := FindPending(InFlight(chs[0]), id);
    } else {
      c, p := FindInChains(chs[1..], id);
      c := c + 1;
    }
  }

  lemma {:induction false} FindMessage(ms: seq<Message>, id: nat) returns (m: Message)
    requires InMessages(ms, id) >= 1
    ensures m in ms && m.id == id
  {
    if ms[0].id == id {
      m := ms[0];
    } else {
      m := FindMessage(ms[1..], id);
    }
  }

  /** The four places, told apart by the history alone. */
  ghost predicate Succeeded(rs: seq<HandlerRun>) { rs != [] && rs[|rs| - 1].ok }

  ghost predicate GaveUp(rs: seq<HandlerRun>, limit: nat) { |rs| == limit && !Succeeded(rs) }

  lemma WhenHandled(b: Bus, id: nat)
    requires Inv(b) && InMessages(b.handled, id) >= 1
    ensures Succeeded(RunsOf(b.runs, id))
  {
    var m := FindMessage(b.handled, id);
    assert HandledOnce(b, m);
  }

  lemma WhenDead(b: Bus, id: nat)
    requires Inv(b) && InMessages(b.deadLetters, id) >= 1
    ensures id < |b.accepted| && b.accepted[id].consumer < |b.consumers|
    ensures GaveUp(RunsOf(b.runs, id), Limit(b.consumers[b.accepted[id].consumer].maxRetries))
  {
    var m := FindMessage(b.deadLetters, id);
    assert Exhausted(b, m);
  }

  lemma TrackedIsOpen(b: Bus, i: nat, p: Pending)
    requires Tracked(b, i, p)
    ensures var id := p.message.id;
            && id < |b.accepted| && b.accepted[id].consumer == i < |b.consumers|
            && |RunsOf(b.runs, id)| < Limit(b.consumers[i].maxRetries)
            && !Succeeded(RunsOf(b.runs, id))
  {
  }

  lemma WhenWaiting(b: Bus, id: nat)
    requires Inv(b) && InConsumers(b.consumers, id) + InChains(b.chains, id) >= 1
    ensures id < |b.accepted| && b.accepted[id].consumer < |b.consumers|
    ensures |RunsOf(b.runs, id)| < Limit(b.consumers[b.accepted[id].consumer].maxRetries)
    ensures !Succeeded(RunsOf(b.runs, id))
  {
    hide Tracked, RunsOf, Limit;
    if InConsumers(b.consumers, id) >= 1 {
      var i, p := FindInConsumers(b.consumers, id);
      TrackedIsOpen(b, i, p);
    } else {
      var c, p := FindInChains(b.chains, id);
      TrackedIsOpen(b, b.chains[c].at, p);
    }
  }

  /** The history of a message determines the place it is in. */
  lemma Whereabouts(b: Bus, id: nat)
    requires Inv(b) && id < |b.accepted|
    ensures b.accepted[id].consumer < |b.consumers|
    ensures var limit := Limit(b.consumers[b.accepted[id].consumer].maxRetries);
            var rs := RunsOf(b.runs, id);
            && (InMessages(b.handled, id) == 1 <==> Succeeded(rs))
            && (InMessages(b.deadLetters, id) == 1 <==> GaveUp(rs, limit))
            && (InConsumers(b.consumers, id) + InChains(b.chains, id) == 1 <==> |rs| < limit && !Succeeded(rs))
  {
    assert Lived(b, id);
    assert Occurrences(b, id) == 1;
    if InMessages(b.handled, id) == 1 {
      WhenHandled(b, id);
    } else if InMessages(b.deadLetters, id) == 1 {
      WhenDead(b, id);
    } else {
      WhenWaiting(b, id);
    }
  }

  // ---- backoff timing ------------------------------------------------------

  /** Sum of the delays after failures 1..n. */
  ghost function TotalBackoff(baseMs: int, n: nat): int {
    if n == 0 then 0 else TotalBackoff(baseMs, n - 1) + Backoff(baseMs, n)
  }

  lemma {:induction false} PacedSpan(a: Accepted, c: Consumer, rs: seq<HandlerRun>, k: nat)
    requires Paced(a, c, rs) && k < |rs|
    ensures rs[k].tick - rs[0].tick >= TotalBackoff(c.retryBaseMs, k)
  {
    if k > 0 {
      PacedSpan(a, c, rs, k - 1);
      assert rs[k - 1 + 1].tick >= rs[k - 1].tick + Backoff(c.retryBaseMs, k - 1 + 1);
    }
  }

  /** A dead-lettered message was collected for the last time no earlier than the sum
      of all its backoff delays, for the base its consumer was started with, after it was
      collected first. */
  lemma DeadLetteredNoEarlier(es: seq<Step>, m: Message)
    requires Runnable(EMPTY_BUS, es) && m in After(EMPTY_BUS, es).deadLetters
    ensures var b := After(EMPTY_BUS, es);
            && m.id < |b.accepted|
            && var call := ConsumeOf(es, m.id);
            var limit := if call.maxRetries >= 1 then call.maxRetries else 1;
            var rs := RunsOf(b.runs, m.id);
            && |rs| == limit
            && rs[limit - 1].tick - rs[0].tick >= TotalBackoff(call.retryBaseMs, limit - 1)
  {
    EmptyBusInv();
    RunKeepsInv(EMPTY_BUS, es);
    var b := After(EMPTY_BUS, es);
    assert Exhausted(b, m);
    assert Lived(b, m.id);
    ConsumersAreAsConsumed(es, b.accepted[m.id].consumer);
    var rs := RunsOf(b.runs, m.id);
    PacedSpan(b.accepted[m.id], b.consumers[b.accepted[m.id].consumer], rs, |rs| - 1);
  }

  lemma {:induction false} Pow2Monotone(i: nat, j: nat)
    requires i <= j
    ensures Pow2(i) <= Pow2(j)
  {
    if i < j {
      Pow2Monotone(i, j - 1);
    }
  }

  lemma ScaleMonotone(base: nat, x: nat, y: nat)
    requires x <= y
    ensures base * x <= base * y
  {
  }

  /** While the cap is not reached the delays sum to base * (2^n - 1). */
  lemma {:induction false} UncappedBackoff(baseMs: nat, n: nat)
    requires n > 0 ==> baseMs * Pow2(n - 1) <= BACKOFF_CAP_MS
    ensures TotalBackoff(baseMs, n) == baseMs * (Pow2(n) - 1)
  {
    if n == 0 {
      assert Pow2(0) - 1 == 0;
    } else if n == 1 {
      assert TotalBackoff(baseMs, 0) == 0;
      assert Pow2(0) == 1 && Pow2(1) == 2;
    } else {
      Pow2Monotone(n - 2, n - 1);
      ScaleMonotone(baseMs, Pow2(n - 2), Pow2(n - 1));
      UncappedBackoff(baseMs, n - 1);
      assert Pow2(n) - 1 == Pow2(n - 1) + (Pow2(n - 1) - 1);
    }
  }

  /** The k-th doubling is the first to reach the cap: from then on every delay is the cap. */
  lemma {:induction false} CappedBackoff(baseMs: nat, k: nat, n: nat)
    requires k <= n && baseMs * Pow2(k) >= BACKOFF_CAP_MS
    requires k > 0 ==> baseMs * Pow2(k - 1) <= BACKOFF_CAP_MS
    ensures TotalBackoff(baseMs, n) == baseMs * (Pow2(k) - 1) + (n - k) * 60000
  {
    if n == k {
      UncappedBackoff(baseMs, n);
    } else {
      CappedBackoff(baseMs, k, n - 1);
      Pow2Monotone(k, n - 1);
      ScaleMonotone(baseMs, Pow2(k), Pow2(n - 1));
      assert Backoff(baseMs, n) == BACKOFF_CAP_MS;
    }
  }
}
