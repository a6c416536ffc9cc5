/** What the handler runs of one message look like, and why every step keeps it so:
    attempts are numbered, retries are spaced by the backoff, the run limit holds and
    only consumers of the message's own subject ever see it. */
module BusHistory {
  import opened BusModel
  import opened BusConservation

  /** A message is run at least once, whatever `maxRetries` says. */
  function Limit(maxRetries: int): (n: nat)
    ensures n >= 1
  {
    if maxRetries >= 1 then maxRetries else 1
  }

  function RunsOf(runs: seq<HandlerRun>, id: nat): (rs: seq<HandlerRun>)
    ensures forall r :: r in rs ==> r.seen.id == id && r in runs
  {
    if runs == [] then []
    else
      var n := |runs| - 1;
      RunsOf(runs[..n], id) + if runs[n].seen.id == id then [runs[n]] else []
  }

  /** The runs `rs` of one message: the k-th saw the published content with attempt
      number k on the one consumer it was routed to, all but the last failed, and a
      retry came no earlier than the backoff after the tick that failed. */
  ghost predicate Paced(a: Accepted, c: Consumer, rs: seq<HandlerRun>) {
    && |rs| <= Limit(c.maxRetries)
    && (forall k :: 0 <= k < |rs| ==> rs[k].seen == a.message.(attempts := k) && rs[k].consumer == a.consumer)
    && (forall k :: 0 <= k < |rs| - 1 ==>
          !rs[k].ok && rs[k + 1].tick >= rs[k].tick + Backoff(c.retryBaseMs, k + 1))
  }

  ghost predicate Lived(b: Bus, id: nat)
    requires id < |b.accepted|
  {
    var a := b.accepted[id];
    && a.message.id == id && a.message.attempts == 0
    && a.consumer < |b.consumers|
    && b.consumers[a.consumer].subject == a.subject
    && Paced(a, b.consumers[a.consumer], RunsOf(b.runs, id))
  }

  /** `p` waits on consumer `i`, or in a chain that stands at consumer `i`. */
  ghost predicate Tracked(b: Bus, i: nat, p: Pending) {
    var id := p.message.id;
    && id < |b.accepted| && b.accepted[id].consumer == i < |b.consumers|
    && p.message == b.accepted[id].message.(attempts := p.attempts)
    && p.attempts < Limit(b.consumers[i].maxRetries)
    && Unsettled(p, b.consumers[i].retryBaseMs, RunsOf(b.runs, id))
  }

  ghost predicate Unsettled(p: Pending, baseMs: int, rs: seq<HandlerRun>) {
    && |rs| == p.attempts
    && (p.attempts == 0 ==> p.retryAt == 0)
    && (p.attempts > 0 ==>
          var last := rs[p.attempts - 1];
          !last.ok && p.retryAt == last.tick + Backoff(baseMs, p.attempts))
  }

  ghost predicate HandledOnce(b: Bus, m: Message) {
    && m.id < |b.accepted|
    && var rs := RunsOf(b.runs, m.id);
    rs != [] && rs[|rs| - 1].ok && rs[|rs| - 1].seen == m
  }

  ghost predicate Exhausted(b: Bus, m: Message) {
    && m.id < |b.accepted| && b.accepted[m.id].consumer < |b.consumers|
    && var rs := RunsOf(b.runs, m.id);
    && |rs| == Limit(b.consumers[b.accepted[m.id].consumer].maxRetries)
    && !rs[|rs| - 1].ok && rs[|rs| - 1].seen == m
  }

  ghost predicate AllLived(b: Bus) {
    && (forall r :: r in b.runs ==> r.seen.id < |b.accepted|)
    && (forall id :: 0 <= id < |b.accepted| ==> Lived(b, id))
  }

  ghost predicate QueuesTracked(b: Bus) {
    forall i, p :: 0 <= i < |b.consumers| && p in b.consumers[i].pending ==> Tracked(b, i, p)
  }

  ghost predicate FlightTracked(b: Bus, ch: Chain) {
    forall p :: p in InFlight(ch) ==> p.retryAt <= ch.now && Tracked(b, ch.at, p)
  }

  ghost predicate FlightsTracked(b: Bus) {
    && |b.chains| == |b.consumers|
    && (forall c :: 0 <= c < |b.chains| ==> FlightTracked(b, b.chains[c]))
  }

  ghost predicate OutcomesRecorded(b: Bus) {
    && (forall m :: m in b.handled ==> HandledOnce(b, m))
    && (forall m :: m in b.deadLetters ==> Exhausted(b, m))
  }

  ghost predicate Inv(b: Bus) {
    && Conserved(b)
    && AllLived(b)
    && QueuesTracked(b)
    && FlightsTracked(b)
    && OutcomesRecorded(b)
  }

  lemma InFlightIsTracked(b: Bus, c: nat, p: Pending)
    requires FlightsTracked(b) && c < |b.chains| && p in InFlight(b.chains[c])
    ensures p.retryAt <= b.chains[c].now && Tracked(b, b.chains[c].at, p)
  {
    assert FlightTracked(b, b.chains[c]);
  }

  lemma HeadIsTracked(b: Bus, c: nat)
    requires FlightsTracked(b) && CanSettle(b, c)
    ensures b.chains[c].due[0].retryAt <= b.chains[c].now && Tracked(b, b.chains[c].at, b.chains[c].due[0])
  {
    InFlightIsTracked(b, c, b.chains[c].due[0]);
  }

  // ---- the run log ---------------------------------------------------------

  lemma {:induction false} RunsOfUnknown(runs: seq<HandlerRun>, id: nat)
    requires forall r :: r in runs ==> r.seen.id != id
    ensures RunsOf(runs, id) == []
  {
    if runs != [] {
      RunsOfUnknown(runs[..|runs| - 1], id);
    }
  }

  // ---- frames --------------------------------------------------------------

  ghost predicate SameConfig(c: Consumer, c': Consumer) {
    c'.subject == c.subject && c'.maxRetries == c.maxRetries && c'.retryBaseMs == c.retryBaseMs
  }

  /** Consumers and accepted messages are only ever added, never changed. */
  ghost predicate Grows(b: Bus, b': Bus) {
    && |b.consumers| <= |b'.consumers| && |b.accepted| <= |b'.accepted|
    && (forall i :: 0 <= i < |b.consumers| ==> SameConfig(b.consumers[i], b'.consumers[i]))
    && (forall id :: 0 <= id < |b.accepted| ==> b'.accepted[id] == b.accepted[id])
  }

  lemma TrackedFrame(b: Bus, b': Bus, i: nat, p: Pending)
    requires Tracked(b, i, p) && Grows(b, b')
    requires RunsOf(b'.runs, p.message.id) == RunsOf(b.runs, p.message.id)
    ensures Tracked(b', i, p)
  {
  }

  lemma LivedFrame(b: Bus, b': Bus, id: nat)
    requires id < |b.accepted| && Lived(b, id) && Grows(b, b')
    requires RunsOf(b'.runs, id) == RunsOf(b.runs, id)
    ensures Lived(b', id)
  {
  }

  lemma ExhaustedFrame(b: Bus, b': Bus, m: Message)
    requires Exhausted(b, m) && Grows(b, b')
    requires RunsOf(b'.runs, m.id) == RunsOf(b.runs, m.id)
    ensures Exhausted(b', m)
  {
    assert SameConfig(b.consumers[b.accepted[m.id].consumer], b'.consumers[b.accepted[m.id].consumer]);
  }

  lemma FlightFrame(b: Bus, b': Bus, ch: Chain)
    requires FlightTracked(b, ch) && Grows(b, b') && b'.runs == b.runs
    ensures FlightTracked(b', ch)
  {
    forall p | p in InFlight(ch) ensures Tracked(b', ch.at, p) {
      TrackedFrame(b, b', ch.at, p);
    }
  }

  /** Steps that run no handler keep the histories of all messages. */
  lemma QuietFrame(b: Bus, b': Bus)
    requires Inv(b) && Grows(b, b') && b'.runs == b.runs
    requires b'.handled == b.handled && b'.deadLetters == b.deadLetters
    ensures OutcomesRecorded(b')
    ensures forall id :: 0 <= id < |b.accepted| ==> Lived(b', id)
    ensures forall i, p :: 0 <= i < |b.consumers| && p in b.consumers[i].pending ==> Tracked(b', i, p)
    ensures forall c :: 0 <= c < |b.chains| ==> FlightTracked(b', b.chains[c])
  {
    forall id | 0 <= id < |b.accepted| ensures Lived(b', id) {
      LivedFrame(b, b', id);
    }
    forall m | m in b'.deadLetters ensures Exhausted(b', m) {
      ExhaustedFrame(b, b', m);
    }
    forall i, p | 0 <= i < |b.consumers| && p in b.consumers[i].pending ensures Tracked(b', i, p) {
      TrackedFrame(b, b', i, p);
    }
    forall c | 0 <= c < |b.chains| ensures FlightTracked(b', b.chains[c]) {
      FlightFrame(b, b', b.chains[c]);
    }
  }

  // ---- every step keeps the invariant ---------------------------------------

  lemma PublishedInv(b: Bus, s: Subject, kind: string, payload: string, at: int)
    requires Inv(b)
    ensures Inv(Published(b, s, kind, payload, at))
  {
    var e := Publish(s, kind, payload, at);
    assert Next(b, e) == Published(b, s, kind, payload, at);
    StepConserves(b, e);
    var group := Group(b.consumers, s);
    if group != [] {
      var b' := Published(b, s, kind, payload, at);
      var t := group[Turn(b.rrCounter, |group|)];
      QuietFrame(b, b');
      RunsOfUnknown(b.runs, |b.accepted|);
      assert Lived(b', |b.accepted|);
      assert Tracked(b', t, Pending(Message(|b.accepted|, kind, payload, 0, at), 0, 0));
    }
  }

  lemma ConsumedInv(b: Bus, s: Subject, maxRetries: int, base: int)
    requires Inv(b)
    ensures Inv(Consumed(b, s, maxRetries, base))
  {
    var e := Consume(s, maxRetries, base);
    assert Next(b, e) == Consumed(b, s, maxRetries, base);
    StepConserves(b, e);
    var b' := Consumed(b, s, maxRetries, base);
    QuietFrame(b, b');
    forall d | 0 <= d < |b'.chains| ensures FlightTracked(b', b'.chains[d]) {
      if d < |b.chains| {
        assert b'.chains[d] == b.chains[d];
      }
    }
  }

  lemma StartedInv(b: Bus, c: nat, now: nat)
    requires Inv(b) && CanStart(b, c)
    ensures Inv(Started(b, c, now))
  {
    var e := StartTick(c, now);
    assert Next(b, e) == Started(b, c, now);
    StepConserves(b, e);
    var b' := Started(b, c, now);
    QuietFrame(b, b');
    forall d | 0 <= d < |b'.chains| ensures FlightTracked(b', b'.chains[d]) {
      if d != c {
        assert b'.chains[d] == b.chains[d];
      }
    }
  }

  lemma EndedInv(b: Bus, c: nat)
    requires Inv(b) && CanEnd(b, c)
    ensures Inv(Ended(b, c))
  {
    var e := EndTick(c);
    assert Next(b, e) == Ended(b, c);
    StepConserves(b, e);
    var b' := Ended(b, c);
    QuietFrame(b, b');
    forall d | 0 <= d < |b'.chains| ensures FlightTracked(b', b'.chains[d]) {
      if d != c {
        assert b'.chains[d] == b.chains[d];
      }
    }
  }

  lemma CollectedInv(b: Bus, c: nat)
    requires Inv(b) && CanCollect(b, c)
    ensures Inv(Collected(b, c))
  {
    var e := Collect(c);
    assert Next(b, e) == Collected(b, c);
    StepConserves(b, e);
    var b' := Collected(b, c);
    QuietFrame(b, b');
    forall i, p | 0 <= i < |b'.consumers| && p in b'.consumers[i].pending ensures Tracked(b', i, p) {
      assert p in b.consumers[i].pending;
    }
    forall d | 0 <= d < |b'.chains| ensures FlightTracked(b', b'.chains[d]) {
      if d == c {
        assert forall p :: p in InFlight(b'.chains[c]) ==> p in b.consumers[b.chains[c].at].pending;
      } else {
        assert b'.chains[d] == b.chains[d];
      }
    }
  }

  /** `b'` is `b` after the run `run` of the item that chain `c` had in flight; where
      that item went is left open. */
  ghost predicate RunRecorded(b: Bus, c: nat, run: HandlerRun, b': Bus) {
    && CanSettle(b, c)
    && run.seen == b.chains[c].due[0].message && run.consumer == b.chains[c].at && run.tick == b.chains[c].now
    && Grows(b, b') && b'.accepted == b.accepted
    && b'.runs == b.runs + [run]
    && b'.chains == b.chains[c := Advanced(b.chains[c])]
  }

  function RunOf(ch: Chain, ok: bool): HandlerRun
    requires ch.Sweeping? && ch.due != []
  {
    HandlerRun(ch.due[0].message, ch.at, ch.now, ok)
  }

  lemma SettledRecordsRun(b: Bus, c: nat, ok: bool)
    requires CanSettle(b, c)
    ensures RunRecorded(b, c, RunOf(b.chains[c], ok), Settled(b, c, ok))
  {
  }

  /** The histories before and after, for the item that ran and for all others. */
  lemma RunsRecorded(b: Bus, c: nat, run: HandlerRun, b': Bus, id: nat)
    requires RunRecorded(b, c, run, b')
    ensures RunsOf(b'.runs, id) == RunsOf(b.runs, id) + if id == run.seen.id then [run] else []
  {
  }

  /** The run that is recorded fits the history of its message. */
  lemma RunFits(b: Bus, c: nat, run: HandlerRun, b': Bus)
    requires Inv(b) && RunRecorded(b, c, run, b')
    ensures run.seen.id < |b.accepted|
    ensures Lived(b', run.seen.id)
  {
    var ch := b.chains[c];
    var item := ch.due[0];
    var id := run.seen.id;
    HeadIsTracked(b, c);
    assert Lived(b, id);
    RunsRecorded(b, c, run, b', id);
    assert SameConfig(b.consumers[ch.at], b'.consumers[ch.at]);
    PacedExtends(b.accepted[id], b.consumers[ch.at], item, RunsOf(b.runs, id), run);
    PacedFrame(b.accepted[id], b.consumers[ch.at], b'.consumers[ch.at], RunsOf(b'.runs, id));
  }

  lemma PacedFrame(a: Accepted, c: Consumer, c': Consumer, rs: seq<HandlerRun>)
    requires Paced(a, c, rs) && SameConfig(c, c')
    ensures Paced(a, c', rs)
  {
  }

  lemma PacedExtends(a: Accepted, c: Consumer, p: Pending, rs: seq<HandlerRun>, run: HandlerRun)
    requires Paced(a, c, rs) && Unsettled(p, c.retryBaseMs, rs)
    requires p.attempts < Limit(c.maxRetries) && p.retryAt <= run.tick
    requires run.seen == a.message.(attempts := p.attempts) && run.consumer == a.consumer
    ensures Paced(a, c, rs + [run])
  {
  }

  /** The run of one in-flight item extends that item's history and no other. */
  lemma RunKeepsLives(b: Bus, c: nat, run: HandlerRun, b': Bus)
    requires Inv(b) && RunRecorded(b, c, run, b')
    ensures AllLived(b')
  {
    RunFits(b, c, run, b');
    forall id | 0 <= id < |b'.accepted| ensures Lived(b', id) {
      if id != run.seen.id {
        RunsRecorded(b, c, run, b', id);
        LivedFrame(b, b', id);
      }
    }
  }

  /** The item that ran is nowhere else: a second copy would break conservation. */
  lemma NowhereElse(b: Bus, c: nat)
    requires Inv(b) && CanSettle(b, c)
    ensures var x := b.chains[c].due[0].message.id;
            && (forall i, p :: 0 <= i < |b.consumers| && p in b.consumers[i].pending ==> p.message.id != x)
            && (forall d, p :: 0 <= d < |b.chains| && p in InFlight(Taken(b, c).chains[d]) ==> p.message.id != x)
            && (forall m :: m in b.handled || m in b.deadLetters ==> m.id != x)
  {
    var x := b.chains[c].due[0].message.id;
    TakenOccurrences(b, c, x);
    AbsentEverywhere(Taken(b, c), x);
  }

  lemma RunKeepsQueues(b: Bus, c: nat, run: HandlerRun, b': Bus)
    requires Inv(b) && RunRecorded(b, c, run, b')
    ensures forall i, p :: 0 <= i < |b.consumers| && p in b.consumers[i].pending ==> Tracked(b', i, p)
  {
    NowhereElse(b, c);
    forall i, p | 0 <= i < |b.consumers| && p in b.consumers[i].pending ensures Tracked(b', i, p) {
      RunsRecorded(b, c, run, b', p.message.id);
      TrackedFrame(b, b', i, p);
    }
  }

  lemma FlightKept(b: Bus, c: nat, run: HandlerRun, b': Bus, d: nat)
    requires Inv(b) && RunRecorded(b, c, run, b') && d < |b'.chains|
    requires forall p :: p in InFlight(b'.chains[d]) ==> p.message.id != run.seen.id
    ensures FlightTracked(b', b'.chains[d])
  {
    hide Tracked, RunsOf, Conserved, AllLived, QueuesTracked, OutcomesRecorded, Paced;
    assert FlightTracked(b, b.chains[d]);
    forall p | p in InFlight(b'.chains[d])
      ensures p.retryAt <= b'.chains[d].now && Tracked(b', b'.chains[d].at, p)
    {
      assert p in InFlight(b.chains[d]) && b'.chains[d].at == b.chains[d].at;
      RunsRecorded(b, c, run, b', p.message.id);
      TrackedFrame(b, b', b.chains[d].at, p);
    }
  }

  lemma RunKeepsFlights(b: Bus, c: nat, run: HandlerRun, b': Bus)
    requires Inv(b) && RunRecorded(b, c, run, b')
    ensures forall d :: 0 <= d < |b'.chains| ==> FlightTracked(b', b'.chains[d])
  {
    NowhereElse(b, c);
    forall d | 0 <= d < |b'.chains| ensures FlightTracked(b', b'.chains[d]) {
      assert b'.chains[d] == Taken(b, c).chains[d];
      FlightKept(b, c, run, b', d);
    }
  }

  lemma RunKeepsOutcomes(b: Bus, c: nat, run: HandlerRun, b': Bus)
    requires Inv(b) && RunRecorded(b, c, run, b')
    ensures forall m :: m in b.handled ==> HandledOnce(b', m)
    ensures forall m :: m in b.deadLetters ==> Exhausted(b', m)
  {
    NowhereElse(b, c);
    forall m | m in b.handled ensures HandledOnce(b', m) {
      RunsRecorded(b, c, run, b', m.id);
    }
    forall m | m in b.deadLetters ensures Exhausted(b', m) {
      RunsRecorded(b, c, run, b', m.id);
      ExhaustedFrame(b, b', m);
    }
  }

  /** The item that ran ends where its outcome puts it, with its history extended. */
  lemma SettledItem(b: Bus, c: nat, run: HandlerRun, b': Bus)
    requires Inv(b) && RunRecorded(b, c, run, b')
    ensures var ch := b.chains[c];
            var item := ch.due[0];
            var consumer := b.consumers[ch.at];
            if run.ok then HandledOnce(b', item.message)
            else if item.attempts + 1 >= consumer.maxRetries then Exhausted(b', item.message)
            else Tracked(b', ch.at, RetryOf(item, ch.now, consumer.retryBaseMs))
  {
    var ch := b.chains[c];
    var item := ch.due[0];
    HeadIsTracked(b, c);
    assert SameConfig(b.consumers[ch.at], b'.consumers[ch.at]);
    RunsRecorded(b, c, run, b', run.seen.id);
  }

  lemma SettledQueues(b: Bus, c: nat, ok: bool)
    requires Inv(b) && CanSettle(b, c)
    ensures QueuesTracked(Settled(b, c, ok))
  {
    var b' := Settled(b, c, ok);
    SettledRecordsRun(b, c, ok);
    RunKeepsQueues(b, c, RunOf(b.chains[c], ok), b');
    SettledItem(b, c, RunOf(b.chains[c], ok), b');
    hide Inv, Tracked, RetryOf, HandledOnce, Exhausted;
    var ch := b.chains[c];
    forall i, p | 0 <= i < |b'.consumers| && p in b'.consumers[i].pending ensures Tracked(b', i, p) {
      if p !in b.consumers[i].pending {
        assert i == ch.at && p == RetryOf(ch.due[0], ch.now, b.consumers[ch.at].retryBaseMs);
      }
    }
  }

  /** What a settled run adds to the two final lists. */
  lemma SettledAdds(b: Bus, c: nat, ok: bool)
    requires CanSettle(b, c)
    ensures var b' := Settled(b, c, ok);
            var item := b.chains[c].due[0];
            && (forall m :: m in b'.handled ==> m in b.handled || (ok && m == item.message))
            && (forall m :: m in b'.deadLetters ==>
                  m in b.deadLetters ||
                  (!ok && item.attempts + 1 >= b.consumers[b.chains[c].at].maxRetries && m == item.message))
  {
    hide RetryOf, Enqueue, Advanced;
  }

  lemma SettledOutcomes(b: Bus, c: nat, ok: bool)
    requires Inv(b) && CanSettle(b, c)
    ensures OutcomesRecorded(Settled(b, c, ok))
  {
    SettledRecordsRun(b, c, ok);
    hide Inv, Settled, Tracked, RetryOf, HandledOnce, Exhausted;
    RunKeepsOutcomes(b, c, RunOf(b.chains[c], ok), Settled(b, c, ok));
    SettledItem(b, c, RunOf(b.chains[c], ok), Settled(b, c, ok));
    SettledAdds(b, c, ok);
  }

  lemma SettledFlights(b: Bus, c: nat, ok: bool)
    requires Inv(b) && CanSettle(b, c)
    ensures AllLived(Settled(b, c, ok)) && FlightsTracked(Settled(b, c, ok))
  {
    SettledRecordsRun(b, c, ok);
    hide Settled, AllLived, Conserved, QueuesTracked, OutcomesRecorded, FlightTracked;
    RunKeepsLives(b, c, RunOf(b.chains[c], ok), Settled(b, c, ok));
    RunKeepsFlights(b, c, RunOf(b.chains[c], ok), Settled(b, c, ok));
    SameSizes(b, c, ok);
  }

  lemma SameSizes(b: Bus, c: nat, ok: bool)
    requires CanSettle(b, c)
    ensures |Settled(b, c, ok).chains| == |b.chains| && |Settled(b, c, ok).consumers| == |b.consumers|
  {
  }

  lemma SettledInv(b: Bus, c: nat, ok: bool)
    requires Inv(b) && CanSettle(b, c)
    ensures Inv(Settled(b, c, ok))
  {
    assert Next(b, Settle(c, ok)) == Settled(b, c, ok);
    hide Settled, AllLived, Conserved, QueuesTracked, OutcomesRecorded, FlightsTracked;
    StepConserves(b, Settle(c, ok));
    SettledFlights(b, c, ok);
    SettledQueues(b, c, ok);
    SettledOutcomes(b, c, ok);
  }

  lemma StepKeepsInv(b: Bus, e: Step)
    requires Inv(b) && Enabled(b, e)
    ensures Inv(Next(b, e))
  {
    match e
    case Publish(s, kind, payload, at) => PublishedInv(b, s, kind, payload, at);
    case Consume(s, maxRetries, base) => ConsumedInv(b, s, maxRetries, base);
    case StartTick(c, now) => StartedInv(b, c, now);
    case Collect(c) => CollectedInv(b, c);
    case Settle(c, ok) => SettledInv(b, c, ok);
    case EndTick(c) => EndedInv(b, c);
  }

  /** The invariant holds in every reachable state, however chains interleave. */
  lemma {:induction false} RunKeepsInv(b: Bus, es: seq<Step>)
    requires Inv(b) && Runnable(b, es)
    ensures Inv(After(b, es))
    decreases |es|
  {
    if es != [] {
      StepKeepsInv(b, es[0]);
      RunKeepsInv(Next(b, es[0]), es[1..]);
    }
  }

  lemma EmptyBusInv()
    ensures Inv(EMPTY_BUS)
  {
  }
}
