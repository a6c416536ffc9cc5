/** Where every accepted message is: exactly one of pending, in flight, handled or
    dead-lettered. Occurrences are counted over the actual lists of the bus. */
module BusConservation {
  import opened BusModel

  function InFlight(ch: Chain): seq<Pending> {
    if ch.Sweeping? then ch.due else []
  }

  ghost function InPending(ps: seq<Pending>, id: nat): nat {
    if ps == [] then 0 else (if ps[0].message.id == id then 1 else 0) + InPending(ps[1..], id)
  }

  ghost function InConsumers(cs: seq<Consumer>, id: nat): nat {
    if cs == [] then 0 else InPending(cs[0].pending, id) + InConsumers(cs[1..], id)
  }

  ghost function InChains(chs: seq<Chain>, id: nat): nat {
    if chs == [] then 0 else InPending(InFlight(chs[0]), id) + InChains(chs[1..], id)
  }

  ghost function InMessages(ms: seq<Message>, id: nat): nat {
    if ms == [] then 0 else (if ms[0].id == id then 1 else 0) + InMessages(ms[1..], id)
  }

  /** How often message `id` occurs on the whole bus. */
  ghost function Occurrences(b: Bus, id: nat): nat {
    InConsumers(b.consumers, id) + InChains(b.chains, id) + InMessages(b.handled, id) + InMessages(b.deadLetters, id)
  }

  /** Exactly the accepted messages exist, each in exactly one place. */
  ghost predicate Conserved(b: Bus) {
    forall id: nat :: Occurrences(b, id) == if id < |b.accepted| then 1 else 0
  }

  // ---- appending to and updating the lists ---------------------------------

  lemma {:induction false} PendingAppend(ps: seq<Pending>, p: Pending, id: nat)
    ensures InPending(ps + [p], id) == InPending(ps, id) + if p.message.id == id then 1 else 0
  {
    if ps == [] {
      assert ps + [p] == [p];
    } else {
      assert (ps + [p])[1..] == ps[1..] + [p];
      PendingAppend(ps[1..], p, id);
    }
  }

  lemma {:induction false} MessagesAppend(ms: seq<Message>, m: Message, id: nat)
    ensures InMessages(ms + [m], id) == InMessages(ms, id) + if m.id == id then 1 else 0
  {
    if ms == [] {
      assert ms + [m] == [m];
    } else {
      assert (ms + [m])[1..] == ms[1..] + [m];
      MessagesAppend(ms[1..], m, id);
    }
  }

  lemma {:induction false} ConsumersAppend(cs: seq<Consumer>, c: Consumer, id: nat)
    ensures InConsumers(cs + [c], id) == InConsumers(cs, id) + InPending(c.pending, id)
  {
    if cs == [] {
      assert cs + [c] == [c];
    } else {
      assert (cs + [c])[1..] == cs[1..] + [c];
      ConsumersAppend(cs[1..], c, id);
    }
  }

  lemma {:induction false} ChainsAppend(chs: seq<Chain>, ch: Chain, id: nat)
    ensures InChains(chs + [ch], id) == InChains(chs, id) + InPending(InFlight(ch), id)
  {
    if chs == [] {
      assert chs + [ch] == [ch];
    } else {
      assert (chs + [ch])[1..] == chs[1..] + [ch];
      ChainsAppend(chs[1..], ch, id);
    }
  }

  lemma {:induction false} ConsumersUpdate(cs: seq<Consumer>, i: nat, c: Consumer, id: nat)
    requires i < |cs|
    ensures InConsumers(cs[i := c], id) ==
            InConsumers(cs, id) - InPending(cs[i].pending, id) + InPending(c.pending, id)
  {
    if i == 0 {
      assert cs[0 := c][1..] == cs[1..];
    } else {
      assert cs[i := c][1..] == cs[1..][i - 1 := c];
      ConsumersUpdate(cs[1..], i - 1, c, id);
    }
  }

  lemma {:induction false} ChainsUpdate(chs: seq<Chain>, i: nat, ch: Chain, id: nat)
    requires i < |chs|
    ensures InChains(chs[i := ch], id) ==
            InChains(chs, id) - InPending(InFlight(chs[i]), id) + InPending(InFlight(ch), id)
  {
    if i == 0 {
      assert chs[0 := ch][1..] == chs[1..];
    } else {
      assert chs[i := ch][1..] == chs[1..][i - 1 := ch];
      ChainsUpdate(chs[1..], i - 1, ch, id);
    }
  }

  lemma {:induction false} DueAndLaterSplit(ps: seq<Pending>, now: nat, id: nat)
    ensures InPending(Due(ps, now), id) + InPending(Later(ps, now), id) == InPending(ps, id)
  {
    if ps != [] {
      DueAndLaterSplit(ps[1..], now, id);
      if ps[0].retryAt <= now {
        assert Due(ps, now)[1..] == Due(ps[1..], now);
        assert Later(ps, now) == Later(ps[1..], now);
      } else {
        assert Later(ps, now)[1..] == Later(ps[1..], now);
        assert Due(ps, now) == Due(ps[1..], now);
      }
    }
  }

  // ---- membership ----------------------------------------------------------

  lemma {:induction false} PendingMember(ps: seq<Pending>, k: nat)
    requires k < |ps|
    ensures InPending(ps, ps[k].message.id) >= 1
  {
    if k > 0 {
      PendingMember(ps[1..], k - 1);
    }
  }

  lemma {:induction false} ConsumersMember(cs: seq<Consumer>, i: nat, k: nat)
    requires i < |cs| && k < |cs[i].pending|
    ensures InConsumers(cs, cs[i].pending[k].message.id) >= 1
  {
    if i == 0 {
      PendingMember(cs[0].pending, k);
    } else {
      ConsumersMember(cs[1..], i - 1, k);
    }
  }

  lemma {:induction false} ChainsMember(chs: seq<Chain>, i: nat, k: nat)
    requires i < |chs| && k < |InFlight(chs[i])|
    ensures InChains(chs, InFlight(chs[i])[k].message.id) >= 1
  {
    if i == 0 {
      PendingMember(InFlight(chs[0]), k);
    } else {
      ChainsMember(chs[1..], i - 1, k);
    }
  }

  lemma {:induction false} MessagesMember(ms: seq<Message>, k: nat)
    requires k < |ms|
    ensures InMessages(ms, ms[k].id) >= 1
  {
    if k > 0 {
      MessagesMember(ms[1..], k - 1);
    }
  }

  /** An identity that occurs nowhere labels no item of any list. */
  lemma AbsentEverywhere(b: Bus, id: nat)
    requires Occurrences(b, id) == 0
    ensures forall i, p :: 0 <= i < |b.consumers| && p in b.consumers[i].pending ==> p.message.id != id
    ensures forall c, p :: 0 <= c < |b.chains| && p in InFlight(b.chains[c]) ==> p.message.id != id
    ensures forall m :: m in b.handled || m in b.deadLetters ==> m.id != id
  {
    forall i, p | 0 <= i < |b.consumers| && p in b.consumers[i].pending ensures p.message.id != id {
      var k: nat :| k < |b.consumers[i].pending| && b.consumers[i].pending[k] == p;
      ConsumersMember(b.consumers, i, k);
    }
    forall c, p | 0 <= c < |b.chains| && p in InFlight(b.chains[c]) ensures p.message.id != id {
      var k: nat :| k < |InFlight(b.chains[c])| && InFlight(b.chains[c])[k] == p;
      ChainsMember(b.chains, c, k);
    }
    forall m | m in b.handled ensures m.id != id {
      var k: nat :| k < |b.handled| && b.handled[k] == m;
      MessagesMember(b.handled, k);
    }
    forall m | m in b.deadLetters ensures m.id != id {
      var k: nat :| k < |b.deadLetters| && b.deadLetters[k] == m;
      MessagesMember(b.deadLetters, k);
    }
  }

  // ---- every step conserves ------------------------------------------------

  lemma PublishedOccurrences(b: Bus, s: Subject, kind: string, payload: string, at: int, id: nat)
    ensures var b' := Published(b, s, kind, payload, at);
            Occurrences(b', id) == Occurrences(b, id) + if id == |b.accepted| < |b'.accepted| then 1 else 0
  {
    var group := Group(b.consumers, s);
    if group != [] {
      var t := group[Turn(b.rrCounter, |group|)];
      var p := Pending(Message(|b.accepted|, kind, payload, 0, at), 0, 0);
      ConsumersUpdate(b.consumers, t, Enqueue(b.consumers[t], p), id);
      PendingAppend(b.consumers[t].pending, p, id);
    }
  }

  lemma CollectedOccurrences(b: Bus, c: nat, id: nat)
    requires CanCollect(b, c)
    ensures Occurrences(Collected(b, c), id) == Occurrences(b, id)
  {
    var ch := b.chains[c];
    var ps := b.consumers[ch.at].pending;
    var due := Due(ps, ch.now);
    ChainsUpdate(b.chains, c, Sweeping(ch.now, ch.at + 1, []), id);
    DueAndLaterSplit(ps, ch.now, id);
    ConsumersUpdate(b.consumers, ch.at, b.consumers[ch.at].(pending := Later(ps, ch.now)), id);
    ChainsUpdate(b.chains, c, Sweeping(ch.now, ch.at, due), id);
  }

  lemma TakenOccurrences(b: Bus, c: nat, id: nat)
    requires CanSettle(b, c)
    ensures Occurrences(b, id) ==
            Occurrences(Taken(b, c), id) + if b.chains[c].due[0].message.id == id then 1 else 0
  {
    ChainsUpdate(b.chains, c, Advanced(b.chains[c]), id);
  }

  lemma SettledOccurrences(b: Bus, c: nat, ok: bool, id: nat)
    requires CanSettle(b, c)
    ensures Occurrences(Settled(b, c, ok), id) == Occurrences(b, id)
  {
    var ch := b.chains[c];
    var item := ch.due[0];
    var consumer := b.consumers[ch.at];
    TakenOccurrences(b, c, id);
    if ok {
      MessagesAppend(b.handled, item.message, id);
    } else if item.attempts + 1 >= consumer.maxRetries {
      MessagesAppend(b.deadLetters, item.message, id);
    } else {
      var retry := RetryOf(item, ch.now, consumer.retryBaseMs);
      ConsumersUpdate(b.consumers, ch.at, Enqueue(consumer, retry), id);
      PendingAppend(consumer.pending, retry, id);
    }
  }

  lemma StepOccurrences(b: Bus, e: Step, id: nat)
    requires Enabled(b, e)
    ensures var b' := Next(b, e);
            && |b.accepted| <= |b'.accepted| <= |b.accepted| + 1
            && Occurrences(b', id) == Occurrences(b, id) + if id == |b.accepted| < |b'.accepted| then 1 else 0
  {
    match e
    case Publish(s, kind, payload, at) => PublishedOccurrences(b, s, kind, payload, at, id);
    case Consume(s, maxRetries, base) =>
      ConsumersAppend(b.consumers, Consumer(s, maxRetries, base, []), id);
      ChainsAppend(b.chains, Waiting, id);
    case StartTick(c, now) => ChainsUpdate(b.chains, c, Sweeping(now, 0, []), id);
    case Collect(c) => CollectedOccurrences(b, c, id);
    case Settle(c, ok) => SettledOccurrences(b, c, ok, id);
    case EndTick(c) => ChainsUpdate(b.chains, c, Waiting, id);
  }

  /** No step loses, duplicates or invents a message. */
  lemma StepConserves(b: Bus, e: Step)
    requires Enabled(b, e) && Conserved(b)
    ensures Conserved(Next(b, e))
  {
    hide Next, Occurrences, Enabled;
    forall id: nat
      ensures Occurrences(Next(b, e), id) == if id < |Next(b, e).accepted| then 1 else 0
    {
      StepOccurrences(b, e, id);
      assert Occurrences(b, id) == if id < |b.accepted| then 1 else 0;
    }
  }
}
