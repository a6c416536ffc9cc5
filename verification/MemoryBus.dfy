/** The bus object itself: fields updated in place, each method proved to take exactly
    the step of the state machine, hence to keep its invariant. */
module MemoryBus {
  import opened BusModel
  import opened BusConservation
  import opened BusHistory
  import opened BusTermination

  ghost function PendingTotal(cs: seq<Consumer>): nat {
    if cs == [] then 0 else |cs[0].pending| + PendingTotal(cs[1..])
  }

  lemma {:induction false} PendingTotalAppend(cs: seq<Consumer>, c: Consumer)
    ensures PendingTotal(cs + [c]) == PendingTotal(cs) + |c.pending|
  {
    if cs == [] {
      assert cs + [c] == [c];
    } else {
      assert (cs + [c])[1..] == cs[1..] + [c];
      PendingTotalAppend(cs[1..], c);
    }
  }

  lemma {:induction false} PendingTotalZero(cs: seq<Consumer>)
    ensures PendingTotal(cs) == 0 <==> forall i :: 0 <= i < |cs| ==> cs[i].pending == []
  {
    if cs != [] {
      PendingTotalZero(cs[1..]);
      assert forall i :: 0 <= i < |cs| - 1 ==> cs[1..][i] == cs[i + 1];
      if PendingTotal(cs) == 0 {
        forall i | 0 <= i < |cs| ensures cs[i].pending == [] {
          if i > 0 {
            assert cs[1..][i - 1].pending == [];
          }
        }
      }
    }
  }

  class MemoryEventBus {
    var consumers: seq<Consumer>
    var deadLetters: seq<Message>
    var rrCounter: nat
    // the suspended tick chains, one per consume call
    var chains: seq<Chain>
    // history, written and never read by the bus
    var accepted: seq<Accepted>
    var handled: seq<Message>
    var runs: seq<HandlerRun>

    ghost function View(): Bus
      reads this
    {
      Bus(consumers, chains, deadLetters, rrCounter, accepted, handled, runs)
    }

    ghost predicate Valid()
      reads this
    {
      Inv(View())
    }

    constructor ()
      ensures Valid() && View() == EMPTY_BUS
    {
      consumers, deadLetters, rrCounter, chains := [], [], 0, [];
      accepted, handled, runs := [], [], [];
      new;
      EmptyBusInv();
    }

    method Publish(subject: Subject, kind: string, payload: string, publishedAt: int)
      requires Valid()
      modifies this
      ensures Valid() && View() == Published(old(View()), subject, kind, payload, publishedAt)
    {
      PublishedInv(View(), subject, kind, payload, publishedAt);
      var message := Message(|accepted|, kind, payload, 0, publishedAt);
      var group := Group(consumers, subject);
      if |group| == 0 {
        return;
      }
      var target := group[Turn(rrCounter, |group|)];
      rrCounter := rrCounter + 1;
      consumers := consumers[target := Enqueue(consumers[target], Pending(message, 0, 0))];
      accepted := accepted + [Accepted(message, subject, target)];
    }

    method Consume(subject: Subject, maxRetries: int, retryBaseMs: int)
      requires Valid()
      modifies this
      ensures Valid() && View() == Consumed(old(View()), subject, maxRetries, retryBaseMs)
    {
      ConsumedInv(View(), subject, maxRetries, retryBaseMs);
      consumers := consumers + [Consumer(subject, maxRetries, retryBaseMs, [])];
      chains := chains + [Waiting];
    }

    /** The timer of chain `c` fires and the tick reads the clock. */
    method StartTick(c: nat, now: nat)
      requires Valid() && CanStart(View(), c)
      modifies this`chains
      ensures Valid() && View() == Started(old(View()), c, now)
    {
      StartedInv(View(), c, now);
      chains := chains[c := Sweeping(now, 0, [])];
    }

    /** Takes the due items of the consumer the chain stands at; nothing is awaited in
        between, so no other chain can take them as well. */
    method CollectDue(c: nat)
      requires Valid() && CanCollect(View(), c)
      modifies this`chains, this`consumers
      ensures Valid() && View() == Collected(old(View()), c)
    {
      CollectedInv(View(), c);
      var ch := chains[c];
      var due := Due(consumers[ch.at].pending, ch.now);
      if |due| == 0 {
        chains := chains[c := Sweeping(ch.now, ch.at + 1, [])];
        return;
      }
      consumers := consumers[ch.at := consumers[ch.at].(pending := Later(consumers[ch.at].pending, ch.now))];
      chains := chains[c := Sweeping(ch.now, ch.at, due)];
    }

    /** The awaited handler resolved (`ok`) or rejected. */
    method HandlerSettled(c: nat, ok: bool)
      requires Valid() && CanSettle(View(), c)
      modifies this
      ensures Valid() && View() == Settled(old(View()), c, ok)
    {
      SettledInv(View(), c, ok);
      var ch := chains[c];
      var item := ch.due[0];
      runs := runs + [HandlerRun(item.message, ch.at, ch.now, ok)];
      chains := chains[c := Advanced(ch)];
      if ok {
        handled := handled + [item.message];
      } else {
        var consumer := consumers[ch.at];
        var attempts := item.attempts + 1;
        if attempts >= consumer.maxRetries {
          deadLetters := deadLetters + [item.message];
        } else {
          consumers := consumers[ch.at := Enqueue(consumer, RetryOf(item, ch.now, consumer.retryBaseMs))];
        }
      }
    }

    /** The tick has passed the last consumer and arms its timer again. */
    method EndTick(c: nat)
      requires Valid() && CanEnd(View(), c)
      modifies this`chains
      ensures Valid() && View() == Ended(old(View()), c)
    {
      EndedInv(View(), c);
      chains := chains[c := Waiting];
    }

    /** One whole tick of chain `c` that no other chain interrupts; `outcome(n)` is the
        outcome of the n-th handler run of the bus. */
    method RunTick(c: nat, now: nat, outcome: nat -> bool)
      requires Valid() && CanStart(View(), c)
      modifies this
      ensures Valid() && View() == Tick(old(View()), c, now, outcome)
      ensures accepted == old(accepted) && chains == old(chains)
      ensures AllDue(old(View()), now) && PendingTotal(old(consumers)) > 0 ==>
                Remaining(View()) < Remaining(old(View()))
    {
      hide Inv, Sweep, Settled, Collected, Remaining;
      ghost var before := View();
      StartTick(c, now);
      ghost var started := View();
      SweepRemaining(started, c, outcome);
      assert started.chains[c := Waiting] == before.chains;
      while chains[c].at < |consumers|
        invariant Valid() && MidTick(View(), c) && chains[c].due == []
        invariant Sweep(View(), c, outcome) == Sweep(started, c, outcome)
        decreases |consumers| - chains[c].at
      {
        ghost var at := chains[c].at;
        ghost var n := |consumers|;
        SweepCollects(View(), c, outcome);
        CollectDue(c);
        while |chains[c].due| > 0
          invariant Valid() && MidTick(View(), c) && |consumers| == n
          invariant if chains[c].due == [] then chains[c].at == at + 1 else chains[c].at == at
          invariant Sweep(View(), c, outcome) == Sweep(started, c, outcome)
          decreases |chains[c].due|
        {
          SweepSettles(View(), c, outcome);
          HandlerSettled(c, outcome(|runs|));
        }
      }
      SweepEnds(View(), c, outcome);
      EndTick(c);
      PendingTotalZero(before.consumers);
      if AllDue(before, now) {
        TickRemaining(before, c, now, outcome);
      }
    }

    method DeadLettersCount() returns (n: nat)
      ensures n == |deadLetters|
    {
      n := |deadLetters|;
    }

    /** Zero exactly when no message waits on any consumer. */
    method PendingCount() returns (n: nat)
      ensures n == PendingTotal(consumers)
      ensures n == 0 <==> forall i :: 0 <= i < |consumers| ==> consumers[i].pending == []
    {
      n := 0;
      var i := 0;
      while i < |consumers|
        invariant i <= |consumers|
        invariant n == PendingTotal(consumers[..i])
      {
        assert consumers[..i + 1] == consumers[..i] + [consumers[i]];
        PendingTotalAppend(consumers[..i], consumers[i]);
        n := n + |consumers[i].pending|;
        i := i + 1;
      }
      assert consumers[..i] == consumers;
      PendingTotalZero(consumers);
    }
  }
}
