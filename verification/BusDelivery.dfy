/** Order and fairness of delivery: one consumer sees messages for the first time in
    publish order however retries mix in, and competing consumers share a subject's
    messages evenly. */
module BusDelivery {
  import opened Arithmetic
  import opened BusModel
  import opened BusConservation
  import opened BusHistory

  // ---- publish order -------------------------------------------------------

  /** Identities of the items never run yet, in queue order. */
  ghost function Fresh(ps: seq<Pending>): seq<nat> {
    if ps == [] then [] else (if ps[0].attempts == 0 then [ps[0].message.id] else []) + Fresh(ps[1..])
  }

  /** Identities in the order of their first handler runs. */
  ghost function FirstSeen(runs: seq<HandlerRun>): seq<nat> {
    if runs == [] then []
    else
      var n := |runs| - 1;
      FirstSeen(runs[..n]) + if runs[n].seen.attempts == 0 then [runs[n].seen.id] else []
  }

  ghost function Upto(n: nat): seq<nat> {
    if n == 0 then [] else Upto(n - 1) + [n - 1]
  }

  /** First runs so far, then what is in flight, then what waits: publish order. */
  ghost predicate Ordered(b: Bus) {
    && |b.consumers| == |b.chains| <= 1
    && (|b.consumers| == 0 ==> b.accepted == [] && b.runs == [])
    && (|b.consumers| == 1 ==>
          FirstSeen(b.runs) + Fresh(InFlight(b.chains[0])) + Fresh(b.consumers[0].pending) == Upto(|b.accepted|))
  }

  lemma {:induction false} FreshAppend(ps: seq<Pending>, p: Pending)
    ensures Fresh(ps + [p]) == Fresh(ps) + if p.attempts == 0 then [p.message.id] else []
  {
    if ps == [] {
      assert ps + [p] == [p];
    } else {
      assert (ps + [p])[1..] == ps[1..] + [p];
      FreshAppend(ps[1..], p);
      var head := if ps[0].attempts == 0 then [ps[0].message.id] else [];
      var last := if p.attempts == 0 then [p.message.id] else [];
      assert head + (Fresh(ps[1..]) + last) == head + Fresh(ps[1..]) + last;
    }
  }

  lemma {:induction false} FreshIsDue(ps: seq<Pending>, now: nat)
    requires forall p :: p in ps && p.attempts == 0 ==> p.retryAt <= now
    ensures Fresh(Due(ps, now)) == Fresh(ps) && Fresh(Later(ps, now)) == []
  {
    if ps != [] {
      FreshIsDue(ps[1..], now);
      if ps[0].retryAt <= now {
        assert Due(ps, now)[1..] == Due(ps[1..], now);
        assert Later(ps, now) == Later(ps[1..], now);
      } else {
        assert Later(ps, now)[1..] == Later(ps[1..], now);
        assert Due(ps, now) == Due(ps[1..], now);
      }
    }
  }

  lemma FirstSeenAppend(runs: seq<HandlerRun>, r: HandlerRun)
    ensures FirstSeen(runs + [r]) == FirstSeen(runs) + if r.seen.attempts == 0 then [r.seen.id] else []
  {
  }

  lemma FreshItemsAreDue(b: Bus, i: nat, now: nat)
    requires Inv(b) && i < |b.consumers|
    ensures forall p :: p in b.consumers[i].pending && p.attempts == 0 ==> p.retryAt <= now
  {
  }

  /** Collecting moves the fresh items, all of them due, into the chain in order. */
  lemma CollectedOrdered(b: Bus, c: nat)
    requires Inv(b) && Ordered(b) && CanCollect(b, c)
    ensures Ordered(Collected(b, c))
  {
    hide Inv, Due, Later, Fresh, FirstSeen, Upto;
    var ch := b.chains[c];
    var ps := b.consumers[ch.at].pending;
    FreshItemsAreDue(b, ch.at, ch.now);
    FreshIsDue(ps, ch.now);
    CollectedLine(b, c, FirstSeen(b.runs));
  }

  lemma CollectedLine(b: Bus, c: nat, first: seq<nat>)
    requires |b.consumers| == |b.chains| == 1 && CanCollect(b, c)
    requires var ch := b.chains[0];
             var ps := b.consumers[0].pending;
             Fresh(Due(ps, ch.now)) == Fresh(ps) && Fresh(Later(ps, ch.now)) == []
    ensures var b' := Collected(b, c);
            && |b'.consumers| == |b'.chains| == 1
            && first + Fresh(InFlight(b'.chains[0])) + Fresh(b'.consumers[0].pending) ==
               first + Fresh(InFlight(b.chains[0])) + Fresh(b.consumers[0].pending)
  {
    hide Due, Later;
    var waiting := Fresh(b.consumers[0].pending);
    assert Fresh([]) == [];
    assert first + [] + waiting == first + waiting + [];
  }

  /** The item that ran leaves the chain; a retry of it is not fresh. */
  lemma SettledLine(b: Bus, c: nat, ok: bool)
    requires |b.consumers| == |b.chains| == 1 && CanSettle(b, c)
    ensures var b' := Settled(b, c, ok);
            && |b'.consumers| == |b'.chains| == 1
            && InFlight(b'.chains[0]) == b.chains[0].due[1..]
            && Fresh(b'.consumers[0].pending) == Fresh(b.consumers[0].pending)
  {
    var ch := b.chains[0];
    var item := ch.due[0];
    var consumer := b.consumers[0];
    if |ch.due| == 1 {
      assert ch.due[1..] == [];
    }
    if !ok && item.attempts + 1 < consumer.maxRetries {
      FreshAppend(consumer.pending, RetryOf(item, ch.now, consumer.retryBaseMs));
    }
  }

  lemma RunLine(first: seq<nat>, due: seq<Pending>, rest: seq<nat>)
    requires due != []
    ensures (first + if due[0].attempts == 0 then [due[0].message.id] else []) + Fresh(due[1..]) + rest
            == first + Fresh(due) + rest
  {
    var head := if due[0].attempts == 0 then [due[0].message.id] else [];
    assert Fresh(due) == head + Fresh(due[1..]);
    hide Fresh;
    assert first + head + Fresh(due[1..]) == first + (head + Fresh(due[1..]));
  }

  lemma SettledOrdered(b: Bus, c: nat, ok: bool)
    requires Inv(b) && Ordered(b) && CanSettle(b, c)
    ensures Ordered(Settled(b, c, ok))
  {
    HeadIsTracked(b, c);
    OrderedAfterRun(b, c, Settled(b, c, ok), RunOf(b.chains[c], ok)) by {
      SettledRecordsRun(b, c, ok);
      SettledLine(b, c, ok);
    }
  }

  lemma OrderedAfterRun(b: Bus, c: nat, b': Bus, run: HandlerRun)
    requires Ordered(b) && RunRecorded(b, c, run, b')
    requires run.seen.attempts == b.chains[c].due[0].attempts
    requires |b'.consumers| == |b'.chains| == 1
    requires InFlight(b'.chains[0]) == b.chains[0].due[1..]
    requires Fresh(b'.consumers[0].pending) == Fresh(b.consumers[0].pending)
    ensures Ordered(b')
  {
    FirstSeenAppend(b.runs, run);
    RunLine(FirstSeen(b.runs), b.chains[0].due, Fresh(b.consumers[0].pending));
  }

  lemma PublishedOrdered(b: Bus, s: Subject, kind: string, payload: string, at: int)
    requires Ordered(b)
    ensures Ordered(Published(b, s, kind, payload, at))
  {
    if Group(b.consumers, s) != [] {
      var p := Pending(Message(|b.accepted|, kind, payload, 0, at), 0, 0);
      FreshAppend(b.consumers[0].pending, p);
      assert FirstSeen(b.runs) + Fresh(InFlight(b.chains[0])) + (Fresh(b.consumers[0].pending) + [|b.accepted|])
          == FirstSeen(b.runs) + Fresh(InFlight(b.chains[0])) + Fresh(b.consumers[0].pending) + [|b.accepted|];
    }
  }

  lemma StepOrdered(b: Bus, e: Step)
    requires Inv(b) && Ordered(b) && Enabled(b, e) && |Next(b, e).consumers| <= 1
    ensures Ordered(Next(b, e))
  {
    match e
    case Publish(s, kind, payload, at) => PublishedOrdered(b, s, kind, payload, at);
    case Consume(_, _, _) =>
    case StartTick(_, _) =>
    case Collect(c) => CollectedOrdered(b, c);
    case Settle(c, ok) => SettledOrdered(b, c, ok);
    case EndTick(_) =>
  }

  lemma {:induction false} ConsumersStay(b: Bus, es: seq<Step>)
    requires Runnable(b, es)
    ensures |b.consumers| <= |After(b, es).consumers|
    decreases |es|
  {
    if es != [] {
      ConsumersStay(Next(b, es[0]), es[1..]);
    }
  }

  lemma {:induction false} RunOrdered(b: Bus, es: seq<Step>)
    requires Inv(b) && Ordered(b) && Runnable(b, es) && |After(b, es).consumers| <= 1
    ensures Ordered(After(b, es))
    decreases |es|
  {
    if es != [] {
      ConsumersStay(Next(b, es[0]), es[1..]);
      StepOrdered(b, es[0]);
      StepKeepsInv(b, es[0]);
      RunOrdered(Next(b, es[0]), es[1..]);
    }
  }

  lemma {:induction false} UptoAt(n: nat, k: nat)
    requires k < n
    ensures |Upto(n)| == n && Upto(n)[k] == k
  {
    if n > 1 {
      UptoAt(n - 1, if k < n - 1 then k else 0);
    }
  }

  /** With one consumer the k-th first run is the k-th accepted message, in every run. */
  lemma FirstRunsInPublishOrder(es: seq<Step>)
    requires Runnable(EMPTY_BUS, es) && |After(EMPTY_BUS, es).consumers| <= 1
    ensures var b := After(EMPTY_BUS, es);
            && |FirstSeen(b.runs)| <= |b.accepted|
            && forall k :: 0 <= k < |FirstSeen(b.runs)| ==> FirstSeen(b.runs)[k] == k
  {
    EmptyBusInv();
    RunOrdered(EMPTY_BUS, es);
    var b := After(EMPTY_BUS, es);
    if |b.consumers| == 1 && |b.accepted| > 0 {
      UptoAt(|b.accepted|, 0);
      forall k | 0 <= k < |FirstSeen(b.runs)| ensures FirstSeen(b.runs)[k] == k {
        UptoAt(|b.accepted|, k);
        assert Upto(|b.accepted|)[k] == FirstSeen(b.runs)[k];
      }
    }
  }

  // ---- fairness ------------------------------------------------------------

  /** How many of the accepted messages from the `start`-th on went to consumer `i`. */
  ghost function Share(accepted: seq<Accepted>, start: nat, i: nat): nat
    requires start <= |accepted|
    decreases |accepted|
  {
    if |accepted| == start then 0
    else
      var n := |accepted| - 1;
      Share(accepted[..n], start, i) + if accepted[n].consumer == i then 1 else 0
  }

  lemma ShareAppend(accepted: seq<Accepted>, start: nat, a: Accepted, i: nat)
    requires start <= |accepted|
    ensures Share(accepted + [a], start, i) == Share(accepted, start, i) + if a.consumer == i then 1 else 0
  {
  }

  lemma {:induction false} GroupFrame(cs: seq<Consumer>, cs': seq<Consumer>, s: Subject, n: nat)
    requires n <= |cs| == |cs'| && forall i :: 0 <= i < |cs| ==> cs'[i].subject == cs[i].subject
    ensures GroupUpTo(cs', s, n) == GroupUpTo(cs, s, n)
  {
    if n > 0 {
      GroupFrame(cs, cs', s, n - 1);
    }
  }

  /** Turns among the counter values below `x` that fall to position `j` of `n`. */
  ghost function TurnsBelow(x: nat, n: nat, j: nat): nat
    requires j < n
  {
    if x == 0 then 0 else TurnsBelow(x - 1, n, j) + if Turn(x - 1, n) == j then 1 else 0
  }

  lemma {:induction false} FirstCycle(x: nat, n: nat, j: nat)
    requires j < n && x <= n
    ensures TurnsBelow(x, n, j) == if x > j then 1 else 0
  {
    if x > 0 {
      FirstCycle(x - 1, n, j);
      DivModUnique(x - 1, n, 0, x - 1);
    }
  }

  /** Every window of n turns gives each position one. */
  lemma {:induction false} OnePerCycle(x: nat, n: nat, j: nat)
    requires j < n
    ensures TurnsBelow(x + n, n, j) == TurnsBelow(x, n, j) + 1
  {
    if x == 0 {
      FirstCycle(n, n, j);
    } else {
      OnePerCycle(x - 1, n, j);
      FullTurn(x - 1, n);
    }
  }

  lemma {:induction false} TurnsGrow(x: nat, k: nat, n: nat, j: nat)
    requires j < n
    ensures TurnsBelow(x, n, j) <= TurnsBelow(x + k, n, j)
  {
    if k > 0 {
      TurnsGrow(x, k - 1, n, j);
    }
  }

  /** `share` is k/n rounded down or up. */
  ghost predicate FloorOrCeiling(share: int, k: nat, n: nat) {
    k - n < share * n < k + n
  }

  lemma OneMore(share: int, k: nat, n: nat)
    requires n <= k && FloorOrCeiling(share, k - n, n)
    ensures FloorOrCeiling(share + 1, k, n)
  {
  }

  lemma NoneOrOne(share: int, k: nat, n: nat)
    requires k < n && (share == 0 || (share == 1 && k > 0))
    ensures FloorOrCeiling(share, k, n)
  {
  }

  /** Of k consecutive turns every position gets floor(k/n) or ceil(k/n). */
  lemma {:induction false} TurnsAreEven(x: nat, k: nat, n: nat, j: nat)
    requires j < n
    ensures FloorOrCeiling(TurnsBelow(x + k, n, j) - TurnsBelow(x, n, j), k, n)
  {
    hide FloorOrCeiling, TurnsBelow;
    if k >= n {
      TurnsAreEven(x, k - n, n, j);
      OnePerCycle(x + k - n, n, j);
      OneMore(TurnsBelow(x + k - n, n, j) - TurnsBelow(x, n, j), k, n);
    } else {
      OnePerCycle(x, n, j);
      TurnsGrow(x, k, n, j);
      TurnsGrow(x + k, n - k, n, j);
      NoneOrOne(TurnsBelow(x + k, n, j) - TurnsBelow(x, n, j), k, n);
    }
  }

  ghost function Publishes(es: seq<Step>): nat {
    if es == [] then 0 else (if es[0].Publish? then 1 else 0) + Publishes(es[1..])
  }

  /** A run without new consumers whose publishes all go to `s`. */
  ghost predicate Only(s: Subject, es: seq<Step>) {
    forall e :: e in es ==> !e.Consume? && (e.Publish? ==> e.subject == s)
  }

  lemma StepKeepsGroup(b: Bus, e: Step, s: Subject)
    requires Enabled(b, e) && !e.Consume?
    ensures Group(Next(b, e).consumers, s) == Group(b.consumers, s)
  {
    GroupFrame(b.consumers, Next(b, e).consumers, s, |b.consumers|);
  }

  /** Who gets the next message published to `s`. */
  lemma PublishGoesTo(b: Bus, e: Step, s: Subject)
    requires e.Publish? && e.subject == s && Group(b.consumers, s) != []
    ensures var b' := Next(b, e);
            var g := Group(b.consumers, s);
            && b'.rrCounter == b.rrCounter + 1
            && b'.accepted == b.accepted + [Accepted(Message(|b.accepted|, e.kind, e.payload, 0, e.publishedAt),
                                                     s, g[Turn(b.rrCounter, |g|)])]
  {
  }

  lemma GroupDistinct(cs: seq<Consumer>, s: Subject, j: nat, k: nat)
    requires j < |Group(cs, s)| && k < |Group(cs, s)|
    ensures Group(cs, s)[j] == Group(cs, s)[k] <==> j == k
  {
  }

  lemma OtherStepsAcceptNothing(b: Bus, e: Step)
    requires Enabled(b, e) && !e.Publish?
    ensures Next(b, e).accepted == b.accepted && Next(b, e).rrCounter == b.rrCounter
  {
  }

  lemma StepShare(b: Bus, e: Step, s: Subject, start: nat, j: nat)
    requires Enabled(b, e) && !e.Consume? && (e.Publish? ==> e.subject == s)
    requires start <= |b.accepted| && j < |Group(b.consumers, s)|
    ensures var b' := Next(b, e);
            var g := Group(b.consumers, s);
            var one := if e.Publish? then 1 else 0;
            && Group(b'.consumers, s) == g
            && b'.rrCounter == b.rrCounter + one && |b'.accepted| == |b.accepted| + one
            && Share(b'.accepted, start, g[j]) ==
               Share(b.accepted, start, g[j]) + if e.Publish? && Turn(b.rrCounter, |g|) == j then 1 else 0
  {
    hide Next, Group, Share, Turn;
    StepKeepsGroup(b, e, s);
    if e.Publish? {
      var g := Group(b.consumers, s);
      var m := Message(|b.accepted|, e.kind, e.payload, 0, e.publishedAt);
      PublishGoesTo(b, e, s);
      ShareAppend(b.accepted, start, Accepted(m, s, g[Turn(b.rrCounter, |g|)]), g[j]);
      GroupDistinct(b.consumers, s, Turn(b.rrCounter, |g|), j);
    } else {
      OtherStepsAcceptNothing(b, e);
    }
  }

  lemma {:induction false} SharesFollowTurns(b: Bus, es: seq<Step>, s: Subject, start: nat, j: nat)
    requires Runnable(b, es) && Only(s, es) && start <= |b.accepted| && j < |Group(b.consumers, s)|
    ensures var b' := After(b, es);
            var g := Group(b.consumers, s);
            && b'.rrCounter == b.rrCounter + Publishes(es)
            && |b'.accepted| == |b.accepted| + Publishes(es)
            && Share(b'.accepted, start, g[j]) ==
               Share(b.accepted, start, g[j]) + TurnsBelow(b'.rrCounter, |g|, j) - TurnsBelow(b.rrCounter, |g|, j)
    decreases |es|
  {
    hide Turn, Next, Enabled, Group;
    if es != [] {
      assert es[0] in es;
      StepShare(b, es[0], s, start, j);
      SharesFollowTurns(Next(b, es[0]), es[1..], s, start, j);
    }
  }

  lemma PositionOf(cs: seq<Consumer>, s: Subject, i: nat) returns (j: nat)
    requires i < |cs| && cs[i].subject == s
    ensures j < |Group(cs, s)| && Group(cs, s)[j] == i
  {
    j :| j < |Group(cs, s)| && Group(cs, s)[j] == i;
  }

  lemma NoShareYet(accepted: seq<Accepted>, i: nat)
    ensures Share(accepted, |accepted|, i) == 0
  {
  }

  /** In any run that publishes k messages, all to one subject with a fixed group of n
      consumers, each of them gets floor(k/n) or ceil(k/n), whatever ticks, retries and
      handlers come in between. */
  lemma RoundRobinIsFair(b: Bus, es: seq<Step>, s: Subject, i: nat)
    requires Runnable(b, es) && Only(s, es)
    requires i < |b.consumers| && b.consumers[i].subject == s
    ensures var b' := After(b, es);
            && |b'.accepted| == |b.accepted| + Publishes(es)
            && FloorOrCeiling(Share(b'.accepted, |b.accepted|, i), Publishes(es), |Group(b.consumers, s)|)
  {
    hide *;
    var g := Group(b.consumers, s);
    var j := PositionOf(b.consumers, s, i);
    NoShareYet(b.accepted, i);
    SharesFollowTurns(b, es, s, |b.accepted|, j);
    TurnsAreEven(b.rrCounter, Publishes(es), |g|, j);
  }

  // ---- the counter is shared by the subjects -----------------------------------

  /** A run without new consumers and without publishes to `s`. */
  ghost predicate Without(s: Subject, es: seq<Step>) {
    forall e :: e in es ==> !e.Consume? && (e.Publish? ==> e.subject != s)
  }

  lemma {:induction false} OthersKeepGroup(b: Bus, es: seq<Step>, s: Subject)
    requires Runnable(b, es) && Without(s, es)
    ensures Group(After(b, es).consumers, s) == Group(b.consumers, s)
    ensures After(b, es).rrCounter >= b.rrCounter
    decreases |es|
  {
    hide Group;
    if es != [] {
      assert es[0] in es;
      StepKeepsGroup(b, es[0], s);
      OthersKeepGroup(Next(b, es[0]), es[1..], s);
    }
  }

  lemma TurnAfter(x: nat, d: nat, n: nat)
    requires n > 0
    ensures Turn(x + 1 + d, n) == Turn(x + 1, n) <==> d % n == 0
  {
    var q, r := d / n, d % n;
    var p := (x + 1) / n;
    var t := Turn(x + 1, n);
    assert x + 1 + d == (p + q) * n + t + r by {
      assert (p + q) * n == p * n + q * n;
    }
    if t + r < n {
      DivModUnique(x + 1 + d, n, p + q, t + r);
    } else {
      assert (p + q + 1) * n == (p + q) * n + n;
      DivModUnique(x + 1 + d, n, p + q + 1, t + r - n);
    }
  }

  /** Two publishes to `s` with none to `s` in between go to neighbours in the group
      exactly if the number of messages accepted for other subjects in between is a
      multiple of the group's size. */
  lemma NeighboursTakeTurnsIff(b: Bus, first: Step, es: seq<Step>, next: Step, s: Subject)
    requires first.Publish? && next.Publish? && first.subject == next.subject == s
    requires Group(b.consumers, s) != []
    requires Runnable(Next(b, first), es) && Without(s, es)
    ensures var b1 := Next(b, first);
            var b2 := After(b1, es);
            var b3 := Next(b2, next);
            var g := Group(b.consumers, s);
            var others := b2.rrCounter - b1.rrCounter;
            && others >= 0 && |b1.accepted| > 0 && |b3.accepted| > 0
            && b1.accepted[|b1.accepted| - 1].consumer == g[Turn(b.rrCounter, |g|)]
            && (b3.accepted[|b3.accepted| - 1].consumer == g[Turn(b.rrCounter + 1, |g|)] <==> others % |g| == 0)
  {
    hide Next, Group, Turn, After;
    var b1 := Next(b, first);
    var b2 := After(b1, es);
    var g := Group(b.consumers, s);
    StepKeepsGroup(b, first, s);
    PublishGoesTo(b, first, s);
    OthersKeepGroup(b1, es, s);
    PublishGoesTo(b2, next, s);
    TurnAfter(b.rrCounter, b2.rrCounter - b1.rrCounter, |g|);
    GroupDistinct(b.consumers, s, Turn(b2.rrCounter, |g|), Turn(b.rrCounter + 1, |g|));
  }
}
