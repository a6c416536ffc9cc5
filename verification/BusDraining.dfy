/** The bus empties however its tick chains interleave: any number of chains, each at its
    own place in its sweep, handlers settling in any order. */
module BusDraining {
  import opened BusModel
  import opened BusConservation
  import opened BusHistory
  import opened BusTermination

  // ---- no chain is ever stuck ------------------------------------------------

  ghost predicate OfChain(e: Step, c: nat) {
    match e
    case Publish(_, _, _, _) => false
    case Consume(_, _, _) => false
    case StartTick(d, _) => d == c
    case Collect(d) => d == c
    case Settle(d, _) => d == c
    case EndTick(d) => d == c
  }

  /** In every reachable state every chain has a step to take, whatever the clock reads
      and however its handler ends. */
  lemma ChainsNeverStick(b: Bus, c: nat, now: nat, ok: bool) returns (e: Step)
    requires Inv(b) && c < |b.chains|
    ensures Enabled(b, e) && OfChain(e, c)
    ensures e.StartTick? ==> e.now == now
    ensures e.Settle? ==> e.ok == ok
  {
    var ch := b.chains[c];
    if ch.Waiting? {
      e := StartTick(c, now);
    } else if ch.due != [] {
      assert ch in b.chains && InFlight(ch) != [];
      FlightsInRange(b);
      e := Settle(c, ok);
    } else {
      e := if ch.at < |b.consumers| then Collect(c) else EndTick(c);
    }
  }

  // ---- when everything is due ------------------------------------------------

  /** A clock reading at least 60 s after every tick in which a handler failed. */
  ghost predicate Late(b: Bus, now: nat) {
    forall r :: r in b.runs && !r.ok ==> now >= r.tick + BACKOFF_CAP_MS
  }

  /** No retry is put off beyond the cap. */
  lemma LateMeansAllDue(b: Bus, now: nat)
    requires Inv(b) && Late(b, now)
    ensures AllDue(b, now)
  {
    forall i, p | 0 <= i < |b.consumers| && p in b.consumers[i].pending ensures p.retryAt <= now {
      assert Tracked(b, i, p);
      var rs := RunsOf(b.runs, p.message.id);
      if p.attempts > 0 {
        assert rs[p.attempts - 1] in rs;
      }
    }
  }

  // ---- runs in which no handler settles ----------------------------------------

  ghost predicate NoPublish(es: seq<Step>) {
    forall e :: e in es ==> !e.Publish?
  }

  ghost predicate Silent(es: seq<Step>) {
    forall e :: e in es ==> !e.Publish? && !e.Settle?
  }

  ghost predicate NothingWaits(b: Bus) {
    forall i :: 0 <= i < |b.consumers| ==> b.consumers[i].pending == []
  }

  ghost predicate Holding(b: Bus, c: nat) {
    c < |b.chains| && InFlight(b.chains[c]) != []
  }

  /** A chain that awaits a handler does not move while no handler settles. */
  lemma {:induction false} HoldingChainStays(b: Bus, es: seq<Step>, c: nat)
    requires Runnable(b, es) && Silent(es) && Holding(b, c)
    ensures EndTick(c) !in es
    decreases |es|
  {
    if es != [] {
      assert es[0] in es;
      HoldingChainStays(Next(b, es[0]), es[1..], c);
    }
  }

  lemma SilentStepShrinks(b: Bus, e: Step)
    requires Enabled(b, e) && !e.Publish? && !e.Settle?
    ensures |b.consumers| <= |Next(b, e).consumers|
    ensures forall i, p :: 0 <= i < |Next(b, e).consumers| && p in Next(b, e).consumers[i].pending ==>
              i < |b.consumers| && p in b.consumers[i].pending
    ensures forall i :: 0 <= i < |Next(b, e).consumers| && Next(b, e).consumers[i].pending != [] ==>
              i < |b.consumers| && b.consumers[i].pending != []
  {
  }

  lemma SilentStepKeeps(b: Bus, e: Step)
    requires Enabled(b, e) && !e.Publish? && !e.Settle?
    ensures NothingWaits(b) ==> NothingWaits(Next(b, e))
    ensures forall now: nat :: AllDue(b, now) ==> AllDue(Next(b, e), now)
  {
    SilentStepShrinks(b, e);
  }

  lemma {:induction false} StaysEmpty(b: Bus, es: seq<Step>)
    requires Runnable(b, es) && Silent(es) && NothingWaits(b)
    ensures NothingWaits(After(b, es))
    decreases |es|
  {
    if es != [] {
      assert es[0] in es;
      SilentStepKeeps(b, es[0]);
      StaysEmpty(Next(b, es[0]), es[1..]);
    }
  }

  /** Chain `c` is in a tick that read `now`, holds nothing, and has left no message on
      any consumer it has passed; whatever still waits is due. */
  ghost predicate Sweeps(b: Bus, c: nat, now: nat) {
    && c < |b.chains| && b.chains[c].Sweeping? && b.chains[c].now == now && b.chains[c].due == []
    && AllDue(b, now)
    && forall i :: 0 <= i < |b.consumers| && i < b.chains[c].at ==> b.consumers[i].pending == []
  }

  lemma SweepsOn(b: Bus, e: Step, c: nat, now: nat)
    requires Sweeps(b, c, now) && Enabled(b, e) && !e.Publish? && !e.Settle? && e != EndTick(c)
    ensures Sweeps(Next(b, e), c, now) || Holding(Next(b, e), c)
  {
    var b' := Next(b, e);
    SilentStepKeeps(b, e);
    SilentStepShrinks(b, e);
    if e == Collect(c) {
      var ps := b.consumers[b.chains[c].at].pending;
      DueIsComplete(ps, now);
      assert ps != [] ==> ps[0] in Due(ps, now);
    } else {
      assert b'.chains[c] == b.chains[c];
    }
  }

  /** A tick that runs to its end over due messages without a handler settling has found
      every consumer empty, whatever the other chains did meanwhile. */
  lemma {:induction false} SilentTickFindsNothing(b: Bus, es: seq<Step>, c: nat, now: nat)
    requires Runnable(b, es) && Silent(es) && Sweeps(b, c, now) && EndTick(c) in es
    ensures NothingWaits(After(b, es))
    decreases |es|
  {
    hide Next, Sweeps, Holding;
    assert es[0] in es;
    var b' := Next(b, es[0]);
    if es[0] == EndTick(c) {
      SweepEndsEmpty(b, c, now);
      SilentStepKeeps(b, es[0]);
      StaysEmpty(b', es[1..]);
    } else {
      SweepsOn(b, es[0], c, now);
      assert EndTick(c) in es[1..];
      if Holding(b', c) {
        HoldingChainStays(b', es[1..], c);
      } else {
        SilentTickFindsNothing(b', es[1..], c, now);
      }
    }
  }

  lemma SweepEndsEmpty(b: Bus, c: nat, now: nat)
    requires Sweeps(b, c, now) && CanEnd(b, c)
    ensures NothingWaits(b)
  {
  }

  // ---- rounds ------------------------------------------------------------------

  /** Some chain starts a tick at a late reading, and ends it. */
  ghost predicate HasLateTick(b: Bus, es: seq<Step>)
    requires Runnable(b, es)
    decreases |es|
  {
    && es != []
    && (|| (es[0].StartTick? && Late(b, es[0].now) && EndTick(es[0].chain) in es[1..])
        || HasLateTick(Next(b, es[0]), es[1..]))
  }

  /** A stretch of any interleaving, without publishes, in which every tick under way at
      its beginning ends and one late tick takes place. */
  ghost predicate Round(b: Bus, es: seq<Step>) {
    && Runnable(b, es) && NoPublish(es)
    && (forall c :: 0 <= c < |b.chains| && b.chains[c].Sweeping? ==> EndTick(c) in es)
    && HasLateTick(b, es)
  }

  lemma {:induction false} SilentLateTick(b: Bus, es: seq<Step>)
    requires Inv(b) && Runnable(b, es) && Silent(es) && HasLateTick(b, es)
    ensures NothingWaits(After(b, es))
    decreases |es|
  {
    hide Inv, Late, AllDue;
    var b' := Next(b, es[0]);
    assert es[0] in es;
    StepKeepsInv(b, es[0]);
    if es[0].StartTick? && Late(b, es[0].now) && EndTick(es[0].chain) in es[1..] {
      LateMeansAllDue(b, es[0].now);
      SilentStepKeeps(b, es[0]);
      assert Sweeps(b', es[0].chain, es[0].now);
      SilentTickFindsNothing(b', es[1..], es[0].chain, es[0].now);
    } else {
      SilentLateTick(b', es[1..]);
    }
  }

  /** A round in which no handler settles began with nothing in flight and leaves nothing
      waiting; so if all chains rest at its end, the bus is idle. */
  lemma SilentRound(b: Bus, es: seq<Step>)
    requires Inv(b) && Round(b, es) && Silent(es)
    ensures forall c :: 0 <= c < |b.chains| ==> InFlight(b.chains[c]) == []
    ensures NothingWaits(After(b, es))
    ensures (forall c :: 0 <= c < |After(b, es).chains| ==> After(b, es).chains[c].Waiting?) ==> Idle(After(b, es))
  {
    SilentLateTick(b, es);
    forall c | 0 <= c < |b.chains| ensures InFlight(b.chains[c]) == [] {
      if InFlight(b.chains[c]) != [] {
        HoldingChainStays(b, es, c);
      }
    }
  }

  lemma {:induction false} SettlingCounts(b: Bus, es: seq<Step>)
    requires Inv(b) && Runnable(b, es) && NoPublish(es)
    ensures |After(b, es).runs| >= |b.runs|
    ensures !Silent(es) ==> |After(b, es).runs| > |b.runs|
    decreases |es|
  {
    hide Inv;
    if es != [] {
      assert es[0] in es;
      StepRemaining(b, es[0]);
      StepKeepsInv(b, es[0]);
      SettlingCounts(Next(b, es[0]), es[1..]);
      if !Silent(es) && Silent(es[1..]) {
        assert forall e :: e in es ==> e == es[0] || e in es[1..];
        assert es[0].Settle?;
      }
    }
  }

  /** Twice the attempts that remain, and one more while something waits. */
  ghost function RoundsLeft(b: Bus): int {
    2 * Remaining(b) + if NothingWaits(b) then 0 else 1
  }

  /** Every round of a bus that is not idle brings it closer to idle. */
  lemma RoundMakesProgress(b: Bus, es: seq<Step>)
    requires Inv(b) && Round(b, es) && !Idle(b)
    ensures Inv(After(b, es)) && After(b, es).accepted == b.accepted
    ensures RoundsLeft(After(b, es)) < RoundsLeft(b)
  {
    hide Inv, Remaining, HasLateTick;
    RunKeepsInv(b, es);
    RunsAreBounded(b, es);
    SettlingCounts(b, es);
    if Silent(es) {
      SilentRound(b, es);
      assert !NothingWaits(b);
    }
  }

  ghost predicate Rounds(b: Bus, rounds: seq<seq<Step>>)
    decreases |rounds|
  {
    rounds != [] ==> Round(b, rounds[0]) && Rounds(After(b, rounds[0]), rounds[1..])
  }

  ghost function AfterRounds(b: Bus, rounds: seq<seq<Step>>): Bus
    requires Rounds(b, rounds)
    decreases |rounds|
  {
    if rounds == [] then b else AfterRounds(After(b, rounds[0]), rounds[1..])
  }

  /** An idle bus stays idle until something is published. */
  lemma {:induction false} StaysIdle(b: Bus, es: seq<Step>)
    requires Idle(b) && Runnable(b, es) && NoPublish(es)
    ensures Idle(After(b, es)) && After(b, es).accepted == b.accepted
    decreases |es|
  {
    if es != [] {
      assert es[0] in es;
      StaysIdle(Next(b, es[0]), es[1..]);
    }
  }

  lemma {:induction false} StaysIdleForRounds(b: Bus, rounds: seq<seq<Step>>)
    requires Inv(b) && Idle(b) && Rounds(b, rounds)
    ensures Inv(AfterRounds(b, rounds)) && Idle(AfterRounds(b, rounds))
    ensures AfterRounds(b, rounds).accepted == b.accepted
    decreases |rounds|
  {
    if rounds != [] {
      StaysIdle(b, rounds[0]);
      RunKeepsInv(b, rounds[0]);
      StaysIdleForRounds(After(b, rounds[0]), rounds[1..]);
    }
  }

  lemma NotIdleHasWork(b: Bus)
    requires Inv(b) && !Idle(b)
    ensures RoundsLeft(b) > 0
  {
    RemainingNonNegative(b);
  }

  lemma {:induction false} IdleWithinRounds(b: Bus, rounds: seq<seq<Step>>)
    requires Inv(b) && Rounds(b, rounds) && |rounds| >= RoundsLeft(b)
    ensures Inv(AfterRounds(b, rounds)) && Idle(AfterRounds(b, rounds))
    ensures AfterRounds(b, rounds).accepted == b.accepted
    decreases |rounds|
  {
    hide Inv, RoundsLeft, Idle;
    if Idle(b) {
      StaysIdleForRounds(b, rounds);
    } else {
      NotIdleHasWork(b);
      RoundMakesProgress(b, rounds[0]);
      IdleWithinRounds(After(b, rounds[0]), rounds[1..]);
    }
  }

  /** The bus drains. From any reachable state, with chains anywhere in their sweeps and
      messages in flight, any publish-free interleaving that goes on for twice the
      remaining attempts plus one rounds makes the bus idle, for any handler outcomes;
      then handled plus dead-lettered is accepted, each message exactly once. */
  lemma BusDrains(b: Bus, rounds: seq<seq<Step>>)
    requires Inv(b) && Rounds(b, rounds) && |rounds| >= 2 * Remaining(b) + 1
    ensures var b' := AfterRounds(b, rounds);
            && b'.accepted == b.accepted && Idle(b')
            && |b'.handled| + |b'.deadLetters| == |b.accepted|
            && forall id: nat :: id < |b.accepted| ==> InMessages(b'.handled, id) + InMessages(b'.deadLetters, id) == 1
  {
    IdleWithinRounds(b, rounds);
    IdleMeansDone(AfterRounds(b, rounds));
  }

  // ---- such rounds always exist ----------------------------------------------

  lemma {:induction false} RunConcat(b: Bus, xs: seq<Step>, ys: seq<Step>)
    requires Runnable(b, xs) && Runnable(After(b, xs), ys)
    ensures Runnable(b, xs + ys) && After(b, xs + ys) == After(After(b, xs), ys)
    decreases |xs|
  {
    if xs == [] {
      assert xs + ys == ys;
    } else {
      assert (xs + ys)[1..] == xs[1..] + ys;
      RunConcat(Next(b, xs[0]), xs[1..], ys);
    }
  }

  lemma {:induction false} LateTickConcat(b: Bus, xs: seq<Step>, ys: seq<Step>)
    requires Runnable(b, xs) && Runnable(After(b, xs), ys) && HasLateTick(After(b, xs), ys)
    ensures Runnable(b, xs + ys) && HasLateTick(b, xs + ys)
    decreases |xs|
  {
    RunConcat(b, xs, ys);
    if xs == [] {
      assert xs + ys == ys;
    } else {
      assert (xs + ys)[1..] == xs[1..] + ys;
      LateTickConcat(Next(b, xs[0]), xs[1..], ys);
    }
  }

  /** A tick under way can be taken to its end whatever its handlers do. */
  lemma {:induction false} FinishTick(b: Bus, c: nat, oracle: nat -> bool) returns (es: seq<Step>)
    requires Inv(b) && MidTick(b, c)
    ensures Runnable(b, es) && NoPublish(es) && EndTick(c) in es
    ensures Inv(After(b, es)) && After(b, es).chains == b.chains[c := Waiting]
    decreases |b.consumers| - b.chains[c].at, if b.chains[c].due == [] then 1 else 0, |b.chains[c].due|
  {
    hide Inv;
    var e := if CanSettle(b, c) then Settle(c, oracle(|b.runs|))
             else if CanCollect(b, c) then Collect(c)
             else EndTick(c);
    StepKeepsInv(b, e);
    var b' := Next(b, e);
    if e == EndTick(c) {
      es := [e];
      assert es[1..] == [];
    } else {
      assert b'.chains[c := Waiting] == b.chains[c := Waiting];
      var rest := FinishTick(b', c, oracle);
      es := [e] + rest;
      assert es[1..] == rest;
    }
  }

  lemma {:induction false} FinishTicks(b: Bus, n: nat, oracle: nat -> bool) returns (es: seq<Step>)
    requires Inv(b) && n <= |b.chains| && forall c :: n <= c < |b.chains| ==> b.chains[c].Waiting?
    ensures Runnable(b, es) && NoPublish(es) && Inv(After(b, es)) && |After(b, es).chains| == |b.chains|
    ensures forall c :: 0 <= c < |b.chains| && b.chains[c].Sweeping? ==> EndTick(c) in es
    ensures forall c :: 0 <= c < |b.chains| ==> After(b, es).chains[c].Waiting?
    decreases n
  {
    hide Inv;
    if n == 0 {
      es := [];
    } else if b.chains[n - 1].Waiting? {
      es := FinishTicks(b, n - 1, oracle);
    } else {
      assert MidTick(b, n - 1) by {
        assert b.chains[n - 1] in b.chains;
        FlightsInRange(b);
      }
      var one := FinishTick(b, n - 1, oracle);
      var rest := FinishTicks(After(b, one), n - 1, oracle);
      RunConcat(b, one, rest);
      es := one + rest;
    }
  }

  lemma {:induction false} ALateReading(runs: seq<HandlerRun>) returns (now: nat)
    ensures forall r :: r in runs ==> now >= r.tick + BACKOFF_CAP_MS
  {
    if runs == [] {
      now := 0;
    } else {
      var rest := ALateReading(runs[1..]);
      now := rest + runs[0].tick + BACKOFF_CAP_MS;
    }
  }

  /** From every reachable state a round is possible, for any handler outcomes. */
  lemma RoundExists(b: Bus, c: nat, oracle: nat -> bool) returns (es: seq<Step>)
    requires Inv(b) && c < |b.chains|
    ensures Round(b, es) && Inv(After(b, es)) && |After(b, es).chains| == |b.chains|
  {
    hide Inv;
    var ends := FinishTicks(b, |b.chains|, oracle);
    var rest := After(b, ends);
    var now := ALateReading(rest.runs);
    var started := Started(rest, c, now);
    StartedInv(rest, c, now);
    var tick := FinishTick(started, c, oracle);
    var late := [StartTick(c, now)] + tick;
    assert late[1..] == tick && Next(rest, late[0]) == started;
    assert HasLateTick(rest, late);
    LateTickConcat(b, ends, late);
    RunConcat(b, ends, late);
    es := ends + late;
  }

  lemma {:induction false} RoundsExist(b: Bus, c: nat, oracle: nat -> bool, n: nat) returns (rounds: seq<seq<Step>>)
    requires Inv(b) && c < |b.chains|
    ensures Rounds(b, rounds) && |rounds| == n
    decreases n
  {
    hide Inv, Round;
    if n == 0 {
      rounds := [];
    } else {
      var first := RoundExists(b, c, oracle);
      assert Runnable(b, first) by { RoundIsRunnable(b, first); }
      var rest := RoundsExist(After(b, first), c, oracle, n - 1);
      rounds := [first] + rest;
      assert rounds[1..] == rest;
    }
  }

  lemma RoundIsRunnable(b: Bus, es: seq<Step>)
    requires Round(b, es)
    ensures Runnable(b, es)
  {
  }
}
