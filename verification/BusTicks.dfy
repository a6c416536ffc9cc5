/** What one tick runs: every message that was due when it began, on every consumer, in
    order, once each. */
module BusTicks {
  import opened BusModel
  import opened BusTermination

  ghost function Seen(runs: seq<HandlerRun>): seq<Message> {
    seq(|runs|, k requires 0 <= k < |runs| => runs[k].seen)
  }

  ghost function MessagesOf(ps: seq<Pending>): seq<Message> {
    if ps == [] then [] else [ps[0].message] + MessagesOf(ps[1..])
  }

  /** The messages due at `now` on the consumers from `at` on, queue by queue. */
  ghost function DueFrom(cs: seq<Consumer>, at: nat, now: nat): seq<Message>
    decreases |cs| - at
  {
    if at >= |cs| then [] else MessagesOf(Due(cs[at].pending, now)) + DueFrom(cs, at + 1, now)
  }

  lemma {:induction false} DueFromFrame(cs: seq<Consumer>, cs': seq<Consumer>, at: nat, now: nat)
    requires |cs'| == |cs| && forall i :: at <= i < |cs| ==> cs'[i].pending == cs[i].pending
    ensures DueFrom(cs', at, now) == DueFrom(cs, at, now)
    decreases |cs| - at
  {
    if at < |cs| {
      DueFromFrame(cs, cs', at + 1, now);
    }
  }

  /** What a chain in the middle of a tick still has to run. */
  ghost function ToRun(cs: seq<Consumer>, ch: Chain): seq<Message>
    requires ch.Sweeping?
  {
    MessagesOf(ch.due) + DueFrom(cs, if ch.due == [] then ch.at else ch.at + 1, ch.now)
  }

  lemma SeenAppend(runs: seq<HandlerRun>, r: HandlerRun)
    ensures Seen(runs + [r]) == Seen(runs) + [r.seen]
  {
  }

  /** A settled run touches no consumer but the one the chain stands at. */
  lemma SettledShape(b: Bus, c: nat, ok: bool)
    requires CanSettle(b, c)
    ensures var b', ch := Settled(b, c, ok), b.chains[c];
            && b'.runs == b.runs + [HandlerRun(ch.due[0].message, ch.at, ch.now, ok)]
            && |b'.consumers| == |b.consumers| && b'.chains == b.chains[c := Advanced(ch)]
            && forall i :: 0 <= i < |b.consumers| && i != ch.at ==> b'.consumers[i] == b.consumers[i]
  {
    hide RetryOf;
  }

  lemma AdvancedToRun(cs: seq<Consumer>, ch: Chain)
    requires ch.Sweeping? && ch.due != []
    ensures ToRun(cs, ch) == [ch.due[0].message] + ToRun(cs, Advanced(ch))
  {
    hide DueFrom;
    var rest := DueFrom(cs, ch.at + 1, ch.now);
    var tail := MessagesOf(ch.due[1..]);
    assert [ch.due[0].message] + tail + rest == [ch.due[0].message] + (tail + rest);
    if |ch.due| == 1 {
      assert ch.due[1..] == [];
    }
  }

  lemma Regrouped(seen: seq<Message>, m: Message, rest: seq<Message>)
    ensures seen + ([m] + rest) == seen + [m] + rest
  {
  }

  lemma SettleRunsHead(b: Bus, c: nat, ok: bool)
    requires MidTick(b, c) && CanSettle(b, c)
    ensures var b' := Settled(b, c, ok);
            && MidTick(b', c)
            && Seen(b.runs) + ToRun(b.consumers, b.chains[c]) == Seen(b'.runs) + ToRun(b'.consumers, b'.chains[c])
  {
    hide Settled, Seen, ToRun;
    var b' := Settled(b, c, ok);
    var ch := b.chains[c];
    SettledShape(b, c, ok);
    SeenAppend(b.runs, HandlerRun(ch.due[0].message, ch.at, ch.now, ok));
    AdvancedToRun(b.consumers, ch);
    SameToRun(b.consumers, b'.consumers, Advanced(ch), ch.at + 1);
    Regrouped(Seen(b.runs), ch.due[0].message, ToRun(b.consumers, Advanced(ch)));
  }

  lemma SameToRun(cs: seq<Consumer>, cs': seq<Consumer>, ch: Chain, from: nat)
    requires ch.Sweeping? && |cs'| == |cs| && forall i :: from <= i < |cs| ==> cs'[i].pending == cs[i].pending
    requires from <= if ch.due == [] then ch.at else ch.at + 1
    ensures ToRun(cs', ch) == ToRun(cs, ch)
  {
    DueFromFrame(cs, cs', if ch.due == [] then ch.at else ch.at + 1, ch.now);
  }

  /** The chain once it has taken what is due on the consumer it stands at. */
  function Loaded(ch: Chain, due: seq<Pending>): Chain
    requires ch.Sweeping?
  {
    Sweeping(ch.now, if due == [] then ch.at + 1 else ch.at, due)
  }

  lemma CollectedShape(b: Bus, c: nat)
    requires CanCollect(b, c)
    ensures var b', ch := Collected(b, c), b.chains[c];
            && b'.runs == b.runs && |b'.consumers| == |b.consumers|
            && b'.chains == b.chains[c := Loaded(ch, Due(b.consumers[ch.at].pending, ch.now))]
            && forall i :: ch.at + 1 <= i < |b.consumers| ==> b'.consumers[i] == b.consumers[i]
  {
    hide Due, Later;
  }

  lemma LoadedToRun(cs: seq<Consumer>, ch: Chain)
    requires ch.Sweeping? && ch.due == [] && ch.at < |cs|
    ensures ToRun(cs, Loaded(ch, Due(cs[ch.at].pending, ch.now))) == ToRun(cs, ch)
  {
    hide Due;
    var due := Due(cs[ch.at].pending, ch.now);
    assert DueFrom(cs, ch.at, ch.now) == MessagesOf(due) + DueFrom(cs, ch.at + 1, ch.now);
    assert MessagesOf([]) == [];
    assert [] + (MessagesOf(due) + DueFrom(cs, ch.at + 1, ch.now)) == MessagesOf(due) + DueFrom(cs, ch.at + 1, ch.now);
  }

  lemma CollectKeepsToRun(b: Bus, c: nat)
    requires MidTick(b, c) && CanCollect(b, c)
    ensures MidTick(Collected(b, c), c)
    ensures var b' := Collected(b, c);
            b'.runs == b.runs && ToRun(b'.consumers, b'.chains[c]) == ToRun(b.consumers, b.chains[c])
  {
    CollectedShape(b, c);
    var ch := b.chains[c];
    LoadedToRun(b.consumers, ch);
    hide Collected, ToRun, Due;
    SameToRun(b.consumers, Collected(b, c).consumers, Collected(b, c).chains[c], ch.at + 1);
  }

  lemma {:induction false} SweepRuns(b: Bus, c: nat, oracle: nat -> bool)
    requires MidTick(b, c)
    ensures Seen(Sweep(b, c, oracle).runs) == Seen(b.runs) + ToRun(b.consumers, b.chains[c])
    decreases |b.consumers| - b.chains[c].at, if b.chains[c].due == [] then 1 else 0, |b.chains[c].due|
  {
    hide Seen, ToRun, Sweep;
    if CanSettle(b, c) {
      SweepSettles(b, c, oracle);
      SettleRunsHead(b, c, oracle(|b.runs|));
      SweepRuns(Settled(b, c, oracle(|b.runs|)), c, oracle);
    } else if CanCollect(b, c) {
      SweepCollects(b, c, oracle);
      CollectKeepsToRun(b, c);
      SweepRuns(Collected(b, c), c, oracle);
    } else {
      SweepEnds(b, c, oracle);
      NothingToRun(b, c);
    }
  }

  lemma NothingToRun(b: Bus, c: nat)
    requires MidTick(b, c) && b.chains[c].due == [] && b.chains[c].at >= |b.consumers|
    ensures Seen(b.runs) + ToRun(b.consumers, b.chains[c]) == Seen(b.runs)
  {
  }

  /** An uninterrupted tick runs exactly the messages that are due as it reads the clock:
      consumer by consumer, each queue in order, each message once, and nothing that a
      failure puts back meanwhile. */
  lemma TickRunsWhatIsDue(b: Bus, c: nat, now: nat, oracle: nat -> bool)
    requires CanStart(b, c)
    ensures Seen(Tick(b, c, now, oracle).runs) == Seen(b.runs) + DueFrom(b.consumers, 0, now)
  {
    SweepRuns(Started(b, c, now), c, oracle);
  }
}
