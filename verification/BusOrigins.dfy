/** Where the contents of the bus come from: consumers carry the options of the consume
    calls, accepted messages the arguments of the publish calls, in order. */
module BusOrigins {
  import opened BusModel
  import opened BusHistory

  /** The consume calls of a run. */
  ghost function Consumes(es: seq<Step>): seq<Step> {
    if es == [] then [] else (if es[0].Consume? then [es[0]] else []) + Consumes(es[1..])
  }

  ghost predicate Configured(c: Consumer, e: Step) {
    e.Consume? && c.subject == e.subject && c.maxRetries == e.maxRetries && c.retryBaseMs == e.retryBaseMs
  }

  lemma StepKeepsConfigs(b: Bus, e: Step)
    requires Enabled(b, e)
    ensures var b' := Next(b, e);
            && |b'.consumers| == |b.consumers| + (if e.Consume? then 1 else 0)
            && (forall i :: 0 <= i < |b.consumers| ==> SameConfig(b.consumers[i], b'.consumers[i]))
            && (e.Consume? ==> Configured(b'.consumers[|b.consumers|], e))
  {
  }

  lemma {:induction false} RunKeepsConfigs(b: Bus, es: seq<Step>)
    requires Runnable(b, es)
    ensures var b' := After(b, es);
            && |b'.consumers| == |b.consumers| + |Consumes(es)|
            && (forall i :: 0 <= i < |b.consumers| ==> SameConfig(b.consumers[i], b'.consumers[i]))
            && (forall i :: |b.consumers| <= i < |b'.consumers| ==>
                  Configured(b'.consumers[i], Consumes(es)[i - |b.consumers|]))
    decreases |es|
  {
    hide Next, Enabled;
    if es != [] {
      StepKeepsConfigs(b, es[0]);
      RunKeepsConfigs(Next(b, es[0]), es[1..]);
    }
  }

  /** Over every run the i-th consumer has the subject, retry limit and base delay that the
      i-th consume call asked for. */
  lemma ConsumersAreAsConsumed(es: seq<Step>, i: nat)
    requires Runnable(EMPTY_BUS, es) && i < |After(EMPTY_BUS, es).consumers|
    ensures |After(EMPTY_BUS, es).consumers| == |Consumes(es)|
    ensures var c, e := After(EMPTY_BUS, es).consumers[i], Consumes(es)[i];
            e.Consume? && c.subject == e.subject && c.maxRetries == e.maxRetries && c.retryBaseMs == e.retryBaseMs
  {
    RunKeepsConfigs(EMPTY_BUS, es);
    assert Configured(After(EMPTY_BUS, es).consumers[i], Consumes(es)[i]);
  }

  ghost predicate HasListener(b: Bus, s: Subject) {
    exists i :: 0 <= i < |b.consumers| && b.consumers[i].subject == s
  }

  /** The publish calls of a run that found a consumer of their subject. */
  ghost function Heard(b: Bus, es: seq<Step>): seq<Step>
    requires Runnable(b, es)
    decreases |es|
  {
    if es == [] then []
    else
      (if es[0].Publish? && HasListener(b, es[0].subject) then [es[0]] else []) + Heard(Next(b, es[0]), es[1..])
  }

  ghost predicate Carries(a: Accepted, id: nat, e: Step) {
    && e.Publish? && a.subject == e.subject
    && a.message == Message(id, e.kind, e.payload, 0, e.publishedAt)
  }

  lemma StepAccepts(b: Bus, e: Step)
    requires Enabled(b, e)
    ensures var b' := Next(b, e);
            if e.Publish? && HasListener(b, e.subject) then
              && |b'.accepted| == |b.accepted| + 1 && b'.accepted[..|b.accepted|] == b.accepted
              && Carries(b'.accepted[|b.accepted|], |b.accepted|, e)
            else b'.accepted == b.accepted
  {
    if e.Publish? {
      var g := Group(b.consumers, e.subject);
      assert g != [] ==> b.consumers[g[0]].subject == e.subject;
    }
  }

  lemma {:induction false} RunAccepts(b: Bus, es: seq<Step>)
    requires Runnable(b, es)
    ensures var b' := After(b, es);
            && |b'.accepted| == |b.accepted| + |Heard(b, es)|
            && b'.accepted[..|b.accepted|] == b.accepted
            && (forall k :: |b.accepted| <= k < |b'.accepted| ==>
                  Carries(b'.accepted[k], k, Heard(b, es)[k - |b.accepted|]))
    decreases |es|
  {
    hide Next, Enabled, HasListener;
    if es != [] {
      StepAccepts(b, es[0]);
      RunAccepts(Next(b, es[0]), es[1..]);
      var b1, b' := Next(b, es[0]), After(b, es);
      assert b'.accepted[..|b.accepted|] == b'.accepted[..|b1.accepted|][..|b.accepted|];
      if |b1.accepted| > |b.accepted| {
        assert b'.accepted[|b.accepted|] == b'.accepted[..|b1.accepted|][|b.accepted|];
      }
    }
  }

  /** Over every run the k-th accepted message has the subject, type, payload and time of
      the k-th publish call that found a consumer; calls that found none left nothing. */
  lemma MessagesAreAsPublished(es: seq<Step>, k: nat)
    requires Runnable(EMPTY_BUS, es) && k < |After(EMPTY_BUS, es).accepted|
    ensures |After(EMPTY_BUS, es).accepted| == |Heard(EMPTY_BUS, es)|
    ensures var a, e := After(EMPTY_BUS, es).accepted[k], Heard(EMPTY_BUS, es)[k];
            && e.Publish? && a.subject == e.subject
            && a.message.kind == e.kind && a.message.payload == e.payload && a.message.publishedAt == e.publishedAt
            && a.message.id == k && a.message.attempts == 0
  {
    RunAccepts(EMPTY_BUS, es);
    assert Carries(After(EMPTY_BUS, es).accepted[k], k, Heard(EMPTY_BUS, es)[k]);
  }
}
