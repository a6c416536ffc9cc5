/** The failure streak of each service, the status it drives and the events it emits,
    against the sequence of check outcomes. */
module HealthCheck {
  datatype ServiceStatus = Healthy | Degraded | Down

  datatype ReliabilityEvent = Failure | Recovery

  const DOWN_AFTER := 3

  /** Length of the run of failed checks at the end. */
  function Streak(outcomes: seq<bool>): (n: nat)
    ensures n <= |outcomes|
    ensures forall k :: |outcomes| - n <= k < |outcomes| ==> !outcomes[k]
    ensures n < |outcomes| ==> outcomes[|outcomes| - n - 1]
  {
    if outcomes == [] || outcomes[|outcomes| - 1] then 0 else Streak(outcomes[..|outcomes| - 1]) + 1
  }

  /** The events that checks with these outcomes emit: a failure when a streak reaches
      three, a recovery when a streak of three or more ends. */
  function Emitted(outcomes: seq<bool>): seq<ReliabilityEvent> {
    if outcomes == [] then []
    else
      var earlier := outcomes[..|outcomes| - 1];
      Emitted(earlier) +
      if Streak(outcomes) == DOWN_AFTER then [Failure]
      else if Streak(outcomes) == 0 && Streak(earlier) >= DOWN_AFTER then [Recovery]
      else []
  }

  ghost predicate Alternates(events: seq<ReliabilityEvent>) {
    forall k :: 0 <= k < |events| ==> events[k] == if k % 2 == 0 then Failure else Recovery
  }

  function CountOf(events: seq<ReliabilityEvent>, e: ReliabilityEvent): nat {
    if events == [] then 0
    else CountOf(events[..|events| - 1], e) + if events[|events| - 1] == e then 1 else 0
  }

  /** Events alternate, beginning with a failure, and an odd number of them means an outage
      of three or more checks is going on right now. */
  lemma {:induction false} EventsAlternate(outcomes: seq<bool>)
    ensures Alternates(Emitted(outcomes))
    ensures |Emitted(outcomes)| % 2 == 1 <==> Streak(outcomes) >= DOWN_AFTER
  {
    if outcomes != [] {
      EventsAlternate(outcomes[..|outcomes| - 1]);
    }
  }

  lemma {:induction false} AlternatingCounts(events: seq<ReliabilityEvent>)
    requires Alternates(events)
    ensures CountOf(events, Failure) == (|events| + 1) / 2 && CountOf(events, Recovery) == |events| / 2
  {
    if events != [] {
      AlternatingCounts(events[..|events| - 1]);
    }
  }

  function StatusAfter(outcomes: seq<bool>): ServiceStatus {
    if Streak(outcomes) == 0 then Healthy else if Streak(outcomes) >= DOWN_AFTER then Down else Degraded
  }

  ghost predicate LastThreeFailed(outcomes: seq<bool>) {
    |outcomes| >= 3 && forall k :: |outcomes| - 3 <= k < |outcomes| ==> !outcomes[k]
  }

  /** What the worker keeps and has sent for a service fits its outcomes. */
  ghost predicate Fits(outcomes: seq<bool>, failures: nat, events: seq<ReliabilityEvent>) {
    failures == Streak(outcomes) && events == Emitted(outcomes)
  }

  /** One more check, in the worker's terms. */
  lemma OneMoreCheck(earlier: seq<bool>, failures: nat, sent: seq<ReliabilityEvent>, ok: bool)
    requires Fits(earlier, failures, sent)
    ensures var now := earlier + [ok];
            var next := if ok then 0 else failures + 1;
            var events := if next == 3 then sent + [Failure]
                          else if next == 0 && failures >= 3 then sent + [Recovery]
                          else sent;
            && Fits(now, next, events)
            && StatusAfter(now) == (if ok then Healthy else if next >= 3 then Down else Degraded)
            && Alternates(events)
            && CountOf(events, Failure) - CountOf(events, Recovery) == (if StatusAfter(now) == Down then 1 else 0)
            && (StatusAfter(now) == Down <==> LastThreeFailed(now))
            && (StatusAfter(now) == Healthy <==> ok)
  {
    var now := earlier + [ok];
    assert now[..|earlier|] == earlier;
    EventsAlternate(now);
    AlternatingCounts(Emitted(now));
    StreakOfThree(now);
  }

  lemma StreakOfThree(outcomes: seq<bool>)
    ensures Streak(outcomes) >= 3 <==> LastThreeFailed(outcomes)
  {
  }

  /** The histories after one more check of `service`. */
  ghost function Checked(h: map<nat, seq<bool>>, service: nat, ok: bool): map<nat, seq<bool>> {
    h[service := (if service in h then h[service] else []) + [ok]]
  }

  /** The histories after one cycle over `services`. */
  ghost function CheckedAll(h: map<nat, seq<bool>>, services: seq<nat>, ok: nat -> bool): map<nat, seq<bool>> {
    if services == [] then h
    else
      var n := |services| - 1;
      var before := CheckedAll(h, services[..n], ok);
      Checked(before, services[n], ok(n))
  }

  lemma CheckedOneMore(h: map<nat, seq<bool>>, services: seq<nat>, k: nat, ok: nat -> bool)
    requires k < |services|
    ensures var before := CheckedAll(h, services[..k], ok);
            CheckedAll(h, services[..k + 1], ok) == Checked(before, services[k], ok(k))
  {
    assert services[..k + 1][..k] == services[..k];
  }

  lemma NoneChecked(h: map<nat, seq<bool>>, services: seq<nat>, ok: nat -> bool)
    ensures CheckedAll(h, services[..0], ok) == h
  {
  }

  class HealthCheckWorker {
    var consecutiveFailures: map<nat, nat>
    // written to the database and to the bus
    var status: map<nat, ServiceStatus>
    var events: map<nat, seq<ReliabilityEvent>>
    // history per service, written and never read by the worker
    ghost var outcomes: map<nat, seq<bool>>

    ghost function OutcomesOf(service: nat): seq<bool>
      reads this
    {
      if service in outcomes then outcomes[service] else []
    }

    function EventsOf(service: nat): seq<ReliabilityEvent>
      reads this
    {
      if service in events then events[service] else []
    }

    function FailuresOf(service: nat): nat
      reads this
    {
      if service in consecutiveFailures then consecutiveFailures[service] else 0
    }

    ghost predicate Valid()
      reads this
    {
      && status.Keys == outcomes.Keys
      && (forall s :: s in outcomes ==> status[s] == StatusAfter(outcomes[s]))
      && (forall s :: Fits(OutcomesOf(s), FailuresOf(s), EventsOf(s)))
    }

    constructor ()
      ensures Valid() && outcomes == map[]
    {
      consecutiveFailures, status, events := map[], map[], map[];
      outcomes := map[];
    }

    /** After every check: failures minus recoveries is one exactly while the last three or
        more checks failed, exactly while the status is DOWN. */
    method Record(service: nat, ok: bool)
      requires Valid()
      modifies this
      ensures Valid() && outcomes == Checked(old(outcomes), service, ok)
      ensures Alternates(EventsOf(service))
      ensures CountOf(EventsOf(service), Failure) - CountOf(EventsOf(service), Recovery)
              == if status[service] == Down then 1 else 0
      ensures status[service] == Down <==> LastThreeFailed(outcomes[service])
      ensures status[service] == Healthy <==> ok
    {
      hide Fits, StatusAfter, Alternates, CountOf, LastThreeFailed;
      OneMoreCheck(OutcomesOf(service), FailuresOf(service), EventsOf(service), ok);
      var failures := FailuresOf(service);
      var nextFailures := if ok then 0 else failures + 1;
      outcomes := outcomes[service := OutcomesOf(service) + [ok]];
      consecutiveFailures := consecutiveFailures[service := nextFailures];
      status := status[service := if ok then Healthy else if nextFailures >= 3 then Down else Degraded];
      if nextFailures == 3 {
        events := events[service := EventsOf(service) + [Failure]];
      } else if nextFailures == 0 && failures >= 3 {
        events := events[service := EventsOf(service) + [Recovery]];
      }
      forall s ensures Fits(OutcomesOf(s), FailuresOf(s), EventsOf(s)) {
        if s != service {
          assert old(Fits(OutcomesOf(s), FailuresOf(s), EventsOf(s)));
        }
      }
    }

    /** One cycle over the services to check. */
    method Poll(services: seq<nat>, ok: nat -> bool) returns (results: seq<(nat, bool)>)
      requires Valid()
      modifies this
      ensures Valid() && outcomes == CheckedAll(old(outcomes), services, ok)
      ensures |results| == |services| && forall k :: 0 <= k < |results| ==> results[k] == (services[k], ok(k))
    {
      results := [];
      hide *;
      NoneChecked(outcomes, services, ok);
      var k := 0;
      while k < |services|
        invariant k <= |services| && Valid()
        invariant outcomes == CheckedAll(old(outcomes), services[..k], ok)
        invariant |results| == k && forall j :: 0 <= j < |results| ==> results[j] == (services[j], ok(j))
      {
        CheckedOneMore(old(outcomes), services, k, ok);
        results := results + [(services[k], ok(k))];
        Record(services[k], ok(k));
        k := k + 1;
      }
      assert services[..k] == services;
    }
  }
}
