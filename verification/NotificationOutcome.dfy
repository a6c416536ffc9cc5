/** What the status of a notification says about its dispatches, over whole runs; which
    rows a poll claims; and which of them the throttle holds back. */
module NotificationOutcome {
  import opened Options
  import opened NotificationModel
  import opened NotificationDrain

  // ---- status and outcome --------------------------------------------------------

  ghost predicate Claimed(q: Queue, i: nat) {
    q.poll.Some? && exists c :: c in q.poll.value.rest && c.index == i
  }

  /** The status of row `i` is what its last dispatch made it: PENDING before the first,
      SENT after a success, and after a failure FAILED exactly when no attempt is left. A
      sent row is not claimed. */
  ghost predicate Faithful(q: Queue, i: nat) {
    && i < |q.rows|
    && var r := q.rows[i];
    match LastOutcome(q.log, i)
    case None => r.status == Pending
    case Some(ok) =>
      if ok then r.status == Sent && !Claimed(q, i)
      else r.status == if r.attempts == r.maxAttempts then Failed else Retrying
  }

  /** The step dispatches the claimed row `i`. */
  ghost predicate Dispatches(q: Queue, s: Step, i: nat) {
    && s.Handle? && Enabled(q, s)
    && q.poll.value.rest[0].index == i
    && !Throttled(q, KeyOf(q.poll.value.rest[0].row), s.checkedAt)
  }

  lemma HeadClaim(q: Queue)
    requires Inv(q) && q.poll.Some? && q.poll.value.rest != []
    ensures ClaimOk(q, q.poll.value.rest[0])
    ensures forall c :: c in q.poll.value.rest[1..] ==> c.index != q.poll.value.rest[0].index
  {
    var rest := q.poll.value.rest;
    assert rest[0] in rest;
    forall c | c in rest[1..] ensures c.index != rest[0].index {
      var j :| 0 <= j < |rest[1..]| && rest[1..][j] == c;
      assert rest[0].index < rest[j + 1].index;
    }
  }

  /** A dispatch puts the row into the status of its outcome, whatever was done to the row
      before. */
  lemma DispatchDecides(q: Queue, s: Step, i: nat)
    requires Inv(q) && Dispatches(q, s, i)
    ensures Faithful(Next(q, s), i) && LastOutcome(Next(q, s).log, i) == Some(s.ok)
  {
    HeadClaim(q);
    var q' := Next(q, s);
    DispatchesAppend(q.log, q'.log[|q.log|], i);
  }

  /** Steps that do not dispatch row `i` leave its outcome, and those that do not retry it
      by hand its status. */
  lemma OtherStepsKeep(q: Queue, s: Step, i: nat)
    requires Enabled(q, s) && i < |q.rows| && !Dispatches(q, s, i) && s != ManualRetry(i)
    ensures var q' := Next(q, s);
            i < |q'.rows| && q'.rows[i] == q.rows[i] && LastOutcome(q'.log, i) == LastOutcome(q.log, i)
  {
    hide LastOutcome, ListDue, Marked, KeyOf;
    if s.Handle? && !Throttled(q, KeyOf(q.poll.value.rest[0].row), s.checkedAt) {
      DispatchesAppend(q.log, Next(q, s).log[|q.log|], i);
    }
  }

  lemma SentIsNotClaimed(q: Queue, s: Step, i: nat)
    requires Enabled(q, s) && i < |q.rows| && !IsDue(q.rows[i]) && !Claimed(q, i)
    ensures !Claimed(Next(q, s), i)
  {
    if s.StartPoll? {
      assert forall c :: c in ListDue(q.rows) ==> c in DueRows(q.rows, 0);
    }
  }

  lemma StepKeepsFaithful(q: Queue, s: Step, i: nat)
    requires Inv(q) && Enabled(q, s) && Faithful(q, i) && s != ManualRetry(i)
    ensures Faithful(Next(q, s), i)
  {
    if Dispatches(q, s, i) {
      DispatchDecides(q, s, i);
    } else {
      OtherStepsKeep(q, s, i);
      if q.rows[i].status == Sent && !Claimed(q, i) {
        SentIsNotClaimed(q, s, i);
      }
    }
  }

  lemma {:induction false} RunKeepsFaithful(q: Queue, steps: seq<Step>, i: nat)
    requires Inv(q) && Runnable(q, steps) && Faithful(q, i) && ManualRetry(i) !in steps
    ensures Faithful(After(q, steps), i)
    decreases |steps|
  {
    hide Inv, Next, Faithful;
    if steps != [] {
      assert steps[0] in steps;
      StepKeepsFaithful(q, steps[0], i);
      StepKeepsInv(q, steps[0]);
      RunKeepsFaithful(Next(q, steps[0]), steps[1..], i);
    }
  }

  lemma FirstStepsAreFaithful(q: Queue, s: Step, i: nat)
    requires Inv(q) && Enabled(q, s) && |q.rows| <= i < |Next(q, s).rows|
    ensures Faithful(Next(q, s), i)
  {
    NeverDispatched(q.log, i);
    NoOutcome(q.log, i);
  }

  lemma {:induction false} NoOutcome(log: seq<Dispatch>, i: nat)
    requires forall j :: 0 <= j < |log| ==> log[j].index != i
    ensures LastOutcome(log, i) == None
  {
    if log != [] {
      NoOutcome(log[..|log| - 1], i);
    }
  }

  lemma {:induction false} RunReachesFaithful(q: Queue, steps: seq<Step>, i: nat)
    requires Inv(q) && Runnable(q, steps) && ManualRetry(i) !in steps
    requires |q.rows| <= i < |After(q, steps).rows|
    ensures Faithful(After(q, steps), i)
    decreases |steps|
  {
    hide Inv, Next, Faithful;
    assert steps[0] in steps;
    var q' := Next(q, steps[0]);
    StepKeepsInv(q, steps[0]);
    if i < |q'.rows| {
      FirstStepsAreFaithful(q, steps[0], i);
      RunKeepsFaithful(q', steps[1..], i);
    } else {
      RunReachesFaithful(q', steps[1..], i);
    }
  }

  /** Over every run in which nobody retries row `i` by hand, its status says exactly how
      its last dispatch ended: SENT if and only if it succeeded, FAILED if and only if it
      failed and no attempt is left, RETRYING if and only if it failed and one is left. */
  lemma StatusTellsOutcome(steps: seq<Step>, i: nat)
    requires Runnable(EMPTY_QUEUE, steps) && i < |After(EMPTY_QUEUE, steps).rows| && ManualRetry(i) !in steps
    ensures var q := After(EMPTY_QUEUE, steps);
            var r := q.rows[i];
            && (r.status == Pending <==> LastOutcome(q.log, i) == None)
            && (r.status == Sent <==> LastOutcome(q.log, i) == Some(true))
            && (r.status == Failed <==> LastOutcome(q.log, i) == Some(false) && r.attempts == r.maxAttempts)
            && (r.status == Retrying <==> LastOutcome(q.log, i) == Some(false) && r.attempts < r.maxAttempts)
  {
    RunReachesFaithful(EMPTY_QUEUE, steps, i);
    RunKeepsInv(EMPTY_QUEUE, steps);
    assert RowOk(After(EMPTY_QUEUE, steps), i);
  }

  /** A notification that went out is not sent again: after a successful dispatch, and
      whatever was done before it, the row stays SENT, is never due, claimed or dispatched
      again in any run without a manual retry of it. */
  lemma SentStaysSent(q: Queue, s: Step, steps: seq<Step>, i: nat)
    requires Inv(q) && Dispatches(q, s, i) && s.ok
    requires Runnable(Next(q, s), steps) && ManualRetry(i) !in steps
    ensures var q' := After(Next(q, s), steps);
            && i < |q'.rows| && q'.rows[i].status == Sent && !IsDue(q'.rows[i]) && !Claimed(q', i)
            && DispatchesOf(q'.log, i) == DispatchesOf(Next(q, s).log, i)
  {
    DispatchDecides(q, s, i);
    StepKeepsInv(q, s);
    SentRunsQuietly(Next(q, s), steps, i);
  }

  lemma {:induction false} SentRunsQuietly(q: Queue, steps: seq<Step>, i: nat)
    requires Inv(q) && Runnable(q, steps) && ManualRetry(i) !in steps
    requires i < |q.rows| && q.rows[i].status == Sent && !Claimed(q, i)
    ensures var q' := After(q, steps);
            && i < |q'.rows| && q'.rows[i].status == Sent && !Claimed(q', i)
            && DispatchesOf(q'.log, i) == DispatchesOf(q.log, i)
    decreases |steps|
  {
    hide Inv, Next, Claimed, DispatchesOf;
    if steps != [] {
      assert steps[0] in steps;
      SentStep(q, steps[0], i);
      StepKeepsInv(q, steps[0]);
      SentRunsQuietly(Next(q, steps[0]), steps[1..], i);
    }
  }

  lemma SentStep(q: Queue, s: Step, i: nat)
    requires Inv(q) && Enabled(q, s) && s != ManualRetry(i)
    requires i < |q.rows| && q.rows[i].status == Sent && !Claimed(q, i)
    ensures var q' := Next(q, s);
            && i < |q'.rows| && q'.rows[i].status == Sent && !Claimed(q', i)
            && DispatchesOf(q'.log, i) == DispatchesOf(q.log, i)
  {
    assert !Dispatches(q, s, i) by {
      if s.Handle? {
        assert q.poll.value.rest[0] in q.poll.value.rest;
      }
    }
    OtherStepsKeep(q, s, i);
    SentIsNotClaimed(q, s, i);
    if s.Handle? && !Throttled(q, KeyOf(q.poll.value.rest[0].row), s.checkedAt) {
      DispatchesAppend(q.log, Next(q, s).log[|q.log|], i);
    }
  }

  // ---- rows carry what was enqueued ------------------------------------------------

  ghost function Enqueues(steps: seq<Step>): seq<Step> {
    if steps == [] then [] else (if steps[0].Enqueue? then [steps[0]] else []) + Enqueues(steps[1..])
  }

  ghost predicate CarriesRow(s: Step, r: Row) {
    s.Enqueue? && r.incident == s.incident && r.channel == s.channel && r.maxAttempts == s.maxAttempts
  }

  ghost predicate SameNotice(r: Row, r': Row) {
    r'.incident == r.incident && r'.channel == r.channel && r'.maxAttempts == r.maxAttempts
  }

  lemma StepKeepsNotices(q: Queue, s: Step)
    requires Enabled(q, s)
    ensures var q' := Next(q, s);
            && |q'.rows| == |q.rows| + (if s.Enqueue? then 1 else 0)
            && (forall i :: 0 <= i < |q.rows| ==> SameNotice(q.rows[i], q'.rows[i]))
            && (s.Enqueue? ==> CarriesRow(s, q'.rows[|q.rows|]))
  {
  }

  lemma {:induction false} RunKeepsNotices(q: Queue, steps: seq<Step>)
    requires Runnable(q, steps)
    ensures var q' := After(q, steps);
            && |q'.rows| == |q.rows| + |Enqueues(steps)|
            && (forall i :: 0 <= i < |q.rows| ==> SameNotice(q.rows[i], q'.rows[i]))
            && (forall i :: |q.rows| <= i < |q'.rows| ==> CarriesRow(Enqueues(steps)[i - |q.rows|], q'.rows[i]))
    decreases |steps|
  {
    hide Next, Enabled;
    if steps != [] {
      StepKeepsNotices(q, steps[0]);
      RunKeepsNotices(Next(q, steps[0]), steps[1..]);
    }
  }

  /** Over every run the i-th row is the i-th notification enqueued: same incident, channel
      and number of attempts. */
  lemma RowsAreTheEnqueued(steps: seq<Step>, i: nat)
    requires Runnable(EMPTY_QUEUE, steps) && i < |Enqueues(steps)|
    ensures var q := After(EMPTY_QUEUE, steps);
            |q.rows| == |Enqueues(steps)| && CarriesRow(Enqueues(steps)[i], q.rows[i])
  {
    RunKeepsNotices(EMPTY_QUEUE, steps);
  }

  // ---- the oldest are claimed --------------------------------------------------------

  function CountDue(rows: seq<Row>): nat {
    if rows == [] then 0 else (if IsDue(rows[0]) then 1 else 0) + CountDue(rows[1..])
  }

  /** A due row comes in the list right behind the due rows created before it. */
  lemma {:induction false} DuePosition(rows: seq<Row>, from: nat, i: nat)
    requires i < |rows| && IsDue(rows[i])
    ensures var k := CountDue(rows[..i]);
            k < |DueRows(rows, from)| && DueRows(rows, from)[k] == Claim(from + i, rows[i])
  {
    hide ListsDue;
    if i > 0 {
      DuePosition(rows[1..], from + 1, i - 1);
      assert rows[..i][1..] == rows[1..][..i - 1];
      assert CountDue(rows[..i]) == (if IsDue(rows[0]) then 1 else 0) + CountDue(rows[1..][..i - 1]);
    }
  }

  /** A poll claims a row exactly if it is due and fewer than 25 due rows are older. */
  lemma OldestAreClaimed(rows: seq<Row>, i: nat)
    requires i < |rows|
    ensures Claim(i, rows[i]) in ListDue(rows) <==> IsDue(rows[i]) && CountDue(rows[..i]) < 25
  {
    var due := DueRows(rows, 0);
    assert Claim(i, rows[i]) in ListDue(rows) ==> Claim(i, rows[i]) in due;
    if IsDue(rows[i]) {
      DuePosition(rows, 0, i);
      var k := CountDue(rows[..i]);
      if k < 25 {
        assert ListDue(rows)[k] == due[k];
      }
    }
  }

  // ---- who is held back ----------------------------------------------------------------

  /** The throttle remembers, per incident and channel, a dispatch that was made. */
  ghost predicate ThrottleRecalls(q: Queue) {
    forall key :: key in q.throttle ==> Recalled(q, key)
  }

  ghost predicate Recalled(q: Queue, key: Key)
    requires key in q.throttle
  {
    exists j :: 0 <= j < |q.log| && q.log[j].key == key && q.log[j].stampedAt == q.throttle[key]
  }

  lemma StepRecalls(q: Queue, s: Step)
    requires Enabled(q, s) && ThrottleRecalls(q)
    ensures ThrottleRecalls(Next(q, s))
  {
    var q' := Next(q, s);
    forall key | key in q'.throttle ensures Recalled(q', key) {
      if key in q.throttle && q'.throttle[key] == q.throttle[key] {
        assert Recalled(q, key);
        var j :| 0 <= j < |q.log| && q.log[j].key == key && q.log[j].stampedAt == q.throttle[key];
        assert q'.log[j] == q.log[j];
      } else {
        assert q'.log[|q.log|].key == key;
      }
    }
  }

  lemma {:induction false} RunRecalls(q: Queue, steps: seq<Step>)
    requires Runnable(q, steps) && ThrottleRecalls(q)
    ensures ThrottleRecalls(After(q, steps))
    decreases |steps|
  {
    if steps != [] {
      StepRecalls(q, steps[0]);
      RunRecalls(Next(q, steps[0]), steps[1..]);
    }
  }

  /** A dispatch for the same incident and channel less than a second before `t`. */
  ghost predicate JustDispatched(q: Queue, incident: nat, channel: Channel, t: int) {
    exists j :: 0 <= j < |q.log| && q.log[j].index < |q.rows| &&
      q.rows[q.log[j].index].incident == incident && q.rows[q.log[j].index].channel == channel &&
      t - q.log[j].stampedAt < 1000
  }

  lemma HeldBackByItsKey(q: Queue, r: Row, t: int)
    requires Stamped(q) && ThrottleRecalls(q) && t >= 1000
    ensures Throttled(q, KeyOf(r), t) <==> JustDispatched(q, r.incident, r.channel, t)
  {
    hide Spaced;
    if Throttled(q, KeyOf(r), t) {
      assert Recalled(q, KeyOf(r));
    }
    if JustDispatched(q, r.incident, r.channel, t) {
      var j :| 0 <= j < |q.log| && q.log[j].index < |q.rows| &&
        q.rows[q.log[j].index].incident == r.incident && q.rows[q.log[j].index].channel == r.channel &&
        t - q.log[j].stampedAt < 1000;
      assert q.log[j].key == KeyOf(r);
    }
  }

  /** In every run, and at any reading from the first second of the clock on, a row is held
      back exactly if a notification for the same incident on the same channel was
      dispatched less than a second ago: others never hold it back. */
  lemma HeldBackIff(steps: seq<Step>, r: Row, t: int)
    requires Runnable(EMPTY_QUEUE, steps) && t >= 1000
    ensures var q := After(EMPTY_QUEUE, steps);
            Throttled(q, KeyOf(r), t) <==> JustDispatched(q, r.incident, r.channel, t)
  {
    RunKeepsInv(EMPTY_QUEUE, steps);
    RunRecalls(EMPTY_QUEUE, steps);
    hide Throttled, JustDispatched;
    HeldBackByItsKey(After(EMPTY_QUEUE, steps), r, t);
  }
}
