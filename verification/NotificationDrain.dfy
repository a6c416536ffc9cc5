/** Attempts are bounded, the queue drains, and the throttle holds, in every run. */
module NotificationDrain {
  import opened Options
  import opened NotificationModel

  ghost function SumOfMax(rows: seq<Row>): nat {
    if rows == [] then 0 else rows[0].maxAttempts + SumOfMax(rows[1..])
  }

  ghost function SumOfAttempts(rows: seq<Row>): nat {
    if rows == [] then 0 else rows[0].attempts + SumOfAttempts(rows[1..])
  }

  /** How often row `i` was dispatched. */
  ghost function DispatchesOf(log: seq<Dispatch>, i: nat): nat {
    if log == [] then 0 else DispatchesOf(log[..|log| - 1], i) + if log[|log| - 1].index == i then 1 else 0
  }

  /** The outcome of the last dispatch of row `i`. */
  ghost function LastOutcome(log: seq<Dispatch>, i: nat): Option<bool> {
    if log == [] then None
    else if log[|log| - 1].index == i then Some(log[|log| - 1].ok)
    else LastOutcome(log[..|log| - 1], i)
  }

  /** The counter in the table is the number of dispatches and never passes the limit; the
      status tells how the last dispatch went, and a failed row has used all attempts. */
  ghost predicate RowOk(q: Queue, i: nat)
    requires i < |q.rows|
  {
    var r := q.rows[i];
    && r.attempts == DispatchesOf(q.log, i)
    && r.attempts <= r.maxAttempts
    && (r.status == Sent ==> LastOutcome(q.log, i) == Some(true))
    && (r.status == Failed ==> LastOutcome(q.log, i) == Some(false) && r.attempts == r.maxAttempts)
    && (r.status == Retrying ==> LastOutcome(q.log, i) == Some(false) && r.attempts < r.maxAttempts)
  }

  /** A claimed row still has the attempts it had when it was read. */
  ghost predicate ClaimOk(q: Queue, c: Claim) {
    && c.index < |q.rows|
    && q.rows[c.index].attempts == c.row.attempts < c.row.maxAttempts == q.rows[c.index].maxAttempts
    && KeyOf(q.rows[c.index]) == KeyOf(c.row)
  }

  ghost predicate ClaimsOk(q: Queue) {
    q.poll.Some? ==>
      var rest := q.poll.value.rest;
      && (forall c :: c in rest ==> ClaimOk(q, c))
      && (forall j, k :: 0 <= j < k < |rest| ==> rest[j].index < rest[k].index)
      && (q.poll.value.untouched ==> rest != [])
  }

  /** Two dispatches of one key are a second apart, from stamp to next check. */
  ghost predicate Spaced(log: seq<Dispatch>) {
    forall j, k :: 0 <= j < k < |log| && log[j].key == log[k].key ==>
      log[k].checkedAt - log[j].stampedAt >= THROTTLE_MS
  }

  ghost predicate Stamped(q: Queue) {
    && q.clock >= 0
    && (forall key :: key in q.throttle ==> q.throttle[key] <= q.clock)
    && (forall j :: 0 <= j < |q.log| ==>
          q.log[j].key in q.throttle && q.log[j].stampedAt <= q.throttle[q.log[j].key])
    && (forall j :: 0 <= j < |q.log| ==> q.log[j].index < |q.rows| && q.log[j].key == KeyOf(q.rows[q.log[j].index]))
  }

  /** Every busy poll has dispatched at least once, or is about to. */
  ghost predicate Busy(q: Queue) {
    if q.poll.Some? && q.poll.value.untouched then
      && q.busyPolls <= |q.log| + 1
      && q.clock >= THROTTLE_MS
      && forall key :: key in q.throttle ==> q.throttle[key] <= q.clock - THROTTLE_MS
    else q.busyPolls <= |q.log|
  }

  ghost predicate RowsOk(q: Queue) {
    forall i :: 0 <= i < |q.rows| ==> RowOk(q, i)
  }

  ghost predicate Inv(q: Queue) {
    && RowsOk(q) && ClaimsOk(q) && Stamped(q) && Busy(q) && Spaced(q.log)
    && SumOfAttempts(q.rows) == |q.log|
  }

  // ---- sums and counts -----------------------------------------------------

  lemma {:induction false} SumsAppend(rows: seq<Row>, r: Row)
    ensures SumOfMax(rows + [r]) == SumOfMax(rows) + r.maxAttempts
    ensures SumOfAttempts(rows + [r]) == SumOfAttempts(rows) + r.attempts
  {
    if rows == [] {
      assert rows + [r] == [r];
    } else {
      assert (rows + [r])[1..] == rows[1..] + [r];
      SumsAppend(rows[1..], r);
    }
  }

  lemma {:induction false} SumsUpdate(rows: seq<Row>, i: nat, r: Row)
    requires i < |rows|
    ensures SumOfMax(rows[i := r]) == SumOfMax(rows) - rows[i].maxAttempts + r.maxAttempts
    ensures SumOfAttempts(rows[i := r]) == SumOfAttempts(rows) - rows[i].attempts + r.attempts
  {
    if i == 0 {
      assert rows[0 := r][1..] == rows[1..];
    } else {
      assert rows[i := r][1..] == rows[1..][i - 1 := r];
      SumsUpdate(rows[1..], i - 1, r);
    }
  }

  lemma {:induction false} SumsOrdered(rows: seq<Row>)
    requires forall i :: 0 <= i < |rows| ==> rows[i].attempts <= rows[i].maxAttempts
    ensures SumOfAttempts(rows) <= SumOfMax(rows)
  {
    if rows != [] {
      SumsOrdered(rows[1..]);
    }
  }

  lemma DispatchesAppend(log: seq<Dispatch>, d: Dispatch, i: nat)
    ensures DispatchesOf(log + [d], i) == DispatchesOf(log, i) + if d.index == i then 1 else 0
    ensures LastOutcome(log + [d], i) == if d.index == i then Some(d.ok) else LastOutcome(log, i)
  {
  }

  lemma {:induction false} NeverDispatched(log: seq<Dispatch>, i: nat)
    requires forall j :: 0 <= j < |log| ==> log[j].index != i
    ensures DispatchesOf(log, i) == 0
  {
    if log != [] {
      NeverDispatched(log[..|log| - 1], i);
    }
  }

  // ---- every step ----------------------------------------------------------

  lemma EnqueueKeepsInv(q: Queue, incident: nat, channel: Channel, max: nat)
    requires Inv(q)
    ensures Inv(Next(q, Enqueue(incident, channel, max)))
  {
    var q' := Next(q, Enqueue(incident, channel, max));
    SumsAppend(q.rows, Row(incident, channel, Pending, 0, max));
    NeverDispatched(q.log, |q.rows|);
    forall i | 0 <= i < |q'.rows| ensures RowOk(q', i) {
      if i < |q.rows| {
        assert RowOk(q, i);
      }
    }
    if q.poll.Some? {
      forall c | c in q.poll.value.rest ensures ClaimOk(q', c) {
        assert ClaimOk(q, c);
      }
    }
  }

  lemma RetryKeepsInv(q: Queue, i: nat)
    requires Inv(q) && i < |q.rows|
    ensures Inv(Next(q, ManualRetry(i)))
  {
    var q' := Next(q, ManualRetry(i));
    SumsUpdate(q.rows, i, q.rows[i].(status := Pending));
    forall k | 0 <= k < |q'.rows| ensures RowOk(q', k) {
      assert RowOk(q, k);
    }
    if q.poll.Some? {
      forall c | c in q.poll.value.rest ensures ClaimOk(q', c) {
        assert ClaimOk(q, c);
      }
    }
  }

  lemma StartKeepsInv(q: Queue, at: int)
    requires Inv(q) && Enabled(q, StartPoll(at))
    ensures Inv(Next(q, StartPoll(at)))
  {
    var q' := Next(q, StartPoll(at));
    var due := ListDue(q.rows);
    forall c | c in due ensures ClaimOk(q', c) {
      assert c in DueRows(q.rows, 0);
    }
    forall k | 0 <= k < |q'.rows| ensures RowOk(q', k) {
      assert RowOk(q, k);
    }
  }

  /** The first row of a poll is never throttled: all stamps are a second old. */
  lemma FirstIsDispatched(q: Queue, t: int, key: Key)
    requires Inv(q) && q.poll.Some? && q.poll.value.untouched && t >= q.clock
    ensures !Throttled(q, key, t)
  {
  }

  lemma ThrottledKeepsInv(q: Queue, t: int, u: int, ok: bool)
    requires Inv(q) && Enabled(q, Handle(t, u, ok))
    requires Throttled(q, KeyOf(q.poll.value.rest[0].row), t)
    ensures Inv(Handled(q, t, u, ok))
  {
    var q' := Handled(q, t, u, ok);
    assert !q.poll.value.untouched;
    forall k | 0 <= k < |q'.rows| ensures RowOk(q', k) {
      assert RowOk(q, k);
    }
    forall c | c in q'.poll.value.rest ensures ClaimOk(q', c) {
      assert ClaimOk(q, c);
    }
  }

  lemma DispatchedRows(q: Queue, t: int, u: int, ok: bool)
    requires Inv(q) && Enabled(q, Handle(t, u, ok))
    requires !Throttled(q, KeyOf(q.poll.value.rest[0].row), t)
    ensures RowsOk(Handled(q, t, u, ok)) && ClaimsOk(Handled(q, t, u, ok))
  {
    var q' := Handled(q, t, u, ok);
    var rest := q.poll.value.rest;
    var claim := rest[0];
    assert claim in rest;
    assert ClaimOk(q, claim);
    forall k | 0 <= k < |q'.rows| ensures RowOk(q', k) {
      assert RowOk(q, k);
      DispatchesAppend(q.log, q'.log[|q.log|], k);
    }
    forall c | c in q'.poll.value.rest ensures ClaimOk(q', c) {
      assert ClaimOk(q, c);
      var j :| 1 <= j < |rest| && rest[j] == c;
      assert rest[0].index < rest[j].index;
    }
  }

  /** The new stamp is the key's latest, and the check found the old one a second old. */
  lemma SpacedExtends(q: Queue, d: Dispatch)
    requires Spaced(q.log) && Stamped(q) && !Throttled(q, d.key, d.checkedAt)
    ensures Spaced(q.log + [d])
  {
  }

  lemma DispatchedLog(q: Queue, t: int, u: int, ok: bool)
    requires Inv(q) && Enabled(q, Handle(t, u, ok))
    requires !Throttled(q, KeyOf(q.poll.value.rest[0].row), t)
    ensures var q' := Handled(q, t, u, ok);
            Stamped(q') && Spaced(q'.log) && Busy(q') && SumOfAttempts(q'.rows) == |q'.log|
  {
    hide Spaced, RowsOk, DispatchesOf, LastOutcome;
    var claim := q.poll.value.rest[0];
    assert claim in q.poll.value.rest;
    assert ClaimOk(q, claim);
    SumsUpdate(q.rows, claim.index, Marked(q.rows[claim.index], claim.row, ok));
    SpacedExtends(q, Dispatch(claim.index, KeyOf(claim.row), t, u, ok));
  }

  lemma StepKeepsInv(q: Queue, s: Step)
    requires Inv(q) && Enabled(q, s)
    ensures Inv(Next(q, s))
  {
    match s
    case Enqueue(i, c, m) => EnqueueKeepsInv(q, i, c, m);
    case ManualRetry(i) => RetryKeepsInv(q, i);
    case StartPoll(at) => StartKeepsInv(q, at);
    case Handle(t, u, ok) =>
      if Throttled(q, KeyOf(q.poll.value.rest[0].row), t) {
        ThrottledKeepsInv(q, t, u, ok);
      } else {
        DispatchedRows(q, t, u, ok);
        DispatchedLog(q, t, u, ok);
      }
    case EndPoll =>
      var q' := Next(q, s);
      forall k | 0 <= k < |q'.rows| ensures RowOk(q', k) {
        assert RowOk(q, k);
      }
  }

  lemma {:induction false} RunKeepsInv(q: Queue, steps: seq<Step>)
    requires Inv(q) && Runnable(q, steps)
    ensures Inv(After(q, steps))
    decreases |steps|
  {
    if steps != [] {
      StepKeepsInv(q, steps[0]);
      RunKeepsInv(Next(q, steps[0]), steps[1..]);
    }
  }

  // ---- theorems ------------------------------------------------------------

  /** In every run each row is dispatched at most max_attempts times and the attempts left
      plus the dispatches made are exactly the attempts ever enqueued, so polls that found
      a due row are at most that many (one more only while it has not reached its first
      row); a FAILED row has no attempts left. */
  lemma DrainBound(steps: seq<Step>)
    requires Runnable(EMPTY_QUEUE, steps)
    ensures var q := After(EMPTY_QUEUE, steps);
            && (forall i :: 0 <= i < |q.rows| ==>
                  && DispatchesOf(q.log, i) == q.rows[i].attempts <= q.rows[i].maxAttempts
                  && (q.rows[i].status == Sent ==> LastOutcome(q.log, i) == Some(true))
                  && (q.rows[i].status == Failed ==>
                        LastOutcome(q.log, i) == Some(false) && q.rows[i].attempts == q.rows[i].maxAttempts))
            && SumOfAttempts(q.rows) == |q.log| <= SumOfMax(q.rows)
            && (q.poll == None ==> q.busyPolls <= SumOfMax(q.rows))
  {
    RunKeepsInv(EMPTY_QUEUE, steps);
    var q := After(EMPTY_QUEUE, steps);
    forall i | 0 <= i < |q.rows|
      ensures DispatchesOf(q.log, i) == q.rows[i].attempts <= q.rows[i].maxAttempts
      ensures q.rows[i].status == Sent ==> LastOutcome(q.log, i) == Some(true)
      ensures q.rows[i].status == Failed ==>
                LastOutcome(q.log, i) == Some(false) && q.rows[i].attempts == q.rows[i].maxAttempts
    {
      assert RowOk(q, i);
    }
    SumsOrdered(q.rows);
  }

  /** The first row a poll looks at is dispatched whatever its outcome, so a poll with a due
      row lowers the attempts left over the whole queue. */
  lemma BusyPollsMakeProgress(q: Queue, t: int, u: int, ok: bool)
    requires Inv(q) && Enabled(q, Handle(t, u, ok)) && q.poll.value.untouched
    ensures var q' := Handled(q, t, u, ok);
            && SumOfMax(q'.rows) - SumOfAttempts(q'.rows) == SumOfMax(q.rows) - SumOfAttempts(q.rows) - 1
            && |q'.log| == |q.log| + 1
  {
    var claim := q.poll.value.rest[0];
    FirstIsDispatched(q, t, KeyOf(claim.row));
    assert claim in q.poll.value.rest;
    assert ClaimOk(q, claim);
    SumsUpdate(q.rows, claim.index, Marked(q.rows[claim.index], claim.row, ok));
  }

  /** No more than one dispatch per incident and channel in any second. */
  lemma ThrottleHolds(steps: seq<Step>, j: nat, k: nat)
    requires Runnable(EMPTY_QUEUE, steps) && j < k < |After(EMPTY_QUEUE, steps).log|
    ensures var q := After(EMPTY_QUEUE, steps);
            && q.log[j].index < |q.rows| && q.log[k].index < |q.rows|
            && (KeyOf(q.rows[q.log[j].index]) == KeyOf(q.rows[q.log[k].index]) ==>
                  q.log[k].checkedAt >= q.log[j].stampedAt + THROTTLE_MS)
  {
    RunKeepsInv(EMPTY_QUEUE, steps);
  }

  lemma RowIsOk(q: Queue, i: nat)
    requires Inv(q) && i < |q.rows|
    ensures RowOk(q, i)
  {
  }

  lemma SpentRowsAreNotClaimed(q: Queue, i: nat)
    requires Inv(q) && i < |q.rows| && q.rows[i].attempts == q.rows[i].maxAttempts
    ensures q.poll.Some? ==> forall c :: c in q.poll.value.rest ==> c.index != i
  {
  }

  /** Only handling a claim of the row changes its attempts. */
  lemma AttemptsKept(q: Queue, s: Step, i: nat)
    requires Enabled(q, s) && i < |q.rows|
    requires q.poll.Some? ==> forall c :: c in q.poll.value.rest ==> c.index != i
    ensures var q' := Next(q, s);
            && i < |q'.rows| && q'.rows[i].attempts == q.rows[i].attempts
            && q'.rows[i].maxAttempts == q.rows[i].maxAttempts
  {
  }

  lemma StepKeepsSpent(q: Queue, s: Step, i: nat)
    requires Inv(q) && Enabled(q, s) && i < |q.rows| && q.rows[i].attempts == q.rows[i].maxAttempts
    ensures var q' := Next(q, s);
            && Inv(q') && i < |q'.rows| && q'.rows[i].attempts == q'.rows[i].maxAttempts
            && DispatchesOf(q'.log, i) == DispatchesOf(q.log, i)
  {
    hide Inv, Next, DispatchesOf;
    SpentRowsAreNotClaimed(q, i);
    AttemptsKept(q, s, i);
    StepKeepsInv(q, s);
    RowIsOk(q, i);
    RowIsOk(Next(q, s), i);
  }

  /** A row that has used its attempts is never due or dispatched again, in any run and
      after any number of manual retries. */
  lemma {:induction false} SpentRowsStaySpent(q: Queue, steps: seq<Step>, i: nat)
    requires Inv(q) && Runnable(q, steps) && i < |q.rows| && q.rows[i].attempts == q.rows[i].maxAttempts
    ensures var q' := After(q, steps);
            && i < |q'.rows| && q'.rows[i].attempts == q'.rows[i].maxAttempts
            && !IsDue(q'.rows[i])
            && DispatchesOf(q'.log, i) == DispatchesOf(q.log, i)
    decreases |steps|
  {
    hide Inv, Next, DispatchesOf;
    if steps != [] {
      StepKeepsSpent(q, steps[0], i);
      SpentRowsStaySpent(Next(q, steps[0]), steps[1..], i);
    }
  }

  /** A row retried by hand is due exactly if it has attempts left. */
  lemma RetriedIsDueIff(q: Queue, i: nat)
    requires i < |q.rows|
    ensures IsDue(Next(q, ManualRetry(i)).rows[i]) <==> q.rows[i].attempts < q.rows[i].maxAttempts
  {
  }

  /** So the manual retry of a permanently failed notification sends nothing, ever. */
  lemma FailedRowsAreNeverSent(q: Queue, steps: seq<Step>, i: nat)
    requires Inv(q) && i < |q.rows| && q.rows[i].status == Failed
    requires Runnable(q, [ManualRetry(i)] + steps)
    ensures var q' := After(q, [ManualRetry(i)] + steps);
            i < |q'.rows| && q'.rows[i].status != Sent && DispatchesOf(q'.log, i) == DispatchesOf(q.log, i)
  {
    assert RowOk(q, i);
    RunKeepsInv(q, [ManualRetry(i)] + steps);
    SpentRowsStaySpent(q, [ManualRetry(i)] + steps, i);
    var q' := After(q, [ManualRetry(i)] + steps);
    assert RowOk(q', i);
    SameOutcome(q, [ManualRetry(i)] + steps, i);
  }

  /** The log only grows, and a row's last outcome changes only with a new dispatch. */
  lemma {:induction false} SameOutcome(q: Queue, steps: seq<Step>, i: nat)
    requires Runnable(q, steps)
    ensures DispatchesOf(After(q, steps).log, i) >= DispatchesOf(q.log, i)
    ensures DispatchesOf(After(q, steps).log, i) == DispatchesOf(q.log, i) ==>
              LastOutcome(After(q, steps).log, i) == LastOutcome(q.log, i)
    decreases |steps|
  {
    hide DispatchesOf, LastOutcome;
    if steps != [] {
      var q' := Next(q, steps[0]);
      if q'.log != q.log {
        DispatchesAppend(q.log, q'.log[|q.log|], i);
      }
      SameOutcome(q', steps[1..], i);
    }
  }

  /** A poll finds nothing exactly when every row is sent, failed, or out of attempts. */
  lemma IdleMeansDrained(q: Queue)
    requires Inv(q)
    ensures ListDue(q.rows) == [] <==>
            forall i :: 0 <= i < |q.rows| ==>
              q.rows[i].status == Sent || q.rows[i].status == Failed || q.rows[i].attempts == q.rows[i].maxAttempts
  {
    assert ListDue(q.rows) == [] <==> DueRows(q.rows, 0) == [];
    forall i | 0 <= i < |q.rows|
      ensures !IsDue(q.rows[i]) <==>
              q.rows[i].status == Sent || q.rows[i].status == Failed || q.rows[i].attempts == q.rows[i].maxAttempts
    {
      assert RowOk(q, i);
    }
    assert forall i :: 0 <= i < |q.rows| ==> q.rows[i] in q.rows;
  }
}
