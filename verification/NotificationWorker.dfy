/** The worker object: its poll loop over the claimed rows, and the API's operations on
    the same table. */
module NotificationWorker {
  import opened Options
  import opened NotificationModel
  import opened NotificationDrain

  /** A clock read again and again: never backwards. */
  ghost predicate Nondecreasing(read: nat -> int) {
    forall j: nat, k: nat :: j <= k ==> read(j) <= read(k)
  }

  /** The rest of a poll that nothing interrupts: the k-th claimed row checks the throttle
      at read(2k), stamps at read(2k + 1) and has dispatch outcome `outcome(k)`. */
  ghost function HandleFrom(q: Queue, k: nat, read: nat -> int, outcome: nat -> bool): Queue
    requires Inv(q) && q.poll.Some? && Nondecreasing(read) && q.clock <= read(2 * k)
    decreases if q.poll.Some? then |q.poll.value.rest| else 0
  {
    if q.poll.value.rest == [] then Next(q, EndPoll)
    else
      assert q.poll.value.rest[0] in q.poll.value.rest;
      assert ClaimOk(q, q.poll.value.rest[0]);
      var step := Handle(read(2 * k), read(2 * k + 1), outcome(k));
      StepKeepsInv(q, step);
      HandleFrom(Next(q, step), k + 1, read, outcome)
  }

  class NotificationWorker {
    var rows: seq<Row>
    var throttle: map<Key, int>
    var clock: int
    // the rows of the poll in progress
    var poll: Option<Poll>
    // history, written and never read by the worker
    var log: seq<Dispatch>
    var busyPolls: nat

    ghost function View(): Queue
      reads this
    {
      Queue(rows, throttle, clock, poll, log, busyPolls)
    }

    ghost predicate Valid()
      reads this
    {
      Inv(View())
    }

    constructor ()
      ensures Valid() && View() == EMPTY_QUEUE
    {
      rows, throttle, clock, poll, log, busyPolls := [], map[], 0, None, [], 0;
    }

    method EnqueueNotification(incident: nat, channel: Channel, maxAttempts: nat)
      requires Valid()
      modifies this`rows
      ensures Valid() && View() == Next(old(View()), Enqueue(incident, channel, maxAttempts))
    {
      StepKeepsInv(View(), Enqueue(incident, channel, maxAttempts));
      rows := rows + [Row(incident, channel, Pending, 0, maxAttempts)];
    }

    /** Puts a row back to PENDING; the attempts it has used stay used. */
    method RetryNotification(i: nat)
      requires Valid() && i < |rows|
      modifies this`rows
      ensures Valid() && View() == Next(old(View()), ManualRetry(i))
    {
      StepKeepsInv(View(), ManualRetry(i));
      rows := rows[i := rows[i].(status := Pending)];
    }

    method MarkSent(i: nat)
      requires i < |rows|
      modifies this`rows
      ensures rows == old(rows)[i := old(rows)[i].(status := Sent, attempts := old(rows)[i].attempts + 1)]
    {
      rows := rows[i := rows[i].(status := Sent, attempts := rows[i].attempts + 1)];
    }

    method MarkFailed(i: nat)
      requires i < |rows|
      modifies this`rows
      ensures rows == old(rows)[i := old(rows)[i].(status := Failed, attempts := old(rows)[i].attempts + 1)]
    {
      rows := rows[i := rows[i].(status := Failed, attempts := rows[i].attempts + 1)];
    }

    method MarkRetrying(i: nat)
      requires i < |rows|
      modifies this`rows
      ensures rows == old(rows)[i := old(rows)[i].(status := Retrying, attempts := old(rows)[i].attempts + 1)]
    {
      rows := rows[i := rows[i].(status := Retrying, attempts := rows[i].attempts + 1)];
    }

    /** One pass of the loop body, for the next claimed row. */
    method HandleNext(checkedAt: int, stampedAt: int, ok: bool) returns (wasThrottled: bool)
      requires Valid() && Enabled(View(), Handle(checkedAt, stampedAt, ok))
      modifies this
      ensures Valid() && View() == Handled(old(View()), checkedAt, stampedAt, ok)
      ensures wasThrottled == Throttled(old(View()), KeyOf(old(poll.value.rest[0].row)), checkedAt)
    {
      hide Inv;
      StepKeepsInv(View(), Handle(checkedAt, stampedAt, ok));
      var n := poll.value.rest[0];
      var key := KeyOf(n.row);
      poll := Some(NotificationModel.Poll(poll.value.rest[1..], false));
      var last := if key in throttle then throttle[key] else 0;
      if checkedAt - last < THROTTLE_MS {
        clock := checkedAt;
        return true;
      }
      throttle := throttle[key := stampedAt];
      clock := stampedAt;
      if ok {
        MarkSent(n.index);
      } else if n.row.attempts + 1 >= n.row.maxAttempts {
        MarkFailed(n.index);
      } else {
        MarkRetrying(n.index);
      }
      log := log + [Dispatch(n.index, key, checkedAt, stampedAt, ok)];
      return false;
    }

    /** One whole poll, a second or more after the last reading of the previous one. */
    method Poll(at: int, read: nat -> int, outcome: nat -> bool) returns (dispatched: nat, throttled: nat)
      requires Valid() && poll == None && at >= clock + THROTTLE_MS
      requires Nondecreasing(read) && at <= read(0)
      modifies this
      ensures Valid() && poll == None
      ensures var started := Next(old(View()), StartPoll(at));
              Inv(started) && View() == HandleFrom(started, 0, read, outcome)
      ensures |log| == |old(log)| + dispatched
      ensures dispatched + throttled == |ListDue(old(rows))|
      ensures ListDue(old(rows)) != [] ==>
                SumOfMax(rows) - SumOfAttempts(rows) < SumOfMax(old(rows)) - SumOfAttempts(old(rows))
    {
      hide Inv, ListDue, HandleFrom, Handled, SumOfMax, SumOfAttempts, Nondecreasing, Throttled;
      StepKeepsInv(View(), StartPoll(at));
      AttemptsAreLogged(View());
      var due := ListDue(rows);
      poll := Some(NotificationModel.Poll(due, due != []));
      clock := at;
      busyPolls := busyPolls + if due != [] then 1 else 0;
      ghost var started := View();
      dispatched, throttled := 0, 0;
      var k := 0;
      while poll.value.rest != []
        invariant Valid() && poll.Some? && k + |poll.value.rest| == |due| && clock <= read(2 * k)
        invariant HandleFrom(View(), k, read, outcome) == HandleFrom(started, 0, read, outcome)
        invariant dispatched + throttled == k && |log| == |old(log)| + dispatched
        invariant SumOfMax(rows) == SumOfMax(old(rows))
        invariant k == 0 ==> poll.value.untouched == (due != [])
        invariant k > 0 ==> dispatched > 0
        decreases |poll.value.rest|
      {
        OneHandled(View(), k, read, outcome);
        var wasThrottled := HandleNext(read(2 * k), read(2 * k + 1), outcome(k));
        if wasThrottled {
          throttled := throttled + 1;
        } else {
          dispatched := dispatched + 1;
        }
        k := k + 1;
      }
      AllHandled(View(), k, read, outcome);
      StepKeepsInv(View(), EndPoll);
      poll := None;
      AttemptsAreLogged(View());
    }
  }

  lemma AttemptsAreLogged(q: Queue)
    requires Inv(q)
    ensures SumOfAttempts(q.rows) == |q.log|
  {
  }

  lemma AllHandled(q: Queue, k: nat, read: nat -> int, outcome: nat -> bool)
    requires Inv(q) && q.poll.Some? && Nondecreasing(read) && q.clock <= read(2 * k)
    requires q.poll.value.rest == []
    ensures HandleFrom(q, k, read, outcome) == Next(q, EndPoll)
  {
  }

  /** How the k-th row of an uninterrupted poll is handled. */
  lemma OneHandled(q: Queue, k: nat, read: nat -> int, outcome: nat -> bool)
    requires Inv(q) && q.poll.Some? && Nondecreasing(read) && q.clock <= read(2 * k)
    requires q.poll.value.rest != []
    ensures Enabled(q, Handle(read(2 * k), read(2 * k + 1), outcome(k)))
    ensures var q' := Handled(q, read(2 * k), read(2 * k + 1), outcome(k));
            var skipped := Throttled(q, KeyOf(q.poll.value.rest[0].row), read(2 * k));
            && Inv(q') && q'.poll == Some(NotificationModel.Poll(q.poll.value.rest[1..], false))
            && q'.clock <= read(2 * (k + 1))
            && HandleFrom(q', k + 1, read, outcome) == HandleFrom(q, k, read, outcome)
            && SumOfMax(q'.rows) == SumOfMax(q.rows)
            && |q'.log| == |q.log| + (if skipped then 0 else 1)
            && (q.poll.value.untouched ==> !skipped)
  {
    var t, u := read(2 * k), read(2 * k + 1);
    assert t <= u <= read(2 * (k + 1));
    HandleSums(q, t, u, outcome(k));
    StepKeepsInv(q, Handle(t, u, outcome(k)));
    hide Inv;
    assert Next(q, Handle(t, u, outcome(k))) == Handled(q, t, u, outcome(k));
  }

  /** A claimed row can always be handled; handling keeps the limits, and the first row of
      a poll is not throttled. */
  lemma HandleSums(q: Queue, t: int, u: int, ok: bool)
    requires Inv(q) && q.poll.Some? && q.poll.value.rest != [] && q.clock <= t <= u
    ensures Enabled(q, Handle(t, u, ok))
    ensures SumOfMax(Handled(q, t, u, ok).rows) == SumOfMax(q.rows)
    ensures q.poll.value.untouched ==> !Throttled(q, KeyOf(q.poll.value.rest[0].row), t)
    ensures Handled(q, t, u, ok).clock <= u
    ensures |Handled(q, t, u, ok).log| == |q.log| + if Throttled(q, KeyOf(q.poll.value.rest[0].row), t) then 0 else 1
  {
    var claim := q.poll.value.rest[0];
    assert claim in q.poll.value.rest;
    assert ClaimOk(q, claim);
    SumsUpdate(q.rows, claim.index, Marked(q.rows[claim.index], claim.row, ok));
  }
}
