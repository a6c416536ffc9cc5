/** The notification queue: rows that the API enqueues and retries by hand, and a worker
    whose polls dispatch up to 25 due rows under a per-key throttle.

    A poll is not atomic: between two of its rows the API may enqueue and retry. Polls do
    not overlap. The clock never runs backwards, dispatch outcomes are arbitrary.
 */
module NotificationModel {
  import opened Options

  datatype Channel = Email | Webhook | Slack

  datatype Status = Pending | Sent | Failed | Retrying

  datatype Row = Row(incident: nat, channel: Channel, status: Status, attempts: nat, maxAttempts: nat)

  type Key = (nat, Channel)

  /** A row as the poll's query returned it. */
  datatype Claim = Claim(index: nat, row: Row)

  /** The poll in progress: rows still to come, and whether any was looked at yet. */
  datatype Poll = Poll(rest: seq<Claim>, untouched: bool)

  /** History: one dispatch, with the clock when the throttle was checked and stamped. */
  datatype Dispatch = Dispatch(index: nat, key: Key, checkedAt: int, stampedAt: int, ok: bool)

  /** `rows` is in creation order; `clock` is the last reading; `busyPolls` counts the
      polls that found a due row. */
  datatype Queue = Queue(
    rows: seq<Row>,
    throttle: map<Key, int>,
    clock: int,
    poll: Option<Poll>,
    log: seq<Dispatch>,
    busyPolls: nat)

  const EMPTY_QUEUE := Queue([], map[], 0, None, [], 0)

  const BATCH_LIMIT := 25
  const THROTTLE_MS := 1000

  predicate IsDue(r: Row) {
    (r.status == Pending || r.status == Retrying) && r.attempts < r.maxAttempts
  }

  /** `due` lists exactly the due rows among `rows`, in order; the first row has index
      `from`. */
  ghost predicate ListsDue(rows: seq<Row>, from: nat, due: seq<Claim>) {
    && (forall c :: c in due <==> from <= c.index < from + |rows| && c.row == rows[c.index - from] && IsDue(c.row))
    && (forall j, k :: 0 <= j < k < |due| ==> due[j].index < due[k].index)
    && (due == [] <==> forall r :: r in rows ==> !IsDue(r))
  }

  function DueRows(rows: seq<Row>, from: nat): (due: seq<Claim>)
    ensures ListsDue(rows, from, due)
  {
    if rows == [] then []
    else
      var rest := DueRows(rows[1..], from + 1);
      if IsDue(rows[0]) then [Claim(from, rows[0])] + rest else rest
  }

  function Take(s: seq<Claim>, n: nat): seq<Claim> {
    if |s| <= n then s else s[..n]
  }

  function ListDue(rows: seq<Row>): seq<Claim> {
    Take(DueRows(rows, 0), BATCH_LIMIT)
  }

  function KeyOf(r: Row): Key {
    (r.incident, r.channel)
  }

  function LastStamp(throttle: map<Key, int>, key: Key): int {
    if key in throttle then throttle[key] else 0
  }

  predicate Throttled(q: Queue, key: Key, now: int) {
    now - LastStamp(q.throttle, key) < THROTTLE_MS
  }

  /** The row after a dispatch; the decision between retrying and failing looks at the
      claimed copy, the counter is incremented in the table. */
  function Marked(r: Row, claim: Row, ok: bool): Row {
    r.(attempts := r.attempts + 1,
       status := if ok then Sent else if claim.attempts + 1 >= claim.maxAttempts then Failed else Retrying)
  }

  datatype Step =
    | Enqueue(incident: nat, channel: Channel, maxAttempts: nat)
    | ManualRetry(index: nat)
    | StartPoll(at: int)
    | Handle(checkedAt: int, stampedAt: int, ok: bool)
    | EndPoll

  predicate Enabled(q: Queue, s: Step) {
    match s
    case Enqueue(_, _, _) => true
    case ManualRetry(i) => i < |q.rows|
    case StartPoll(at) => q.poll == None && at >= q.clock + THROTTLE_MS
    case Handle(t, u, _) =>
      && q.poll.Some? && q.poll.value.rest != [] && q.poll.value.rest[0].index < |q.rows|
      && q.clock <= t <= u
    case EndPoll => q.poll.Some? && q.poll.value.rest == []
  }

  function Handled(q: Queue, t: int, u: int, ok: bool): Queue
    requires Enabled(q, Handle(t, u, ok))
  {
    var claim := q.poll.value.rest[0];
    var key := KeyOf(claim.row);
    var next := q.(poll := Some(Poll(q.poll.value.rest[1..], false)));
    if Throttled(q, key, t) then next.(clock := t)
    else
      next.(clock := u,
            throttle := q.throttle[key := u],
            rows := q.rows[claim.index := Marked(q.rows[claim.index], claim.row, ok)],
            log := q.log + [Dispatch(claim.index, key, t, u, ok)])
  }

  function Next(q: Queue, s: Step): Queue
    requires Enabled(q, s)
  {
    match s
    case Enqueue(i, c, m) => q.(rows := q.rows + [Row(i, c, Pending, 0, m)])
    case ManualRetry(i) => q.(rows := q.rows[i := q.rows[i].(status := Pending)])
    case StartPoll(at) =>
      var due := ListDue(q.rows);
      q.(poll := Some(Poll(due, due != [])), clock := at,
         busyPolls := q.busyPolls + if due != [] then 1 else 0)
    case Handle(t, u, ok) => Handled(q, t, u, ok)
    case EndPoll => q.(poll := None)
  }

  ghost predicate Runnable(q: Queue, steps: seq<Step>)
    decreases |steps|
  {
    steps != [] ==> Enabled(q, steps[0]) && Runnable(Next(q, steps[0]), steps[1..])
  }

  ghost function After(q: Queue, steps: seq<Step>): Queue
    requires Runnable(q, steps)
    decreases |steps|
  {
    if steps == [] then q else After(Next(q, steps[0]), steps[1..])
  }
}
