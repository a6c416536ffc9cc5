/** The escalation poll over the whole table, against a specification that looks at the
    clock alone. */
module Escalation {
  import opened Options
  import opened Lifecycle

  type Table = map<nat, Incident>

  const MAX_LEVEL := 10
  const BATCH_LIMIT := 50

  // ---- the clock-only specification ----------------------------------------

  /** The highest rung from `k` up that time alone allows. */
  ghost function Climb(policy: seq<PolicyStep>, createdAt: int, now: int, k: nat): (top: nat)
    requires k <= MAX_LEVEL
    ensures k <= top <= MAX_LEVEL
    decreases MAX_LEVEL - k
  {
    if k < MAX_LEVEL && Reached(policy, createdAt, k + 1, now) then Climb(policy, createdAt, now, k + 1) else k
  }

  ghost function Ideal(policy: seq<PolicyStep>, createdAt: int, now: int): (top: nat) {
    Climb(policy, createdAt, now, 0)
  }

  ghost predicate AllReached(policy: seq<PolicyStep>, createdAt: int, now: int, k: nat) {
    forall j :: 1 <= j <= k ==> Reached(policy, createdAt, j, now)
  }

  /** Ideal is the largest level up to 10 such that levels 1..k all exist and each has its
      summed delays elapsed. */
  lemma IdealIsLargest(policy: seq<PolicyStep>, createdAt: int, now: int, k: nat)
    requires k <= MAX_LEVEL
    ensures AllReached(policy, createdAt, now, k) <==> k <= Ideal(policy, createdAt, now)
  {
  }

  lemma IdealGrows(policy: seq<PolicyStep>, createdAt: int, now: int, later: int)
    requires now <= later
    ensures Ideal(policy, createdAt, now) <= Ideal(policy, createdAt, later)
  {
  }

  ghost function IdealOf(i: Incident, now: int): nat {
    Ideal(i.policy, i.row.createdAt, now)
  }

  // ---- one poll ------------------------------------------------------------

  /** Unacknowledged, in a status that still escalates, and below the last level. */
  predicate Candidate(i: Incident) {
    && i.row.status in {Open, Acknowledged, Investigating, Escalated}
    && i.row.acknowledgedAt == None
    && i.row.level < MAX_LEVEL
  }

  /** Reopening restarts the escalation exactly of incidents that were never acknowledged
      and have not reached the last level. */
  lemma ReopenedIsCandidateIff(i: Incident)
    requires i.row.status == Resolved
    ensures Candidate(ReopenedFrom(i).0) <==> i.row.acknowledgedAt == None && i.row.level < MAX_LEVEL
  {
  }

  ghost function Candidates(db: Table): set<nat> {
    set id | id in db && Candidate(db[id])
  }

  ghost predicate NoRepeats(s: seq<nat>) {
    forall j, k :: 0 <= j < k < |s| ==> s[j] != s[k]
  }

  /** Rows a query ordered by created_at with LIMIT 50 may return; ties come in any order. */
  ghost predicate IsBatch(db: Table, batch: seq<nat>) {
    && NoRepeats(batch)
    && (forall id :: id in batch ==> id in Candidates(db))
    && (forall j, k :: 0 <= j < k < |batch| && batch[j] in db && batch[k] in db ==>
          db[batch[j]].row.createdAt <= db[batch[k]].row.createdAt)
    && |batch| == (if |Candidates(db)| <= BATCH_LIMIT then |Candidates(db)| else BATCH_LIMIT)
    && (forall id, c :: id in batch && c in Candidates(db) && c !in batch ==>
          db[id].row.createdAt <= db[c].row.createdAt)
  }

  function FindStep(policy: seq<PolicyStep>, level: int): (step: Option<PolicyStep>)
    ensures step.Some? ==> step.value in policy && step.value.level == level
    ensures step.Some? <==> HasStep(policy, level)
  {
    if policy == [] then None
    else if policy[0].level == level then Some(policy[0])
    else
      var step := FindStep(policy[1..], level);
      assert step.None? ==> forall s :: s in policy ==> s == policy[0] || s in policy[1..];
      step
  }

  /** Minutes to the next level, if the policy has one. */
  function DelayForNextStep(i: Incident): Option<int> {
    var next := i.row.level + 1;
    if FindStep(i.policy, next).None? then None else Some(CumulativeDelay(i.policy, next))
  }

  predicate IsDue(i: Incident, now: int) {
    var delay := DelayForNextStep(i);
    delay.Some? && i.row.createdAt + delay.value * MS_PER_MINUTE <= now
  }

  lemma DueMeansReached(i: Incident, now: int)
    ensures IsDue(i, now) <==> Reached(i.policy, i.row.createdAt, i.row.level + 1, now)
  {
  }

  function Polled(db: Table, batch: seq<nat>, now: int): Table {
    map id | id in db :: if id in batch && IsDue(db[id], now) then Raised(db[id], now) else db[id]
  }

  /** No level is ahead of the clock. */
  ghost predicate WithinIdeal(i: Incident, now: int) {
    i.row.level <= IdealOf(i, now)
  }

  /** A candidate that a poll looks at is raised by exactly one level if it is behind the
      clock, and is left alone if it has caught up. */
  lemma PollMovesTowardsIdeal(i: Incident, now: int)
    requires WithinIdeal(i, now) && i.row.level < MAX_LEVEL
    ensures IsDue(i, now) <==> i.row.level < IdealOf(i, now)
    ensures IsDue(i, now) ==> WithinIdeal(Raised(i, now), now)
  {
    DueMeansReached(i, now);
    IdealIsLargest(i.policy, i.row.createdAt, now, i.row.level);
    IdealIsLargest(i.policy, i.row.createdAt, now, i.row.level + 1);
  }

  // ---- whole runs ----------------------------------------------------------

  datatype Step =
    | Create(id: nat, severity: Severity, createdAt: int, policy: seq<PolicyStep>)
    | UpdateStatus(id: nat, to: Status, at: int)
    | ChangeSeverity(id: nat, severity: Severity)
    | Reopen(id: nat)
    | Poll(batch: seq<nat>, now: int)

  ghost predicate Enabled(db: Table, step: Step) {
    match step
    case Create(id, _, _, _) => id !in db
    case UpdateStatus(id, _, _) => id in db
    case ChangeSeverity(id, _) => id in db
    case Reopen(id) => id in db
    case Poll(batch, _) => IsBatch(db, batch)
  }

  function Next(db: Table, step: Step): Table {
    match step
    case Create(id, severity, at, policy) => if id in db then db else db[id := Created(severity, at, policy)]
    case UpdateStatus(id, to, at) => if id in db then db[id := StatusUpdated(db[id], to, at).0] else db
    case ChangeSeverity(id, severity) => if id in db then db[id := SeverityUpdated(db[id], severity).0] else db
    case Reopen(id) => if id in db then db[id := ReopenedFrom(db[id]).0] else db
    case Poll(batch, now) => Polled(db, batch, now)
  }

  ghost predicate Runnable(db: Table, steps: seq<Step>)
    decreases |steps|
  {
    steps != [] ==> Enabled(db, steps[0]) && Runnable(Next(db, steps[0]), steps[1..])
  }

  function After(db: Table, steps: seq<Step>): Table
    decreases |steps|
  {
    if steps == [] then db else After(Next(db, steps[0]), steps[1..])
  }

  ghost predicate AllSound(db: Table) {
    forall id :: id in db ==> Sound(db[id])
  }

  /** One step, seen from one incident. */
  lemma StepOnIncident(db: Table, step: Step, id: nat)
    requires AllSound(db) && Enabled(db, step) && id in db
    ensures var db' := Next(db, step);
            && id in db'
            && Sound(db'[id]) && Follows(db[id], db'[id])
            && (db[id].row.acknowledgedAt.Some? ==> db'[id].row.level == db[id].row.level)
            && (!step.Poll? ==> db'[id].row.level == db[id].row.level)
            && (step.Poll? ==>
                  db'[id].row.level ==
                  if id in step.batch && IsDue(db[id], step.now) then db[id].row.level + 1 else db[id].row.level)
  {
    var i := db[id];
    assert Sound(i);
    match step
    case Create(_, _, _, _) =>
    case UpdateStatus(x, to, at) => if x == id { StatusUpdatedSound(i, to, at); }
    case ChangeSeverity(x, severity) => if x == id { SeverityUpdatedSound(i, severity); }
    case Reopen(x) => if x == id { ReopenedSound(i); }
    case Poll(batch, now) =>
      if id in batch && IsDue(i, now) {
        assert id in Candidates(db);
        DueMeansReached(i, now);
        RaisedSound(i, now);
      }
  }

  lemma StepSound(db: Table, step: Step)
    requires AllSound(db) && Enabled(db, step)
    ensures AllSound(Next(db, step))
  {
    var db' := Next(db, step);
    forall id | id in db' ensures Sound(db'[id]) {
      if id in db {
        StepOnIncident(db, step, id);
      } else {
        CreatedSound(step.severity, step.createdAt, step.policy);
      }
    }
  }

  /** Over every run: the row stays consistent, the audit trail replays to it, and the
      executions are its ladder. The acknowledgement, once set, and with it the level,
      never change again, through resolve, reopen and any number of polls. */
  lemma {:induction false} RunOnIncident(db: Table, steps: seq<Step>, id: nat)
    requires AllSound(db) && Runnable(db, steps) && id in db
    ensures var db' := After(db, steps);
            && AllSound(db') && id in db'
            && Follows(db[id], db'[id]) && db'[id].row.level >= db[id].row.level
            && (db[id].row.acknowledgedAt.Some? ==> db'[id].row.level == db[id].row.level)
    decreases |steps|
  {
    if steps != [] {
      StepOnIncident(db, steps[0], id);
      StepSound(db, steps[0]);
      RunOnIncident(Next(db, steps[0]), steps[1..], id);
    }
  }

  lemma {:induction false} RunSound(db: Table, steps: seq<Step>)
    requires AllSound(db) && Runnable(db, steps)
    ensures AllSound(After(db, steps))
    decreases |steps|
  {
    if steps != [] {
      StepSound(db, steps[0]);
      RunSound(Next(db, steps[0]), steps[1..]);
    }
  }

  /** From the empty table every incident of every run is sound: RESOLVED exactly with a
      resolution time, ACKNOWLEDGED only with an acknowledgement time, the priority that
      of the severity, an audit trail whose every "from" and every transition fits and
      which replays to the row, and executions 1..level each no earlier than due. */
  lemma EveryRunIsSound(steps: seq<Step>, id: nat)
    requires Runnable(map[], steps) && id in After(map[], steps)
    ensures var i := After(map[], steps)[id];
            && (i.row.status == Resolved <==> i.row.resolvedAt.Some?)
            && (i.row.status == Acknowledged ==> i.row.acknowledgedAt.Some?)
            && i.row.priority == SeverityToPriority(i.row.severity)
            && Replay(i.audit) == SnapshotOf(i.row)
            && (forall k :: 1 <= k < |i.audit| ==> Continues(Replay(i.audit[..k]), i.audit[k]))
            && |i.executions| == i.row.level
            && (forall k :: 0 <= k < |i.executions| ==>
                  && i.executions[k].level == k + 1
                  && Reached(i.policy, i.row.createdAt, k + 1, i.executions[k].triggeredAt))
  {
    RunSound(map[], steps);
    assert Sound(After(map[], steps)[id]);
  }

  // ---- never ahead of the clock, and how fast it catches up ----------------

  ghost function Polls(steps: seq<Step>): nat {
    if steps == [] then 0 else (if steps[0].Poll? then 1 else 0) + Polls(steps[1..])
  }

  /** Polls read a clock that never runs backwards and has reached `from`. */
  ghost predicate ClockFrom(steps: seq<Step>, from: int)
    decreases |steps|
  {
    steps != [] ==>
      if steps[0].Poll? then steps[0].now >= from && ClockFrom(steps[1..], steps[0].now)
      else ClockFrom(steps[1..], from)
  }

  ghost predicate AllWithinIdeal(db: Table, now: int) {
    forall id :: id in db ==> WithinIdeal(db[id], now)
  }

  lemma StepWithinIdeal(db: Table, step: Step, now: int)
    requires AllSound(db) && Enabled(db, step) && AllWithinIdeal(db, now)
    requires step.Poll? ==> step.now >= now
    ensures AllWithinIdeal(Next(db, step), if step.Poll? then step.now else now)
  {
    var db' := Next(db, step);
    var t := if step.Poll? then step.now else now;
    forall id | id in db' ensures WithinIdeal(db'[id], t) {
      if id in db {
        StepOnIncident(db, step, id);
        IdealGrows(db[id].policy, db[id].row.createdAt, now, t);
        assert WithinIdeal(db[id], t);
        if step.Poll? && id in step.batch && IsDue(db[id], step.now) {
          assert id in Candidates(db);
          PollMovesTowardsIdeal(db[id], step.now);
        }
      }
    }
  }

  ghost function LastClock(steps: seq<Step>, from: int): int
    decreases |steps|
  {
    if steps == [] then from
    else LastClock(steps[1..], if steps[0].Poll? then steps[0].now else from)
  }

  /** No run of polls takes any incident past the level that the clock alone allows. */
  lemma {:induction false} NeverAheadOfTheClock(db: Table, steps: seq<Step>, from: int)
    requires AllSound(db) && Runnable(db, steps) && ClockFrom(steps, from) && AllWithinIdeal(db, from)
    ensures AllWithinIdeal(After(db, steps), LastClock(steps, from))
    decreases |steps|
  {
    if steps != [] {
      StepWithinIdeal(db, steps[0], from);
      StepSound(db, steps[0]);
      NeverAheadOfTheClock(Next(db, steps[0]), steps[1..], if steps[0].Poll? then steps[0].now else from);
    }
  }

  /** Candidates that the query may put before `id`, and those it must put before it. */
  ghost function Ahead(db: Table, id: nat): set<nat>
    requires id in db
  {
    set c | c in Candidates(db) && c != id && db[c].row.createdAt <= db[id].row.createdAt
  }

  ghost function Older(db: Table, id: nat): set<nat>
    requires id in db
  {
    set c | c in Candidates(db) && db[c].row.createdAt < db[id].row.createdAt
  }

  /** What LIMIT 50 does to one candidate: it is looked at whenever fewer than fifty others
      are at least as old, and never when fifty are older; only ties in created_at leave
      the choice to the database. */
  lemma InBatchWhen(db: Table, batch: seq<nat>, id: nat)
    requires IsBatch(db, batch) && id in Candidates(db)
    ensures |Ahead(db, id)| < 50 ==> id in batch
    ensures |Older(db, id)| >= 50 ==> id !in batch
  {
    ElementsOf(batch);
    var taken := Elements(batch);
    if id !in batch {
      assert id !in taken;
      SubsetSize(taken, Ahead(db, id));
      SubsetSize(taken, Candidates(db));
    } else {
      assert |Older(db, id) + {id}| == |Older(db, id)| + 1;
      SubsetSize(Older(db, id) + {id}, taken);
    }
  }

  /** In particular, with at most fifty candidates every one is looked at. */
  lemma FewCandidates(db: Table, id: nat)
    requires |Candidates(db)| <= BATCH_LIMIT && id in Candidates(db)
    ensures Eligible(db, id)
  {
    assert |Ahead(db, id) + {id}| == |Ahead(db, id)| + 1;
    SubsetSize(Ahead(db, id) + {id}, Candidates(db));
  }

  ghost function Elements(s: seq<nat>): set<nat> {
    set x | x in s
  }

  lemma {:induction false} ElementsOf(s: seq<nat>)
    requires NoRepeats(s)
    ensures |Elements(s)| == |s|
  {
    if s == [] {
      assert Elements(s) == {};
    } else {
      var n := |s| - 1;
      ElementsOf(s[..n]);
      assert s[n] !in s[..n];
      assert Elements(s) == Elements(s[..n]) + {s[n]};
    }
  }

  lemma {:induction false} SubsetSize(a: set<nat>, b: set<nat>)
    requires a <= b
    ensures |a| <= |b|
    ensures |a| == |b| ==> a == b
  {
    if a != {} {
      var x :| x in a;
      SubsetSize(a - {x}, b - {x});
      assert (a - {x}) + {x} == a && (b - {x}) + {x} == b;
    }
  }

  /** A candidate with fewer than fifty others at least as old. */
  ghost predicate Eligible(db: Table, id: nat)
    requires id in db
  {
    Candidate(db[id]) && |Ahead(db, id)| < BATCH_LIMIT
  }

  /** One step that keeps the incident up for escalation: a poll reads a clock that does
      not run backwards and finds the incident eligible, or at the last level. */
  ghost predicate Tends(db: Table, step: Step, id: nat, clock: int) {
    && Enabled(db, step) && id in db
    && (step.Poll? ==>
          && step.now >= clock
          && (db[id].row.level < MAX_LEVEL ==> Eligible(db, id)))
  }

  function ClockAfter(step: Step, clock: int): int {
    if step.Poll? then step.now else clock
  }

  ghost predicate Tended(db: Table, steps: seq<Step>, id: nat, clock: int)
    decreases |steps|
  {
    steps != [] ==>
      && Tends(db, steps[0], id, clock)
      && Tended(Next(db, steps[0]), steps[1..], id, ClockAfter(steps[0], clock))
  }

  ghost function Lesser(a: int, b: int): int {
    if a <= b then a else b
  }

  /** Convergence. Polls from time t on raise an eligible incident one level each until it
      has reached Ideal(t): after n of them it stands at min(Ideal(t), level + n) or
      higher, whatever else happened in between and whenever workers were restarted. */
  lemma {:induction false} ConvergesToIdeal(db: Table, steps: seq<Step>, id: nat, t: int, clock: int)
    requires AllSound(db) && id in db && Tended(db, steps, id, clock)
    requires t <= clock && AllWithinIdeal(db, clock)
    ensures id in After(db, steps)
    ensures After(db, steps)[id].row.level >= Lesser(IdealOf(db[id], t), db[id].row.level + Polls(steps))
    decreases |steps|
  {
    hide Next, AllWithinIdeal, AllSound, Tends, IdealOf;
    if steps != [] {
      TendedStep(db, steps[0], id, t, clock);
      ConvergesToIdeal(Next(db, steps[0]), steps[1..], id, t, ClockAfter(steps[0], clock));
    }
  }

  lemma TendedStep(db: Table, step: Step, id: nat, t: int, clock: int)
    requires AllSound(db) && Tends(db, step, id, clock)
    requires t <= clock && AllWithinIdeal(db, clock)
    ensures var db' := Next(db, step);
            && id in db' && AllSound(db')
            && t <= ClockAfter(step, clock) && AllWithinIdeal(db', ClockAfter(step, clock))
            && IdealOf(db'[id], t) == IdealOf(db[id], t)
            && db'[id].row.level >= Lesser(IdealOf(db[id], t), db[id].row.level + if step.Poll? then 1 else 0)
  {
    StepOnIncident(db, step, id);
    StepSound(db, step);
    StepWithinIdeal(db, step, clock);
    if step.Poll? {
      PollRaises(db, step.batch, step.now, id, t, clock);
    }
  }

  /** A poll at or after t that may look at the incident raises it unless it has already
      reached Ideal(t). */
  lemma PollRaises(db: Table, batch: seq<nat>, now: int, id: nat, t: int, clock: int)
    requires AllSound(db) && IsBatch(db, batch) && id in db
    requires db[id].row.level < MAX_LEVEL ==> Eligible(db, id)
    requires t <= clock <= now && AllWithinIdeal(db, clock)
    ensures var db' := Polled(db, batch, now);
            id in db' && db'[id].row.level >= Lesser(IdealOf(db[id], t), db[id].row.level + 1)
  {
    var i := db[id];
    IdealGrows(i.policy, i.row.createdAt, t, now);
    IdealGrows(i.policy, i.row.createdAt, clock, now);
    assert WithinIdeal(i, clock);
    if i.row.level < IdealOf(i, t) {
      assert id in Candidates(db);
      InBatchWhen(db, batch, id);
      PollMovesTowardsIdeal(i, now);
    }
  }

  // ---- what the batch limit costs ------------------------------------------

  /** Fifty candidates older than `id` that no poll can raise. */
  ghost predicate Blocked(db: Table, blockers: set<nat>, id: nat) {
    && id in db && id !in blockers && |blockers| == BATCH_LIMIT
    && forall b :: b in blockers ==>
         && b in db && Candidate(db[b])
         && !HasStep(db[b].policy, db[b].row.level + 1)
         && db[b].row.createdAt < db[id].row.createdAt
  }

  /** With more than 50 candidates convergence fails: an incident behind fifty older ones
      without a next step is never looked at, in any number of polls. */
  lemma {:induction false} BlockedForever(db: Table, steps: seq<Step>, blockers: set<nat>, id: nat)
    requires AllSound(db) && Runnable(db, steps) && Blocked(db, blockers, id)
    requires forall k :: 0 <= k < |steps| ==> steps[k].Poll?
    ensures id in After(db, steps) && After(db, steps)[id] == db[id]
    decreases |steps|
  {
    assert id in db;
    hide Next, Blocked, AllSound, Enabled;
    if steps != [] {
      BlockedOnce(db, steps[0], blockers, id);
      BlockedForever(Next(db, steps[0]), steps[1..], blockers, id);
    }
  }

  lemma BlockedOnce(db: Table, step: Step, blockers: set<nat>, id: nat)
    requires AllSound(db) && Blocked(db, blockers, id) && Enabled(db, step) && step.Poll?
    ensures var db' := Next(db, step);
            id in db && id in db' && db'[id] == db[id] && AllSound(db') && Blocked(db', blockers, id)
  {
    StepSound(db, step);
    NotInBatch(db, step.batch, blockers, id);
    var db' := Next(db, step);
    forall b | b in blockers ensures db'[b] == db[b] {
      DueMeansReached(db[b], step.now);
    }
  }

  lemma NotInBatch(db: Table, batch: seq<nat>, blockers: set<nat>, id: nat)
    requires IsBatch(db, batch) && Blocked(db, blockers, id)
    ensures id !in batch
  {
    if id in batch {
      SubsetSize(blockers, Older(db, id));
      InBatchWhen(db, batch, id);
    }
  }

  /** Fifty incidents of services without a policy, then one that is to escalate at once. */
  function CrowdMember(id: nat): Step {
    Create(id, Sev1, id, if id < BATCH_LIMIT then [] else [PolicyStep(1, 0)])
  }

  ghost function Crowd(n: nat): Table {
    map id: nat | id < n :: Created(Sev1, id, CrowdMember(id).policy)
  }

  function CrowdSteps(from: nat, n: nat): seq<Step>
    decreases n - from
  {
    if from >= n then [] else [CrowdMember(from)] + CrowdSteps(from + 1, n)
  }

  lemma {:induction false} CrowdGathers(from: nat, n: nat)
    requires from <= n
    ensures Runnable(Crowd(from), CrowdSteps(from, n)) && After(Crowd(from), CrowdSteps(from, n)) == Crowd(n)
    decreases n - from
  {
    if from < n {
      assert Next(Crowd(from), CrowdMember(from)) == Crowd(from + 1);
      assert CrowdSteps(from, n)[1..] == CrowdSteps(from + 1, n);
      CrowdGathers(from + 1, n);
    }
  }

  ghost function Below(n: nat): set<nat> {
    if n == 0 then {} else Below(n - 1) + {n - 1}
  }

  lemma {:induction false} BelowSize(n: nat)
    ensures |Below(n)| == n
    ensures forall id: nat :: id in Below(n) <==> id < n
  {
    if n > 0 {
      BelowSize(n - 1);
    }
  }

  lemma CrowdBlocks()
    ensures var db := Crowd(BATCH_LIMIT + 1);
            Blocked(db, Below(BATCH_LIMIT), BATCH_LIMIT) && db[BATCH_LIMIT].row.level == 0
  {
    BelowSize(BATCH_LIMIT);
  }

  lemma LastIsDue(now: int)
    requires now >= BATCH_LIMIT
    ensures IsDue(Crowd(BATCH_LIMIT + 1)[BATCH_LIMIT], now)
  {
    var policy := [PolicyStep(1, 0)];
    assert FindStep(policy, 1) == Some(policy[0]);
    assert CumulativeDelay(policy[1..], 1) == 0;
  }

  /** The starvation happens: a run that creates 51 incidents leads to a table in which the
      last is due at every later instant, and no number of polls ever raises it. */
  lemma StarvationIsReached(polls: seq<Step>)
    requires Runnable(Crowd(BATCH_LIMIT + 1), polls)
    requires forall k :: 0 <= k < |polls| ==> polls[k].Poll?
    ensures Runnable(map[], CrowdSteps(0, BATCH_LIMIT + 1))
    ensures var db := After(map[], CrowdSteps(0, BATCH_LIMIT + 1));
            && db == Crowd(BATCH_LIMIT + 1) && BATCH_LIMIT in db
            && (forall now :: now >= BATCH_LIMIT ==> IsDue(db[BATCH_LIMIT], now))
            && BATCH_LIMIT in After(db, polls) && After(db, polls)[BATCH_LIMIT].row.level == 0
  {
    var n := BATCH_LIMIT + 1;
    var db := Crowd(n);
    assert Crowd(0) == map[];
    CrowdGathers(0, n);
    hide *;
    RunSound(map[], CrowdSteps(0, n));
    CrowdBlocks();
    forall now | now >= BATCH_LIMIT ensures IsDue(db[BATCH_LIMIT], now) {
      LastIsDue(now);
    }
    BlockedForever(db, polls, Below(BATCH_LIMIT), BATCH_LIMIT);
  }
}
