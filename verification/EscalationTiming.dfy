/** When the rungs of an escalation policy fall due, rung by rung, and what each step of
    the API or the worker changes about an incident. */
module EscalationTiming {
  import opened Options
  import opened Lifecycle
  import opened Escalation

  // ---- the delays add up -------------------------------------------------------

  /** The schema's unique constraint: a policy has at most one step per level. */
  ghost predicate DistinctLevels(policy: seq<PolicyStep>) {
    forall j, k :: 0 <= j < k < |policy| ==> policy[j].level != policy[k].level
  }

  lemma {:induction false} NoStepNoDelay(policy: seq<PolicyStep>, level: int)
    requires !HasStep(policy, level)
    ensures CumulativeDelay(policy, level) == CumulativeDelay(policy, level - 1)
  {
    if policy != [] {
      assert policy[0] in policy;
      assert !HasStep(policy[1..], level);
      NoStepNoDelay(policy[1..], level);
    }
  }

  /** Going up by one level adds exactly the delay of that level's step. */
  lemma {:induction false} EachRungAddsItsDelay(policy: seq<PolicyStep>, s: PolicyStep)
    requires DistinctLevels(policy) && s in policy
    ensures CumulativeDelay(policy, s.level) == CumulativeDelay(policy, s.level - 1) + s.delayMinutes
  {
    if policy[0] == s {
      forall x | x in policy[1..] ensures x.level != s.level {
        var j :| 0 <= j < |policy[1..]| && policy[1..][j] == x;
        assert policy[j + 1] == x;
      }
      NoStepNoDelay(policy[1..], s.level);
    } else {
      assert policy[0].level != s.level by {
        var j :| 0 <= j < |policy| && policy[j] == s;
      }
      EachRungAddsItsDelay(policy[1..], s);
    }
  }

  lemma {:induction false} NothingBelowTheLadder(policy: seq<PolicyStep>, level: int)
    requires forall s :: s in policy ==> s.level > level
    ensures CumulativeDelay(policy, level) == 0
  {
    if policy != [] {
      assert policy[0] in policy;
      NothingBelowTheLadder(policy[1..], level);
    }
  }

  /** The delays of the steps of levels 1 to `k`, looked up one after the other. */
  ghost function LadderDelay(policy: seq<PolicyStep>, k: nat): int {
    if k == 0 then 0
    else LadderDelay(policy, k - 1) + var s := FindStep(policy, k); if s.Some? then s.value.delayMinutes else 0
  }

  /** For a policy with one step per level, all from level 1 up, the filtered sum of the
      worker is the ladder climbed rung by rung. */
  lemma {:induction false} CumulativeIsLadder(policy: seq<PolicyStep>, k: nat)
    requires DistinctLevels(policy) && forall s :: s in policy ==> s.level >= 1
    ensures CumulativeDelay(policy, k) == LadderDelay(policy, k)
  {
    if k == 0 {
      NothingBelowTheLadder(policy, 0);
    } else {
      CumulativeIsLadder(policy, k - 1);
      var s := FindStep(policy, k);
      if s.Some? {
        EachRungAddsItsDelay(policy, s.value);
      } else {
        NoStepNoDelay(policy, k);
      }
    }
  }

  function AtLevel(i: Incident, level: nat): Incident {
    i.(row := i.row.(level := level))
  }

  /** The lowest rung is due its own delay after creation. */
  lemma FirstRungIsDue(i: Incident, s: PolicyStep, now: int)
    requires DistinctLevels(i.policy) && s in i.policy && s.level == i.row.level + 1
    requires forall x :: x in i.policy ==> x.level >= s.level
    ensures IsDue(i, now) <==> now >= i.row.createdAt + s.delayMinutes * MS_PER_MINUTE
  {
    NothingBelowTheLadder(i.policy, s.level - 1);
    EachRungAddsItsDelay(i.policy, s);
    DueMeansReached(i, now);
  }

  /** Two consecutive rungs are due exactly the upper step's delay apart. */
  lemma RungsAreDueApart(i: Incident, s: PolicyStep, now: int)
    requires DistinctLevels(i.policy) && s in i.policy
    requires s.level == i.row.level + 2 && HasStep(i.policy, i.row.level + 1)
    ensures IsDue(AtLevel(i, i.row.level + 1), now + s.delayMinutes * MS_PER_MINUTE) <==> IsDue(i, now)
  {
    EachRungAddsItsDelay(i.policy, s);
    DueMeansReached(i, now);
    DueMeansReached(AtLevel(i, i.row.level + 1), now + s.delayMinutes * MS_PER_MINUTE);
  }

  lemma {:induction false} DelaysGrow(policy: seq<PolicyStep>, level: int)
    requires forall s :: s in policy ==> s.delayMinutes >= 0
    ensures CumulativeDelay(policy, level) <= CumulativeDelay(policy, level + 1)
  {
    if policy != [] {
      assert policy[0] in policy;
      DelaysGrow(policy[1..], level);
    }
  }

  /** With no negative delay no rung is due before the one below it. */
  lemma RungsAreDueInOrder(i: Incident, now: int)
    requires forall s :: s in i.policy ==> s.delayMinutes >= 0
    requires HasStep(i.policy, i.row.level + 1) && IsDue(AtLevel(i, i.row.level + 1), now)
    ensures IsDue(i, now)
  {
    DelaysGrow(i.policy, i.row.level + 1);
    DueMeansReached(i, now);
    DueMeansReached(AtLevel(i, i.row.level + 1), now);
  }

  // ---- the tables ----------------------------------------------------------------

  /** The transition table read by target: who may become what. */
  lemma TransitionsByTarget(from: Status, to: Status)
    ensures IsValidTransition(from, to) <==>
            match to
            case Open => false
            case Acknowledged => from in {Open, Investigating, Escalated}
            case Investigating => from in {Acknowledged, Mitigated, Escalated}
            case Mitigated => from == Investigating
            case Resolved => from != Resolved
            case Escalated => from in {Open, Acknowledged, Investigating, Mitigated}
  {
  }

  /** Priorities rank as severities do: P1 for the first, up to P4 for the fourth. */
  lemma PriorityRanksAsSeverity(s: Severity)
    ensures (SeverityToPriority(s) == P1 <==> s == Sev1) && (SeverityToPriority(s) == P2 <==> s == Sev2)
    ensures (SeverityToPriority(s) == P3 <==> s == Sev3) && (SeverityToPriority(s) == P4 <==> s == Sev4)
  {
  }

  /** Which incidents escalate: unacknowledged, below level 10, and neither mitigated nor
      resolved. */
  lemma CandidateIff(i: Incident)
    ensures Candidate(i) <==>
            && i.row.acknowledgedAt.None? && i.row.level < 10
            && i.row.status != Mitigated && i.row.status != Resolved
  {
  }

  // ---- what each step changes ------------------------------------------------------

  /** The step updates the status of incident `id`, and is allowed to. */
  ghost predicate Moves(db: Table, step: Step, id: nat, to: Status) {
    && step.UpdateStatus? && step.id == id && step.to == to && id in db
    && db[id].row.status != Resolved && IsValidTransition(db[id].row.status, to)
  }

  ghost predicate Reopens(db: Table, step: Step, id: nat) {
    step.Reopen? && step.id == id && id in db && db[id].row.status == Resolved
  }

  ghost predicate Raises(db: Table, step: Step, id: nat) {
    step.Poll? && id in step.batch && id in db && IsDue(db[id], step.now)
  }

  /** The times on the row: an acknowledgement is set only by a move to ACKNOWLEDGED and
      only once, a resolution is set by a move to RESOLVED and cleared by reopening. */
  lemma StepStampsTimes(db: Table, step: Step, id: nat)
    requires Enabled(db, step) && id in db
    ensures id in Next(db, step)
    ensures var r, r' := db[id].row, Next(db, step)[id].row;
            && r'.createdAt == r.createdAt
            && r'.acknowledgedAt ==
               (if r.acknowledgedAt.None? && Moves(db, step, id, Acknowledged) then Some(step.at) else r.acknowledgedAt)
            && r'.resolvedAt ==
               (if Moves(db, step, id, Resolved) then Some(step.at)
                else if Reopens(db, step, id) then None
                else r.resolvedAt)
  {
  }

  /** The rest of the incident: severity, status, and the executions with their times. */
  lemma StepChangesRow(db: Table, step: Step, id: nat)
    requires Enabled(db, step) && id in db
    ensures id in Next(db, step)
    ensures var i, i' := db[id], Next(db, step)[id];
            && i'.policy == i.policy
            && i'.row.severity == (if step.ChangeSeverity? && step.id == id then step.severity else i.row.severity)
            && i'.row.status ==
               (if step.UpdateStatus? && Moves(db, step, id, step.to) then step.to
                else if Reopens(db, step, id) then Open
                else if Raises(db, step, id) && i.row.status == Open then Escalated
                else i.row.status)
            && i'.executions ==
               (if Raises(db, step, id) then i.executions + [Execution(i.row.level + 1, step.now)] else i.executions)
  {
  }

  /** Each step writes the audit rows of what it did, and none for what it refused. */
  lemma StepWritesAudit(db: Table, step: Step, id: nat)
    requires Enabled(db, step) && id in db
    ensures id in Next(db, step)
    ensures var i := db[id];
            Next(db, step)[id].audit ==
            i.audit +
            if step.UpdateStatus? && Moves(db, step, id, step.to) then
              [StatusChanged(i.row.status, step.to)] + if step.to == Resolved then [IncidentResolved] else []
            else if step.ChangeSeverity? && step.id == id then [SeverityChanged(i.row.severity, step.severity)]
            else if Reopens(db, step, id) then [Lifecycle.Reopened(Resolved, Open)]
            else if Raises(db, step, id) then [IncidentEscalated(i.row.level + 1)]
            else []
  {
  }

  /** What a new incident looks like. */
  lemma CreatedAfresh(db: Table, id: nat, severity: Severity, at: int, policy: seq<PolicyStep>)
    requires id !in db
    ensures var db' := Next(db, Create(id, severity, at, policy));
            && id in db'
            && var i := db'[id];
            && i.row.status == Open && i.row.severity == severity && i.row.createdAt == at && i.policy == policy
            && i.row.acknowledgedAt.None? && i.row.resolvedAt.None? && i.row.level == 0
            && i.audit == [IncidentCreated(severity)] && i.executions == []
            && forall x :: x in db ==> x in db' && db'[x] == db[x]
  {
  }

  // ---- over whole runs ---------------------------------------------------------------

  /** When incident `id` is first moved to ACKNOWLEDGED in the run. */
  ghost function FirstAcknowledgement(db: Table, steps: seq<Step>, id: nat): Option<int>
    requires Runnable(db, steps)
    decreases |steps|
  {
    if steps == [] then None
    else if Moves(db, steps[0], id, Acknowledged) then Some(steps[0].at)
    else FirstAcknowledgement(Next(db, steps[0]), steps[1..], id)
  }

  /** Over every run: the acknowledgement an incident ends with is the one it had, or else
      the time of the first move to ACKNOWLEDGED; no other update, poll, reopen or severity
      change sets it. */
  lemma {:induction false} AcknowledgedByItsMoveOnly(db: Table, steps: seq<Step>, id: nat)
    requires Runnable(db, steps) && id in db
    ensures id in After(db, steps)
    ensures After(db, steps)[id].row.acknowledgedAt ==
            if db[id].row.acknowledgedAt.Some? then db[id].row.acknowledgedAt
            else FirstAcknowledgement(db, steps, id)
    decreases |steps|
  {
    hide Next, Moves, Enabled;
    if steps != [] {
      StepStampsTimes(db, steps[0], id);
      AcknowledgedByItsMoveOnly(Next(db, steps[0]), steps[1..], id);
    }
  }

  /** So an incident that nobody acknowledges goes on escalating whatever else is done to
      it, unless it is mitigated or resolved or at the last level. */
  lemma UnacknowledgedStaysCandidate(db: Table, steps: seq<Step>, id: nat)
    requires Runnable(db, steps) && id in db && db[id].row.acknowledgedAt.None?
    requires FirstAcknowledgement(db, steps, id).None?
    ensures id in After(db, steps)
    ensures var r := After(db, steps)[id].row;
            Candidate(After(db, steps)[id]) <==> r.level < 10 && r.status != Mitigated && r.status != Resolved
  {
    AcknowledgedByItsMoveOnly(db, steps, id);
    CandidateIff(After(db, steps)[id]);
  }

  /** The execution that one step adds to incident `id`, if it does. */
  ghost function Rung(db: Table, step: Step, id: nat): seq<Execution> {
    if Raises(db, step, id) then [Execution(db[id].row.level + 1, step.now)] else []
  }

  /** The rungs that the polls of the run climb, each at the reading of its poll. */
  ghost function Climbed(db: Table, steps: seq<Step>, id: nat): seq<Execution>
    requires Runnable(db, steps)
    decreases |steps|
  {
    if steps == [] then [] else Rung(db, steps[0], id) + Climbed(Next(db, steps[0]), steps[1..], id)
  }

  lemma StepAddsRung(db: Table, step: Step, id: nat)
    requires Enabled(db, step) && id in db
    ensures id in Next(db, step) && Next(db, step)[id].executions == db[id].executions + Rung(db, step, id)
  {
    StepChangesRow(db, step, id);
  }

  /** Over every run: the executions added are exactly the rungs climbed, in that order,
      each with the reading of the poll that climbed it. */
  lemma {:induction false} ExecutionsAreTheClimb(db: Table, steps: seq<Step>, id: nat)
    requires Runnable(db, steps) && id in db
    ensures id in After(db, steps)
    ensures After(db, steps)[id].executions == db[id].executions + Climbed(db, steps, id)
    decreases |steps|
  {
    hide Next, Rung, Enabled;
    if steps != [] {
      StepAddsRung(db, steps[0], id);
      ExecutionsAreTheClimb(Next(db, steps[0]), steps[1..], id);
    }
  }
}
