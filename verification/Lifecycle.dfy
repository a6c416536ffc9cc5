/** One incident: its row, the audit trail, the escalation executions, and the operations
    that change them, each one transaction. */
module Lifecycle {
  import opened Options

  datatype Status = Open | Acknowledged | Investigating | Mitigated | Resolved | Escalated

  datatype Severity = Sev1 | Sev2 | Sev3 | Sev4

  datatype Priority = P1 | P2 | P3 | P4

  const INCIDENT_TRANSITIONS: map<Status, seq<Status>> := map[
    Open := [Acknowledged, Escalated, Resolved],
    Acknowledged := [Investigating, Escalated, Resolved],
    Investigating := [Mitigated, Escalated, Acknowledged, Resolved],
    Mitigated := [Resolved, Investigating, Escalated],
    Resolved := [],
    Escalated := [Acknowledged, Investigating, Resolved]
  ]

  predicate IsValidTransition(from: Status, to: Status) {
    from in INCIDENT_TRANSITIONS && to in INCIDENT_TRANSITIONS[from]
  }

  function SeverityToPriority(s: Severity): Priority {
    match s
    case Sev1 => P1
    case Sev2 => P2
    case Sev3 => P3
    case Sev4 => P4
  }

  datatype Row = Row(
    status: Status,
    severity: Severity,
    priority: Priority,
    acknowledgedAt: Option<int>,
    resolvedAt: Option<int>,
    level: nat,
    createdAt: int)

  datatype AuditEntry =
    | IncidentCreated(severity: Severity)
    | StatusChanged(fromStatus: Status, toStatus: Status)
    | IncidentResolved
    | SeverityChanged(fromSeverity: Severity, toSeverity: Severity)
    | Reopened(fromStatus: Status, toStatus: Status)
    | IncidentEscalated(level: int)

  datatype PolicyStep = PolicyStep(level: int, delayMinutes: int)

  datatype Execution = Execution(level: int, triggeredAt: int)

  /** An incident with everything recorded about it; `policy` holds the steps of the
      policy that its service resolves to. */
  datatype Incident = Incident(row: Row, audit: seq<AuditEntry>, executions: seq<Execution>, policy: seq<PolicyStep>)

  datatype Outcome = Done | NotFound | Conflict

  function Created(severity: Severity, now: int, policy: seq<PolicyStep>): Incident {
    Incident(Row(Open, severity, SeverityToPriority(severity), None, None, 0, now),
             [IncidentCreated(severity)], [], policy)
  }

  /** `coalesce(acknowledged_at, now())`. */
  function Coalesce(at: Option<int>, now: int): Option<int> {
    if at.Some? then at else Some(now)
  }

  function StatusUpdated(i: Incident, to: Status, now: int): (Incident, Outcome) {
    if i.row.status == Resolved then (i, NotFound)
    else if !IsValidTransition(i.row.status, to) then (i, Conflict)
    else
      var row := i.row.(
        status := to,
        acknowledgedAt := if to == Acknowledged then Coalesce(i.row.acknowledgedAt, now) else i.row.acknowledgedAt,
        resolvedAt := if to == Resolved then Some(now) else i.row.resolvedAt);
      var audit := i.audit + [StatusChanged(i.row.status, to)];
      (i.(row := row, audit := if to == Resolved then audit + [IncidentResolved] else audit), Done)
  }

  function SeverityUpdated(i: Incident, severity: Severity): (Incident, Outcome) {
    (i.(row := i.row.(severity := severity, priority := SeverityToPriority(severity)),
        audit := i.audit + [SeverityChanged(i.row.severity, severity)]), Done)
  }

  function ReopenedFrom(i: Incident): (Incident, Outcome) {
    if i.row.status != Resolved then (i, Conflict)
    else
      (i.(row := i.row.(status := Open, resolvedAt := None),
          audit := i.audit + [Reopened(Resolved, Open)]), Done)
  }

  /** One level up: execution, level, status and audit row in one transaction. */
  function Raised(i: Incident, now: int): Incident {
    var next := i.row.level + 1;
    i.(row := i.row.(level := next, status := if i.row.status == Open then Escalated else i.row.status),
       audit := i.audit + [IncidentEscalated(next)],
       executions := i.executions + [Execution(next, now)])
  }

  // ---- the row is consistent -----------------------------------------------

  ghost predicate RowConsistent(r: Row) {
    && (r.status == Resolved <==> r.resolvedAt.Some?)
    && (r.status == Acknowledged ==> r.acknowledgedAt.Some?)
    && r.priority == SeverityToPriority(r.severity)
  }

  // ---- the audit trail replays to the row ----------------------------------

  /** What the audit trail claims to know about the incident. */
  datatype Snapshot = Snapshot(status: Status, severity: Severity, priority: Priority, level: int)

  function SnapshotOf(r: Row): Snapshot {
    Snapshot(r.status, r.severity, r.priority, r.level)
  }

  function Folded(s: Snapshot, entry: AuditEntry): Snapshot {
    match entry
    case IncidentCreated(severity) => Snapshot(Open, severity, SeverityToPriority(severity), 0)
    case StatusChanged(_, to) => s.(status := to)
    case IncidentResolved => s
    case SeverityChanged(_, to) => s.(severity := to, priority := SeverityToPriority(to))
    case Reopened(_, to) => s.(status := to)
    case IncidentEscalated(level) => s.(level := level, status := if s.status == Open then Escalated else s.status)
  }

  const BLANK := Snapshot(Open, Sev4, P4, 0)

  function Replay(audit: seq<AuditEntry>): Snapshot {
    if audit == [] then BLANK else Folded(Replay(audit[..|audit| - 1]), audit[|audit| - 1])
  }

  /** `entry` continues a trail that replays to `s`: its recorded "from" is what the
      replay says, status changes follow the transition table, levels count up by one. */
  ghost predicate Continues(s: Snapshot, entry: AuditEntry) {
    match entry
    case IncidentCreated(_) => false
    case StatusChanged(from, to) => from == s.status && IsValidTransition(from, to)
    case IncidentResolved => s.status == Resolved
    case SeverityChanged(from, _) => from == s.severity
    case Reopened(from, to) => from == s.status == Resolved && to == Open
    case IncidentEscalated(level) => level == s.level + 1 && s.status != Resolved
  }

  ghost predicate Trail(audit: seq<AuditEntry>) {
    && audit != [] && audit[0].IncidentCreated?
    && forall k :: 1 <= k < |audit| ==> Continues(Replay(audit[..k]), audit[k])
  }

  ghost predicate Audited(i: Incident) {
    Trail(i.audit) && Replay(i.audit) == SnapshotOf(i.row)
  }

  lemma TrailExtends(audit: seq<AuditEntry>, entry: AuditEntry)
    requires Trail(audit) && Continues(Replay(audit), entry)
    ensures Trail(audit + [entry]) && Replay(audit + [entry]) == Folded(Replay(audit), entry)
  {
    var longer := audit + [entry];
    assert longer[..|audit|] == audit;
    forall k | 1 <= k < |longer| ensures Continues(Replay(longer[..k]), longer[k]) {
      if k < |audit| {
        assert longer[..k] == audit[..k];
      }
    }
  }

  // ---- the ladder ----------------------------------------------------------

  const MS_PER_MINUTE := 60000

  ghost predicate HasStep(policy: seq<PolicyStep>, level: int) {
    exists s :: s in policy && s.level == level
  }

  /** Minutes from creation to `level`: the delays of all steps up to it. */
  function CumulativeDelay(policy: seq<PolicyStep>, level: int): int {
    if policy == [] then 0
    else (if policy[0].level <= level then policy[0].delayMinutes else 0) + CumulativeDelay(policy[1..], level)
  }

  ghost predicate Reached(policy: seq<PolicyStep>, createdAt: int, level: int, now: int) {
    HasStep(policy, level) && createdAt + CumulativeDelay(policy, level) * MS_PER_MINUTE <= now
  }

  /** The executions are levels 1, 2, ..., level, none before its time. */
  ghost predicate Laddered(i: Incident) {
    && |i.executions| == i.row.level
    && forall k :: 0 <= k < |i.executions| ==>
         && i.executions[k].level == k + 1
         && Reached(i.policy, i.row.createdAt, k + 1, i.executions[k].triggeredAt)
  }

  ghost predicate Sound(i: Incident) {
    RowConsistent(i.row) && Audited(i) && Laddered(i)
  }

  /** What no operation ever takes back: the acknowledgement, the creation time, the
      policy, and every execution and audit row already written. */
  ghost predicate Follows(i: Incident, i': Incident) {
    && i'.policy == i.policy && i'.row.createdAt == i.row.createdAt
    && (i.row.acknowledgedAt.Some? ==> i'.row.acknowledgedAt == i.row.acknowledgedAt)
    && i.executions <= i'.executions && i.audit <= i'.audit
  }

  // ---- every operation -----------------------------------------------------

  lemma CreatedSound(severity: Severity, now: int, policy: seq<PolicyStep>)
    ensures Sound(Created(severity, now, policy))
  {
  }

  /** A status update is refused exactly outside the table, and otherwise keeps the
      incident sound; the level stays. */
  lemma StatusUpdatedSound(i: Incident, to: Status, now: int)
    requires Sound(i)
    ensures var (i', outcome) := StatusUpdated(i, to, now);
            && Sound(i') && Follows(i, i') && i'.row.level == i.row.level
            && (outcome == Done <==> i.row.status != Resolved && IsValidTransition(i.row.status, to))
            && (outcome == NotFound <==> i.row.status == Resolved)
            && (outcome == Done ==> i'.row.status == to)
            && (outcome == Done && to == Acknowledged && i.row.acknowledgedAt.None? ==>
                  i'.row.acknowledgedAt == Some(now))
            && (outcome == Done && to == Resolved ==>
                  i'.row.resolvedAt == Some(now) && i'.audit[|i'.audit| - 1] == IncidentResolved)
            && (outcome != Done ==> i' == i)
  {
    if i.row.status != Resolved && IsValidTransition(i.row.status, to) {
      var changed := StatusChanged(i.row.status, to);
      TrailExtends(i.audit, changed);
      if to == Resolved {
        TrailExtends(i.audit + [changed], IncidentResolved);
      }
    }
  }

  lemma SeverityUpdatedSound(i: Incident, severity: Severity)
    requires Sound(i)
    ensures var i' := SeverityUpdated(i, severity).0;
            && Sound(i') && Follows(i, i')
            && i'.row.level == i.row.level && i'.row.status == i.row.status && i'.row.severity == severity
  {
    TrailExtends(i.audit, SeverityChanged(i.row.severity, severity));
  }

  /** Reopening undoes a resolution and nothing else: the acknowledgement and the level
      reached before stay. */
  lemma ReopenedSound(i: Incident)
    requires Sound(i)
    ensures var (i', outcome) := ReopenedFrom(i);
            && Sound(i') && Follows(i, i')
            && (outcome == Done <==> i.row.status == Resolved)
            && (outcome == Done ==> i'.row == i.row.(status := Open, resolvedAt := None))
            && (outcome != Done ==> i' == i)
  {
    if i.row.status == Resolved {
      TrailExtends(i.audit, Reopened(Resolved, Open));
    }
  }

  lemma LadderExtends(i: Incident, now: int)
    requires Laddered(i) && Reached(i.policy, i.row.createdAt, i.row.level + 1, now)
    ensures Laddered(Raised(i, now))
  {
  }

  /** Raising is what a table transition (or no status change) and one more rung make; an
      OPEN incident does not stay OPEN. */
  lemma RaisedSound(i: Incident, now: int)
    requires Sound(i) && i.row.status != Resolved
    requires Reached(i.policy, i.row.createdAt, i.row.level + 1, now)
    ensures var i' := Raised(i, now);
            && Sound(i') && Follows(i, i')
            && i'.row.level == i.row.level + 1 && i'.row.status != Open
            && (i'.row.status == i.row.status || IsValidTransition(i.row.status, i'.row.status))
  {
    hide Reached, Trail, Continues, Laddered;
    LadderExtends(i, now);
    RaiseIsAudited(i);
    TrailExtends(i.audit, IncidentEscalated(i.row.level + 1));
  }

  lemma RaiseIsAudited(i: Incident)
    requires Audited(i) && i.row.status != Resolved
    ensures Continues(Replay(i.audit), IncidentEscalated(i.row.level + 1))
  {
  }

  // ---- the state machine object --------------------------------------------

  /** The shared state machine: a status that only moves along the table. */
  class IncidentStateMachine {
    var currentStatus: Status

    constructor (initialStatus: Status)
      ensures currentStatus == initialStatus
    {
      currentStatus := initialStatus;
    }

    method Transition(to: Status) returns (moved: bool)
      modifies this
      ensures moved <==> IsValidTransition(old(currentStatus), to)
      ensures currentStatus == if moved then to else old(currentStatus)
      ensures old(currentStatus) == Resolved ==> !moved
    {
      if !IsValidTransition(currentStatus, to) {
        return false;
      }
      currentStatus := to;
      return true;
    }
  }
}
