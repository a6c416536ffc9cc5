/** The API's incident operations and the escalation worker's poll, on one table updated
    in place. */
module IncidentDesk {
  import opened Options
  import opened Lifecycle
  import opened Escalation

  /** The table when exactly the incidents `ids` have been raised. */
  function RaisedAll(db: Table, ids: seq<nat>, now: int): Table {
    map id | id in db :: if id in ids then Raised(db[id], now) else db[id]
  }

  ghost function DueIn(db: Table, batch: seq<nat>, now: int): set<nat> {
    set id | id in batch && id in db && IsDue(db[id], now)
  }

  /** `due` names exactly the due rows of the batch, each once. */
  ghost predicate DueOnce(db: Table, batch: seq<nat>, due: seq<nat>, now: int) {
    NoRepeats(due) && forall id :: id in due <==> id in DueIn(db, batch, now)
  }

  lemma RaisedAllDue(db: Table, batch: seq<nat>, due: seq<nat>, now: int)
    requires DueOnce(db, batch, due, now)
    ensures RaisedAll(db, due, now) == Polled(db, batch, now)
    ensures |due| == |DueIn(db, batch, now)|
  {
    ElementsOf(due);
    assert Elements(due) == DueIn(db, batch, now);
  }

  /** The k-th due incident is still as the query returned it when its turn comes. */
  lemma NextInLine(db: Table, batch: seq<nat>, due: seq<nat>, k: nat, now: int)
    requires IsBatch(db, batch) && DueOnce(db, batch, due, now) && k < |due|
    ensures var id := due[k];
            var now' := RaisedAll(db, due[..k], now);
            && id in now' && now'[id] == db[id] && id in db
            && db[id].row.status != Resolved && IsDue(db[id], now)
            && RaisedAll(db, due[..k + 1], now) == now'[id := Raised(db[id], now)]
  {
    assert due[k] in DueIn(db, batch, now);
    assert due[k] in Candidates(db);
    assert due[k] !in due[..k];
    assert due[..k + 1] == due[..k] + [due[k]];
  }

  lemma NoneRaised(db: Table, due: seq<nat>, now: int)
    ensures RaisedAll(db, due[..0], now) == db
  {
  }

  lemma RaiseSoundIfDue(i: Incident, now: int)
    ensures Sound(i) && i.row.status != Resolved && IsDue(i, now) ==> Sound(Raised(i, now))
  {
    if Sound(i) && i.row.status != Resolved && IsDue(i, now) {
      DueMeansReached(i, now);
      RaisedSound(i, now);
    }
  }

  class IncidentDesk {
    var incidents: map<nat, Incident>

    ghost predicate Valid()
      reads this
    {
      AllSound(incidents)
    }

    constructor ()
      ensures Valid() && incidents == map[]
    {
      incidents := map[];
    }

    method CreateIncident(id: nat, severity: Severity, now: int, policy: seq<PolicyStep>)
      requires Valid() && id !in incidents
      modifies this
      ensures Valid() && incidents == Next(old(incidents), Create(id, severity, now, policy))
    {
      CreatedSound(severity, now, policy);
      incidents := incidents[id := Created(severity, now, policy)];
    }

    /** Refuses resolved or unknown incidents first, then transitions outside the table. */
    method UpdateIncidentStatus(id: nat, to: Status, now: int) returns (outcome: Outcome)
      requires Valid()
      modifies this
      ensures Valid() && incidents == Next(old(incidents), UpdateStatus(id, to, now))
      ensures outcome == NotFound <==> id !in old(incidents) || old(incidents)[id].row.status == Resolved
      ensures outcome == Done <==>
                && id in old(incidents) && old(incidents)[id].row.status != Resolved
                && IsValidTransition(old(incidents)[id].row.status, to)
    {
      if id !in incidents || incidents[id].row.status == Resolved {
        if id in incidents {
          assert incidents[id := incidents[id]] == incidents;
        }
        return NotFound;
      }
      var incident := incidents[id];
      StatusUpdatedSound(incident, to, now);
      if !IsValidTransition(incident.row.status, to) {
        assert incidents[id := incident] == incidents;
        return Conflict;
      }
      var row := incident.row.(status := to);
      if to == Acknowledged {
        row := row.(acknowledgedAt := Coalesce(incident.row.acknowledgedAt, now));
      }
      if to == Resolved {
        row := row.(resolvedAt := Some(now));
      }
      var audit := incident.audit + [StatusChanged(incident.row.status, to)];
      if to == Resolved {
        audit := audit + [IncidentResolved];
      }
      incidents := incidents[id := incident.(row := row, audit := audit)];
      return Done;
    }

    method ChangeSeverity(id: nat, severity: Severity) returns (outcome: Outcome)
      requires Valid()
      modifies this
      ensures Valid() && incidents == Next(old(incidents), Escalation.ChangeSeverity(id, severity))
      ensures outcome == if id in old(incidents) then Done else NotFound
    {
      if id !in incidents {
        return NotFound;
      }
      var incident := incidents[id];
      SeverityUpdatedSound(incident, severity);
      incidents := incidents[id := incident.(
        row := incident.row.(severity := severity, priority := SeverityToPriority(severity)),
        audit := incident.audit + [SeverityChanged(incident.row.severity, severity)])];
      return Done;
    }

    method ReopenIncident(id: nat) returns (outcome: Outcome)
      requires Valid()
      modifies this
      ensures Valid() && incidents == Next(old(incidents), Reopen(id))
      ensures outcome == NotFound <==> id !in old(incidents)
      ensures outcome == Done <==> id in old(incidents) && old(incidents)[id].row.status == Resolved
    {
      if id !in incidents {
        return NotFound;
      }
      var incident := incidents[id];
      ReopenedSound(incident);
      if incident.row.status != Resolved {
        assert incidents[id := incident] == incidents;
        return Conflict;
      }
      incidents := incidents[id := incident.(
        row := incident.row.(status := Open, resolvedAt := None),
        audit := incident.audit + [Reopened(Resolved, Open)])];
      return Done;
    }

    /** The rows of the batch whose next step's summed delays have elapsed, in order. */
    method FindDueIncidents(batch: seq<nat>, now: int) returns (due: seq<nat>)
      requires IsBatch(incidents, batch)
      ensures DueOnce(incidents, batch, due, now)
    {
      due := [];
      var k := 0;
      while k < |batch|
        invariant k <= |batch|
        invariant NoRepeats(due)
        invariant forall id :: id in due <==> id in batch[..k] && id in incidents && IsDue(incidents[id], now)
      {
        assert batch[k] in Candidates(incidents);
        assert batch[k] !in batch[..k];
        assert batch[..k + 1] == batch[..k] + [batch[k]];
        var incident := incidents[batch[k]];
        var delay := DelayForNextStep(incident);
        if delay.Some? && incident.row.createdAt + delay.value * MS_PER_MINUTE <= now {
          due := due + [batch[k]];
        }
        k := k + 1;
      }
      assert batch[..k] == batch;
    }

    /** One rung for one incident, from the row that the query returned; nothing when its
        policy has no next step. The delay is the query's business, not looked at again. */
    method EscalateOnce(id: nat, now: int) returns (done: bool)
      requires id in incidents
      modifies this
      ensures done <==> HasStep(old(incidents)[id].policy, old(incidents)[id].row.level + 1)
      ensures incidents == if done then old(incidents)[id := Raised(old(incidents)[id], now)] else old(incidents)
      ensures old(Valid()) && old(incidents)[id].row.status != Resolved && IsDue(old(incidents)[id], now) ==>
                done && Valid()
    {
      var incident := incidents[id];
      var nextLevel := incident.row.level + 1;
      if FindStep(incident.policy, nextLevel).None? {
        return false;
      }
      RaiseSoundIfDue(incident, now);
      incidents := incidents[id := incident.(
        row := incident.row.(
          level := incident.row.level + 1,
          status := if incident.row.status == Open then Escalated else incident.row.status),
        audit := incident.audit + [IncidentEscalated(nextLevel)],
        executions := incident.executions + [Execution(nextLevel, now)])];
      return true;
    }

    /** One poll cycle: every due incident of the batch goes up exactly one level, nothing
        else changes. */
    method Poll(batch: seq<nat>, now: int) returns (escalated: nat)
      requires Valid() && IsBatch(incidents, batch)
      modifies this
      ensures Valid() && incidents == Polled(old(incidents), batch, now)
      ensures escalated == |DueIn(old(incidents), batch, now)|
    {
      hide *;
      ghost var before := incidents;
      var due := FindDueIncidents(batch, now);
      RaisedAllDue(before, batch, due, now);
      escalated := 0;
      NoneRaised(before, due, now);
      while escalated < |due|
        invariant escalated <= |due|
        invariant Valid() && incidents == RaisedAll(before, due[..escalated], now)
      {
        NextInLine(before, batch, due, escalated, now);
        var done := EscalateOnce(due[escalated], now);
        if done {
          escalated := escalated + 1;
        }
      }
      assert due[..escalated] == due;
    }
  }
}
