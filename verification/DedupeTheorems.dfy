/** Deduplication over every interleaving of workers, crashes, redeliveries, cache losses
    and resolve or reopen actions. */
module DedupeTheorems {
  import opened Options
  import opened DedupeModel
  import opened DedupeSafety

  lemma EmptyIsSafe()
    ensures Safe(EMPTY_SYSTEM)
  {
  }

  lemma SingleIncident(t: Tables, e: nat, i: nat, j: nat)
    requires TablesSound(t) && (i, e) in t.links && (j, e) in t.links
    ensures i == j
  {
  }

  /** In every reachable state: one incident per fingerprint; cached ids, and the ids in
      the hands of workers, are the incident of that fingerprint; every link joins an
      event to the incident of its own fingerprint, so an event has at most one; and the
      counter of an incident is its number of links less the updates still outstanding
      or lost in a crash. */
  lemma EveryRunIsSafe(steps: seq<Step>)
    requires Runnable(EMPTY_SYSTEM, steps)
    ensures var s := After(EMPTY_SYSTEM, steps);
            var t := s.tables;
            && (forall i, j :: i in t.incidents && j in t.incidents && i != j ==>
                  t.incidents[i].dedupeKey != t.incidents[j].dedupeKey)
            && (forall f :: f in t.cache ==> HasKey(t, t.cache[f], f))
            && (forall w :: w in s.workers && HoldsId(s.workers[w].pc) ==>
                  && s.workers[w].event in t.published
                  && HasKey(t, s.workers[w].pc.incident, t.published[s.workers[w].event]))
            && (forall l :: l in t.links ==> l.1 in t.published && HasKey(t, l.0, t.published[l.1]))
            && (forall i, j, e :: (i, e) in t.links && (j, e) in t.links ==> i == j)
            && (forall i :: i in t.incidents ==>
                  t.incidents[i].eventCount + |Counting(s, i)| + s.lost[i] == |LinksOf(t, i)|)
  {
    EmptyIsSafe();
    RunKeepsSafe(EMPTY_SYSTEM, steps);
    var s := After(EMPTY_SYSTEM, steps);
    var t := s.tables;
    forall i, j | i in t.incidents && j in t.incidents && i != j
      ensures t.incidents[i].dedupeKey != t.incidents[j].dedupeKey
    {
      assert HasKey(t, i, t.incidents[i].dedupeKey) && HasKey(t, j, t.incidents[j].dedupeKey);
    }
    forall w | w in s.workers && HoldsId(s.workers[w].pc)
      ensures s.workers[w].event in t.published
      ensures HasKey(t, s.workers[w].pc.incident, t.published[s.workers[w].event])
    {
      assert WorkerSound(t, s.workers[w]);
    }
    forall l | l in t.links ensures l.1 in t.published && HasKey(t, l.0, t.published[l.1]) {
      assert LinkSound(t, l);
    }
    forall i, j, e | (i, e) in t.links && (j, e) in t.links ensures i == j {
      SingleIncident(t, e, i, j);
    }
    forall i | i in t.incidents
      ensures t.incidents[i].eventCount + |Counting(s, i)| + s.lost[i] == |LinksOf(t, i)|
    {
      assert CountsMatch(s, i);
    }
  }

  /** When no worker stands between link and count and none ever crashed there, every
      counter is exactly the number of linked events. */
  lemma QuiescentCounters(steps: seq<Step>, i: nat)
    requires Runnable(EMPTY_SYSTEM, steps) && i in After(EMPTY_SYSTEM, steps).tables.incidents
    ensures var s := After(EMPTY_SYSTEM, steps);
            && s.tables.incidents[i].eventCount <= |LinksOf(s.tables, i)|
            && (s.tables.incidents[i].eventCount == |LinksOf(s.tables, i)| <==>
                i !in s.lost && forall w :: w in s.workers ==> s.workers[w].pc != Count(i))
  {
    EveryRunIsSafe(steps);
    var s := After(EMPTY_SYSTEM, steps);
    if |Counting(s, i)| == 0 {
      assert forall w :: w in s.workers && s.workers[w].pc == Count(i) ==> w in Counting(s, i);
    } else {
      var w :| w in Counting(s, i);
    }
  }

  /** A worker is never stuck: some answer is possible at every step, the row it links to
      exists (both foreign keys hold), and the transaction that opens an incident cannot
      violate the uniqueness of links. */
  lemma WorkersNeverFail(s: System, w: nat, unused: nat) returns (a: Answer)
    requires Safe(s) && w in s.workers && !s.workers[w].pc.Returned? && unused !in s.tables.incidents
    ensures Enabled(s, Work(w, a))
    ensures s.workers[w].pc.Link? ==>
              s.workers[w].pc.incident in s.tables.incidents && s.workers[w].event in s.tables.events
    ensures s.workers[w].pc.Count? ==> s.workers[w].pc.incident in s.tables.incidents
    ensures s.workers[w].pc.Create? && a.row.None? ==>
              (a.newId, s.workers[w].event) !in s.tables.links && s.workers[w].event in s.tables.events
  {
    var t := s.tables;
    assert WorkerSound(t, s.workers[w]);
    var f := t.published[s.workers[w].event];
    NoLinks(t, unused);
    a := Answer(true, None, unused);
    match s.workers[w].pc
    case FindOpen =>
      if AnyOpen(t, f) {
        var i :| OpenFor(t, i, f);
        a := a.(row := Some(i));
      }
    case Create =>
      if Known(t, f) {
        var i :| HasKey(t, i, f);
        a := a.(row := Some(i));
      }
    case _ =>
  }

  lemma StepGrows(s: System, step: Step)
    requires Safe(s) && Enabled(s, step)
    ensures Grows(s.tables, Next(s, step).tables)
  {
    if step.Work? {
      assert WorkerSound(s.tables, s.workers[step.worker]);
      WorkKeepsTables(s.tables, s.workers[step.worker], step.answer);
    } else {
      StepKeepsTables(s, step);
    }
  }

  /** Links, incidents and stored events are never lost, whatever happens in between. */
  lemma {:induction false} RunGrows(s: System, steps: seq<Step>)
    requires Safe(s) && Runnable(s, steps)
    ensures Grows(s.tables, After(s, steps).tables)
    decreases |steps|
  {
    if steps != [] {
      StepKeepsSafe(s, steps[0]);
      StepGrows(s, steps[0]);
      RunGrows(Next(s, steps[0]), steps[1..]);
    }
  }

  /** A resolved incident is open for no fingerprint, and reopening it brings back exactly
      the system as it was. */
  lemma ReopenUndoesResolve(s: System, i: nat)
    requires Enabled(s, Resolve(i))
    ensures var resolved := Next(s, Resolve(i));
            && (forall f :: !OpenFor(resolved.tables, i, f))
            && Enabled(resolved, Reopen(i)) && Next(resolved, Reopen(i)) == s
  {
    var reopened := Next(Next(s, Resolve(i)), Reopen(i));
    assert reopened.tables.incidents == s.tables.incidents;
  }
}
