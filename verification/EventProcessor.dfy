/** One call of the event processor run without interruption, and what a second call for
    the same event does. */
module EventProcessor {
  import opened Options
  import opened DedupeModel
  import opened DedupeSafety
  import opened DedupeTheorems

  /** The cache calls of one run: did the read and the write go through. */
  datatype CacheLink = CacheLink(readUp: bool, writeUp: bool)

  ghost predicate Ready(t: Tables, e: nat, newId: nat) {
    TablesSound(t) && e in t.published && newId !in t.incidents
  }

  predicate Hit(t: Tables, f: nat, net: CacheLink) {
    net.readUp && f in t.cache
  }

  /** The incident of fingerprint `f`; there is at most one. */
  ghost function IncidentOf(t: Tables, f: nat): (i: nat)
    requires Known(t, f)
    ensures HasKey(t, i, f)
  {
    var i :| HasKey(t, i, f); i
  }

  /** The event gets past the cache and the query to an incident it will be linked to. */
  ghost predicate Reaches(t: Tables, f: nat, net: CacheLink) {
    Hit(t, f, net) || AnyOpen(t, f)
  }

  /** The run finds neither a cache entry nor an open incident, but its insert meets the
      key of a resolved one. */
  ghost predicate MeetsResolved(t: Tables, f: nat, net: CacheLink) {
    !Reaches(t, f, net) && Known(t, f)
  }

  ghost function Linked(t: Tables, i: nat, e: nat): Tables {
    if (i, e) in t.links then t else Counted(WithLink(t, i, e), i)
  }

  ghost function Refreshed(t: Tables, f: nat, i: nat, net: CacheLink): Tables {
    if net.writeUp then Cached(t, f, i) else t
  }

  function StepsLeft(pc: Pc): nat {
    match pc
    case Store => 6
    case ReadCache => 5
    case FindOpen => 4
    case Link(_) => 3
    case Count(_) => 2
    case Create => 2
    case Refresh(_) => 1
    case Returned(_) => 0
  }

  /** The tables when a worker that stands at `pc` continues alone to the end. */
  ghost function Rest(t: Tables, e: nat, f: nat, pc: Pc, net: CacheLink, newId: nat): Tables
    decreases StepsLeft(pc)
  {
    match pc
    case Store =>
      Rest(if e in t.events then t else t.(events := t.events[e := f]), e, f, ReadCache, net, newId)
    case ReadCache =>
      Rest(t, e, f, if Hit(t, f, net) then Link(t.cache[f]) else FindOpen, net, newId)
    case FindOpen =>
      Rest(t, e, f, if AnyOpen(t, f) then Link(IncidentOf(t, f)) else Create, net, newId)
    case Link(i) => Refreshed(Linked(t, i, e), f, i, net)
    case Count(i) => Refreshed(Counted(t, i), f, i, net)
    case Create =>
      if Known(t, f) then Refreshed(t, f, IncidentOf(t, f), net)
      else Refreshed(Opened(t, f, newId, e), f, newId, net)
    case Refresh(i) => Refreshed(t, f, i, net)
    case Returned(_) => t
  }

  /** What one uninterrupted call does to the tables. */
  ghost function Processed(t: Tables, e: nat, net: CacheLink, newId: nat): Tables
    requires e in t.published
  {
    Rest(t, e, t.published[e], Store, net, newId)
  }

  /** `a` answers the step at `pc` the way `net` and `newId` say. */
  predicate Matches(a: Answer, pc: Pc, net: CacheLink, newId: nat) {
    && (pc.ReadCache? ==> a.cacheUp == net.readUp)
    && (pc.Refresh? ==> a.cacheUp == net.writeUp)
    && a.newId == newId
  }

  /** Every step a worker takes alone leads towards the same final tables: the step
      machine run without interleaving is the uninterrupted call. */
  lemma StepsReachProcessed(t: Tables, w: Worker, a: Answer, net: CacheLink)
    requires TablesSound(t) && WorkerSound(t, w) && !w.pc.Returned?
    requires Legal(t, t.published[w.event], w.pc, a) && Matches(a, w.pc, net, a.newId)
    ensures var f := t.published[w.event];
            var (t', pc') := Worked(t, w.event, f, w.pc, a);
            Rest(t', w.event, f, pc', net, a.newId) == Rest(t, w.event, f, w.pc, net, a.newId)
  {
    var f := t.published[w.event];
    if w.pc.FindOpen? && AnyOpen(t, f) {
      var i :| OpenFor(t, i, f);
      assert HasKey(t, i, f);
      assert IncidentOf(t, f) == a.row.value;
    }
  }

  /** The answer that continues an uninterrupted call. */
  lemma AnswerFor(t: Tables, f: nat, pc: Pc, net: CacheLink, newId: nat) returns (a: Answer)
    requires HoldsId(pc) || newId !in t.incidents
    ensures Legal(t, f, pc, a) && Matches(a, pc, net, newId)
  {
    a := Answer(if pc.ReadCache? then net.readUp else net.writeUp, None, newId);
    if pc.FindOpen? && AnyOpen(t, f) {
      var i :| OpenFor(t, i, f);
      a := a.(row := Some(i));
    } else if pc.Create? && Known(t, f) {
      a := a.(row := Some(IncidentOf(t, f)));
    }
  }

  lemma {:induction false} RestSound(t: Tables, w: Worker, net: CacheLink, newId: nat)
    requires TablesSound(t) && WorkerSound(t, w)
    requires HoldsId(w.pc) || newId !in t.incidents
    ensures var f := t.published[w.event];
            var t' := Rest(t, w.event, f, w.pc, net, newId);
            TablesSound(t') && Grows(t, t') && w.event in t'.events && Known(t', f)
    decreases StepsLeft(w.pc)
  {
    hide Rest, TablesSound;
    var f := t.published[w.event];
    if w.pc.Returned? {
      RestReturned(t, w.event, f, w.pc, net, newId);
      assert HasKey(t, w.pc.incident, f);
    } else {
      var a := AnswerFor(t, f, w.pc, net, newId);
      var (t', pc') := Worked(t, w.event, f, w.pc, a);
      WorkKeepsTables(t, w, a);
      StepsReachProcessed(t, w, a, net);
      RestSound(t', Worker(w.event, pc'), net, newId);
    }
  }

  lemma RestReturned(t: Tables, e: nat, f: nat, pc: Pc, net: CacheLink, newId: nat)
    requires pc.Returned?
    ensures Rest(t, e, f, pc, net, newId) == t
  {
  }

  /** An uninterrupted call keeps the tables sound; its event is stored afterwards and
      its fingerprint has an incident. */
  lemma ProcessedSound(t: Tables, e: nat, net: CacheLink, newId: nat)
    requires Ready(t, e, newId)
    ensures TablesSound(Processed(t, e, net, newId)) && Grows(t, Processed(t, e, net, newId))
    ensures e in Processed(t, e, net, newId).events && Known(Processed(t, e, net, newId), t.published[e])
  {
    RestSound(t, Worker(e, Store), net, newId);
  }

  /** The durable tables, without the cache. */
  datatype Durable = Durable(events: map<nat, nat>, incidents: map<nat, Incident>, links: set<(nat, nat)>)

  ghost function Saved(t: Tables): Durable {
    Durable(t.events, t.incidents, t.links)
  }

  ghost predicate IsLinked(t: Tables, e: nat) {
    exists i :: (i, e) in t.links
  }

  /** The id a run ends up with, where there is an incident already. */
  ghost function Chosen(t: Tables, f: nat, net: CacheLink): nat
    requires Known(t, f)
  {
    if Hit(t, f, net) then t.cache[f] else IncidentOf(t, f)
  }

  /** A call in four cases, read off the state before it. */
  lemma ProcessedCases(t: Tables, e: nat, net: CacheLink, newId: nat)
    requires Ready(t, e, newId)
    ensures var f := t.published[e];
            var stored := t.(events := t.events[e := f]);
            var t' := Processed(t, e, net, newId);
            && (Reaches(t, f, net) ==>
                  Known(t, f) && t' == Refreshed(Linked(stored, Chosen(t, f, net), e), f, Chosen(t, f, net), net))
            && (MeetsResolved(t, f, net) ==> t' == Refreshed(stored, f, IncidentOf(t, f), net))
            && (!Known(t, f) ==> t' == Refreshed(Opened(stored, f, newId, e), f, newId, net))
  {
    var f := t.published[e];
    var stored := t.(events := t.events[e := f]);
    assert e in t.events ==> stored == t;
    assert forall i :: HasKey(stored, i, f) <==> HasKey(t, i, f);
    assert forall i :: OpenFor(stored, i, f) <==> OpenFor(t, i, f);
    if Hit(t, f, net) {
      assert HasKey(t, t.cache[f], f);
    } else if AnyOpen(t, f) {
      var i :| OpenFor(t, i, f);
      assert HasKey(t, i, f);
      assert IncidentOf(stored, f) == IncidentOf(t, f) by {
        assert HasKey(t, IncidentOf(stored, f), f);
      }
    } else if Known(t, f) {
      assert HasKey(t, IncidentOf(stored, f), f);
    }
  }

  /** A call leaves its event linked exactly if it was linked already or the call did not
      run into a resolved incident behind a cache miss. */
  lemma LinkedAfterwards(t: Tables, e: nat, net: CacheLink, newId: nat)
    requires Ready(t, e, newId)
    ensures IsLinked(Processed(t, e, net, newId), e) <==>
            IsLinked(t, e) || !MeetsResolved(t, t.published[e], net)
  {
    var f := t.published[e];
    var t' := Processed(t, e, net, newId);
    ProcessedCases(t, e, net, newId);
    if Reaches(t, f, net) {
      assert (Chosen(t, f, net), e) in t'.links;
    } else if !Known(t, f) {
      assert (newId, e) in t'.links;
    } else {
      assert t'.links == t.links;
    }
  }

  /** While no incident of its fingerprint is resolved, a processed event is linked, to
      exactly one incident. */
  lemma LinkedExactlyOnce(t: Tables, e: nat, net: CacheLink, newId: nat)
    requires Ready(t, e, newId)
    requires forall i :: HasKey(t, i, t.published[e]) ==> !t.incidents[i].resolved
    ensures exists i :: (i, e) in Processed(t, e, net, newId).links &&
              forall j :: (j, e) in Processed(t, e, net, newId).links ==> j == i
  {
    var f := t.published[e];
    assert !MeetsResolved(t, f, net) by {
      if Known(t, f) {
        assert OpenFor(t, IncidentOf(t, f), f);
      }
    }
    LinkedAfterwards(t, e, net, newId);
    ProcessedSound(t, e, net, newId);
    var t' := Processed(t, e, net, newId);
    var i :| (i, e) in t'.links;
    forall j | (j, e) in t'.links ensures j == i {
      SingleIncident(t', e, i, j);
    }
  }

  /** Redelivery. A call for an event that is already stored changes the durable tables
      unless the event is linked, or the incident of its fingerprint is resolved and the
      cache does not answer: exactly in those two cases it is a no-op. */
  lemma RedeliveryIsNoOpIff(t: Tables, e: nat, net: CacheLink, newId: nat)
    requires Ready(t, e, newId) && e in t.events
    ensures Saved(Processed(t, e, net, newId)) == Saved(t) <==>
            IsLinked(t, e) || MeetsResolved(t, t.published[e], net)
  {
  }

  /** Once a call has linked its event, every later delivery is a no-op, whatever runs,
      crashes, resolves, reopens or cache losses lie between. */
  lemma LinkedEventsAreSettled(s: System, steps: seq<Step>, e: nat, net: CacheLink, newId: nat)
    requires Safe(s) && Runnable(s, steps)
    requires e in s.tables.published && IsLinked(s.tables, e)
    requires newId !in After(s, steps).tables.incidents
    ensures var t := After(s, steps).tables;
            e in t.published && Saved(Processed(t, e, net, newId)) == Saved(t)
  {
    RunGrows(s, steps);
    RunKeepsSafe(s, steps);
    var t := After(s, steps).tables;
    var i :| (i, e) in s.tables.links;
    assert (i, e) in t.links;
    assert LinkSound(t, (i, e));
    RedeliveryIsNoOpIff(t, e, net, newId);
  }

  /** The claim without a condition fails: an incident is resolved and its cache entry
      gone when the event first arrives. The first call links nothing but puts the
      resolved incident back into the cache, and the second call then links the event
      and raises the counter. */
  lemma SecondDeliveryCanChangeCounters()
    ensures var t := Tables(map[7 := 1, 8 := 1], map[7 := 1, 8 := 1], map[5 := Incident(1, true, 1)], {(5, 7)}, map[]);
            var up := CacheLink(true, true);
            && Ready(t, 8, 9)
            && var once := Processed(t, 8, up, 9);
            && Saved(once) == Saved(t)
            && 8 in once.published && Ready(once, 8, 9)
            && var twice := Processed(once, 8, up, 9);
            && twice.incidents == map[5 := Incident(1, true, 2)]
            && twice.links == {(5, 7), (5, 8)}
  {
    var t := Tables(map[7 := 1, 8 := 1], map[7 := 1, 8 := 1], map[5 := Incident(1, true, 1)], {(5, 7)}, map[]);
    var up := CacheLink(true, true);
    assert HasKey(t, 5, 1);
    assert Ready(t, 8, 9);
    ProcessedCases(t, 8, up, 9);
    ProcessedSound(t, 8, up, 9);
    var once := Processed(t, 8, up, 9);
    assert IncidentOf(t, 1) == 5;
    assert t.events[8 := 1] == t.events;
    assert once == t.(cache := map[1 := 5]);
    ProcessedCases(once, 8, up, 9);
  }
}
