/** Workers that run the event processor concurrently over shared tables.

    Each SQL statement outside a transaction, each transaction and each cache call is
    one atomic step; between steps other workers, the API and the cache move freely, a
    worker may crash, and the bus may deliver the same event again. Identifiers and
    fingerprints are uninterpreted numbers.
 */
module DedupeModel {
  import opened Options

  /** The columns of an incident row that deduplication reads or writes. */
  datatype Incident = Incident(dedupeKey: nat, resolved: bool, eventCount: int)

  /** `published` is the environment's record of every message ever put on the bus: the
      fingerprint is computed once per event, so all its deliveries carry the same. */
  datatype Tables = Tables(
    published: map<nat, nat>,
    events: map<nat, nat>,
    incidents: map<nat, Incident>,
    links: set<(nat, nat)>,
    cache: map<nat, nat>)

  /** Where a worker stands in processing its event; the argument is the local variable
      that holds an incident id. */
  datatype Pc =
    | Store
    | ReadCache
    | FindOpen
    | Link(incident: nat)
    | Count(incident: nat)
    | Create
    | Refresh(incident: nat)
    | Returned(incident: nat)

  datatype Worker = Worker(event: nat, pc: Pc)

  /** `lost` counts, per incident, the crashes between link insert and count update. */
  datatype System = System(tables: Tables, workers: map<nat, Worker>, lost: multiset<nat>)

  const EMPTY_SYSTEM := System(Tables(map[], map[], map[], {}, map[]), map[], multiset{})

  /** What the world answers to one step: whether the cache call went through, which row
      a query returned, and which identifier was generated. */
  datatype Answer = Answer(cacheUp: bool, row: Option<nat>, newId: nat)

  predicate HasKey(t: Tables, i: nat, f: nat) {
    i in t.incidents && t.incidents[i].dedupeKey == f
  }

  predicate OpenFor(t: Tables, i: nat, f: nat) {
    HasKey(t, i, f) && !t.incidents[i].resolved
  }

  ghost predicate Known(t: Tables, f: nat) {
    exists i :: HasKey(t, i, f)
  }

  ghost predicate AnyOpen(t: Tables, f: nat) {
    exists i :: OpenFor(t, i, f)
  }

  /** The answers a worker at `pc` can get. */
  ghost predicate Legal(t: Tables, f: nat, pc: Pc, a: Answer) {
    match pc
    case FindOpen =>
      if AnyOpen(t, f) then a.row.Some? && OpenFor(t, a.row.value, f) else a.row.None?
    case Create =>
      if Known(t, f) then a.row.Some? && HasKey(t, a.row.value, f) else a.row.None? && a.newId !in t.incidents
    case _ => true
  }

  /** The unique constraint on (incident_id, event_id) decides whether a row goes in. */
  function WithLink(t: Tables, i: nat, e: nat): Tables {
    t.(links := t.links + {(i, e)})
  }

  function Counted(t: Tables, i: nat): Tables {
    if i in t.incidents then
      t.(incidents := t.incidents[i := t.incidents[i].(eventCount := t.incidents[i].eventCount + 1)])
    else t
  }

  function Cached(t: Tables, f: nat, i: nat): Tables {
    t.(cache := t.cache[f := i])
  }

  function Opened(t: Tables, f: nat, i: nat, e: nat): Tables {
    WithLink(t.(incidents := t.incidents[i := Incident(f, false, 1)]), i, e)
  }

  /** One step of a worker that processes event `e` with fingerprint `f`. */
  function Worked(t: Tables, e: nat, f: nat, pc: Pc, a: Answer): (Tables, Pc) {
    match pc
    case Store =>
      (if e in t.events then t else t.(events := t.events[e := f]), ReadCache)
    case ReadCache =>
      (t, if a.cacheUp && f in t.cache then Link(t.cache[f]) else FindOpen)
    case FindOpen =>
      (t, if a.row.Some? then Link(a.row.value) else Create)
    case Link(i) =>
      if (i, e) in t.links then (t, Refresh(i)) else (WithLink(t, i, e), Count(i))
    case Count(i) =>
      (Counted(t, i), Refresh(i))
    case Create =>
      if a.row.Some? then (t, Refresh(a.row.value))
      else (Opened(t, f, a.newId, e), Refresh(a.newId))
    case Refresh(i) =>
      (if a.cacheUp then Cached(t, f, i) else t, Returned(i))
    case Returned(i) => (t, pc)
  }

  datatype Step =
    | Publish(event: nat, fingerprint: nat, stored: bool)
    | Deliver(worker: nat, event: nat)
    | Work(worker: nat, answer: Answer)
    | Crash(worker: nat)
    | Finish(worker: nat)
    | Resolve(incident: nat)
    | Reopen(incident: nat)
    | Forget(fingerprint: nat)

  ghost predicate Enabled(s: System, step: Step) {
    match step
    case Publish(e, _, _) => e !in s.tables.published
    case Deliver(w, e) => w !in s.workers && e in s.tables.published
    case Work(w, a) =>
      && w in s.workers && s.workers[w].event in s.tables.published
      && !s.workers[w].pc.Returned?
      && Legal(s.tables, s.tables.published[s.workers[w].event], s.workers[w].pc, a)
    case Crash(w) => w in s.workers
    case Finish(w) => w in s.workers && s.workers[w].pc.Returned?
    case Resolve(i) => i in s.tables.incidents && !s.tables.incidents[i].resolved
    case Reopen(i) => i in s.tables.incidents && s.tables.incidents[i].resolved
    case Forget(_) => true
  }

  function WithResolved(t: Tables, i: nat, resolved: bool): Tables
    requires i in t.incidents
  {
    t.(incidents := t.incidents[i := t.incidents[i].(resolved := resolved)])
  }

  ghost function Next(s: System, step: Step): System
    requires Enabled(s, step)
  {
    var t := s.tables;
    match step
    case Publish(e, f, stored) =>
      s.(tables := t.(published := t.published[e := f], events := if stored then t.events[e := f] else t.events))
    case Deliver(w, e) => s.(workers := s.workers[w := Worker(e, Store)])
    case Work(w, a) =>
      var e := s.workers[w].event;
      var (t', pc') := Worked(t, e, t.published[e], s.workers[w].pc, a);
      s.(tables := t', workers := s.workers[w := Worker(e, pc')])
    case Crash(w) =>
      System(t, s.workers - {w}, if s.workers[w].pc.Count? then s.lost + multiset{s.workers[w].pc.incident} else s.lost)
    case Finish(w) => s.(workers := s.workers - {w})
    case Resolve(i) => s.(tables := WithResolved(t, i, true))
    case Reopen(i) => s.(tables := WithResolved(t, i, false))
    case Forget(f) => s.(tables := t.(cache := t.cache - {f}))
  }

  ghost predicate Runnable(s: System, steps: seq<Step>)
    decreases |steps|
  {
    steps != [] ==> Enabled(s, steps[0]) && Runnable(Next(s, steps[0]), steps[1..])
  }

  ghost function After(s: System, steps: seq<Step>): System
    requires Runnable(s, steps)
    decreases |steps|
  {
    if steps == [] then s else After(Next(s, steps[0]), steps[1..])
  }
}
