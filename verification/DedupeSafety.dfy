/** What every interleaving keeps: one incident per fingerprint, links and cached ids of
    the right fingerprint, and counters that never run ahead of the links. */
module DedupeSafety {
  import opened DedupeModel

  /** At most one incident per fingerprint. */
  ghost predicate UniqueKeys(t: Tables) {
    forall i, j, f :: HasKey(t, i, f) && HasKey(t, j, f) ==> i == j
  }

  /** Every cached id is the incident of its fingerprint. */
  ghost predicate CacheSound(t: Tables) {
    forall f :: f in t.cache ==> HasKey(t, t.cache[f], f)
  }

  /** `l` joins a stored event to the incident of that event's fingerprint. */
  ghost predicate LinkSound(t: Tables, l: (nat, nat)) {
    && l.1 in t.published && l.1 in t.events
    && HasKey(t, l.0, t.published[l.1])
  }

  ghost predicate LinksSound(t: Tables) {
    forall l :: l in t.links ==> LinkSound(t, l)
  }

  ghost predicate EventsSound(t: Tables) {
    forall e :: e in t.events ==> e in t.published && t.events[e] == t.published[e]
  }

  ghost predicate TablesSound(t: Tables) {
    UniqueKeys(t) && CacheSound(t) && LinksSound(t) && EventsSound(t)
  }

  predicate HoldsId(pc: Pc) {
    pc.Link? || pc.Count? || pc.Refresh? || pc.Returned?
  }

  /** The id in a worker's hand belongs to its fingerprint; past the first statement its
      event is stored, and between link and count the link is there. */
  ghost predicate WorkerSound(t: Tables, w: Worker) {
    && w.event in t.published
    && (w.pc.Store? || w.event in t.events)
    && (HoldsId(w.pc) ==> HasKey(t, w.pc.incident, t.published[w.event]))
    && (w.pc.Count? ==> (w.pc.incident, w.event) in t.links)
  }

  ghost predicate WorkersSound(s: System) {
    forall w :: w in s.workers ==> WorkerSound(s.tables, s.workers[w])
  }

  ghost function LinksOf(t: Tables, i: nat): set<(nat, nat)> {
    set l | l in t.links && l.0 == i
  }

  /** Workers that have inserted a link of incident `i` and not yet counted it. */
  ghost function Counting(s: System, i: nat): set<nat> {
    set w | w in s.workers && s.workers[w].pc == Count(i)
  }

  ghost predicate CountsMatch(s: System, i: nat)
    requires i in s.tables.incidents
  {
    s.tables.incidents[i].eventCount + |Counting(s, i)| + s.lost[i] == |LinksOf(s.tables, i)|
  }

  ghost predicate Accounted(s: System) {
    forall i :: i in s.tables.incidents ==> CountsMatch(s, i)
  }

  ghost predicate LostKnown(s: System) {
    forall i :: i in s.lost ==> i in s.tables.incidents
  }

  ghost predicate Safe(s: System) {
    TablesSound(s.tables) && WorkersSound(s) && LostKnown(s) && Accounted(s)
  }

  // ---- steps of a worker ---------------------------------------------------

  /** Tables only gain rows; keys, published fingerprints and links stay. */
  ghost predicate Grows(t: Tables, t': Tables) {
    && t.published.Keys <= t'.published.Keys
    && (forall e :: e in t.published ==> t'.published[e] == t.published[e])
    && t.events.Keys <= t'.events.Keys
    && t.incidents.Keys <= t'.incidents.Keys
    && (forall i :: i in t.incidents ==> t'.incidents[i].dedupeKey == t.incidents[i].dedupeKey)
    && t.links <= t'.links
  }

  lemma WorkerFrame(t: Tables, t': Tables, w: Worker)
    requires Grows(t, t') && WorkerSound(t, w)
    ensures WorkerSound(t', w)
  {
  }

  /** The insert is refused when the key is taken, so keys stay unique. */
  lemma WorkKeepsKeys(t: Tables, w: Worker, a: Answer)
    requires TablesSound(t) && WorkerSound(t, w) && Legal(t, t.published[w.event], w.pc, a)
    ensures UniqueKeys(Worked(t, w.event, t.published[w.event], w.pc, a).0)
  {
    var f := t.published[w.event];
    var t' := Worked(t, w.event, f, w.pc, a).0;
    if w.pc.Create? && a.row.None? {
      assert !Known(t, f);
      forall i, j, k | HasKey(t', i, k) && HasKey(t', j, k) ensures i == j {
        assert i == a.newId || HasKey(t, i, k);
        assert j == a.newId || HasKey(t, j, k);
      }
    } else {
      assert forall i, k :: HasKey(t', i, k) <==> HasKey(t, i, k);
    }
  }

  lemma WorkKeepsTables(t: Tables, w: Worker, a: Answer)
    requires TablesSound(t) && WorkerSound(t, w) && Legal(t, t.published[w.event], w.pc, a)
    ensures var (t', pc') := Worked(t, w.event, t.published[w.event], w.pc, a);
            TablesSound(t') && Grows(t, t') && WorkerSound(t', Worker(w.event, pc'))
  {
    var f := t.published[w.event];
    var (t', pc') := Worked(t, w.event, f, w.pc, a);
    assert Grows(t, t');
    assert UniqueKeys(t') by {
      WorkKeepsKeys(t, w, a);
    }
    forall l | l in t'.links ensures LinkSound(t', l) {
      if l in t.links {
        assert LinkSound(t, l);
      }
    }
  }

  // ---- counters ------------------------------------------------------------

  function InBetween(pc: Pc, i: nat): nat {
    if pc == Count(i) then 1 else 0
  }

  lemma CountingAfter(s: System, w: nat, x: Worker, i: nat)
    requires w in s.workers
    ensures var s' := s.(workers := s.workers[w := x]);
            |Counting(s', i)| == |Counting(s, i)| - InBetween(s.workers[w].pc, i) + InBetween(x.pc, i)
  {
    var before, now := Counting(s, i), Counting(s.(workers := s.workers[w := x]), i);
    if x.pc == Count(i) {
      assert now == before + {w};
    } else {
      assert now == before - {w};
    }
  }

  lemma AddedLink(t: Tables, i: nat, e: nat, j: nat)
    requires (i, e) !in t.links
    ensures |LinksOf(WithLink(t, i, e), j)| == |LinksOf(t, j)| + if i == j then 1 else 0
  {
    var before, now := LinksOf(t, j), LinksOf(WithLink(t, i, e), j);
    assert now == if i == j then before + {(i, e)} else before;
  }

  lemma NoLinks(t: Tables, i: nat)
    requires LinksSound(t) && i !in t.incidents
    ensures LinksOf(t, i) == {}
    ensures forall l :: l in t.links ==> l.0 != i
  {
  }

  lemma NoneCounting(s: System, i: nat)
    requires WorkersSound(s) && i !in s.tables.incidents
    ensures Counting(s, i) == {}
  {
  }

  lemma CreatedLinks(t: Tables, w: Worker, a: Answer, i: nat)
    requires TablesSound(t) && w.event in t.published && a.newId !in t.incidents
    ensures var t' := Opened(t, t.published[w.event], a.newId, w.event);
            |LinksOf(t', i)| == |LinksOf(t, i)| + if i == a.newId then 1 else 0
  {
    var f := t.published[w.event];
    var grown := t.(incidents := t.incidents[a.newId := Incident(f, false, 1)]);
    NoLinks(t, a.newId);
    AddedLink(grown, a.newId, w.event, i);
    assert LinksOf(grown, i) == LinksOf(t, i);
  }

  /** A worker's step moves one unit between link, worker in between, and counter. */
  lemma WorkMovesOne(t: Tables, w: Worker, a: Answer, i: nat)
    requires TablesSound(t) && WorkerSound(t, w) && Legal(t, t.published[w.event], w.pc, a)
    requires i in t.incidents
    ensures var (t', pc') := Worked(t, w.event, t.published[w.event], w.pc, a);
            && i in t'.incidents
            && |LinksOf(t', i)| - t'.incidents[i].eventCount - InBetween(pc', i)
               == |LinksOf(t, i)| - t.incidents[i].eventCount - InBetween(w.pc, i)
  {
    var t' := Worked(t, w.event, t.published[w.event], w.pc, a).0;
    if w.pc.Link? && (w.pc.incident, w.event) !in t.links {
      AddedLink(t, w.pc.incident, w.event, i);
    } else if w.pc.Create? && a.row.None? {
      CreatedLinks(t, w, a, i);
    } else {
      assert LinksOf(t', i) == LinksOf(t, i);
    }
  }

  lemma WorkCounts(s: System, w: nat, a: Answer, i: nat)
    requires Safe(s) && Enabled(s, Work(w, a))
    requires i in Next(s, Work(w, a)).tables.incidents
    ensures CountsMatch(Next(s, Work(w, a)), i)
  {
    hide Legal, TablesSound, WorkersSound;
    var t := s.tables;
    var worker := s.workers[w];
    var (t', pc') := Worked(t, worker.event, t.published[worker.event], worker.pc, a);
    var mid := s.(workers := s.workers[w := Worker(worker.event, pc')]);
    var s' := Next(s, Work(w, a));
    CountingAfter(s, w, Worker(worker.event, pc'), i);
    assert Counting(s', i) == Counting(mid, i);
    if i in t.incidents {
      assert CountsMatch(s, i);
      WorkMovesOne(t, worker, a, i) by {
        WorkerIsSound(s, w);
      }
    } else {
      assert worker.pc.Create? && i == a.newId;
      NoneCounting(s, i);
      WorkerIsSound(s, w);
      CreatedLinks(t, worker, a, i);
      NoLinks(t, i) by { TablesAreSound(s); }
    }
  }

  lemma WorkerIsSound(s: System, w: nat)
    requires WorkersSound(s) && w in s.workers
    ensures WorkerSound(s.tables, s.workers[w])
  {
  }

  lemma TablesAreSound(s: System)
    requires TablesSound(s.tables)
    ensures LinksSound(s.tables)
  {
  }

  lemma WorkKeepsSafe(s: System, w: nat, a: Answer)
    requires Safe(s) && Enabled(s, Work(w, a))
    ensures Safe(Next(s, Work(w, a)))
  {
    var s' := Next(s, Work(w, a));
    var worker := s.workers[w];
    assert WorkerSound(s.tables, worker);
    WorkKeepsTables(s.tables, worker, a);
    forall x | x in s'.workers ensures WorkerSound(s'.tables, s'.workers[x]) {
      if x != w {
        assert WorkerSound(s.tables, s.workers[x]);
        WorkerFrame(s.tables, s'.tables, s.workers[x]);
      }
    }
    forall i | i in s'.tables.incidents ensures CountsMatch(s', i) {
      WorkCounts(s, w, a, i);
    }
  }

  // ---- the other steps -----------------------------------------------------

  /** Steps that touch neither links nor counters nor the workers in between. */
  lemma CountsFrame(s: System, s': System)
    requires Accounted(s) && s'.tables.incidents.Keys == s.tables.incidents.Keys
    requires forall i :: i in s.tables.incidents ==>
               s'.tables.incidents[i].eventCount == s.tables.incidents[i].eventCount
    requires s'.tables.links == s.tables.links && s'.lost == s.lost
    requires forall w :: w in s'.workers && s'.workers[w].pc.Count? ==> w in s.workers && s.workers[w] == s'.workers[w]
    requires forall w :: w in s.workers && s.workers[w].pc.Count? ==> w in s'.workers && s.workers[w] == s'.workers[w]
    ensures Accounted(s')
  {
    forall i | i in s'.tables.incidents ensures CountsMatch(s', i) {
      assert CountsMatch(s, i);
      assert Counting(s', i) == Counting(s, i);
      assert LinksOf(s'.tables, i) == LinksOf(s.tables, i);
    }
  }

  lemma CrashKeepsAccounts(s: System, w: nat)
    requires Safe(s) && w in s.workers
    ensures Accounted(Next(s, Crash(w)))
  {
    var s' := Next(s, Crash(w));
    var pc := s.workers[w].pc;
    forall i | i in s'.tables.incidents ensures CountsMatch(s', i) {
      assert CountsMatch(s, i);
      assert Counting(s', i) == Counting(s, i) - {w};
      assert w in Counting(s, i) <==> pc == Count(i);
    }
  }

  lemma ResolvedFrame(t: Tables, i: nat, resolved: bool)
    requires TablesSound(t) && i in t.incidents
    ensures TablesSound(WithResolved(t, i, resolved)) && Grows(t, WithResolved(t, i, resolved))
  {
    var t' := WithResolved(t, i, resolved);
    assert forall j, f :: HasKey(t', j, f) <==> HasKey(t, j, f);
    forall l | l in t'.links ensures LinkSound(t', l) {
      assert LinkSound(t, l);
    }
  }

  lemma PublishKeepsTables(t: Tables, e: nat, f: nat, stored: bool)
    requires TablesSound(t) && e !in t.published
    ensures var t' := t.(published := t.published[e := f], events := if stored then t.events[e := f] else t.events);
            TablesSound(t') && Grows(t, t')
  {
    var t' := t.(published := t.published[e := f], events := if stored then t.events[e := f] else t.events);
    assert forall j, k :: HasKey(t', j, k) <==> HasKey(t, j, k);
    forall l | l in t'.links ensures LinkSound(t', l) {
      assert LinkSound(t, l);
    }
  }

  lemma StepKeepsTables(s: System, step: Step)
    requires Safe(s) && Enabled(s, step) && !step.Work?
    ensures TablesSound(Next(s, step).tables) && Grows(s.tables, Next(s, step).tables)
  {
    match step
    case Publish(e, f, stored) => PublishKeepsTables(s.tables, e, f, stored);
    case Resolve(i) => ResolvedFrame(s.tables, i, true);
    case Reopen(i) => ResolvedFrame(s.tables, i, false);
    case Forget(f) =>
      var t' := Next(s, step).tables;
      assert forall j, k :: HasKey(t', j, k) <==> HasKey(s.tables, j, k);
      forall l | l in t'.links ensures LinkSound(t', l) {
        assert LinkSound(s.tables, l);
      }
    case _ =>
  }

  lemma StepKeepsSafe(s: System, step: Step)
    requires Safe(s) && Enabled(s, step)
    ensures Safe(Next(s, step))
  {
    if step.Work? {
      WorkKeepsSafe(s, step.worker, step.answer);
    } else {
      var s' := Next(s, step);
      StepKeepsTables(s, step);
      forall x | x in s'.workers ensures WorkerSound(s'.tables, s'.workers[x]) {
        if x in s.workers {
          assert WorkerSound(s.tables, s.workers[x]);
          WorkerFrame(s.tables, s'.tables, s.workers[x]);
        }
      }
      if step.Crash? {
        CrashKeepsAccounts(s, step.worker);
      } else {
        CountsFrame(s, s');
      }
    }
  }

  lemma {:induction false} RunKeepsSafe(s: System, steps: seq<Step>)
    requires Safe(s) && Runnable(s, steps)
    ensures Safe(After(s, steps))
    decreases |steps|
  {
    if steps != [] {
      StepKeepsSafe(s, steps[0]);
      RunKeepsSafe(Next(s, steps[0]), steps[1..]);
    }
  }
}
