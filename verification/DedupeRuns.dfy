/** Runs of the dedupe protocol put together step by step: the delivery of an event that
    nothing interrupts, what an interrupted one leaves linked, and the runs in which the
    protocol falls short. */
module DedupeRuns {
  import opened Options
  import opened DedupeModel
  import opened DedupeSafety
  import opened DedupeTheorems
  import opened EventProcessor

  lemma {:induction false} RunConcat(s: System, xs: seq<Step>, ys: seq<Step>)
    requires Runnable(s, xs) && Runnable(After(s, xs), ys)
    ensures Runnable(s, xs + ys) && After(s, xs + ys) == After(After(s, xs), ys)
    decreases |xs|
  {
    if xs == [] {
      assert xs + ys == ys;
    } else {
      assert (xs + ys)[1..] == xs[1..] + ys;
      RunConcat(Next(s, xs[0]), xs[1..], ys);
    }
  }

  lemma RunOne(s: System, step: Step)
    requires Enabled(s, step)
    ensures Runnable(s, [step]) && After(s, [step]) == Next(s, step)
  {
    assert [step][1..] == [];
  }

  /** One more step at the end of a run. */
  lemma Extend(s: System, steps: seq<Step>, step: Step)
    requires Runnable(s, steps) && Enabled(After(s, steps), step)
    ensures Runnable(s, steps + [step]) && After(s, steps + [step]) == Next(After(s, steps), step)
  {
    RunOne(After(s, steps), step);
    RunConcat(s, steps, [step]);
  }

  // ---- an uninterrupted delivery -----------------------------------------------

  /** `s'` is `s` after worker `w` has gone on alone to its return: the tables are those of
      the uninterrupted call, no other worker has moved. */
  ghost predicate ReturnedAlone(s: System, s': System, w: nat, net: CacheLink, newId: nat) {
    && w in s.workers && s.workers[w].event in s.tables.published
    && var e := s.workers[w].event;
    && s'.tables == Rest(s.tables, e, s.tables.published[e], s.workers[w].pc, net, newId)
    && s'.workers.Keys == s.workers.Keys && s'.workers[w].event == e && s'.workers[w].pc.Returned?
    && s'.lost == s.lost
    && forall x :: x in s.workers && x != w ==> s'.workers[x] == s.workers[x]
  }

  /** From wherever it stands, a worker alone reaches its return, and leaves the tables
      that the uninterrupted call leaves. */
  lemma {:induction false} LoneWorkerReturns(s: System, w: nat, net: CacheLink, newId: nat) returns (steps: seq<Step>)
    requires Safe(s) && w in s.workers && (HoldsId(s.workers[w].pc) || newId !in s.tables.incidents)
    ensures Runnable(s, steps) && forall x :: x in steps ==> x.Work? && x.worker == w
    ensures ReturnedAlone(s, After(s, steps), w, net, newId)
    decreases StepsLeft(s.workers[w].pc)
  {
    hide Rest, TablesSound, LostKnown, Accounted, Legal, Worked;
    var worker := s.workers[w];
    WorkerIsSound(s, w);
    var f := s.tables.published[worker.event];
    if worker.pc.Returned? {
      steps := [];
      RestReturned(s.tables, worker.event, f, worker.pc, net, newId);
    } else {
      var a := AnswerFor(s.tables, f, worker.pc, net, newId);
      var s' := Next(s, Work(w, a));
      WorkKeepsSafe(s, w, a);
      StepsReachProcessed(s.tables, worker, a, net);
      AloneGoesOn(s.tables, worker, a);
      var rest := LoneWorkerReturns(s', w, net, newId);
      steps := [Work(w, a)] + rest;
      assert steps[1..] == rest;
    }
  }

  /** A step of a worker brings it closer to its return, and creates an incident only as it
      gets hold of the id. */
  lemma AloneGoesOn(t: Tables, w: Worker, a: Answer)
    requires w.event in t.published && !w.pc.Returned?
    ensures var (t', pc') := Worked(t, w.event, t.published[w.event], w.pc, a);
            && StepsLeft(pc') < StepsLeft(w.pc)
            && t'.published == t.published
            && (HoldsId(w.pc) ==> HoldsId(pc'))
            && (HoldsId(pc') || t'.incidents == t.incidents)
  {
  }

  /** A delivery that nothing interrupts, from its first step to its return, is the call. */
  lemma LoneDelivery(s: System, w: nat, e: nat, net: CacheLink, newId: nat) returns (steps: seq<Step>)
    requires Safe(s) && w !in s.workers && e in s.tables.published && newId !in s.tables.incidents
    ensures Runnable(s, steps) && Safe(After(s, steps))
    ensures After(s, steps) == s.(tables := Processed(s.tables, e, net, newId))
  {
    var delivered := Next(s, Deliver(w, e));
    StepKeepsSafe(s, Deliver(w, e));
    RunOne(s, Deliver(w, e));
    hide Safe, Rest, After;
    var work := LoneWorkerReturns(delivered, w, net, newId);
    FinishedAsBefore(s, w, e, After(delivered, work), net, newId);
    hide Next, ReturnedAlone, Processed;
    RunConcat(s, [Deliver(w, e)], work);
    Extend(s, [Deliver(w, e)] + work, Finish(w));
    steps := [Deliver(w, e)] + work + [Finish(w)];
    RunKeepsSafe(s, steps);
  }

  lemma FinishedAsBefore(s: System, w: nat, e: nat, s': System, net: CacheLink, newId: nat)
    requires w !in s.workers && e in s.tables.published
    requires ReturnedAlone(Next(s, Deliver(w, e)), s', w, net, newId)
    ensures Enabled(s', Finish(w)) && Next(s', Finish(w)) == s.(tables := Processed(s.tables, e, net, newId))
  {
    hide Rest;
    ProcessedIsRest(s.tables, e, net, newId);
    assert (s'.workers - {w}) == s.workers;
  }

  lemma ProcessedIsRest(t: Tables, e: nat, net: CacheLink, newId: nat)
    requires e in t.published
    ensures Processed(t, e, net, newId) == Rest(t, e, t.published[e], Store, net, newId)
  {
  }

  // ---- what a delivery leaves linked, over all interleavings --------------------

  /** The step links its worker's event: through a found incident, or by opening one. */
  ghost predicate LinksBy(s: System, step: Step, w: nat) {
    && step.Work? && step.worker == w && w in s.workers
    && (s.workers[w].pc.Link? || (s.workers[w].pc.Create? && step.answer.row.None?))
  }

  /** Some delivery of event `e` other than the one of worker `w` links it during the run. */
  ghost predicate LinkedByOthers(s: System, steps: seq<Step>, e: nat, w: nat)
    requires Runnable(s, steps)
    decreases |steps|
  {
    && steps != []
    && (|| (steps[0].Work? && steps[0].worker != w && LinksBy(s, steps[0], steps[0].worker)
            && s.workers[steps[0].worker].event == e)
        || LinkedByOthers(Next(s, steps[0]), steps[1..], e, w))
  }

  /** Worker `w` finds no open incident, tries to open one, and meets a taken key. */
  ghost predicate Loses(s: System, steps: seq<Step>, w: nat)
    requires Runnable(s, steps)
    decreases |steps|
  {
    && steps != []
    && (|| (steps[0].Work? && steps[0].worker == w && s.workers[w].pc.Create? && steps[0].answer.row.Some?)
        || Loses(Next(s, steps[0]), steps[1..], w))
  }

  /** Worker `w` is in the middle of a delivery, and neither crashes nor is dismissed. */
  ghost predicate KeepsWorking(s: System, steps: seq<Step>, w: nat) {
    w in s.workers && Crash(w) !in steps && Finish(w) !in steps
  }

  predicate Decided(pc: Pc) {
    pc.Count? || pc.Refresh? || pc.Returned?
  }

  /** Exactly the linking steps link. */
  lemma StepLinks(s: System, step: Step, e: nat)
    requires Safe(s) && Enabled(s, step)
    ensures IsLinked(Next(s, step).tables, e) <==>
            || IsLinked(s.tables, e)
            || (step.Work? && LinksBy(s, step, step.worker) && s.workers[step.worker].event == e)
  {
    var t, t' := s.tables, Next(s, step).tables;
    if i :| (i, e) in t.links {
      StepGrows(s, step);
      assert (i, e) in t'.links;
    }
    if step.Work? && LinksBy(s, step, step.worker) {
      WorkLinks(t, s.workers[step.worker], t.published[s.workers[step.worker].event], step.answer);
    }
  }

  lemma WorkLinks(t: Tables, w: Worker, f: nat, a: Answer)
    requires w.pc.Link? || (w.pc.Create? && a.row.None?)
    ensures IsLinked(Worked(t, w.event, f, w.pc, a).0, w.event)
  {
    var t' := Worked(t, w.event, f, w.pc, a).0;
    assert (if w.pc.Link? then w.pc.incident else a.newId, w.event) in t'.links;
  }

  lemma OthersLeaveWorker(s: System, step: Step, w: nat)
    requires Enabled(s, step) && w in s.workers && step != Crash(w) && step != Finish(w)
    ensures w in Next(s, step).workers && Next(s, step).workers[w].event == s.workers[w].event
    ensures !(step.Work? && step.worker == w) ==> Next(s, step).workers[w] == s.workers[w]
    ensures step.Work? && step.worker == w ==>
              && (Decided(s.workers[w].pc) || LinksBy(s, step, w) ==> Decided(Next(s, step).workers[w].pc))
              && (s.workers[w].pc.Create? ==> Decided(Next(s, step).workers[w].pc))
              && (!Decided(s.workers[w].pc) && !LinksBy(s, step, w) && !s.workers[w].pc.Create? ==>
                    !Decided(Next(s, step).workers[w].pc))
  {
  }

  /** Behind the point where it links or loses, a worker does neither any more. */
  lemma {:induction false} DecidedRun(s: System, steps: seq<Step>, w: nat)
    requires Safe(s) && Runnable(s, steps) && KeepsWorking(s, steps, w) && Decided(s.workers[w].pc)
    ensures !Loses(s, steps, w)
    ensures var e := s.workers[w].event;
            IsLinked(After(s, steps).tables, e) <==> IsLinked(s.tables, e) || LinkedByOthers(s, steps, e, w)
    decreases |steps|
  {
    hide Safe, Next, Enabled, IsLinked;
    if steps != [] {
      assert steps[0] in steps;
      StepKeepsSafe(s, steps[0]);
      StepLinks(s, steps[0], s.workers[w].event);
      OthersLeaveWorker(s, steps[0], w);
      DecidedRun(Next(s, steps[0]), steps[1..], w);
    }
  }

  lemma {:induction false} UndecidedRun(s: System, steps: seq<Step>, w: nat)
    requires Safe(s) && Runnable(s, steps) && KeepsWorking(s, steps, w) && !Decided(s.workers[w].pc)
    requires w in After(s, steps).workers && Decided(After(s, steps).workers[w].pc)
    ensures var e := s.workers[w].event;
            IsLinked(After(s, steps).tables, e) <==>
            IsLinked(s.tables, e) || LinkedByOthers(s, steps, e, w) || !Loses(s, steps, w)
    decreases |steps|
  {
    hide Safe, Next, Enabled, IsLinked;
    assert steps[0] in steps;
    var s' := Next(s, steps[0]);
    StepKeepsSafe(s, steps[0]);
    StepLinks(s, steps[0], s.workers[w].event);
    OthersLeaveWorker(s, steps[0], w);
    if Decided(s'.workers[w].pc) {
      DecidedRun(s', steps[1..], w);
    } else {
      UndecidedRun(s', steps[1..], w);
    }
  }

  /** Over every interleaving: when the delivery of an event returns, the event is linked
      exactly if some other delivery has linked it, or this one did not lose the race to
      open the incident. */
  lemma LinkedOnReturnIff(s: System, steps: seq<Step>, w: nat)
    requires Safe(s) && Runnable(s, steps) && KeepsWorking(s, steps, w) && s.workers[w].pc.Store?
    requires w in After(s, steps).workers && After(s, steps).workers[w].pc.Returned?
    ensures var e := s.workers[w].event;
            IsLinked(After(s, steps).tables, e) <==>
            IsLinked(s.tables, e) || LinkedByOthers(s, steps, e, w) || !Loses(s, steps, w)
  {
    UndecidedRun(s, steps, w);
  }

  // ---- runs in which the protocol falls short -----------------------------------

  /** A worker that finds neither a cached nor an open incident is about to create one. */
  lemma LooksInVain(s: System, w: nat) returns (steps: seq<Step>)
    requires w in s.workers && s.workers[w].pc.Store?
    requires s.workers[w].event in s.tables.published && s.workers[w].event in s.tables.events
    requires var f := s.tables.published[s.workers[w].event];
             f !in s.tables.cache && !AnyOpen(s.tables, f)
    ensures Runnable(s, steps)
    ensures After(s, steps) == s.(workers := s.workers[w := Worker(s.workers[w].event, Create)])
  {
    var e := s.workers[w].event;
    var nothing := Work(w, Answer(true, None, 0));
    var s1 := s.(workers := s.workers[w := Worker(e, ReadCache)]);
    var s2 := s.(workers := s.workers[w := Worker(e, FindOpen)]);
    assert Next(s, nothing) == s1;
    assert Next(s1, nothing).workers == s2.workers;
    RunOne(s, nothing);
    Extend(s, [nothing], nothing);
    Extend(s, [nothing] + [nothing], nothing);
    steps := [nothing] + [nothing] + [nothing];
    assert After(s, steps).workers == s.workers[w := Worker(e, Create)];
  }

  const TWO_EVENTS := Tables(map[7 := 1, 8 := 1], map[7 := 1, 8 := 1], map[], {}, map[])

  /** The workers 0 and 1 that process the events 7 and 8. */
  function Pair(t: Tables, p: Pc, q: Pc): System {
    System(t, map[0 := Worker(7, p), 1 := Worker(8, q)], multiset{})
  }

  lemma TwoWorkersStart() returns (steps: seq<Step>)
    ensures Runnable(EMPTY_SYSTEM, steps) && After(EMPTY_SYSTEM, steps) == Pair(TWO_EVENTS, Store, Store)
  {
    var s := EMPTY_SYSTEM;
    RunOne(s, Publish(7, 1, true));
    Extend(s, [Publish(7, 1, true)], Publish(8, 1, true));
    steps := [Publish(7, 1, true)] + [Publish(8, 1, true)];
    assert After(s, steps).tables == TWO_EVENTS;
    Extend(s, steps, Deliver(0, 7));
    steps := steps + [Deliver(0, 7)];
    Extend(s, steps, Deliver(1, 8));
    steps := steps + [Deliver(1, 8)];
    assert After(s, steps).workers == Pair(TWO_EVENTS, Store, Store).workers;
  }

  lemma TwoWorkersCreate() returns (steps: seq<Step>)
    ensures Runnable(EMPTY_SYSTEM, steps) && After(EMPTY_SYSTEM, steps) == Pair(TWO_EVENTS, Create, Create)
  {
    steps := TwoWorkersStart();
    var one := LooksInVain(Pair(TWO_EVENTS, Store, Store), 0);
    assert After(Pair(TWO_EVENTS, Store, Store), one) == Pair(TWO_EVENTS, Create, Store);
    var two := LooksInVain(Pair(TWO_EVENTS, Create, Store), 1);
    assert After(Pair(TWO_EVENTS, Create, Store), two) == Pair(TWO_EVENTS, Create, Create);
    hide Runnable, After;
    RunConcat(EMPTY_SYSTEM, steps, one);
    RunConcat(EMPTY_SYSTEM, steps + one, two);
    steps := steps + one + two;
  }

  /** The event that loses the race to open the incident stays unlinked, although the
      incident is open: two events of one fingerprint arrive together, both workers find
      nothing, the first opens the incident and the second returns it without linking. */
  lemma LoserStaysUnlinked() returns (steps: seq<Step>)
    ensures Runnable(EMPTY_SYSTEM, steps)
    ensures var s := After(EMPTY_SYSTEM, steps);
            && s.workers == map[0 := Worker(7, Returned(5)), 1 := Worker(8, Returned(5))]
            && s.tables.incidents == map[5 := Incident(1, false, 1)] && s.tables.links == {(5, 7)}
            && 8 in s.tables.events && !IsLinked(s.tables, 8)
  {
    steps := TwoWorkersCreate();
    var t := Opened(TWO_EVENTS, 1, 5, 7);
    var win, lose, cache := Answer(true, None, 5), Answer(true, Some(5), 6), Answer(true, None, 0);
    assert HasKey(t, 5, 1);
    assert Next(Pair(TWO_EVENTS, Create, Create), Work(0, win)) == Pair(t, Refresh(5), Create);
    Extend(EMPTY_SYSTEM, steps, Work(0, win));
    steps := steps + [Work(0, win)];
    assert Next(Pair(t, Refresh(5), Create), Work(1, lose)) == Pair(t, Refresh(5), Refresh(5));
    Extend(EMPTY_SYSTEM, steps, Work(1, lose));
    steps := steps + [Work(1, lose)];
    hide Legal;
    var t' := Cached(t, 1, 5);
    BothReturn(t, t', cache);
    Extend(EMPTY_SYSTEM, steps, Work(0, cache));
    steps := steps + [Work(0, cache)];
    Extend(EMPTY_SYSTEM, steps, Work(1, cache));
    steps := steps + [Work(1, cache)];
  }

  lemma BothReturn(t: Tables, t': Tables, a: Answer)
    requires t == Opened(TWO_EVENTS, 1, 5, 7) && t' == Cached(t, 1, 5) && a == Answer(true, None, 0)
    ensures Enabled(Pair(t, Refresh(5), Refresh(5)), Work(0, a))
    ensures Next(Pair(t, Refresh(5), Refresh(5)), Work(0, a)) == Pair(t', Returned(5), Refresh(5))
    ensures Enabled(Pair(t', Returned(5), Refresh(5)), Work(1, a))
    ensures Next(Pair(t', Returned(5), Refresh(5)), Work(1, a)) == Pair(t', Returned(5), Returned(5))
  {
    assert Cached(t', 1, 5) == t';
  }

  /** The resolved incident of `SecondDeliveryCanChangeCounters`, reached from the start. */
  const RESOLVED := Tables(map[7 := 1, 8 := 1], map[7 := 1, 8 := 1], map[5 := Incident(1, true, 1)], {(5, 7)}, map[])

  lemma FirstDelivery() returns (steps: seq<Step>)
    ensures Runnable(EMPTY_SYSTEM, steps)
    ensures After(EMPTY_SYSTEM, steps) ==
            System(Tables(map[7 := 1], map[7 := 1], map[5 := Incident(1, false, 1)], {(5, 7)}, map[1 := 5]),
                   map[], multiset{})
  {
    var published := Next(EMPTY_SYSTEM, Publish(7, 1, true));
    EmptyIsSafe();
    StepKeepsSafe(EMPTY_SYSTEM, Publish(7, 1, true));
    var call := LoneDelivery(published, 0, 7, CacheLink(true, true), 5);
    ProcessedCases(published.tables, 7, CacheLink(true, true), 5);
    assert !Known(published.tables, 1);
    hide Processed, Safe, Runnable, After;
    RunOne(EMPTY_SYSTEM, Publish(7, 1, true));
    RunConcat(EMPTY_SYSTEM, [Publish(7, 1, true)], call);
    steps := [Publish(7, 1, true)] + call;
  }

  lemma ResolvedIsReached() returns (steps: seq<Step>)
    ensures Runnable(EMPTY_SYSTEM, steps) && After(EMPTY_SYSTEM, steps) == System(RESOLVED, map[], multiset{})
  {
    steps := FirstDelivery();
    hide Runnable, After;
    Extend(EMPTY_SYSTEM, steps, Resolve(5));
    steps := steps + [Resolve(5)];
    Extend(EMPTY_SYSTEM, steps, Forget(1));
    steps := steps + [Forget(1)];
    Extend(EMPTY_SYSTEM, steps, Publish(8, 1, true));
    steps := steps + [Publish(8, 1, true)];
    assert After(EMPTY_SYSTEM, steps).tables == RESOLVED;
  }

  /** And from there two deliveries of one event, of which the second raises the counter. */
  lemma SecondDeliveryCounts() returns (once: seq<Step>, twice: seq<Step>)
    ensures Runnable(EMPTY_SYSTEM, once) && Runnable(After(EMPTY_SYSTEM, once), twice)
    ensures var s := After(EMPTY_SYSTEM, once);
            && s.workers == map[] && Saved(s.tables) == Saved(RESOLVED)
            && After(s, twice).workers == map[]
            && After(s, twice).tables.incidents == map[5 := Incident(1, true, 2)]
            && After(s, twice).tables.links == {(5, 7), (5, 8)}
  {
    var up := CacheLink(true, true);
    SecondDeliveryCanChangeCounters();
    var start := ResolvedIsReached();
    EmptyIsSafe();
    RunKeepsSafe(EMPTY_SYSTEM, start);
    hide Safe, Processed, Runnable, After;
    var first := LoneDelivery(System(RESOLVED, map[], multiset{}), 0, 8, up, 9);
    RunConcat(EMPTY_SYSTEM, start, first);
    once := start + first;
    twice := LoneDelivery(After(EMPTY_SYSTEM, once), 0, 8, up, 9);
  }
}
