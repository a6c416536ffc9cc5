/** Ingest calls that overlap: each Redis command is one step, so a call may pass its
    checks while another has not yet taken its keys. */
module EventOverlap {
  import opened Options
  import opened RedisModel
  import opened EventGate

  /** A call checks all of its keys, then takes all of them; a key that is held ends it. */
  datatype Ingest = Ingest(keys: seq<string>, checked: nat, taken: nat, refused: bool)

  /** History: call `call` came upon `key` at `at`. */
  datatype Mark = Mark(call: nat, key: string, at: int)

  /** `live` is the eager map, `clock` the last reading. `found`, `taken` and `refused`
      record which key was found free, taken, or found held, by whom and when. */
  datatype Gate = Gate(
    live: Store,
    clock: int,
    calls: seq<Ingest>,
    found: set<Mark>,
    taken: set<Mark>,
    refused: set<Mark>)

  const EMPTY_GATE := Gate(map[], 0, [], {}, {}, {})

  predicate Accepted(c: Ingest) {
    !c.refused && c.checked == c.taken == |c.keys|
  }

  datatype Step =
    | Arrive(requestKey: Option<string>, payloadKey: string)
    | Check(call: nat, now: int)
    | Take(call: nat, now: int)

  predicate Enabled(g: Gate, s: Step) {
    match s
    case Arrive(_, _) => true
    case Check(i, now) =>
      i < |g.calls| && g.clock <= now && !g.calls[i].refused && g.calls[i].checked < |g.calls[i].keys|
    case Take(i, now) =>
      && i < |g.calls| && g.clock <= now && !g.calls[i].refused
      && g.calls[i].checked == |g.calls[i].keys| && g.calls[i].taken < |g.calls[i].keys|
  }

  function Checked(g: Gate, i: nat, now: int): Gate
    requires Enabled(g, Check(i, now))
  {
    var c := g.calls[i];
    var mark := Mark(i, c.keys[c.checked], now);
    var g' := g.(live := Purge(g.live, now), clock := now);
    if mark.key in g'.live then g'.(calls := g.calls[i := c.(refused := true)], refused := g.refused + {mark})
    else g'.(calls := g.calls[i := c.(checked := c.checked + 1)], found := g.found + {mark})
  }

  function Taken(g: Gate, i: nat, now: int): Gate
    requires Enabled(g, Take(i, now))
  {
    var c := g.calls[i];
    var mark := Mark(i, c.keys[c.taken], now);
    g.(live := Purge(g.live, now)[mark.key := Entry("1", Some(now + DEDUPE_WINDOW_MS))],
       clock := now,
       calls := g.calls[i := c.(taken := c.taken + 1)],
       taken := g.taken + {mark})
  }

  function Next(g: Gate, s: Step): Gate
    requires Enabled(g, s)
  {
    match s
    case Arrive(requestKey, payloadKey) =>
      g.(calls := g.calls + [Ingest(KeyList(requestKey, payloadKey), 0, 0, false)])
    case Check(i, now) => Checked(g, i, now)
    case Take(i, now) => Taken(g, i, now)
  }

  ghost predicate Runnable(g: Gate, steps: seq<Step>)
    decreases |steps|
  {
    steps != [] ==> Enabled(g, steps[0]) && Runnable(Next(g, steps[0]), steps[1..])
  }

  ghost function After(g: Gate, steps: seq<Step>): Gate
    requires Runnable(g, steps)
    decreases |steps|
  {
    if steps == [] then g else After(Next(g, steps[0]), steps[1..])
  }

  // ---- what every interleaving keeps -------------------------------------------

  ghost predicate MarksArePast(g: Gate) {
    forall m :: m in g.found || m in g.taken ==> m.at <= g.clock
  }

  ghost predicate HeldSince(live: Store, m: Mark) {
    m.key in live && live[m.key].expiresAt.Some? && live[m.key].expiresAt.value >= m.at + DEDUPE_WINDOW_MS
  }

  /** A key that was taken less than the window ago is live. */
  ghost predicate TakenAreLive(g: Gate) {
    forall m :: m in g.taken && g.clock < m.at + DEDUPE_WINDOW_MS ==> HeldSince(g.live, m)
  }

  /** Whoever found the key free did so before it was taken, or a window later. */
  ghost predicate Apart(found: Mark, taken: Mark) {
    found.key == taken.key ==> found.at <= taken.at || found.at >= taken.at + DEDUPE_WINDOW_MS
  }

  ghost predicate FoundAreApart(g: Gate) {
    forall m, n :: m in g.taken && n in g.found ==> Apart(n, m)
  }

  ghost predicate TakenBy(taken: set<Mark>, key: string, e: Entry) {
    exists m :: m in taken && m.key == key && e.expiresAt == Some(m.at + DEDUPE_WINDOW_MS)
  }

  ghost predicate LiveAreTaken(g: Gate) {
    forall k :: k in g.live ==> TakenBy(g.taken, k, g.live[k])
  }

  /** The key had been taken less than the window before. */
  ghost predicate Justified(taken: set<Mark>, n: Mark) {
    exists m :: m in taken && m.key == n.key && m.at <= n.at < m.at + DEDUPE_WINDOW_MS
  }

  ghost predicate RefusalsJustified(g: Gate) {
    forall n :: n in g.refused ==> Justified(g.taken, n)
  }

  ghost predicate HasMark(marks: set<Mark>, i: nat, key: string) {
    exists m :: m in marks && m.call == i && m.key == key
  }

  ghost predicate Marked(g: Gate, i: nat)
    requires i < |g.calls|
  {
    var c := g.calls[i];
    && c.checked <= |c.keys| && c.taken <= |c.keys|
    && (forall a :: 0 <= a < c.checked ==> HasMark(g.found, i, c.keys[a]))
    && (forall a :: 0 <= a < c.taken ==> HasMark(g.taken, i, c.keys[a]))
  }

  ghost predicate Inv(g: Gate) {
    && MarksArePast(g) && TakenAreLive(g) && FoundAreApart(g) && LiveAreTaken(g) && RefusalsJustified(g)
    && forall i :: 0 <= i < |g.calls| ==> Marked(g, i)
  }

  lemma MarksGrow(marks: set<Mark>, n: Mark)
    ensures forall i, k :: HasMark(marks, i, k) ==> HasMark(marks + {n}, i, k)
    ensures HasMark(marks + {n}, n.call, n.key)
    ensures forall k, e :: TakenBy(marks, k, e) ==> TakenBy(marks + {n}, k, e)
    ensures forall r :: Justified(marks, r) ==> Justified(marks + {n}, r)
  {
    assert n in marks + {n};
    forall i, k | HasMark(marks, i, k) ensures HasMark(marks + {n}, i, k) {
      var m :| m in marks && m.call == i && m.key == k;
      assert m in marks + {n};
    }
    forall k, e | TakenBy(marks, k, e) ensures TakenBy(marks + {n}, k, e) {
      var m :| m in marks && m.key == k && e.expiresAt == Some(m.at + DEDUPE_WINDOW_MS);
      assert m in marks + {n};
    }
    forall r | Justified(marks, r) ensures Justified(marks + {n}, r) {
      var m :| m in marks && m.key == r.key && m.at <= r.at < m.at + DEDUPE_WINDOW_MS;
      assert m in marks + {n};
    }
  }

  lemma CallsStayMarked(g: Gate, g': Gate, i: nat, n: Mark, c': Ingest)
    requires forall j :: 0 <= j < |g.calls| ==> Marked(g, j)
    requires i < |g.calls| && n.call == i && g'.calls == g.calls[i := c'] && c'.keys == g.calls[i].keys
    requires (g'.found == g.found || g'.found == g.found + {n}) && (g'.taken == g.taken || g'.taken == g.taken + {n})
    requires c'.checked == g.calls[i].checked ||
             (c'.checked == g.calls[i].checked + 1 <= |c'.keys| && n.key == c'.keys[c'.checked - 1] && n in g'.found)
    requires c'.taken == g.calls[i].taken ||
             (c'.taken == g.calls[i].taken + 1 <= |c'.keys| && n.key == c'.keys[c'.taken - 1] && n in g'.taken)
    ensures forall j :: 0 <= j < |g'.calls| ==> Marked(g', j)
  {
    MarksGrow(g.found, n);
    MarksGrow(g.taken, n);
    forall j | 0 <= j < |g'.calls| ensures Marked(g', j) {
      assert Marked(g, j);
    }
  }

  lemma CheckKeepsInv(g: Gate, i: nat, now: int)
    requires Inv(g) && Enabled(g, Check(i, now))
    ensures Inv(Checked(g, i, now))
  {
    var g' := Checked(g, i, now);
    var c := g.calls[i];
    var n := Mark(i, c.keys[c.checked], now);
    if n.key in g'.live {
      assert Justified(g.taken, n) by {
        assert TakenBy(g.taken, n.key, g.live[n.key]);
        var m :| m in g.taken && m.key == n.key && g.live[n.key].expiresAt == Some(m.at + DEDUPE_WINDOW_MS);
      }
    } else {
      forall m | m in g.taken && m.key == n.key ensures Apart(n, m) {
        assert g.clock < m.at + DEDUPE_WINDOW_MS ==> HeldSince(g.live, m);
      }
    }
    CallsStayMarked(g, g', i, n, g'.calls[i]);
  }

  lemma TakeKeepsInv(g: Gate, i: nat, now: int)
    requires Inv(g) && Enabled(g, Take(i, now))
    ensures Inv(Taken(g, i, now))
  {
    var g' := Taken(g, i, now);
    var c := g.calls[i];
    var n := Mark(i, c.keys[c.taken], now);
    MarksGrow(g.taken, n);
    CallsStayMarked(g, g', i, n, g'.calls[i]);
    forall m | m in g'.taken && g'.clock < m.at + DEDUPE_WINDOW_MS ensures HeldSince(g'.live, m) {
      if m != n {
        assert HeldSince(g.live, m);
      }
    }
    forall k | k in g'.live ensures TakenBy(g'.taken, k, g'.live[k]) {
      if k == n.key {
        assert n in g'.taken;
      } else {
        assert TakenBy(g.taken, k, g.live[k]);
      }
    }
  }

  lemma StepKeepsInv(g: Gate, s: Step)
    requires Inv(g) && Enabled(g, s)
    ensures Inv(Next(g, s))
  {
    match s
    case Arrive(_, _) =>
      forall i | 0 <= i < |Next(g, s).calls| ensures Marked(Next(g, s), i) {
        if i < |g.calls| {
          assert Marked(g, i);
        }
      }
    case Check(i, now) => CheckKeepsInv(g, i, now);
    case Take(i, now) => TakeKeepsInv(g, i, now);
  }

  lemma {:induction false} RunKeepsInv(g: Gate, steps: seq<Step>)
    requires Inv(g) && Runnable(g, steps)
    ensures Inv(After(g, steps))
    decreases |steps|
  {
    if steps != [] {
      StepKeepsInv(g, steps[0]);
      RunKeepsInv(Next(g, steps[0]), steps[1..]);
    }
  }

  /** The keys of the calls that arrive in a run. */
  ghost function KeysOf(steps: seq<Step>): seq<seq<string>> {
    if steps == [] then []
    else
      (if steps[0].Arrive? then
         [if steps[0].requestKey.Some? then [steps[0].requestKey.value, steps[0].payloadKey] else [steps[0].payloadKey]]
       else []) + KeysOf(steps[1..])
  }

  lemma StepKeepsKeys(g: Gate, s: Step)
    requires Enabled(g, s)
    ensures var g' := Next(g, s);
            && |g'.calls| == |g.calls| + |KeysOf([s])|
            && (forall i :: 0 <= i < |g.calls| ==> g'.calls[i].keys == g.calls[i].keys)
            && (s.Arrive? ==> g'.calls[|g.calls|].keys == KeysOf([s])[0])
  {
    assert [s][1..] == [];
  }

  lemma {:induction false} RunKeepsKeys(g: Gate, steps: seq<Step>)
    requires Runnable(g, steps)
    ensures var g' := After(g, steps);
            && |g'.calls| == |g.calls| + |KeysOf(steps)|
            && (forall i :: 0 <= i < |g.calls| ==> g'.calls[i].keys == g.calls[i].keys)
            && (forall i :: |g.calls| <= i < |g'.calls| ==> g'.calls[i].keys == KeysOf(steps)[i - |g.calls|])
    decreases |steps|
  {
    hide Next, Enabled;
    if steps != [] {
      StepKeepsKeys(g, steps[0]);
      assert [steps[0]][1..] == [];
      RunKeepsKeys(Next(g, steps[0]), steps[1..]);
    }
  }

  /** Over every run the i-th call checks and takes the keys it arrived with: the request's
      own, if it has one, and the payload's. */
  lemma CallsUseTheirKeys(steps: seq<Step>, i: nat)
    requires Runnable(EMPTY_GATE, steps) && i < |KeysOf(steps)|
    ensures var g := After(EMPTY_GATE, steps);
            |g.calls| == |KeysOf(steps)| && g.calls[i].keys == KeysOf(steps)[i]
  {
    RunKeepsKeys(EMPTY_GATE, steps);
  }

  /** Over every interleaving of calls: of two accepted calls with a common key, each found
      the key free before the other took it, which is to say they overlapped, or at least
      the window after. */
  lemma AcceptedCallsOverlapOrAreApart(steps: seq<Step>, i: nat, j: nat, k: string)
      returns (foundByI: Mark, takenByI: Mark, foundByJ: Mark, takenByJ: Mark)
    requires Runnable(EMPTY_GATE, steps)
    requires var g := After(EMPTY_GATE, steps);
             && i < |g.calls| && j < |g.calls| && Accepted(g.calls[i]) && Accepted(g.calls[j])
             && k in g.calls[i].keys && k in g.calls[j].keys
    ensures var g := After(EMPTY_GATE, steps);
            && foundByI in g.found && takenByI in g.taken && foundByI.call == takenByI.call == i
            && foundByJ in g.found && takenByJ in g.taken && foundByJ.call == takenByJ.call == j
            && foundByI.key == takenByI.key == foundByJ.key == takenByJ.key == k
    ensures foundByI.at <= takenByJ.at || foundByI.at >= takenByJ.at + DEDUPE_WINDOW_MS
    ensures foundByJ.at <= takenByI.at || foundByJ.at >= takenByI.at + DEDUPE_WINDOW_MS
  {
    RunKeepsInv(EMPTY_GATE, steps);
    var g := After(EMPTY_GATE, steps);
    foundByI, takenByI := MarksOf(g, i, k);
    foundByJ, takenByJ := MarksOf(g, j, k);
    assert Apart(foundByI, takenByJ) && Apart(foundByJ, takenByI);
  }

  lemma MarksOf(g: Gate, i: nat, k: string) returns (found: Mark, taken: Mark)
    requires i < |g.calls| && Marked(g, i) && Accepted(g.calls[i]) && k in g.calls[i].keys
    ensures found in g.found && taken in g.taken && found.call == taken.call == i && found.key == taken.key == k
  {
    var a :| 0 <= a < |g.calls[i].keys| && g.calls[i].keys[a] == k;
    assert HasMark(g.found, i, k) && HasMark(g.taken, i, k);
    found :| found in g.found && found.call == i && found.key == k;
    taken :| taken in g.taken && taken.call == i && taken.key == k;
  }

  /** And every refusal is due to a key that some call took less than the window before. */
  lemma EveryRefusalIsJustified(steps: seq<Step>)
    requires Runnable(EMPTY_GATE, steps)
    ensures var g := After(EMPTY_GATE, steps);
            forall n :: n in g.refused ==>
              exists m :: m in g.taken && m.key == n.key && m.at <= n.at < m.at + DEDUPE_WINDOW_MS
  {
    RunKeepsInv(EMPTY_GATE, steps);
    var g := After(EMPTY_GATE, steps);
    forall n | n in g.refused
      ensures exists m :: m in g.taken && m.key == n.key && m.at <= n.at < m.at + DEDUPE_WINDOW_MS
    {
      assert Justified(g.taken, n);
    }
  }

  lemma Prepend(g: Gate, s: Step, rest: seq<Step>)
    requires Enabled(g, s) && Runnable(Next(g, s), rest)
    ensures Runnable(g, [s] + rest) && After(g, [s] + rest) == After(Next(g, s), rest)
  {
    assert ([s] + rest)[1..] == rest;
  }

  const TWIN_KEYS := ["p"]

  /** A call that has checked and taken so many of its one key. */
  function Twin(checked: nat, taken: nat): Ingest {
    Ingest(TWIN_KEYS, checked, taken, false)
  }

  function MarkOf(call: nat): Mark {
    Mark(call, "p", 0)
  }

  function Looking(calls: seq<Ingest>, found: set<Mark>): Gate {
    Gate(map[], 0, calls, found, {}, {})
  }

  lemma TwinsArrive()
    ensures var e := Arrive(None, "p");
            && Enabled(EMPTY_GATE, e) && Next(EMPTY_GATE, e) == Looking([Twin(0, 0)], {})
            && Enabled(Looking([Twin(0, 0)], {}), e)
            && Next(Looking([Twin(0, 0)], {}), e) == Looking([Twin(0, 0), Twin(0, 0)], {})
  {
    assert KeyList(None, "p") == TWIN_KEYS;
  }

  lemma TwinsLook()
    ensures var g := Looking([Twin(0, 0), Twin(0, 0)], {});
            && Enabled(g, Check(0, 0)) && Next(g, Check(0, 0)) == Looking([Twin(1, 0), Twin(0, 0)], {MarkOf(0)})
    ensures var g := Looking([Twin(1, 0), Twin(0, 0)], {MarkOf(0)});
            && Enabled(g, Check(1, 0))
            && Next(g, Check(1, 0)) == Looking([Twin(1, 0), Twin(1, 0)], {MarkOf(0), MarkOf(1)})
  {
  }

  lemma TwinsTake()
    ensures var g := Looking([Twin(1, 0), Twin(1, 0)], {MarkOf(0), MarkOf(1)});
            && Enabled(g, Take(0, 0)) && Enabled(Next(g, Take(0, 0)), Take(1, 0))
            && Next(Next(g, Take(0, 0)), Take(1, 0)).calls == [Twin(1, 1), Twin(1, 1)]
  {
  }

  /** Overlapping calls with the same payload can both be accepted at once: both look, both
      find the key free, both take it. */
  lemma OverlappingCallsBothPass() returns (steps: seq<Step>)
    ensures Runnable(EMPTY_GATE, steps)
    ensures var g := After(EMPTY_GATE, steps);
            |g.calls| == 2 && g.calls[0].keys == g.calls[1].keys && Accepted(g.calls[0]) && Accepted(g.calls[1])
  {
    TwinsArrive();
    TwinsLook();
    TwinsTake();
    hide Next, Enabled, Looking;
    var g1 := Next(EMPTY_GATE, Arrive(None, "p"));
    var g2 := Next(g1, Arrive(None, "p"));
    var g3 := Next(g2, Check(0, 0));
    var g4 := Next(g3, Check(1, 0));
    var g5 := Next(g4, Take(0, 0));
    Prepend(g5, Take(1, 0), []);
    steps := [Take(1, 0)] + [];
    Prepend(g4, Take(0, 0), steps);
    steps := [Take(0, 0)] + steps;
    Prepend(g3, Check(1, 0), steps);
    steps := [Check(1, 0)] + steps;
    Prepend(g2, Check(0, 0), steps);
    steps := [Check(0, 0)] + steps;
    Prepend(g1, Arrive(None, "p"), steps);
    steps := [Arrive(None, "p")] + steps;
    Prepend(EMPTY_GATE, Arrive(None, "p"), steps);
    steps := [Arrive(None, "p")] + steps;
  }
}
