/** The in-memory event bus as a state machine.

    Every `consume` starts its own chain of ticks and every chain sweeps all
    consumers, so chains interleave wherever a handler is awaited. The atomic
    pieces of a tick are the steps below: `StartTick` reads the clock, `Collect`
    is the stretch without an await that takes the due items of one consumer, and
    `Settle` is the continuation after one handler has resolved or rejected.
 */
module BusModel {
  datatype Subject = Event | Realtime

  /** `id` is a model-only identity; it stands for the object the publisher created. */
  datatype Message = Message(id: nat, kind: string, payload: string, attempts: nat, publishedAt: int)

  datatype Pending = Pending(message: Message, retryAt: int, attempts: nat)

  datatype Consumer = Consumer(subject: Subject, maxRetries: int, retryBaseMs: int, pending: seq<Pending>)

  /** A chain waits for its timer, or is in the middle of a tick: it has read `now`,
      stands at consumer `at`, and still has to run the handler on `due` (the handler
      of `due[0]` is the one being awaited). */
  datatype Chain = Waiting | Sweeping(now: nat, at: nat, due: seq<Pending>)

  /** History: a message that publish handed to a consumer. */
  datatype Accepted = Accepted(message: Message, subject: Subject, consumer: nat)

  /** History: one settled handler call, with the clock reading of its tick. */
  datatype HandlerRun = HandlerRun(seen: Message, consumer: nat, tick: nat, ok: bool)

  datatype Bus = Bus(
    consumers: seq<Consumer>,
    chains: seq<Chain>,
    deadLetters: seq<Message>,
    rrCounter: nat,
    accepted: seq<Accepted>,
    handled: seq<Message>,
    runs: seq<HandlerRun>)

  const EMPTY_BUS := Bus([], [], [], 0, [], [], [])

  const BACKOFF_CAP_MS := 60000

  function Pow2(n: nat): (p: nat)
    ensures p >= 1
  {
    if n == 0 then 1 else 2 * Pow2(n - 1)
  }

  function Min(a: int, b: int): int {
    if a <= b then a else b
  }

  /** Delay before the retry that follows the `attempts`-th failure. */
  function Backoff(baseMs: int, attempts: nat): int
    requires attempts > 0
  {
    Min(baseMs * Pow2(attempts - 1), BACKOFF_CAP_MS)
  }

  /** Indices of the first `n` consumers that listen to `s`. */
  function GroupUpTo(cs: seq<Consumer>, s: Subject, n: nat): (g: seq<nat>)
    requires n <= |cs|
    ensures forall k :: 0 <= k < |g| ==> g[k] < n && cs[g[k]].subject == s
    ensures forall j, k :: 0 <= j < k < |g| ==> g[j] < g[k]
    ensures forall i :: 0 <= i < n && cs[i].subject == s ==> i in g
  {
    if n == 0 then []
    else
      var g := GroupUpTo(cs, s, n - 1);
      if cs[n - 1].subject == s then g + [n - 1] else g
  }

  function Group(cs: seq<Consumer>, s: Subject): (g: seq<nat>) {
    GroupUpTo(cs, s, |cs|)
  }

  function Due(ps: seq<Pending>, now: nat): (due: seq<Pending>)
    ensures forall p :: p in due ==> p in ps && p.retryAt <= now
  {
    if ps == [] then []
    else (if ps[0].retryAt <= now then [ps[0]] else []) + Due(ps[1..], now)
  }

  function Later(ps: seq<Pending>, now: nat): (later: seq<Pending>)
    ensures forall p :: p in later ==> p in ps && p.retryAt > now
  {
    if ps == [] then []
    else (if ps[0].retryAt > now then [ps[0]] else []) + Later(ps[1..], now)
  }

  /** The group position whose turn it is. */
  function Turn(counter: nat, n: nat): (t: nat)
    requires n > 0
    ensures t < n
  {
    counter % n
  }

  // ---- steps ---------------------------------------------------------------

  function Enqueue(c: Consumer, p: Pending): Consumer {
    c.(pending := c.pending + [p])
  }

  function Published(b: Bus, s: Subject, kind: string, payload: string, at: int): Bus {
    var group := Group(b.consumers, s);
    if |group| == 0 then b
    else
      var target := group[Turn(b.rrCounter, |group|)];
      var m := Message(|b.accepted|, kind, payload, 0, at);
      b.(consumers := b.consumers[target := Enqueue(b.consumers[target], Pending(m, 0, 0))],
         rrCounter := b.rrCounter + 1,
         accepted := b.accepted + [Accepted(m, s, target)])
  }

  function Consumed(b: Bus, s: Subject, maxRetries: int, retryBaseMs: int): Bus {
    b.(consumers := b.consumers + [Consumer(s, maxRetries, retryBaseMs, [])],
       chains := b.chains + [Waiting])
  }

  predicate CanStart(b: Bus, c: nat) {
    c < |b.chains| && b.chains[c].Waiting?
  }

  function Started(b: Bus, c: nat, now: nat): Bus
    requires CanStart(b, c)
  {
    b.(chains := b.chains[c := Sweeping(now, 0, [])])
  }

  predicate CanCollect(b: Bus, c: nat) {
    c < |b.chains| && b.chains[c].Sweeping? && b.chains[c].due == [] && b.chains[c].at < |b.consumers|
  }

  function Collected(b: Bus, c: nat): Bus
    requires CanCollect(b, c)
  {
    var ch := b.chains[c];
    var ps := b.consumers[ch.at].pending;
    var due := Due(ps, ch.now);
    if due == [] then b.(chains := b.chains[c := Sweeping(ch.now, ch.at + 1, [])])
    else
      b.(consumers := b.consumers[ch.at := b.consumers[ch.at].(pending := Later(ps, ch.now))],
         chains := b.chains[c := Sweeping(ch.now, ch.at, due)])
  }

  predicate CanSettle(b: Bus, c: nat) {
    c < |b.chains| && b.chains[c].Sweeping? && b.chains[c].due != [] && b.chains[c].at < |b.consumers|
  }

  /** The chain after the handler of `due[0]` has settled. */
  function Advanced(ch: Chain): Chain
    requires ch.Sweeping? && ch.due != []
  {
    if |ch.due| == 1 then Sweeping(ch.now, ch.at + 1, []) else Sweeping(ch.now, ch.at, ch.due[1..])
  }

  /** The in-flight item leaves its chain; it has not been put anywhere yet. */
  function Taken(b: Bus, c: nat): Bus
    requires CanSettle(b, c)
  {
    b.(chains := b.chains[c := Advanced(b.chains[c])])
  }

  /** What a failed run puts back on its consumer while attempts remain. */
  function RetryOf(item: Pending, now: nat, baseMs: int): (retry: Pending)
    ensures retry.message == item.message.(attempts := item.attempts + 1)
    ensures retry.attempts == item.attempts + 1
  {
    var attempts := item.attempts + 1;
    Pending(item.message.(attempts := attempts), now + Backoff(baseMs, attempts), attempts)
  }

  function Settled(b: Bus, c: nat, ok: bool): Bus
    requires CanSettle(b, c)
  {
    var ch := b.chains[c];
    var item := ch.due[0];
    var consumer := b.consumers[ch.at];
    var taken := Taken(b, c).(runs := b.runs + [HandlerRun(item.message, ch.at, ch.now, ok)]);
    if ok then taken.(handled := b.handled + [item.message])
    else if item.attempts + 1 >= consumer.maxRetries then
      taken.(deadLetters := b.deadLetters + [item.message])
    else
      taken.(consumers := b.consumers[ch.at := Enqueue(consumer, RetryOf(item, ch.now, consumer.retryBaseMs))])
  }

  predicate CanEnd(b: Bus, c: nat) {
    c < |b.chains| && b.chains[c].Sweeping? && b.chains[c].due == [] && b.chains[c].at >= |b.consumers|
  }

  function Ended(b: Bus, c: nat): Bus
    requires CanEnd(b, c)
  {
    b.(chains := b.chains[c := Waiting])
  }

  datatype Step =
    | Publish(subject: Subject, kind: string, payload: string, publishedAt: int)
    | Consume(subject: Subject, maxRetries: int, retryBaseMs: int)
    | StartTick(chain: nat, now: nat)
    | Collect(chain: nat)
    | Settle(chain: nat, ok: bool)
    | EndTick(chain: nat)

  predicate Enabled(b: Bus, e: Step) {
    match e
    case Publish(_, _, _, _) => true
    case Consume(_, _, _) => true
    case StartTick(c, _) => CanStart(b, c)
    case Collect(c) => CanCollect(b, c)
    case Settle(c, _) => CanSettle(b, c)
    case EndTick(c) => CanEnd(b, c)
  }

  function Next(b: Bus, e: Step): Bus
    requires Enabled(b, e)
  {
    match e
    case Publish(s, kind, payload, at) => Published(b, s, kind, payload, at)
    case Consume(s, maxRetries, base) => Consumed(b, s, maxRetries, base)
    case StartTick(c, now) => Started(b, c, now)
    case Collect(c) => Collected(b, c)
    case Settle(c, ok) => Settled(b, c, ok)
    case EndTick(c) => Ended(b, c)
  }

  /** `es` can be taken one after the other from `b`. */
  ghost predicate Runnable(b: Bus, es: seq<Step>)
    decreases |es|
  {
    es != [] ==> Enabled(b, es[0]) && Runnable(Next(b, es[0]), es[1..])
  }

  ghost function After(b: Bus, es: seq<Step>): Bus
    requires Runnable(b, es)
    decreases |es|
  {
    if es == [] then b else After(Next(b, es[0]), es[1..])
  }
}
