/** The whole pipeline as a state machine: any number of concurrent `SaveEvent` calls
    (picolytics/event.go) feeding the bounded queue, and the worker's select loop
    (picolytics/worker.go) draining it. Calls interleave with each other and with the worker at
    every shared access; any save may fail after any part of it. */
module Pipeline {
  import opened Wrappers
  import opened Events
  import opened Timeline
  import opened Sessions
  import opened CopyFrom
  import opened Tables
  import opened Laws

  /** The settings in use; the timeout is the session timeout in microseconds. */
  datatype Config = Config(queueSize: nat, batchMaxSize: int, batchMaxMsec: int, timeout: int, validNames: seq<string>)

  /** The ticker's period, in microseconds like all times here. */
  function Period(c: Config): int {
    1000 * c.batchMaxMsec
  }

  // ---------- picolytics/event.go ----------

  predicate ValidEventName(validNames: seq<string>, name: string) {
    name != "" && name in validNames
  }

  function TrimWww(host: string): string {
    if "www." <= host then host[4..] else host
  }

  /** `extractDomainPath`. */
  function DomainPath(location: string, foreign: Foreign): Option<(string, string)> {
    if location == "" then None
    else match foreign.parseUrl(location)
         case None => None
         case Some(hostPath) => Some((TrimWww(hostPath.0), hostPath.1))
  }

  /** `parseEvent`. */
  function Parse(e: Event, validNames: seq<string>, foreign: Foreign): (r: Option<Event>)
    ensures r.Some? <==>
              e.name != "" && e.name in validNames && e.location != "" && foreign.parseUrl(e.location).Some?
    ensures r.Some? ==> var (host, path) := foreign.parseUrl(e.location).value;
              && r.value == e.(domain := r.value.domain, path := path)
              && if "www." <= host then host == "www." + r.value.domain else r.value.domain == host
  {
    if !ValidEventName(validNames, e.name) then None
    else match DomainPath(e.location, foreign)
         case None => None
         case Some(domainPath) => Some(e.(domain := domainPath.0, path := domainPath.1))
  }

  // ---------- states ----------

  /** How far one call of `SaveEvent` has come. */
  datatype Call =
    | Received(event: Event)
    | Parsed(event: Event)
    | Counted(event: Event)
    | ParseError
    | EnqueueError
    | Done

  /** The worker and what it shares. `accepted` is every event ever sent to the channel, `initial` the
      tables the process found when it started; `attempted` of the pending events have been in a
      save attempt; `appendedAt` says since when each of them has been pending; `failures` counts
      failed saves since the last success, `failed` all of them. */
  datatype Worker = Worker(
    accepted: seq<Event>, queue: seq<Event>, pending: seq<Event>, initial: Tables, tables: Tables,
    appendedAt: seq<int>, attempted: nat, failures: nat, failed: nat,
    now: int, deadline: int, quit: bool)

  datatype State = State(calls: seq<Call>, parseErrors: nat, ingested: nat, enqueueErrors: nat, w: Worker)

  /** A worker that starts on the given tables. */
  function Started(tables: Tables, now: int, c: Config): Worker {
    Worker([], [], [], tables, tables, [], 0, 0, 0, now, now + Period(c), false)
  }

  /** A process starts on an empty database or on what an earlier process has left (`Restart`). */
  ghost predicate Init(s: State, c: Config) {
    && s.calls == [] && s.parseErrors == s.ingested == s.enqueueErrors == 0
    && s.w == Started(s.w.tables, s.w.now, c) && Inv(s.w.tables, c.timeout)
  }

  // ---------- steps ----------

  ghost predicate SameClockAndQueue(w: Worker, u: Worker) {
    && u.accepted == w.accepted && u.queue == w.queue && u.initial == w.initial
    && u.now == w.now && u.quit == w.quit
  }

  /** `processBatch`: a save attempt on all that is pending. Success empties the batch, failure
      leaves it as it is. */
  ghost predicate Attempt(w: Worker, u: Worker, c: Config) {
    var ok := u.pending == [];
    && SameClockAndQueue(w, u)
    && Saved(w.tables, u.tables, w.pending, c.timeout, ok)
    && (!ok ==> u.pending == w.pending)
    && u.appendedAt == (if ok then [] else w.appendedAt)
    && u.attempted == |u.pending|
    && u.failures == (if ok then 0 else w.failures + 1)
    && u.failed == (if ok then w.failed else w.failed + 1)
  }

  /** The received event joins the batch. */
  function Append(w: Worker, foreign: Foreign): Worker
    requires w.queue != []
  {
    w.(queue := w.queue[1..], pending := w.pending + [Prepare(w.queue[0], foreign)],
       appendedAt := w.appendedAt + [w.now])
  }

  /** `case e := <-w.events`. */
  ghost predicate Receive(w: Worker, u: Worker, c: Config, foreign: Foreign) {
    && !w.quit && w.queue != []
    && var a := Append(w, foreign);
       if |a.pending| >= c.batchMaxSize then u.deadline == w.now + Period(c) && Attempt(a, u, c) else u == a
  }

  /** When the ticker fires next after a tick is taken at `now`. A tick that was already in the
      channel when `Reset` moved the deadline arrives early and leaves the deadline alone. */
  function NextTick(now: int, deadline: int, period: int): int
    requires period > 0
  {
    if now < deadline then deadline else deadline + period * ((now - deadline) / period + 1)
  }

  /** `case <-ticker.C`. */
  ghost predicate Tick(w: Worker, u: Worker, c: Config)
    requires c.batchMaxMsec > 0
  {
    && !w.quit
    && u.deadline == NextTick(w.now, w.deadline, Period(c))
    && if w.pending != [] then Attempt(w, u, c) else u == w.(deadline := u.deadline)
  }

  /** `case <-w.quit`. */
  ghost predicate Quit(w: Worker, u: Worker) {
    !w.quit && u == w.(quit := true)
  }

  ghost predicate Wait(w: Worker, u: Worker) {
    w.now <= u.now && u == w.(now := u.now)
  }

  ghost predicate WorkerStep(w: Worker, u: Worker, c: Config, foreign: Foreign)
    requires c.batchMaxMsec > 0
  {
    Receive(w, u, c, foreign) || Tick(w, u, c) || Quit(w, u) || Wait(w, u)
  }

  /** `queueEvent`: a send that never blocks. */
  function Send(w: Worker, e: Event, c: Config): (Worker, Call) {
    if |w.queue| < c.queueSize then (w.(queue := w.queue + [e], accepted := w.accepted + [e]), Done)
    else (w, EnqueueError)
  }

  /** One atomic piece of call `i`: parse, or compute the visitor id under some salt and count, or send. */
  function CallStep(s: State, i: nat, salt: string, c: Config, foreign: Foreign): State
    requires i < |s.calls|
  {
    match s.calls[i]
    case Received(e) =>
      (match Parse(e, c.validNames, foreign)
       case None => s.(calls := s.calls[i := ParseError], parseErrors := s.parseErrors + 1)
       case Some(p) => s.(calls := s.calls[i := Parsed(p)]))
    case Parsed(e) =>
      s.(calls := s.calls[i := Counted(e.(visitorId := foreign.visitorHash(salt, e)))], ingested := s.ingested + 1)
    case Counted(e) =>
      var sent := Send(s.w, e, c);
      s.(calls := s.calls[i := sent.1], w := sent.0,
         enqueueErrors := if sent.1.EnqueueError? then s.enqueueErrors + 1 else s.enqueueErrors)
    case _ => s
  }

  ghost predicate Step(s: State, u: State, c: Config, foreign: Foreign)
    requires c.batchMaxMsec > 0
  {
    || (exists e: Event :: u == s.(calls := s.calls + [Received(e)]))
    || (exists i, salt :: 0 <= i < |s.calls| && u == CallStep(s, i, salt, c, foreign))
    || (u == s.(w := u.w) && WorkerStep(s.w, u.w, c, foreign))
  }

  ghost predicate IsRun(run: seq<State>, c: Config, foreign: Foreign)
    requires c.batchMaxMsec > 0
  {
    && run != [] && Init(run[0], c)
    && forall k | 0 < k < |run| :: Step(run[k - 1], run[k], c, foreign)
  }

  // ---------- invariants ----------

  /** The batch limit in effect: a limit below one works like one. */
  function Limit(c: Config): int {
    if c.batchMaxSize < 1 then 1 else c.batchMaxSize
  }

  function PrepareAll(events: seq<Event>, foreign: Foreign): seq<Event> {
    seq(|events|, i requires 0 <= i < |events| => Prepare(events[i], foreign))
  }

  /** Row by row the stored form of the events. */
  ghost predicate RowsOfEvents(rows: seq<EventRow>, events: seq<Event>) {
    |rows| == |events| && forall i | 0 <= i < |rows| :: RowOfEvent(rows[i], events[i])
  }

  /** The rows this process has stored. */
  function NewRows(w: Worker): seq<EventRow>
    requires |w.initial.events| <= |w.tables.events|
  {
    w.tables.events[|w.initial.events|..]
  }

  /** The touches this process has committed. */
  function NewLog(w: Worker): seq<Touch>
    requires |w.initial.log| <= |w.tables.log|
  {
    w.tables.log[|w.initial.log|..]
  }

  /** Exactly once and in order: the accepted events are, one after the other, those stored, those
      pending (both prepared) and those still in the queue. */
  ghost predicate Conserved(w: Worker, foreign: Foreign) {
    && w.initial.events <= w.tables.events
    && var n, p := |NewRows(w)|, |w.pending|;
       && |w.accepted| == n + p + |w.queue|
       && RowsOfEvents(NewRows(w), PrepareAll(w.accepted[..n], foreign))
       && w.pending == PrepareAll(w.accepted[n..n + p], foreign)
       && w.queue == w.accepted[n + p..]
  }

  /** Until a save has failed, what is stored was stored by successful saves alone. */
  ghost predicate Uninterrupted(w: Worker, c: Config, foreign: Foreign)
    requires Conserved(w, foreign)
  {
    w.failed == 0 ==> exists batches, touches :: StoredInBatches(w, batches, touches, c, foreign)
  }

  ghost predicate StoredInBatches(w: Worker, batches: seq<seq<Event>>, touches: seq<seq<Touch>>, c: Config, foreign: Foreign)
    requires Conserved(w, foreign)
  {
    && SavesAll(w.initial, w.tables, batches, touches, c.timeout)
    && Concat(batches) == PrepareAll(w.accepted[..|NewRows(w)|], foreign)
  }

  function CountOf(owners: seq<nat>, i: nat): nat {
    if owners == [] then 0 else CountOf(Front(owners), i) + if Last(owners) == i then 1 else 0
  }

  /** Touch `k` of this process was for accepted event number `owners[k]`; no event was touched more
      often than once for each failed save and, if it is stored, once for the save that stored it. */
  ghost predicate Owned(w: Worker, owners: seq<nat>, foreign: Foreign)
    requires Conserved(w, foreign)
  {
    && w.initial.log <= w.tables.log && |owners| == |NewLog(w)|
    && (forall k | 0 <= k < |owners| ::
          owners[k] < |w.accepted| && NewLog(w)[k].event == Prepare(w.accepted[owners[k]], foreign))
    && (forall i: nat :: CountOf(owners, i) <= w.failed + if i < |NewRows(w)| then 1 else 0)
  }

  /** Event number `i` has a touch at `places[i]`, and these touches come in the order of the events. */
  ghost predicate Placed(owners: seq<nat>, places: seq<nat>) {
    && (forall i | 0 <= i < |places| :: places[i] < |owners| && owners[places[i]] == i)
    && (forall i, j | 0 <= i < j < |places| :: places[i] < places[j])
  }

  ghost predicate LogOwned(w: Worker, foreign: Foreign)
    requires Conserved(w, foreign)
  {
    exists owners, places :: Owned(w, owners, foreign) && |places| == |NewRows(w)| && Placed(owners, places)
  }

  /** No unattempted event has waited past the next tick that is due within a period of its arrival. */
  ghost predicate Timed(w: Worker, c: Config) {
    && |w.appendedAt| == |w.pending| && w.attempted <= |w.pending|
    && w.deadline <= w.now + Period(c)
    && forall k | w.attempted <= k < |w.pending| :: w.deadline <= w.appendedAt[k] + Period(c)
  }

  ghost predicate Named(events: seq<Event>, c: Config) {
    forall i | 0 <= i < |events| :: ValidEventName(c.validNames, events[i].name)
  }

  /** The invariant without the batch bound, which does not hold inside a select arm. */
  ghost predicate Loose(w: Worker, c: Config, foreign: Foreign) {
    && Inv(w.tables, c.timeout)
    && Conserved(w, foreign) && Uninterrupted(w, c, foreign) && LogOwned(w, foreign)
    && Timed(w, c) && Named(w.accepted, c)
    && |w.queue| <= c.queueSize
  }

  ghost predicate WorkerInv(w: Worker, c: Config, foreign: Foreign) {
    Loose(w, c, foreign) && |w.pending| <= Limit(c) - 1 + w.failures
  }

  datatype Progress = AtStart | AtParsed | AtCounted | AtParseError | AtEnqueueError | AtDone

  function ProgressOf(call: Call): Progress {
    match call
    case Received(_) => AtStart
    case Parsed(_) => AtParsed
    case Counted(_) => AtCounted
    case ParseError => AtParseError
    case EnqueueError => AtEnqueueError
    case Done => AtDone
  }

  /** How many calls have come exactly that far. */
  function CallsAt(calls: seq<Call>, at: Progress): nat {
    if calls == [] then 0 else CallsAt(Front(calls), at) + if ProgressOf(Last(calls)) == at then 1 else 0
  }

  ghost predicate CallsInv(s: State, c: Config) {
    && s.parseErrors == CallsAt(s.calls, AtParseError)
    && s.enqueueErrors == CallsAt(s.calls, AtEnqueueError)
    && |s.w.accepted| == CallsAt(s.calls, AtDone)
    && s.ingested == CallsAt(s.calls, AtCounted) + s.enqueueErrors + |s.w.accepted|
    && forall i | 0 <= i < |s.calls| && (s.calls[i].Parsed? || s.calls[i].Counted?) ::
         ValidEventName(c.validNames, s.calls[i].event.name)
  }

  // ---------- the worker's steps keep its invariant ----------

  lemma {:induction false} PrepareAllConcat(events: seq<Event>, i: nat, j: nat, k: nat, foreign: Foreign)
    requires i <= j <= k <= |events|
    ensures PrepareAll(events[i..k], foreign) == PrepareAll(events[i..j], foreign) + PrepareAll(events[j..k], foreign)
  {
  }

  lemma {:induction false} AppendKeepsConserved(w: Worker, foreign: Foreign)
    requires w.queue != [] && Conserved(w, foreign)
    ensures Conserved(Append(w, foreign), foreign)
  {
    hide RowsOfEvents, Prepare;
    var n, p := |NewRows(w)|, |w.pending|;
    assert w.queue[0] == w.accepted[n + p];
    assert w.queue[1..] == w.accepted[n + p + 1..];
    PrepareAllConcat(w.accepted, n, n + p, n + p + 1, foreign);
    assert w.accepted[n + p..n + p + 1] == [w.queue[0]];
    assert PrepareAll([w.queue[0]], foreign) == [Prepare(w.queue[0], foreign)];
  }

  /** The log invariants look only at what is stored and what is accepted. */
  lemma {:induction false} LogAlike(w: Worker, u: Worker, c: Config, foreign: Foreign)
    requires Conserved(w, foreign) && Uninterrupted(w, c, foreign) && LogOwned(w, foreign)
    requires Conserved(u, foreign) && u.initial == w.initial && u.tables == w.tables && u.failed == w.failed
    requires w.accepted <= u.accepted
    ensures Uninterrupted(u, c, foreign) && LogOwned(u, foreign)
  {
    hide SavesAll, RowsOfEvents, PrepareAll, Placed, CountOf;
    assert u.accepted[..|NewRows(w)|] == w.accepted[..|NewRows(w)|];
    var owners, places :| Owned(w, owners, foreign) && |places| == |NewRows(w)| && Placed(owners, places);
    assert Owned(u, owners, foreign);
    if w.failed == 0 {
      var batches, touches :| StoredInBatches(w, batches, touches, c, foreign);
      assert StoredInBatches(u, batches, touches, c, foreign);
    }
  }

  lemma {:induction false} AppendKeeps(w: Worker, c: Config, foreign: Foreign)
    requires c.batchMaxMsec > 0 && w.queue != [] && Loose(w, c, foreign)
    ensures Loose(Append(w, foreign), c, foreign)
  {
    hide Inv, Conserved, LogOwned, Uninterrupted, PrepareAll;
    AppendKeepsConserved(w, foreign);
    var a := Append(w, foreign);
    LogAlike(w, a, c, foreign);
    assert Timed(a, c) by {
      assert forall k | w.attempted <= k < |w.pending| :: a.appendedAt[k] == w.appendedAt[k];
    }
  }

  // ---------- a save and conservation ----------

  lemma {:induction false} RowsOfEventsConcat(a: seq<EventRow>, x: seq<Event>, b: seq<EventRow>, y: seq<Event>)
    requires RowsOfEvents(a, x) && RowsOfEvents(b, y)
    ensures RowsOfEvents(a + b, x + y) && |b| == |y|
  {
  }

  lemma {:induction false} StoreKeepsConserved(w: Worker, u: Worker, rows: seq<EventRow>, foreign: Foreign)
    requires Conserved(w, foreign) && u.accepted == w.accepted && u.queue == w.queue && u.initial == w.initial
    requires u.pending == [] && u.tables.events == w.tables.events + rows && RowsOfEvents(rows, w.pending)
    ensures Conserved(u, foreign) && NewRows(u) == NewRows(w) + rows && |rows| == |w.pending|
    ensures PrepareAll(u.accepted[..|NewRows(u)|], foreign) == PrepareAll(w.accepted[..|NewRows(w)|], foreign) + w.pending
  {
    hide RowsOfEvents;
    var n, p := |NewRows(w)|, |w.pending|;
    PrepareAllConcat(w.accepted, 0, n, n + p, foreign);
    assert w.accepted[0..n] == w.accepted[..n] && w.accepted[0..n + p] == w.accepted[..n + p];
    assert NewRows(u) == NewRows(w) + rows;
    RowsOfEventsConcat(NewRows(w), PrepareAll(w.accepted[..n], foreign), rows, w.pending);
    assert PrepareAll(w.accepted[n + p..n + p], foreign) == [];
  }

  /** What the rows of a successful save are, and that a failed one writes none. */
  lemma {:induction false} SavedRows(t: Tables, u: Tables, touches: seq<Touch>, batch: seq<Event>, timeout: int, ok: bool)
    returns (rows: seq<EventRow>)
    requires Saves(t, u, touches, batch, timeout, ok)
    ensures u.events == t.events + rows && if ok then RowsOfEvents(rows, batch) else rows == []
  {
    rows := if ok then EventRows(batch, u.domains, LastSessions(touches)) else [];
  }

  lemma {:induction false} AttemptConserves(w: Worker, u: Worker, touches: seq<Touch>, c: Config, foreign: Foreign)
    requires Conserved(w, foreign) && SameClockAndQueue(w, u)
    requires Saves(w.tables, u.tables, touches, w.pending, c.timeout, u.pending == [])
    requires u.pending == [] || u.pending == w.pending
    ensures Conserved(u, foreign)
    ensures u.pending != [] ==> NewRows(u) == NewRows(w)
    ensures u.pending == [] ==>
              && |NewRows(u)| == |NewRows(w)| + |w.pending|
              && PrepareAll(u.accepted[..|NewRows(u)|], foreign) == PrepareAll(w.accepted[..|NewRows(w)|], foreign) + w.pending
  {
    hide Saves;
    var rows := SavedRows(w.tables, u.tables, touches, w.pending, c.timeout, u.pending == []);
    if u.pending == [] {
      StoreKeepsConserved(w, u, rows, foreign);
    }
  }

  lemma {:induction false} AttemptUninterrupted(w: Worker, u: Worker, touches: seq<Touch>, c: Config, foreign: Foreign)
    requires Conserved(w, foreign) && Uninterrupted(w, c, foreign) && Conserved(u, foreign)
    requires Saves(w.tables, u.tables, touches, w.pending, c.timeout, u.pending == [])
    requires u.initial == w.initial && u.failed == w.failed + if u.pending == [] then 0 else 1
    requires u.pending == [] ==>
               PrepareAll(u.accepted[..|NewRows(u)|], foreign) == PrepareAll(w.accepted[..|NewRows(w)|], foreign) + w.pending
    ensures Uninterrupted(u, c, foreign)
  {
    hide Saves, RowsOfEvents, PrepareAll;
    if u.failed == 0 {
      var batches, past :| StoredInBatches(w, batches, past, c, foreign);
      SavesAllSnoc(w.initial, w.tables, u.tables, batches, past, w.pending, touches, c.timeout);
      assert StoredInBatches(u, batches + [w.pending], past + [touches], c, foreign);
    }
  }

  // ---------- a save and the log ----------

  function Range(from: nat, n: nat): seq<nat> {
    seq(n, i => from + i)
  }

  lemma {:induction false} CountOfRange(owners: seq<nat>, from: nat, n: nat, i: nat)
    ensures CountOf(owners + Range(from, n), i) == CountOf(owners, i) + if from <= i < from + n then 1 else 0
  {
    if n == 0 {
      assert owners + Range(from, 0) == owners;
    } else {
      assert Front(owners + Range(from, n)) == owners + Range(from, n - 1);
      CountOfRange(owners, from, n - 1, i);
    }
  }

  lemma {:induction false} AttemptOwned(w: Worker, u: Worker, owners: seq<nat>, touches: seq<Touch>, foreign: Foreign)
    requires Conserved(w, foreign) && Owned(w, owners, foreign) && Conserved(u, foreign)
    requires u.accepted == w.accepted && u.initial == w.initial
    requires u.tables.log == w.tables.log + touches && Serves(touches, w.pending)
    requires if u.pending == [] then |NewRows(u)| == |NewRows(w)| + |w.pending| && u.failed == w.failed
             else NewRows(u) == NewRows(w) && u.failed == w.failed + 1
    ensures Owned(u, owners + Range(|NewRows(w)|, |touches|), foreign)
  {
    hide RowsOfEvents, CountOf, PrepareAll, Prepare;
    var n := |NewRows(w)|;
    var more := owners + Range(n, |touches|);
    assert NewLog(u) == NewLog(w) + touches;
    forall k | 0 <= k < |more| ensures more[k] < |w.accepted| && NewLog(u)[k].event == Prepare(w.accepted[more[k]], foreign) {
      if k >= |owners| {
        PendingTouch(w, touches, k - |owners|, foreign);
      }
    }
    forall i: nat ensures CountOf(more, i) <= u.failed + if i < |NewRows(u)| then 1 else 0 {
      CountOfRange(owners, n, |touches|, i);
    }
  }

  lemma {:induction false} PendingTouch(w: Worker, touches: seq<Touch>, k: nat, foreign: Foreign)
    requires Conserved(w, foreign) && Serves(touches, w.pending) && k < |touches|
    ensures |NewRows(w)| + k < |w.accepted| && touches[k].event == Prepare(w.accepted[|NewRows(w)| + k], foreign)
  {
  }

  lemma {:induction false} PlacedAfter(owners: seq<nat>, places: seq<nat>, n: nat)
    requires Placed(owners, places)
    ensures Placed(owners + Range(|places|, n), places)
    ensures Placed(owners + Range(|places|, n), places + Range(|owners|, n))
  {
  }

  lemma {:induction false} AttemptLogOwned(w: Worker, u: Worker, touches: seq<Touch>, foreign: Foreign)
    requires Conserved(w, foreign) && LogOwned(w, foreign) && Conserved(u, foreign)
    requires u.accepted == w.accepted && u.initial == w.initial
    requires u.tables.log == w.tables.log + touches && Serves(touches, w.pending)
    requires if u.pending == [] then |NewRows(u)| == |NewRows(w)| + |w.pending| && u.failed == w.failed && |touches| == |w.pending|
             else NewRows(u) == NewRows(w) && u.failed == w.failed + 1
    ensures LogOwned(u, foreign)
  {
    hide Owned, Placed, RowsOfEvents, PrepareAll, Serves;
    var owners, places :| Owned(w, owners, foreign) && |places| == |NewRows(w)| && Placed(owners, places);
    AttemptOwned(w, u, owners, touches, foreign);
    PlacedAfter(owners, places, |touches|);
  }

  lemma {:induction false} AttemptKeeps(w: Worker, u: Worker, c: Config, foreign: Foreign)
    requires w.pending != [] && Loose(w, c, foreign) && Attempt(w, u, c)
    requires u.deadline <= u.now + Period(c)
    ensures Loose(u, c, foreign)
  {
    hide Inv, Saves, Conserved, Uninterrupted, LogOwned, PrepareAll, Serves;
    var touches :| Saves(w.tables, u.tables, touches, w.pending, c.timeout, u.pending == []);
    SaveKeepsInv(w.tables, u.tables, touches, w.pending, c.timeout, u.pending == []);
    SavedLog(w.tables, u.tables, touches, w.pending, c.timeout, u.pending == []);
    AttemptConserves(w, u, touches, c, foreign);
    AttemptUninterrupted(w, u, touches, c, foreign);
    AttemptLogOwned(w, u, touches, foreign);
  }

  // ---------- the worker's steps ----------

  lemma {:induction false} NonNegativeProduct(a: int, b: int)
    requires a >= 0 && b >= 0
    ensures a * b >= 0
  {
  }

  lemma {:induction false} Multiples(p: int, k: int)
    requires p > 0
    ensures k >= 1 ==> p * k >= p
    ensures k <= -1 ==> p * k <= -p
  {
    if k >= 1 {
      NonNegativeProduct(p, k - 1);
      assert p * (k - 1) == p * k - p;
    } else if k <= -1 {
      NonNegativeProduct(p, -1 - k);
      assert p * (-1 - k) == -p - p * k;
    }
  }

  lemma {:induction false} WholePeriods(n: int, p: int)
    requires p > 0
    ensures (p * n) % p == 0
  {
    var x := p * n;
    assert x == p * (x / p) + x % p;
    assert p * (n - x / p) == p * n - p * (x / p);
    Multiples(p, n - x / p);
  }

  lemma {:induction false} SumOfWhole(a: int, b: int, p: int)
    requires p > 0 && a % p == 0 && b % p == 0
    ensures (a + b) % p == 0
  {
    assert a == p * (a / p) && b == p * (b / p);
    assert p * (a / p + b / p) == p * (a / p) + p * (b / p);
    WholePeriods(a / p + b / p, p);
  }

  /** An early tick leaves the deadline alone. Otherwise the next tick is due at the first instant
      after `now` that is a whole number of periods after the old deadline. */
  lemma {:induction false} NextTickExact(now: int, deadline: int, period: int)
    requires period > 0
    ensures var next := NextTick(now, deadline, period);
            if now < deadline then next == deadline
            else now < next <= now + period && (next - deadline) % period == 0
  {
    if now >= deadline {
      var q := (now - deadline) / period;
      assert now - deadline == period * q + (now - deadline) % period;
      assert period * (q + 1) == period * q + period;
      WholePeriods(q + 1, period);
    }
  }

  lemma {:induction false} ReceiveKeeps(w: Worker, u: Worker, c: Config, foreign: Foreign)
    requires c.batchMaxMsec > 0 && WorkerInv(w, c, foreign) && Receive(w, u, c, foreign)
    ensures WorkerInv(u, c, foreign)
  {
    hide Inv, Conserved, LogOwned, Uninterrupted, Saved;
    AppendKeeps(w, c, foreign);
    if |w.pending| + 1 >= c.batchMaxSize {
      AttemptKeeps(Append(w, foreign), u, c, foreign);
    }
  }

  /** Nothing but the clock, the ticker or the quit flag has changed. */
  lemma {:induction false} TimeKeeps(w: Worker, u: Worker, c: Config, foreign: Foreign)
    requires WorkerInv(w, c, foreign) && u == w.(now := u.now, deadline := u.deadline, quit := u.quit)
    requires u.deadline <= u.now + Period(c)
    requires u.deadline <= w.deadline || w.pending == []
    ensures WorkerInv(u, c, foreign)
  {
    hide Inv, LogOwned, Uninterrupted, PrepareAll, RowsOfEvents;
    LogAlike(w, u, c, foreign);
  }

  lemma {:induction false} TickKeeps(w: Worker, u: Worker, c: Config, foreign: Foreign)
    requires c.batchMaxMsec > 0 && WorkerInv(w, c, foreign) && Tick(w, u, c)
    ensures WorkerInv(u, c, foreign)
  {
    hide Inv, Conserved, LogOwned, Uninterrupted, Saved;
    NextTickExact(w.now, w.deadline, Period(c));
    if w.pending != [] {
      AttemptKeeps(w, u, c, foreign);
    } else {
      TimeKeeps(w, u, c, foreign);
    }
  }

  lemma {:induction false} WorkerStepKeeps(w: Worker, u: Worker, c: Config, foreign: Foreign)
    requires c.batchMaxMsec > 0 && WorkerInv(w, c, foreign) && WorkerStep(w, u, c, foreign)
    ensures WorkerInv(u, c, foreign)
  {
    hide Inv, Conserved, LogOwned, Uninterrupted, Receive, Tick;
    if Receive(w, u, c, foreign) {
      ReceiveKeeps(w, u, c, foreign);
    } else if Tick(w, u, c) {
      TickKeeps(w, u, c, foreign);
    } else {
      TimeKeeps(w, u, c, foreign);
    }
  }

  // ---------- the calls' steps keep the invariant ----------

  lemma {:induction false} CallsAtUpdate(calls: seq<Call>, i: nat, call: Call, at: Progress)
    requires i < |calls|
    ensures CallsAt(calls[i := call], at) + (if ProgressOf(calls[i]) == at then 1 else 0) ==
            CallsAt(calls, at) + (if ProgressOf(call) == at then 1 else 0)
  {
    var after := calls[i := call];
    if i == |calls| - 1 {
      assert Front(after) == Front(calls);
    } else {
      assert Front(after) == Front(calls)[i := call];
      CallsAtUpdate(Front(calls), i, call, at);
    }
  }

  lemma {:induction false} SendConserves(w: Worker, e: Event, foreign: Foreign)
    requires Conserved(w, foreign)
    ensures Conserved(w.(queue := w.queue + [e], accepted := w.accepted + [e]), foreign)
  {
    var u := w.(queue := w.queue + [e], accepted := w.accepted + [e]);
    var n, p := |NewRows(w)|, |w.pending|;
    assert u.accepted[..n] == w.accepted[..n];
    assert u.accepted[n..n + p] == w.accepted[n..n + p];
    assert u.accepted[n + p..] == w.accepted[n + p..] + [e];
  }

  lemma {:induction false} SendKeeps(w: Worker, e: Event, c: Config, foreign: Foreign)
    requires WorkerInv(w, c, foreign) && ValidEventName(c.validNames, e.name) && |w.queue| < c.queueSize
    ensures WorkerInv(w.(queue := w.queue + [e], accepted := w.accepted + [e]), c, foreign)
  {
    hide Inv, Conserved, LogOwned, Uninterrupted, PrepareAll;
    SendConserves(w, e, foreign);
    LogAlike(w, w.(queue := w.queue + [e], accepted := w.accepted + [e]), c, foreign);
  }

  lemma {:induction false} CallStepKeepsWorker(s: State, i: nat, salt: string, c: Config, foreign: Foreign)
    requires i < |s.calls| && WorkerInv(s.w, c, foreign) && CallsInv(s, c)
    ensures WorkerInv(CallStep(s, i, salt, c, foreign).w, c, foreign)
  {
    if s.calls[i].Counted? && |s.w.queue| < c.queueSize {
      SendKeeps(s.w, s.calls[i].event, c, foreign);
    }
  }

  lemma {:induction false} CallStepKeepsCalls(s: State, i: nat, salt: string, c: Config, foreign: Foreign)
    requires i < |s.calls| && CallsInv(s, c)
    ensures CallsInv(CallStep(s, i, salt, c, foreign), c)
  {
    hide CallsAt, DomainPath, TrimWww;
    var u := CallStep(s, i, salt, c, foreign);
    CallsAtUpdate(s.calls, i, u.calls[i], AtParseError);
    CallsAtUpdate(s.calls, i, u.calls[i], AtEnqueueError);
    CallsAtUpdate(s.calls, i, u.calls[i], AtDone);
    CallsAtUpdate(s.calls, i, u.calls[i], AtCounted);
    assert u.calls == s.calls[i := u.calls[i]];
  }

  lemma {:induction false} ArrivalKeepsCalls(s: State, e: Event, c: Config)
    requires CallsInv(s, c)
    ensures CallsInv(s.(calls := s.calls + [Received(e)]), c)
  {
    assert Front(s.calls + [Received(e)]) == s.calls;
  }

  ghost predicate PipelineInv(s: State, c: Config, foreign: Foreign) {
    WorkerInv(s.w, c, foreign) && CallsInv(s, c)
  }

  lemma {:induction false} WorkerStepAccepts(w: Worker, u: Worker, c: Config, foreign: Foreign)
    requires c.batchMaxMsec > 0 && WorkerStep(w, u, c, foreign)
    ensures u.accepted == w.accepted && (w.quit ==> u == w.(now := u.now))
  {
  }

  lemma {:induction false} StepKeeps(s: State, u: State, c: Config, foreign: Foreign)
    requires c.batchMaxMsec > 0 && PipelineInv(s, c, foreign) && Step(s, u, c, foreign)
    ensures PipelineInv(u, c, foreign)
  {
    if e: Event :| u == s.(calls := s.calls + [Received(e)]) {
      ArrivalKeepsCalls(s, e, c);
    } else if i, salt :| 0 <= i < |s.calls| && u == CallStep(s, i, salt, c, foreign) {
      CallStepKeepsWorker(s, i, salt, c, foreign);
      CallStepKeepsCalls(s, i, salt, c, foreign);
    } else {
      WorkerStepKeeps(s.w, u.w, c, foreign);
      WorkerStepAccepts(s.w, u.w, c, foreign);
    }
  }

  /** A worker satisfies its invariant from the start, on whatever tables satisfy theirs. */
  lemma {:induction false} StartHolds(tables: Tables, now: int, c: Config, foreign: Foreign)
    requires c.batchMaxMsec > 0 && Inv(tables, c.timeout)
    ensures WorkerInv(Started(tables, now, c), c, foreign)
  {
    hide Inv, Conserved, LogOwned, Uninterrupted;
    StartConserved(tables, now, c, foreign);
    StartLog(Started(tables, now, c), c, foreign);
  }

  lemma {:induction false} StartConserved(tables: Tables, now: int, c: Config, foreign: Foreign)
    ensures Conserved(Started(tables, now, c), foreign)
  {
  }

  lemma {:induction false} StartLog(w: Worker, c: Config, foreign: Foreign)
    requires Conserved(w, foreign) && w.accepted == [] && w.initial == w.tables
    ensures LogOwned(w, foreign) && Uninterrupted(w, c, foreign)
  {
    hide Conserved;
    assert Owned(w, [], foreign) && Placed([], []);
    assert SavesAll(w.initial, w.tables, [], [], c.timeout);
    assert Concat<Event>([]) == PrepareAll(w.accepted[..0], foreign);
    assert StoredInBatches(w, [], [], c, foreign);
  }

  lemma {:induction false} InitHolds(s: State, c: Config, foreign: Foreign)
    requires c.batchMaxMsec > 0 && Init(s, c)
    ensures PipelineInv(s, c, foreign)
  {
    hide Inv, WorkerInv;
    StartHolds(s.w.tables, s.w.now, c, foreign);
  }

  /** Every state of every run satisfies the invariant, whatever fails and however steps interleave. */
  lemma {:induction false} RunKeeps(run: seq<State>, c: Config, foreign: Foreign, k: nat)
    requires c.batchMaxMsec > 0 && IsRun(run, c, foreign) && k < |run|
    ensures PipelineInv(run[k], c, foreign)
  {
    if k == 0 {
      InitHolds(run[0], c, foreign);
    } else {
      RunKeeps(run, c, foreign, k - 1);
      StepKeeps(run[k - 1], run[k], c, foreign);
    }
  }

  // ---------- what holds over whole runs ----------

  /** A process may start on what another, with the same session timeout, has left at any point. */
  lemma {:induction false} Restart(run: seq<State>, c: Config, foreign: Foreign, k: nat, now: int, c': Config)
    requires c.batchMaxMsec > 0 && IsRun(run, c, foreign) && k < |run| && c'.timeout == c.timeout
    ensures Init(State([], 0, 0, 0, Started(run[k].w.tables, now, c')), c')
  {
    RunKeeps(run, c, foreign, k);
  }

  /** The tables in every reachable state: sessions are the timelines cut at the timeout, foreign
      keys hold, and after the rows found at the start come the stored forms of the accepted events,
      in order, all with valid names. */
  lemma {:induction false} StoredSoFar(run: seq<State>, c: Config, foreign: Foreign, k: nat)
    requires c.batchMaxMsec > 0 && IsRun(run, c, foreign) && k < |run|
    ensures var w := run[k].w;
            && Inv(w.tables, c.timeout)
            && w.initial == run[0].w.tables && w.initial.events <= w.tables.events
            && |w.accepted| == |NewRows(w)| + |w.pending| + |w.queue|
            && (forall i | 0 <= i < |NewRows(w)| ::
                  var row, e := NewRows(w)[i], w.accepted[i];
                  && row.visitorId == e.visitorId && row.name == e.name && row.path == e.path
                  && row.referrer == e.referrer && row.loadTime == e.loadTime && row.ttfb == e.ttfb
                  && row.name != "" && row.name in c.validNames)
            && (forall i | 0 <= i < |w.pending| ::
                  var p, e := w.pending[i], w.accepted[|NewRows(w)| + i];
                  && p == e.(agent := p.agent, place := p.place, clientIp := "", userAgent := "")
                  && p.name != "" && p.name in c.validNames)
            && (forall i | 0 <= i < |w.queue| ::
                  && w.queue[i] == w.accepted[|NewRows(w)| + |w.pending| + i]
                  && w.queue[i].name != "" && w.queue[i].name in c.validNames)
  {
    hide Inv, Uninterrupted, LogOwned;
    RunKeeps(run, c, foreign, k);
    InitialKept(run, c, foreign, k);
  }

  lemma {:induction false} InitialKept(run: seq<State>, c: Config, foreign: Foreign, k: nat)
    requires c.batchMaxMsec > 0 && IsRun(run, c, foreign) && k < |run|
    ensures run[k].w.initial == run[0].w.tables
  {
    hide Saved;
    if k > 0 {
      InitialKept(run, c, foreign, k - 1);
      assert Step(run[k - 1], run[k], c, foreign);
    }
  }

  /** Counter conservation over all interleavings. */
  lemma {:induction false} CountersAddUp(run: seq<State>, c: Config, foreign: Foreign, k: nat)
    requires c.batchMaxMsec > 0 && IsRun(run, c, foreign) && k < |run|
    ensures var s := run[k];
            && |s.calls| == CallsAt(s.calls, AtStart) + CallsAt(s.calls, AtParsed) + CallsAt(s.calls, AtCounted)
                            + s.parseErrors + s.enqueueErrors + |s.w.accepted|
            && s.ingested == |s.w.accepted| + s.enqueueErrors + CallsAt(s.calls, AtCounted)
            && |s.w.queue| <= c.queueSize
  {
    RunKeeps(run, c, foreign, k);
    EveryCallSomewhere(run[k].calls);
  }

  lemma {:induction false} EveryCallSomewhere(calls: seq<Call>)
    ensures |calls| == CallsAt(calls, AtStart) + CallsAt(calls, AtParsed) + CallsAt(calls, AtCounted)
                       + CallsAt(calls, AtParseError) + CallsAt(calls, AtEnqueueError) + CallsAt(calls, AtDone)
  {
    if calls != [] {
      EveryCallSomewhere(Front(calls));
    }
  }

  /** The batch stays below its limit but for one event per failed save since the last success. */
  lemma {:induction false} BatchBound(run: seq<State>, c: Config, foreign: Foreign, k: nat)
    requires c.batchMaxMsec > 0 && IsRun(run, c, foreign) && k < |run|
    ensures var w, limit := run[k].w, if c.batchMaxSize < 1 then 1 else c.batchMaxSize;
            |w.pending| <= limit - 1 + w.failures && (|w.pending| >= limit ==> w.failures > 0)
  {
    RunKeeps(run, c, foreign, k);
  }

  /** A step leaves the batch as it is, empties it, or adds an event received just then. */
  lemma {:induction false} StepPending(w: Worker, u: Worker, c: Config, foreign: Foreign)
    requires c.batchMaxMsec > 0 && WorkerStep(w, u, c, foreign)
    ensures BatchStep(w, u)
  {
    hide Injective, Grows, Replays, DomainsFit, Serves, Ordered, Prepare, EventRows;
  }

  ghost predicate BatchStep(w: Worker, u: Worker) {
    || u.pending == []
    || (u.pending == w.pending && u.appendedAt == w.appendedAt && u.tables.events == w.tables.events)
    || (&& |u.queue| < |w.queue| && |u.pending| == |w.pending| + 1
        && u.appendedAt == w.appendedAt + [u.now] && u.tables.events == w.tables.events)
  }

  lemma {:induction false} RunStepPending(run: seq<State>, c: Config, foreign: Foreign, k: nat)
    requires c.batchMaxMsec > 0 && IsRun(run, c, foreign) && 0 < k < |run|
    ensures BatchStep(run[k - 1].w, run[k].w)
  {
    hide WorkerStep, Init;
    var s, u := run[k - 1], run[k];
    assert Step(s, u, c, foreign);
    if WorkerStep(s.w, u.w, c, foreign) {
      StepPending(s.w, u.w, c, foreign);
    }
  }

  lemma {:induction false} PendingNoted(run: seq<State>, c: Config, foreign: Foreign, k: nat)
    requires c.batchMaxMsec > 0 && IsRun(run, c, foreign) && k < |run|
    ensures |run[k].w.appendedAt| == |run[k].w.pending|
    ensures k == 0 ==> run[k].w.pending == []
  {
    hide Inv, Conserved, Uninterrupted, LogOwned, Named, CallsInv, Step;
    RunKeeps(run, c, foreign, k);
  }

  /** Pending event `i` was received, at the time noted for it, by the step that ended in state `j`:
      it is the event that was then next in line behind those stored and pending. */
  lemma {:induction false} PendingSince(run: seq<State>, c: Config, foreign: Foreign, k: nat, i: nat) returns (j: nat)
    requires c.batchMaxMsec > 0 && IsRun(run, c, foreign) && k < |run| && i < |run[k].w.pending|
    ensures 0 < j <= k && |run[j].w.queue| < |run[j - 1].w.queue|
    ensures |run[j - 1].w.tables.events| + |run[j - 1].w.pending| == |run[k].w.tables.events| + i
    ensures |run[k].w.appendedAt| == |run[k].w.pending| && run[k].w.appendedAt[i] == run[j].w.now
  {
    hide IsRun;
    PendingNoted(run, c, foreign, k);
    PendingNoted(run, c, foreign, k - 1);
    RunStepPending(run, c, foreign, k);
    if i < |run[k - 1].w.pending| {
      j := PendingSince(run, c, foreign, k - 1, i);
    } else {
      j := k;
    }
  }

  /** How long an event can be pending without a save attempt: one ticker period, plus however late
      the worker is in taking the tick that is due. The event was received in the step to state `j`. */
  lemma {:induction false} AttemptInTime(run: seq<State>, c: Config, foreign: Foreign, k: nat, i: nat) returns (j: nat)
    requires c.batchMaxMsec > 0 && IsRun(run, c, foreign) && k < |run|
    requires run[k].w.attempted <= i < |run[k].w.pending|
    ensures 0 < j <= k && |run[j].w.queue| < |run[j - 1].w.queue|
    ensures |run[j - 1].w.tables.events| + |run[j - 1].w.pending| == |run[k].w.tables.events| + i
    ensures var now, deadline := run[k].w.now, run[k].w.deadline;
            now - run[j].w.now <= 1000 * c.batchMaxMsec + (if now > deadline then now - deadline else 0)
  {
    hide Inv, Conserved, Uninterrupted, LogOwned, Named, CallsInv;
    RunKeeps(run, c, foreign, k);
    j := PendingSince(run, c, foreign, k, i);
  }

  /** The worker has received an event that fills the batch. */
  ghost predicate SizeFlush(w: Worker, u: Worker, c: Config) {
    |u.queue| < |w.queue| && |w.pending| + 1 >= c.batchMaxSize
  }

  ghost predicate WholePeriodsApart(a: int, b: int, period: int)
    requires period > 0
  {
    a <= b && (b - a) % period == 0
  }

  lemma {:induction false} ApartTransitive(a: int, b: int, c: int, period: int)
    requires period > 0 && WholePeriodsApart(a, b, period) && WholePeriodsApart(b, c, period)
    ensures WholePeriodsApart(a, c, period)
  {
    SumOfWhole(b - a, c - b, period);
  }

  lemma {:induction false} ApartSame(a: int, period: int)
    requires period > 0
    ensures WholePeriodsApart(a, a, period)
  {
  }

  lemma {:induction false} NextTickApart(now: int, deadline: int, period: int)
    requires period > 0
    ensures WholePeriodsApart(deadline, NextTick(now, deadline, period), period)
  {
    hide NextTick;
    NextTickExact(now, deadline, period);
  }

  lemma {:induction false} StepDeadline(w: Worker, u: Worker, c: Config, foreign: Foreign)
    requires c.batchMaxMsec > 0 && w.deadline <= w.now + Period(c) && WorkerStep(w, u, c, foreign)
    ensures if SizeFlush(w, u, c) then w.deadline <= u.deadline == u.now + Period(c)
            else WholePeriodsApart(w.deadline, u.deadline, Period(c))
  {
    hide Saved, Prepare, NextTick, WholePeriodsApart;
    ApartSame(w.deadline, Period(c));
    NextTickApart(w.now, w.deadline, Period(c));
  }

  lemma {:induction false} RunStepDeadline(run: seq<State>, c: Config, foreign: Foreign, k: nat)
    requires c.batchMaxMsec > 0 && IsRun(run, c, foreign) && 0 < k < |run|
    ensures if SizeFlush(run[k - 1].w, run[k].w, c)
            then run[k - 1].w.deadline <= run[k].w.deadline == run[k].w.now + Period(c)
            else WholePeriodsApart(run[k - 1].w.deadline, run[k].w.deadline, Period(c))
  {
    hide Inv, Conserved, Uninterrupted, LogOwned, Named, CallsInv, WorkerStep, WholePeriodsApart;
    RunKeeps(run, c, foreign, k - 1);
    var s, u := run[k - 1], run[k];
    assert Step(s, u, c, foreign);
    if WorkerStep(s.w, u.w, c, foreign) {
      StepDeadline(s.w, u.w, c, foreign);
    } else {
      ApartSame(s.w.deadline, Period(c));
    }
  }

  lemma {:induction false} DeadlinesApart(run: seq<State>, c: Config, foreign: Foreign, j: nat, k: nat)
    requires c.batchMaxMsec > 0 && IsRun(run, c, foreign) && j <= k < |run|
    requires forall i | j < i <= k :: !SizeFlush(run[i - 1].w, run[i].w, c)
    ensures WholePeriodsApart(run[j].w.deadline, run[k].w.deadline, Period(c))
  {
    hide IsRun, SizeFlush, WholePeriodsApart;
    if j < k {
      DeadlinesApart(run, c, foreign, j, k - 1);
      RunStepDeadline(run, c, foreign, k);
      ApartTransitive(run[j].w.deadline, run[k - 1].w.deadline, run[k].w.deadline, Period(c));
    } else {
      ApartSame(run[j].w.deadline, Period(c));
    }
  }

  /** The ticker beats evenly: as long as no full batch resets it, deadlines lie whole periods apart. */
  lemma {:induction false} DeadlinesAligned(run: seq<State>, c: Config, foreign: Foreign, j: nat, k: nat)
    requires c.batchMaxMsec > 0 && IsRun(run, c, foreign) && j <= k < |run|
    requires forall i | j < i <= k :: !SizeFlush(run[i - 1].w, run[i].w, c)
    ensures run[j].w.deadline <= run[k].w.deadline
    ensures (run[k].w.deadline - run[j].w.deadline) % (1000 * c.batchMaxMsec) == 0
  {
    hide IsRun, SizeFlush;
    DeadlinesApart(run, c, foreign, j, k);
  }

  /** The first tick is due a whole period after the start, and none before. */
  lemma {:induction false} FirstTick(run: seq<State>, c: Config, foreign: Foreign, k: nat)
    requires c.batchMaxMsec > 0 && IsRun(run, c, foreign) && k < |run|
    ensures run[0].w.deadline == run[0].w.now + 1000 * c.batchMaxMsec <= run[k].w.deadline
  {
    hide Step, SizeFlush;
    if k > 0 {
      FirstTick(run, c, foreign, k - 1);
      RunStepDeadline(run, c, foreign, k);
    }
  }

  /** A full batch resets the ticker: no tick is due before a whole period has passed since. */
  lemma {:induction false} FlushResetsTicker(run: seq<State>, c: Config, foreign: Foreign, j: nat, k: nat)
    requires c.batchMaxMsec > 0 && IsRun(run, c, foreign) && 0 < j <= k < |run|
    requires SizeFlush(run[j - 1].w, run[j].w, c)
    ensures run[j].w.now + 1000 * c.batchMaxMsec == run[j].w.deadline <= run[k].w.deadline
  {
    hide IsRun, SizeFlush;
    RunStepDeadline(run, c, foreign, k);
    if j < k {
      FlushResetsTicker(run, c, foreign, j, k - 1);
    }
  }

  /** A received event is tried to be saved at once, with all that is pending, exactly if it fills the
      batch; otherwise it waits with the others and nothing is tried. */
  lemma {:induction false} FlushAtLimit(run: seq<State>, c: Config, foreign: Foreign, k: nat)
    requires c.batchMaxMsec > 0 && IsRun(run, c, foreign) && 0 < k < |run| && |run[k].w.queue| < |run[k - 1].w.queue|
    ensures var w, u, limit := run[k - 1].w, run[k].w, if c.batchMaxSize < 1 then 1 else c.batchMaxSize;
            if |w.pending| + 1 < limit
            then u.tables == w.tables && u.attempted == w.attempted && |u.pending| == |w.pending| + 1
            else u.attempted == |u.pending|
                 && if u.pending == [] then |u.tables.events| == |w.tables.events| + |w.pending| + 1 && u.failed == w.failed
                    else |u.pending| == |w.pending| + 1 && u.tables.events == w.tables.events && u.failed == w.failed + 1
  {
    hide Init, WorkerStep;
    var s, u := run[k - 1], run[k];
    assert Step(s, u, c, foreign);
    assert WorkerStep(s.w, u.w, c, foreign);
    ReceivedAtLimit(s.w, u.w, c, foreign);
  }

  lemma {:induction false} ReceivedAtLimit(w: Worker, u: Worker, c: Config, foreign: Foreign)
    requires c.batchMaxMsec > 0 && WorkerStep(w, u, c, foreign) && |u.queue| < |w.queue|
    ensures var limit := if c.batchMaxSize < 1 then 1 else c.batchMaxSize;
            if |w.pending| + 1 < limit
            then u.tables == w.tables && u.attempted == w.attempted && |u.pending| == |w.pending| + 1
            else u.attempted == |u.pending|
                 && if u.pending == [] then |u.tables.events| == |w.tables.events| + |w.pending| + 1 && u.failed == w.failed
                    else |u.pending| == |w.pending| + 1 && u.tables.events == w.tables.events && u.failed == w.failed + 1
  {
    hide Injective, Grows, Replays, DomainsFit, Serves, Ordered, Prepare, EventRows;
  }

  /** Nothing is stored after quit: the events then pending and queued, and those sent later, stay
      where they are. */
  lemma {:induction false} LostAtQuit(run: seq<State>, c: Config, foreign: Foreign, j: nat, k: nat)
    requires c.batchMaxMsec > 0 && IsRun(run, c, foreign) && j <= k < |run| && run[j].w.quit
    ensures run[k].w.quit && run[k].w.tables == run[j].w.tables && run[k].w.pending == run[j].w.pending
    ensures run[j].w.queue <= run[k].w.queue
  {
    hide Init, Step;
    if j < k {
      LostAtQuit(run, c, foreign, j, k - 1);
      StepAfterQuit(run[k - 1], run[k], c, foreign);
    }
  }

  lemma {:induction false} StepAfterQuit(s: State, u: State, c: Config, foreign: Foreign)
    requires c.batchMaxMsec > 0 && Step(s, u, c, foreign) && s.w.quit
    ensures u.w.quit && u.w.tables == s.w.tables && u.w.pending == s.w.pending && s.w.queue <= u.w.queue
  {
    if u.calls == s.calls && u == s.(w := u.w) && WorkerStep(s.w, u.w, c, foreign) {
      WorkerStepAccepts(s.w, u.w, c, foreign);
    }
  }

  /** In every reachable state a visitor has at most one live session, the newest. */
  lemma {:induction false} OneLiveInRun(run: seq<State>, c: Config, foreign: Foreign, k: nat, v: string, i: int, j: int)
    requires c.batchMaxMsec > 0 && IsRun(run, c, foreign) && k < |run|
    requires var t := run[k].w.tables;
             && 0 <= i < |t.sessions| && Live(t.sessions[i], v, t.clock, c.timeout)
             && 0 <= j < |t.sessions| && Live(t.sessions[j], v, t.clock, c.timeout)
    ensures i == j
    ensures var rows := RowsOf(run[k].w.tables.sessions, v);
            rows != [] && run[k].w.tables.sessions[i] == Last(rows)
  {
    RunKeeps(run, c, foreign, k);
    var t := run[k].w.tables;
    OneLiveSession(t.sessions, t.log, c.timeout, v, t.clock, i, j);
  }

  /** If visitor ids determine domains, event rows and session rows agree on them in every state. */
  lemma {:induction false} DomainsAgreeInRun(run: seq<State>, c: Config, foreign: Foreign, k: nat, owner: string -> string, i: int, j: int)
    requires c.batchMaxMsec > 0 && IsRun(run, c, foreign) && k < |run|
    requires forall e | e in run[k].w.accepted :: e.domain == owner(e.visitorId)
    requires OwnDomains(run[0].w.tables.log, owner)
    requires var t := run[k].w.tables;
             0 <= i < |t.events| && 0 <= j < |t.sessions| && t.events[i].sessionId == t.sessions[j].id
    ensures run[k].w.tables.events[i].visitorId == run[k].w.tables.sessions[j].visitorId
    ensures run[k].w.tables.events[i].domainId == run[k].w.tables.sessions[j].domainId
  {
    hide Inv;
    RunKeeps(run, c, foreign, k);
    InitialKept(run, c, foreign, k);
    LogOwnDomains(run[k].w, foreign, owner);
    DomainsAgree(run[k].w.tables, c.timeout, owner, i, j);
  }

  /** In every reachable state every session row lasts from its visit's first touch to the last, and
      its duration is that length in seconds, rounded to the nearest. */
  lemma {:induction false} DurationsInRun(run: seq<State>, c: Config, foreign: Foreign, k: nat, j: nat)
    requires c.batchMaxMsec > 0 && IsRun(run, c, foreign) && k < |run| && j < |run[k].w.tables.sessions|
    ensures var row := run[k].w.tables.sessions[j];
            row.createdAt <= row.updatedAt
            && 1_000_000 * row.duration - 500_000 <= row.updatedAt - row.createdAt < 1_000_000 * row.duration + 500_000
  {
    hide Refines;
    RunKeeps(run, c, foreign, k);
    DurationsRounded(run[k].w.tables.sessions, run[k].w.tables.log, c.timeout, j);
  }

  lemma {:induction false} LogOwnDomains(w: Worker, foreign: Foreign, owner: string -> string)
    requires Conserved(w, foreign) && LogOwned(w, foreign) && OwnDomains(w.initial.log, owner)
    requires forall e | e in w.accepted :: e.domain == owner(e.visitorId)
    ensures OwnDomains(w.tables.log, owner)
  {
    hide RowsOfEvents, PrepareAll, Placed, CountOf;
    var owners, places :| Owned(w, owners, foreign) && |places| == |NewRows(w)| && Placed(owners, places);
    LogOwnedOwn(w, owners, foreign, owner);
  }

  lemma {:induction false} LogOwnedOwn(w: Worker, owners: seq<nat>, foreign: Foreign, owner: string -> string)
    requires Conserved(w, foreign) && Owned(w, owners, foreign) && OwnDomains(w.initial.log, owner)
    requires forall e | e in w.accepted :: e.domain == owner(e.visitorId)
    ensures OwnDomains(w.tables.log, owner)
  {
    hide Conserved, CountOf, Prepare;
    var before := |w.initial.log|;
    forall k | 0 <= k < |w.tables.log|
      ensures w.tables.log[k].event.domain == owner(w.tables.log[k].event.visitorId)
    {
      if k < before {
        assert w.tables.log[k] == w.initial.log[k];
      } else {
        assert NewLog(w)[k - before] == w.tables.log[k];
        assert w.accepted[owners[k - before]] in w.accepted;
      }
    }
  }

  /** What is stored does not depend on batch size, ticker period or scheduling. Let two runs from the
      same tables, neither with a failed save, have stored the same accepted events, touched at the
      same times: then domain names and, but for ids, sessions are the same. */
  lemma {:induction false} StoredAlike(run: seq<State>, c: Config, k: nat, run': seq<State>, c': Config, k': nat,
                                       foreign: Foreign, v: string)
    requires Comparable(run, c, k, run', c', k', foreign)
    ensures SameUpToIds(RowsOf(run[k].w.tables.sessions, v), RowsOf(run'[k'].w.tables.sessions, v))
    ensures run[k].w.tables.domains.Keys == run'[k'].w.tables.domains.Keys
  {
    hide Inv;
    var a, x, b, y := BatchesOfRuns(run, c, k, run', c', k', foreign);
    CutsAgree(run[0].w.tables, run[k].w.tables, run'[k'].w.tables, a, b, x, y, c.timeout, v);
  }

  /** Runs `StoredAlike` compares. */
  ghost predicate Comparable(run: seq<State>, c: Config, k: nat, run': seq<State>, c': Config, k': nat, foreign: Foreign) {
    && c.batchMaxMsec > 0 && IsRun(run, c, foreign) && k < |run| && run[k].w.failed == 0
    && c'.batchMaxMsec > 0 && IsRun(run', c', foreign) && k' < |run'| && run'[k'].w.failed == 0
    && c.timeout == c'.timeout && run[0].w.tables == run'[0].w.tables
    && var base, t, t' := run[0].w.tables, run[k].w.tables, run'[k'].w.tables;
       && |base.events| <= |t.events| == |t'.events|
       && |t.events| - |base.events| <= |run[k].w.accepted| && |t.events| - |base.events| <= |run'[k'].w.accepted|
       && run[k].w.accepted[..|t.events| - |base.events|] == run'[k'].w.accepted[..|t.events| - |base.events|]
       && SameTimes(t.log, t'.log)
  }

  ghost predicate SameTimes(log: seq<Touch>, log': seq<Touch>) {
    forall i | 0 <= i < |log| && i < |log'| :: log[i].at == log'[i].at
  }

  lemma {:induction false} BatchesOfRun(run: seq<State>, c: Config, k: nat, foreign: Foreign)
    returns (batches: seq<seq<Event>>, touches: seq<seq<Touch>>)
    requires c.batchMaxMsec > 0 && IsRun(run, c, foreign) && k < |run| && run[k].w.failed == 0
    ensures Inv(run[0].w.tables, c.timeout) && run[k].w.initial == run[0].w.tables
    ensures Conserved(run[k].w, foreign) && StoredInBatches(run[k].w, batches, touches, c, foreign)
  {
    hide Inv;
    RunKeeps(run, c, foreign, 0);
    RunKeeps(run, c, foreign, k);
    InitialKept(run, c, foreign, k);
    batches, touches :| StoredInBatches(run[k].w, batches, touches, c, foreign);
  }

  lemma {:induction false} SameTouchesOfRuns(t: Tables, u: Tables, w: Tables, a: seq<seq<Event>>, b: seq<seq<Event>>,
                                             x: seq<seq<Touch>>, y: seq<seq<Touch>>, timeout: int)
    requires SavesAll(t, u, a, x, timeout) && SavesAll(t, w, b, y, timeout)
    requires Concat(a) == Concat(b) && SameTimes(u.log, w.log)
    ensures SameTouches(Concat(x), Concat(y))
  {
    hide SavesAll;
    CutsAdd(t, u, a, x, timeout);
    CutsAdd(t, w, b, y, timeout);
    CutsLog(t, u, a, x, timeout);
    CutsLog(t, w, b, y, timeout);
    forall k | 0 <= k < |Concat(x)| ensures Concat(x)[k].event == Concat(y)[k].event && Concat(x)[k].at == Concat(y)[k].at {
      assert u.log[|t.log| + k] == Concat(x)[k] && w.log[|t.log| + k] == Concat(y)[k];
    }
  }

  /** The batches that comparable runs have stored. */
  lemma {:induction false} BatchesOfRuns(run: seq<State>, c: Config, k: nat, run': seq<State>, c': Config, k': nat, foreign: Foreign)
    returns (a: seq<seq<Event>>, x: seq<seq<Touch>>, b: seq<seq<Event>>, y: seq<seq<Touch>>)
    requires Comparable(run, c, k, run', c', k', foreign)
    ensures Inv(run[0].w.tables, c.timeout)
    ensures SavesAll(run[0].w.tables, run[k].w.tables, a, x, c.timeout)
    ensures SavesAll(run[0].w.tables, run'[k'].w.tables, b, y, c.timeout)
    ensures Concat(a) == Concat(b) && SameTouches(Concat(x), Concat(y))
    ensures |run[k].w.tables.events| == |run[0].w.tables.events| + |Concat(a)|
  {
    hide Inv, SavesAll, RowsOfEvents, SameTouches, IsRun;
    a, x := BatchesOfRun(run, c, k, foreign);
    b, y := BatchesOfRun(run', c', k', foreign);
    SameTouchesOfRuns(run[0].w.tables, run[k].w.tables, run'[k'].w.tables, a, b, x, y, c.timeout);
  }

  /** And each stored row is the same but for ids, under the same domain name; its session is in the
      same position among its visitor's sessions exactly when the visitor does not split between the
      ends of the two batches in which its event was stored. */
  lemma {:induction false} RowStoredAlike(run: seq<State>, c: Config, k: nat, run': seq<State>, c': Config, k': nat,
                                          foreign: Foreign, i: nat)
    returns (a: seq<seq<Event>>, x: seq<seq<Touch>>, b: seq<seq<Event>>, y: seq<seq<Touch>>)
    requires Comparable(run, c, k, run', c', k', foreign)
    requires i < |run[k].w.tables.events| - |run[0].w.tables.events|
    ensures SavesAll(run[0].w.tables, run[k].w.tables, a, x, c.timeout)
    ensures SavesAll(run[0].w.tables, run'[k'].w.tables, b, y, c.timeout)
    ensures Concat(a) == Concat(b) && i < |Concat(a)| == |Concat(x)| == |Concat(y)|
    ensures SameRowOf(Concat(a)[i], run[k].w.tables, run'[k'].w.tables, |run[0].w.tables.events| + i)
    ensures var t, u, w := run[0].w.tables, run[k].w.tables, run'[k'].w.tables;
            var end, end', v := BatchEnd(a, i), BatchEnd(b, i), Concat(a)[i].visitorId;
            if end <= end' then SplitDecides(t.log, Concat(y), end, end', v, u, w, |t.events| + i, c.timeout)
            else SplitDecides(t.log, Concat(x), end', end, v, w, u, |t.events| + i, c.timeout)
  {
    hide Inv, SavesAll, SameTouches, SameRowOf, SplitDecides, IsRun;
    a, x, b, y := BatchesOfRuns(run, c, k, run', c', k', foreign);
    var t, u, w := run[0].w.tables, run[k].w.tables, run'[k'].w.tables;
    SameTouchesBack(Concat(x), Concat(y));
    CutsAdd(t, u, a, x, c.timeout);
    if BatchEnd(a, i) <= BatchEnd(b, i) {
      CutsAgreeOnRow(t, u, w, a, b, x, y, c.timeout, i);
    } else {
      CutsAgreeOnRow(t, w, u, b, a, y, x, c.timeout, i);
      SameRowOfBack(Concat(b)[i], w, u, |t.events| + i);
    }
  }

  // ---------- outages ----------

  /** The saves that failed since the tables were `base`, when nothing was pending. */
  ghost predicate Outage(base: Tables, w: Worker, touches: seq<seq<Touch>>, c: Config) {
    FailedAll(base, w.tables, touches, w.pending, c.timeout) && |touches| == w.failures
  }

  /** In the outage that `w` is in, or in a new one that begins with `w`. */
  ghost predicate SameOrNone(base: Tables, w: Worker, since: Tables) {
    since == base || (since == w.tables && w.pending == [] && w.failures == 0)
  }

  lemma {:induction false} AttemptOutage(base: Tables, w: Worker, u: Worker, touches: seq<seq<Touch>>, c: Config)
    returns (since: Tables, all: seq<seq<Touch>>)
    requires Outage(base, w, touches, c) && Attempt(w, u, c)
    ensures Outage(since, u, all, c) && SameOrNone(base, u, since)
  {
    hide Saves, FailedOn;
    if u.pending == [] {
      since, all := u.tables, [];
    } else {
      var more :| Saves(w.tables, u.tables, more, w.pending, c.timeout, false);
      OutageSnoc(base, w.tables, u.tables, touches, more, w.pending, c.timeout);
      since, all := base, touches + [more];
    }
  }

  lemma {:induction false} WorkerStepOutage(base: Tables, w: Worker, u: Worker, touches: seq<seq<Touch>>, c: Config, foreign: Foreign)
    returns (since: Tables, all: seq<seq<Touch>>)
    requires c.batchMaxMsec > 0 && Outage(base, w, touches, c) && WorkerStep(w, u, c, foreign)
    ensures Outage(since, u, all, c) && SameOrNone(base, u, since)
  {
    hide Attempt, FailedAll, Prepare;
    since, all := base, touches;
    if Receive(w, u, c, foreign) {
      var a := Append(w, foreign);
      OutageGoesOn(base, w.tables, touches, w.pending, Prepare(w.queue[0], foreign), c.timeout);
      if |a.pending| >= c.batchMaxSize {
        since, all := AttemptOutage(base, a, u, touches, c);
      }
    } else if Tick(w, u, c) && w.pending != [] {
      since, all := AttemptOutage(base, w, u, touches, c);
    }
  }

  /** At every point of every run the tables are those of an earlier point at which nothing was
      pending, after an outage of as many failed saves as are counted, all of what is pending now. */
  lemma {:induction false} OutageInRun(run: seq<State>, c: Config, foreign: Foreign, k: nat)
    returns (j: nat, touches: seq<seq<Touch>>)
    requires c.batchMaxMsec > 0 && IsRun(run, c, foreign) && k < |run|
    ensures j <= k && run[j].w.pending == [] && Outage(run[j].w.tables, run[k].w, touches, c)
  {
    hide FailedAll, WorkerStep;
    if k == 0 {
      j, touches := 0, [];
      NoOutage(run[0].w, c);
    } else {
      j, touches := OutageInRun(run, c, foreign, k - 1);
      var s, u := run[k - 1], run[k];
      assert Step(s, u, c, foreign);
      if u == s.(w := u.w) && WorkerStep(s.w, u.w, c, foreign) {
        var since, all := WorkerStepOutage(run[j].w.tables, s.w, u.w, touches, c, foreign);
        j, touches := if since == run[j].w.tables then j else k, all;
      }
    }
  }

  lemma {:induction false} NoOutage(w: Worker, c: Config)
    requires w.failures == 0
    ensures Outage(w.tables, w, [], c)
  {
  }

  /** The step that stores rows is a successful save of the batch as it then stands. */
  lemma {:induction false} StoringStep(w: Worker, u: Worker, c: Config, foreign: Foreign) returns (a: Worker, touches: seq<Touch>)
    requires c.batchMaxMsec > 0 && WorkerStep(w, u, c, foreign) && |u.tables.events| > |w.tables.events|
    ensures a == w || (w.queue != [] && a == Append(w, foreign))
    ensures Saves(w.tables, u.tables, touches, a.pending, c.timeout, true)
    ensures |u.tables.events| == |w.tables.events| + |a.pending|
  {
    hide Prepare, Injective, Grows, Replays, DomainsFit, Serves, Ordered;
    a := if Receive(w, u, c, foreign) then Append(w, foreign) else w;
    touches :| Saves(a.tables, u.tables, touches, a.pending, c.timeout, u.pending == []);
  }

  /** Between `t` and `failed` only failed saves of the batch have touched anything, then one has
      stored it. If the touches since `t` open a session for the visitor, they obey the bounce law. */
  ghost predicate BounceAsServed(t: Tables, failed: Tables, u: Tables, batch: seq<Event>, timeout: int, v: string) {
    && t.log <= failed.log <= u.log
    && (EventsOf(batch, v) != [] && OneMoreSession(TouchesOf(t.log, v), TouchesOf(u.log[|t.log|..], v), timeout) ==>
        BounceLaw(RowsOf(t.sessions, v), RowsOf(u.sessions, v), EventsOf(batch, v),
                  TouchesOf(failed.log[|t.log|..], v) != []))
  }

  lemma {:induction false} BounceAfterOutage(t: Tables, failed: Tables, u: Tables, touches: seq<seq<Touch>>, second: seq<Touch>,
                                             batch: seq<Event>, timeout: int, v: string)
    requires Inv(t, timeout) && FailedAll(t, failed, touches, batch, timeout)
    requires Saves(failed, u, second, batch, timeout, true)
    ensures BounceAsServed(t, failed, u, batch, timeout, v)
  {
    hide Inv, Saves, FailedAll, TouchesOf;
    OutageKeeps(t, failed, touches, batch, timeout);
    SavedLog(failed, u, second, batch, timeout, true);
    assert failed.log[|t.log|..] == Concat(touches);
    assert u.log[|t.log|..] == Concat(touches) + second;
    TouchesOfConcat(Concat(touches), second, v);
    if EventsOf(batch, v) != [] && OneMoreSession(TouchesOf(t.log, v), TouchesOf(u.log[|t.log|..], v), timeout) {
      RetryBounceExact(t, failed, u, touches, second, batch, timeout, v);
    }
  }

  /** The batch that a step stores, in terms of the accepted events. */
  lemma {:induction false} StoredBatch(w: Worker, u: Worker, c: Config, foreign: Foreign) returns (batch: seq<Event>, touches: seq<Touch>)
    requires c.batchMaxMsec > 0 && Conserved(w, foreign) && WorkerStep(w, u, c, foreign)
    requires |u.tables.events| > |w.tables.events|
    ensures Saves(w.tables, u.tables, touches, batch, c.timeout, true)
    ensures batch == w.pending || (w.queue != [] && batch == w.pending + [Prepare(w.queue[0], foreign)])
    ensures var base := |w.initial.events|;
            base <= |w.tables.events| && |u.tables.events| - base <= |w.accepted| && u.accepted == w.accepted
            && batch == PrepareAll(w.accepted[|w.tables.events| - base..|u.tables.events| - base], foreign)
  {
    hide Saves, PrepareAll, RowsOfEvents, Prepare;
    WorkerStepAccepts(w, u, c, foreign);
    var a;
    a, touches := StoringStep(w, u, c, foreign);
    batch := a.pending;
    if a != w {
      AppendKeepsConserved(w, foreign);
    }
  }

  /** Bounces in runs. Whenever a run stores rows, there has been a point `j` at which nothing was
      pending and since which only saves of this batch were tried, and failed. A visitor for whom the
      touches since then open a session has one row more, marked as a bounce exactly when all the
      visitor's events in the batch but the first are passive and, if a failed save had touched the
      visitor, the first one too. */
  lemma {:induction false} BounceInRun(run: seq<State>, c: Config, foreign: Foreign, k: nat, v: string) returns (j: nat)
    requires c.batchMaxMsec > 0 && IsRun(run, c, foreign) && 0 < k < |run|
    requires |run[k].w.tables.events| > |run[k - 1].w.tables.events|
    ensures j < k && run[j].w.pending == [] && run[j].w.tables.events == run[k - 1].w.tables.events
    ensures var base := |run[0].w.tables.events|;
            base <= |run[k - 1].w.tables.events| && |run[k].w.tables.events| - base <= |run[k].w.accepted|
    ensures var failed, u, base := run[k - 1].w.tables, run[k].w.tables, |run[0].w.tables.events|;
            BounceAsServed(run[j].w.tables, failed, u,
                           PrepareAll(run[k].w.accepted[|failed.events| - base..|u.events| - base], foreign), c.timeout, v)
  {
    hide Inv, Conserved, Uninterrupted, LogOwned, Timed, Named, CallsInv, Init;
    hide WorkerStep, Saves, FailedAll, PrepareAll, Prepare, BounceAsServed;
    var touches;
    j, touches := OutageInRun(run, c, foreign, k - 1);
    RunKeeps(run, c, foreign, j);
    RunKeeps(run, c, foreign, k - 1);
    InitialKept(run, c, foreign, k - 1);
    StoringIsWorkerStep(run[k - 1], run[k], c, foreign);
    var w := run[k - 1].w;
    var batch, second := StoredBatch(w, run[k].w, c, foreign);
    if batch != w.pending {
      OutageGoesOn(run[j].w.tables, w.tables, touches, w.pending, Prepare(w.queue[0], foreign), c.timeout);
    }
    OutageKeeps(run[j].w.tables, w.tables, touches, batch, c.timeout);
    BounceAfterOutage(run[j].w.tables, w.tables, run[k].w.tables, touches, second, batch, c.timeout, v);
  }

  lemma {:induction false} StoringIsWorkerStep(s: State, u: State, c: Config, foreign: Foreign)
    requires c.batchMaxMsec > 0 && Step(s, u, c, foreign) && u.w.tables != s.w.tables
    ensures WorkerStep(s.w, u.w, c, foreign)
  {
    hide WorkerStep;
  }

  // ---------- history ----------

  /** `u` has everything `t` has: domain ids, sessions with what their first touch set, event rows. */
  ghost predicate Keeps(t: Tables, u: Tables) {
    && (forall d | d in t.domains :: d in u.domains && u.domains[d] == t.domains[d])
    && RowsKept(t.sessions, u.sessions) && t.events <= u.events && t.log <= u.log && t.clock <= u.clock
  }

  lemma {:induction false} SavedKeepsHistory(t: Tables, u: Tables, batch: seq<Event>, timeout: int, ok: bool)
    requires Saved(t, u, batch, timeout, ok)
    ensures Keeps(t, u)
  {
    var touches :| Saves(t, u, touches, batch, timeout, ok);
    RowsPersist(t.sessions, u.sessions, touches, timeout);
  }

  lemma {:induction false} StepKeepsHistory(s: State, u: State, c: Config, foreign: Foreign)
    requires c.batchMaxMsec > 0 && Step(s, u, c, foreign)
    ensures Keeps(s.w.tables, u.w.tables) && s.w.accepted <= u.w.accepted
  {
    hide Saved, Keeps;
    KeepsReflexive(s.w.tables);
    if u.w.tables != s.w.tables {
      if Receive(s.w, u.w, c, foreign) {
        var a := Append(s.w, foreign);
        SavedKeepsHistory(a.tables, u.w.tables, a.pending, c.timeout, u.w.pending == []);
      } else {
        SavedKeepsHistory(s.w.tables, u.w.tables, s.w.pending, c.timeout, u.w.pending == []);
      }
    }
  }

  lemma {:induction false} RunStepKeepsHistory(run: seq<State>, c: Config, foreign: Foreign, k: nat)
    requires c.batchMaxMsec > 0 && IsRun(run, c, foreign) && 0 < k < |run|
    ensures Keeps(run[k - 1].w.tables, run[k].w.tables) && run[k - 1].w.accepted <= run[k].w.accepted
  {
    hide Init, Keeps;
    StepKeepsHistory(run[k - 1], run[k], c, foreign);
  }

  lemma {:induction false} KeepsReflexive(t: Tables)
    ensures Keeps(t, t)
  {
  }

  /** Domain ids, sessions and stored rows are never lost or reassigned in any run; a session can
      only lose its bounce mark. */
  lemma {:induction false} HistoryKept(run: seq<State>, c: Config, foreign: Foreign, j: nat, k: nat)
    requires c.batchMaxMsec > 0 && IsRun(run, c, foreign) && j <= k < |run|
    ensures Keeps(run[j].w.tables, run[k].w.tables)
  {
    hide Init, Step, Keeps;
    if j == k {
      KeepsReflexive(run[j].w.tables);
    } else {
      HistoryKept(run, c, foreign, j, k - 1);
      RunStepKeepsHistory(run, c, foreign, k);
      KeepsTransitive(run[j].w.tables, run[k - 1].w.tables, run[k].w.tables);
    }
  }

  lemma {:induction false} KeepsTransitive(a: Tables, b: Tables, c: Tables)
    requires Keeps(a, b) && Keeps(b, c)
    ensures Keeps(a, c)
  {
  }

  /** Which touches are whose: touch `k` of this process was for accepted event `owners[k]`, and that
      of stored event `i` is at `places[i]`, in the order of the events. An event has at most one touch
      for each failed save and, once stored, one for the save that stored it; so until a save fails
      there is exactly one per stored event, and the sessions are those of the stored events. */
  lemma {:induction false} OneTouchPerEvent(run: seq<State>, c: Config, foreign: Foreign, k: nat)
    returns (owners: seq<nat>, places: seq<nat>)
    requires c.batchMaxMsec > 0 && IsRun(run, c, foreign) && k < |run|
    ensures var w := run[k].w;
            && w.initial == run[0].w.tables && Conserved(w, foreign)
            && Owned(w, owners, foreign) && |places| == |NewRows(w)| && Placed(owners, places)
            && (w.failed == 0 ==>
                |NewLog(w)| == |NewRows(w)| && forall i | 0 <= i < |NewLog(w)| :: owners[i] == places[i] == i)
  {
    hide Inv, Uninterrupted;
    RunKeeps(run, c, foreign, k);
    InitialKept(run, c, foreign, k);
    owners, places :| Owned(run[k].w, owners, foreign) && |places| == |NewRows(run[k].w)| && Placed(owners, places);
    if run[k].w.failed == 0 {
      OwnedOnce(owners, places);
    }
  }

  lemma {:induction false} CountAtLeast(owners: seq<nat>, j: nat, k: nat)
    requires j <= k < |owners| && owners[j] == owners[k]
    ensures CountOf(owners, owners[k]) >= if j < k then 2 else 1
  {
    if k < |owners| - 1 {
      CountAtLeast(Front(owners), j, k);
    } else if j < k {
      CountAtLeast(Front(owners), j, j);
    }
  }

  lemma {:induction false} PlacedNoEarlier(owners: seq<nat>, places: seq<nat>, i: nat)
    requires Placed(owners, places) && i < |places|
    ensures i <= places[i] < |owners|
  {
    if i > 0 {
      PlacedNoEarlier(owners, places, i - 1);
    }
  }

  lemma {:induction false} PlacedInOrder(owners: seq<nat>, places: seq<nat>, n: nat)
    requires Placed(owners, places) && n <= |owners|
    requires forall k | 0 <= k < |owners| :: owners[k] < |places| && places[owners[k]] == k
    ensures n <= |places| && forall i | 0 <= i < n :: owners[i] == places[i] == i
  {
    if n > 0 {
      PlacedInOrder(owners, places, n - 1);
      PlacedNoEarlier(owners, places, owners[n - 1]);
    }
  }

  lemma {:induction false} OwnerPlaced(owners: seq<nat>, places: seq<nat>, k: nat)
    requires Placed(owners, places) && k < |owners|
    requires CountOf(owners, owners[k]) <= if owners[k] < |places| then 1 else 0
    ensures owners[k] < |places| && places[owners[k]] == k
  {
    CountAtLeast(owners, k, k);
    var j := places[owners[k]];
    CountAtLeast(owners, if j < k then j else k, if j < k then k else j);
  }

  lemma {:induction false} OwnedOnce(owners: seq<nat>, places: seq<nat>)
    requires Placed(owners, places)
    requires forall i: nat :: CountOf(owners, i) <= if i < |places| then 1 else 0
    ensures |owners| == |places| && forall i | 0 <= i < |owners| :: owners[i] == places[i] == i
  {
    forall k | 0 <= k < |owners| ensures owners[k] < |places| && places[owners[k]] == k {
      OwnerPlaced(owners, places, k);
    }
    PlacedInOrder(owners, places, |owners|);
    if places != [] {
      PlacedNoEarlier(owners, places, |places| - 1);
    }
  }
}
