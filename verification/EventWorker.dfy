/** picolytics/worker.go: the select loop that collects events into batches. */
module EventWorker {
  import opened Wrappers
  import opened Events
  import opened Timeline
  import opened Tables
  import opened Database
  import opened Writer
  import opened Pipeline
  import opened Saver

  /** What happens next around the worker: another goroutine sends an event, time passes, or the
      select takes one of its three arms. */
  datatype Turn = Sent(event: Event) | Elapsed(time: nat) | TakeEvent | TakeTick | TakeQuit

  /** What a turn does to the worker's state. */
  ghost predicate Turned(w: Worker, u: Worker, turn: Turn, c: Config, foreign: Foreign)
    requires c.batchMaxMsec > 0
  {
    match turn
    case Sent(e) => u == Send(w, e, c).0
    case Elapsed(time) => u == w.(now := w.now + time)
    case TakeEvent => if w.queue == [] then u == w else Receive(w, u, c, foreign)
    case TakeTick => Tick(w, u, c)
    case TakeQuit => Quit(w, u)
  }

  /** A save of the pending events is an attempt, if the batch is emptied just when it succeeds. */
  lemma {:induction false} SaveIsAttempt(w: Worker, u: Worker, mid: Tables, touches: seq<Touch>, c: Config)
    requires SameClockAndQueue(w, u) && u.attempted == |u.pending|
    requires SaveRun(w.tables, mid, u.tables, touches, w.pending, c.timeout, u.pending == [])
    requires if u.pending == [] then u.appendedAt == [] && u.failures == 0 && u.failed == w.failed
             else u.pending == w.pending && u.appendedAt == w.appendedAt && u.failures == w.failures + 1 && u.failed == w.failed + 1
    ensures Attempt(w, u, c)
  {
    SaveRunSaves(w.tables, mid, u.tables, touches, w.pending, c.timeout, u.pending == []);
  }

  /** An attempt does not depend on when the ticker fires. */
  lemma {:induction false} AttemptAtAnyDeadline(w: Worker, later: Worker, u: Worker, c: Config)
    requires later == w.(deadline := later.deadline) && Attempt(later, u, c)
    ensures Attempt(w, u, c)
  {
  }

  class EventWorker {
    const config: Config
    const foreign: Foreign
    const events: Channel
    const db: Database
    var toProcess: seq<Event>
    var now: int            // microseconds
    var deadline: int       // when the ticker fires next
    var stopped: bool
    var saveErrors: nat
    var enrichErrors: nat
    ghost const initial: Tables
    ghost var appendedAt: seq<int>
    ghost var attempted: nat
    ghost var failures: nat
    ghost var failed: nat

    ghost predicate Valid()
      reads this, db
    {
      db.Valid() && db.open.None? && config.batchMaxMsec > 0 && events.capacity == config.queueSize
    }

    ghost function View(): Worker
      reads this, db, events
    {
      Worker(events.sent, events.items, toProcess, initial, db.View(),
             appendedAt, attempted, failures, failed, now, deadline, stopped)
    }

    /** The worker's state when `processQueuedEvents` starts, on an empty database or on what an
        earlier process has left in it. A ticker needs a positive period. */
    constructor (config: Config, foreign: Foreign, db: Database, now: int)
      requires config.batchMaxMsec > 0
      requires db.Valid() && db.open.None?
      ensures Valid() && this.config == config && this.foreign == foreign && this.db == db && fresh(events)
      ensures View() == Started(db.View(), now, config) && deadline == now + 1000 * config.batchMaxMsec
      ensures saveErrors == enrichErrors == 0
    {
      this.config, this.foreign, this.db, initial := config, foreign, db, db.View();
      events := new Channel(config.queueSize);
      toProcess := [];
      this.now, deadline, stopped := now, now + Period(config), false;
      saveErrors, enrichErrors := 0, 0;
      appendedAt, attempted, failures, failed := [], 0, 0, 0;
    }

    /** `processBatch`: all pending events in one save attempt. */
    method ProcessBatch() returns (r: Result<(), DbError>)
      requires Valid() && toProcess != [] && Inv(db.View(), config.timeout)
      modifies this`toProcess, this`appendedAt, this`attempted, this`failures, this`failed, db
      ensures Valid() && Attempt(old(View()), View(), config)
      ensures (r.Ok? <==> toProcess == []) && failed == old(failed) + if r.Ok? then 0 else 1
      ensures r.Ok? <==> db.faults == old(db.faults)
    {
      hide Database.Valid, Inv, Attempt, SaveRun;
      ghost var start := View();
      ghost var mid, touches;
      r, mid, touches := SaveEvents(db, toProcess, config.timeout);
      if r.Err? {
        attempted, failures, failed := |toProcess|, failures + 1, failed + 1;
      } else {
        toProcess, appendedAt, attempted, failures := [], [], 0, 0;
      }
      SaveIsAttempt(start, View(), mid, touches, config);
    }

    /** The next event, enriched if that works and stripped in any case, joins the batch. */
    method Take()
      requires Valid() && events.items != []
      modifies this`toProcess, this`appendedAt, this`enrichErrors, events
      ensures Valid() && View() == Append(old(View()), foreign)
      ensures enrichErrors == old(enrichErrors) + if foreign.lookupIp(old(events.items)[0].clientIp).None? then 1 else 0
    {
      hide Database.Valid;
      var e := events.Receive();
      if foreign.lookupIp(e.clientIp).None? {
        enrichErrors := enrichErrors + 1;
      }
      e := Enrich(e, foreign);
      e := e.(clientIp := "", userAgent := "");
      toProcess := toProcess + [e];
      appendedAt := appendedAt + [now];
    }

    /** The arm that receives an event. */
    method OnEvent()
      requires Valid() && !stopped && events.items != [] && Inv(db.View(), config.timeout)
      modifies this`toProcess, this`appendedAt, this`attempted, this`failures, this`failed,
        this`deadline, this`enrichErrors, this`saveErrors, events, db
      ensures Valid() && Receive(old(View()), View(), config, foreign)
      ensures saveErrors - old(saveErrors) == failed - old(failed)
    {
      hide Database.Valid, Inv, Attempt, Prepare;
      Take();
      ghost var appended := View();
      if |toProcess| >= config.batchMaxSize {
        deadline := now + Period(config);
        ghost var later := View();
        var r := ProcessBatch();
        if r.Err? {
          saveErrors := saveErrors + 1;
        }
        AttemptAtAnyDeadline(appended, later, View(), config);
      }
    }

    /** The arm that takes a tick. */
    method OnTick()
      requires Valid() && !stopped && Inv(db.View(), config.timeout)
      modifies this`toProcess, this`appendedAt, this`attempted, this`failures, this`failed,
        this`deadline, this`saveErrors, db
      ensures Valid() && Tick(old(View()), View(), config)
      ensures if now < old(deadline) then deadline == old(deadline)
              else now < deadline <= now + 1000 * config.batchMaxMsec
                   && (deadline - old(deadline)) % (1000 * config.batchMaxMsec) == 0
      ensures saveErrors - old(saveErrors) == failed - old(failed)
    {
      hide Database.Valid, Inv, Attempt, NextTick;
      ghost var start := View();
      NextTickExact(now, deadline, Period(config));
      deadline := NextTick(now, deadline, Period(config));
      if |toProcess| > 0 {
        ghost var later := View();
        var r := ProcessBatch();
        if r.Err? {
          saveErrors := saveErrors + 1;
        }
        AttemptAtAnyDeadline(start, later, View(), config);
      }
    }

    /** `processQueuedEvents` under any schedule of what goes on around it: it goes through all of
        it, or up to the first quit, turn by turn. The worker's invariant holds afterwards, so no
        accepted event has been lost, duplicated or reordered, and every failed save has been counted. */
    method ProcessQueuedEvents(schedule: seq<Turn>) returns (ghost trace: seq<Worker>)
      requires Valid() && !stopped && WorkerInv(View(), config, foreign) && saveErrors == failed
      requires forall i | 0 <= i < |schedule| && schedule[i].Sent? :: ValidEventName(config.validNames, schedule[i].event.name)
      modifies this, events, db
      ensures Valid() && WorkerInv(View(), config, foreign) && saveErrors == failed
      ensures 0 < |trace| <= |schedule| + 1 && trace[0] == old(View()) && trace[|trace| - 1] == View()
      ensures forall k | 0 <= k < |trace| - 1 :: Turned(trace[k], trace[k + 1], schedule[k], config, foreign)
      ensures if stopped then |trace| > 1 && schedule[|trace| - 2].TakeQuit? else |trace| == |schedule| + 1
    {
      hide Database.Valid, WorkerInv, Turned;
      trace := [View()];
      var i := 0;
      while i < |schedule| && !stopped
        invariant Valid() && WorkerInv(View(), config, foreign) && saveErrors == failed
        invariant |trace| == i + 1 <= |schedule| + 1 && trace[0] == old(View()) && trace[i] == View()
        invariant forall k | 0 <= k < i :: Turned(trace[k], trace[k + 1], schedule[k], config, foreign)
        invariant stopped ==> i > 0 && schedule[i - 1].TakeQuit?
        decreases |schedule| - i
      {
        Turn(schedule[i]);
        trace := trace + [View()];
        i := i + 1;
      }
    }

    /** One turn of the loop, or of its surroundings. */
    method Turn(turn: Turn)
      requires Valid() && !stopped && WorkerInv(View(), config, foreign) && saveErrors == failed
      requires turn.Sent? ==> ValidEventName(config.validNames, turn.event.name)
      modifies this, events, db
      ensures Valid() && WorkerInv(View(), config, foreign) && saveErrors == failed
      ensures Turned(old(View()), View(), turn, config, foreign) && (stopped <==> turn.TakeQuit?)
    {
      hide Database.Valid, WorkerInv;
      if turn.Sent? || turn.Elapsed? {
        Around(turn);
      } else {
        Select(turn);
      }
    }

    method Around(turn: Turn)
      requires Valid() && WorkerInv(View(), config, foreign)
      requires turn.Elapsed? || (turn.Sent? && ValidEventName(config.validNames, turn.event.name))
      modifies this`now, events
      ensures Valid() && WorkerInv(View(), config, foreign)
      ensures Turned(old(View()), View(), turn, config, foreign)
    {
      hide Database.Valid, Inv, Conserved, Uninterrupted, LogOwned;
      ghost var start := View();
      if turn.Sent? {
        var ok := events.TrySend(turn.event);
        if ok {
          SendKeeps(start, turn.event, config, foreign);
        }
      } else {
        now := now + turn.time;
        TimeKeeps(start, View(), config, foreign);
      }
    }

    /** One pass through the select; an arm that is not ready is not taken. */
    method Select(arm: Turn)
      requires Valid() && !stopped && WorkerInv(View(), config, foreign) && saveErrors == failed
      requires arm.TakeEvent? || arm.TakeTick? || arm.TakeQuit?
      modifies this, events, db
      ensures Valid() && WorkerInv(View(), config, foreign) && saveErrors == failed
      ensures Turned(old(View()), View(), arm, config, foreign)
      ensures stopped <==> arm.TakeQuit?
    {
      hide Database.Valid, Receive, Tick, Inv, Conserved, Uninterrupted, LogOwned;
      ghost var start := View();
      match arm {
        case TakeEvent =>
          if events.items != [] {
            OnEvent();
            ReceiveKeeps(start, View(), config, foreign);
          }
        case TakeTick =>
          OnTick();
          TickKeeps(start, View(), config, foreign);
        case TakeQuit =>
          stopped := true;
          TimeKeeps(start, View(), config, foreign);
      }
    }
  }
}
