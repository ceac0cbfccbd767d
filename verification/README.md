# Picolytics: a verified model of the event pipeline

Picolytics collects page events, stamps each with a salted visitor id, queues it, and has one worker
write batches of events into three related Postgres tables. This project models that pipeline in
Dafny, from `SaveEvent` to the stored rows, together with the salt cache, the bulk-insert cursor and
the connect loop, and proves what holds of it in every run, including runs in which any database
call fails at any point and runs that start on what an earlier process has stored.

## How it is built

- `Events.dfy`: the event record and what enrichment does to it. GeoIP lookup, user-agent parsing,
  URL parsing and the visitor hash are arbitrary functions.
- `Timeline.dfy`: the reference. A visitor's timeline is the sequence of its committed session
  transactions ("touches"); `Runs` cuts it at gaps of at least the timeout.
- `Sessions.dfy`: the session statements as operations on a table, one committed transaction as a
  relation (`Touched`), and the proof that the table always equals the cut timelines (`Refines`).
- `CopyFrom.dfy`: the row iterator and the positional encoding of a row.
- `Tables.dfy`: the database as a value, its invariant `Inv`, and what one `saveEvents` may do
  (`Saves`, `Saved`).
- `Database.dfy`, `Writer.dfy`: mutable tables whose statements may fail at any call, and the batch
  writer as methods proved against `Saves`.
- `Laws.dfy`: attribution of rows, retries and outages, domain agreement, independence of batch cuts.
- `Witnesses.dfy`: concrete inputs for two results that may surprise.
- `Pipeline.dfy`: the whole service as a state machine over interleaved `SaveEvent` calls, the worker's
  select loop, time and failures; invariants and theorems over whole runs.
- `Saver.dfy`, `EventWorker.dfy`: the saver and the worker in the form of the source.
- `Salter.dfy`, `Setup.dfy`: the salt cache and the connect loop.

## Hypotheses

- A database statement, a COPY and a COMMIT are atomic, and an error means not applied.
- CURRENT_TIMESTAMP does not decrease from one transaction to the next, and one worker writes to
  the database. All times are whole microseconds, those of the worker's ticker included.
- A process finds tables that satisfy their invariant: an empty database (`Tables.EmptyInv`), or what a
  process with the same session timeout has left (`Pipeline.Restart`).
- What `gen_random_uuid()` and the random draws of the backoff answer are parameters.
- A transaction that the source does not end with COMMIT has no effect.
- `duration` is computed as Postgres 14 and later do: a numeric rounded half away from zero.

The session timeout is any integer: the refinement needs no positive timeout.

## What the code does where its words say otherwise

- `getSalt` returns the empty string on every error (`Salter.SuccessAnswers`), although its comment
  and the log message of its caller speak of a usable or old salt.
- The salt table's row is replaced whenever it is older than the refreshing transaction; a day counts
  only within one process (`Salter.RestartRotates`, `Salter.SaltsLastADay`).
- The deferred rollback of `getSalt` does not see a failure of `UpdateSalt`, because that error is
  held in a variable of its own; such a transaction is neither committed nor rolled back
  (`Salter.DailySalt.GetSalt`).
- A retry touches sessions again that failed attempts had already committed, which can end a bounce
  (`Laws.RetryBounceExact` says exactly when, `Witnesses.RetryEndsBounce` shows one page view for
  which it does).
- All rows a visitor has in one batch name the last session the visitor touched in it
  (`Laws.AttributionExact` says exactly when that is the event's own, `Witnesses.RowMovesToLaterSession`
  shows two page views for which it is not).
- At backoff attempt 35 the delay wraps below zero, so the loop does not wait (`Setup.DelayWraps`); the
  five percent band on the total sleep holds exactly up to 35 retries (`Setup.BackoffBand`).

## Model

| member | source | states |
|---|---|---|
| Timeline.RunsUnique | README.md:145 | there is exactly one way to cut a timeline so that gaps inside a visit stay below the timeout and gaps between visits reach it, and `Runs` is that cut |
| Timeline.RunsExtend | picolytics/db/query.sql.go:177-183 | touches that each come within the timeout of the one before all land in the visit already open |
| Timeline.RunsCount | picolytics/db/query.sql.go:177-183 | later touches open no further visit if and only if none of their gaps reaches the timeout |
| Sessions.NewestExists | picolytics/db/query.sql.go:177-183 | `GetSession` finds nothing only if no session of the visitor is live; otherwise there is a live row no live row is newer than |
| Sessions.TouchKeeps | picolytics/worker_db.go:56-118 | one committed session transaction, update or create, keeps the table equal to every visitor's cut timeline |
| Sessions.ReplaysRefine | picolytics/worker_db.go:54-120 | any run of committed transactions at non-decreasing times leaves, per visitor, one row per visit with that visit's first and last time, first and last path, rounded duration, bounce flag and session id |
| Sessions.RowsDescribeVisits | picolytics/db/query.sql.go:266-274 | what a refined table says in terms of the touches alone: row by visit the ids, times, paths, first-event columns, the duration rounded to the nearest second, and a bounce exactly when all names but the first are hidden or ping |
| Sessions.SessionsSpaced | picolytics/worker_db.go:63-113 | a later session of a visitor was created no earlier than the timeout after an earlier one was last updated |
| Sessions.OneLiveSession | picolytics/db/query.sql.go:177-183 | a visitor has at most one live session and it is the visitor's newest row |
| Events.Prepare | picolytics/worker.go:52-53 | a received event loses client IP and user agent and may get another place and agent; all else stays |
| Events.PreparedFrom | picolytics/enrich.go:20-33 | a failed lookup leaves place and agent alone; a successful one gives each field of the place it has, and the parsed agent if there is more than one character to parse |
| Tables.RowsPersist | picolytics/db/query.sql.go:266-274 | transactions never drop a session nor change its id, visitor, domain, creation time, entry path or first-event columns, and a lost bounce never comes back |
| Tables.LastSessionsMeaning | picolytics/worker_db.go:114 | `eventSessions` has exactly the touched visitors, each with the session of its last touch |
| Tables.NewRowsBacked | picolytics/worker_db.go:122-147 | no map read in `createEvents` falls back to zero, and each new row has an existing domain and a session of its own visitor |
| Tables.SaveKeepsInv | picolytics/worker_db.go:14-32 | a save that stops at any statement keeps domains injective, sessions equal to timelines, and every event row backed by a touch and a session |
| Tables.CommitsMeaning | picolytics/worker_db.go:54-120 | a chain of transactions serves a prefix of the batch in order, at non-decreasing times, under the right domain ids |
| Database.Database.UpsertDomain | picolytics/db/query.sql.go:288-301 | returns the id the table holds for the name, adding it only if new; other ids stay and ids stay distinct |
| Database.Database.GetSession | picolytics/db/query.sql.go:177-195 | answers with a newest live session of the visitor, or with none if none is live |
| Database.Database.CreateSession | picolytics/db/query.sql.go:62-141 | adds one row under an id above all existing ones; fails on an unknown domain id |
| Database.Database.UpdateSession | picolytics/db/query.sql.go:266-286 | changes exactly the row with the given id, in four columns: time, exit path, duration in seconds rounded half away from zero, and the bounce mark, which only hidden and ping leave alone |
| Database.Database.CreateEvents | picolytics/db/copyfrom.go:47-49 | appends all rows in order or none; it takes rows whose foreign keys all exist and refuses others |
| CopyFrom.ValuesFitColumns | picolytics/db/copyfrom.go:30-49 | a row stored from the cells by column name is the original row and no other |
| CopyFrom.EventsIterator.Next | picolytics/db/copyfrom.go:18-28 | says whether an unannounced row is left and moves to the next one, from any cursor state |
| CopyFrom.Drain | picolytics/db/copyfrom.go:18-41 | driving the iterator to its end yields every row once, in order, and reads no row past the end |
| Writer.UpsertDomains | picolytics/worker_db.go:36-50 | for any map order the result is the domains table restricted to the batch; known ids never change, also when it fails half-way, and a call with known names only leaves the table as it is |
| Writer.TouchSession | picolytics/worker_db.go:56-118 | one event's transaction commits as a whole or leaves sessions and log unchanged |
| Writer.UpsertSessions | picolytics/worker_db.go:54-120 | commits a chain of transactions for a prefix of the batch, for all of it on success, and returns each visitor's last session |
| Writer.CreateEvents | picolytics/worker_db.go:122-147 | writes the rows of the whole batch or nothing |
| Writer.ForeignKeysHold | picolytics/migrations/001_create_sessions_events.sql:61-62 | after the session loop every row about to be written has its domain and its session in the tables |
| Writer.SaveEvents | picolytics/worker_db.go:14-32 | runs the three stages in order up to the first failed call, fails exactly when a call failed and never on a foreign key |
| Laws.AttributionExact | picolytics/worker_db.go:114-138 | a stored row names its visitor's last session in the batch, which is its own transaction's exactly when the visitor does not split later in that batch |
| Witnesses.RowMovesToLaterSession | picolytics/worker_db.go:114-138 | two page views half an hour apart in one batch: the row of the first, which opened session 1, is stored under session 2 |
| Laws.RetryKeepsSession | picolytics/worker.go:78-85 | a visitor touched before gets no further session from a later attempt if and only if every re-touch is within the timeout; then the session keeps its identity, ends on the last path, and stays a bounce only if all re-touches are passive |
| Laws.FirstAttemptBounce | picolytics/db/query.sql.go:266-274 | saved at the first attempt, a session the batch opens, for a new visitor or a returning one, is a bounce if and only if all the visitor's events but the first are passive |
| Laws.RetryBounceExact | picolytics/worker_db.go:104-113 | after any number of failed saves of first parts of the batch and then a success, a session they open is a bounce if and only if all the visitor's events but the first are passive and, if a failed save had touched the visitor, the first one is too |
| Witnesses.RetryEndsBounce | picolytics/worker_db.go:104-113 | one page view: no bounce after a failed COPY and a retry, a bounce when saved at once |
| Laws.DomainsAgree | picolytics/worker_db.go:63-73 | if visitor ids determine domains, an event row and its session row have the same visitor and domain id |
| Laws.LogDecidesSessions | picolytics/db/query.sql.go:62-77 | two tables refining logs with the same events and times are equal but for ids |
| Laws.CutsAgree | picolytics/worker.go:56-70 | two ways of cutting the same events into successful batches, touched at the same times, give the same sessions but for ids and the same domains |
| Laws.CutsAgreeOnRow | picolytics/worker_db.go:128-138 | and the same row contents; a row's session is in the same position among its visitor's sessions exactly when the visitor does not split between the two batch ends |
| Pipeline.Parse | picolytics/event.go:42-52 | an event passes if and only if its name is non-empty and in the list and its URL is present and parses; then only its domain, which is the host without one leading www., and its path are set |
| Pipeline.RunKeeps | picolytics/worker.go:39-85 | every state of every run, from whatever tables it starts, satisfies the pipeline invariant, for any interleaving and any pattern of failed saves |
| Pipeline.Restart | picolytics/worker.go:39-41 | a process may start on what another with the same session timeout has left at any point of its run |
| Pipeline.StoredSoFar | picolytics/worker.go:46-75 | after the rows found at the start come the accepted events once each and in order: stored rows with the fields of their events, then the pending batch, then the queue, all with valid names, pending ones without client IP and user agent and otherwise changed in place and agent only |
| Pipeline.CountersAddUp | picolytics/event.go:27-40 | all calls are parse errors, enqueue errors, accepted or still under way; ingested is accepted plus enqueue errors plus those about to be sent; the queue stays within its size |
| Pipeline.BatchBound | picolytics/worker.go:55-70 | at each loop head the batch is below its limit plus the failed saves since the last success, so it reaches the limit only after a failure |
| Pipeline.AttemptInTime | picolytics/worker.go:41-70 | an event not yet in a save attempt was received at most one ticker period, plus the lateness of the pending tick, ago |
| Pipeline.FlushAtLimit | picolytics/worker.go:55-62 | a received event is tried to be saved at once, with all pending ones, exactly if it fills the batch |
| Pipeline.FlushResetsTicker | picolytics/worker.go:57 | after a full batch no tick is due before a whole period has passed |
| Pipeline.NextTickExact | picolytics/worker.go:41-63 | an early tick leaves the deadline alone; otherwise the next one is due at the first instant after now that is whole periods after the old deadline |
| Pipeline.DeadlinesAligned | picolytics/worker.go:41-63 | as long as no full batch resets the ticker, its deadlines lie whole periods apart |
| Pipeline.FirstTick | picolytics/worker.go:41 | the first tick is due one period after the start |
| Pipeline.LostAtQuit | picolytics/worker.go:71-74 | after quit nothing is stored any more: the pending batch stays and the queue can only grow |
| Pipeline.OneLiveInRun | picolytics/worker_db.go:63-113 | in every reachable state a visitor has at most one live session |
| Pipeline.DurationsInRun | picolytics/db/query.sql.go:272 | in every reachable state the duration of a session is its length, rounded to the nearest second |
| Pipeline.DomainsAgreeInRun | picolytics/worker_db.go:128-132 | domain agreement of event and session rows in every reachable state |
| Pipeline.OutageInRun | picolytics/worker.go:78-85 | the tables are always those of a point at which nothing was pending, after as many failed saves of first parts of what is now pending as are counted |
| Pipeline.BounceInRun | picolytics/worker_db.go:104-113 | whenever a run stores rows, a session opened for a visitor since the outage began obeys the bounce law |
| Pipeline.BatchesOfRun | picolytics/worker.go:56-70 | until a save fails, a run is a chain of successful saves of consecutive batches of the accepted events |
| Pipeline.StoredAlike | picolytics/worker.go:39-76 | without failed saves, what sessions and domain names are stored for the same events and times does not depend on batch size, ticker or scheduling |
| Pipeline.RowStoredAlike | picolytics/worker_db.go:128-138 | nor do the contents and domain name of any event row; its session is in the same position exactly when the visitor does not split between the two batch ends |
| Pipeline.HistoryKept | picolytics/db/query.sql.go:266-294 | no run loses or reassigns a domain id, a session or a stored row |
| Pipeline.OneTouchPerEvent | picolytics/worker_db.go:14-32 | stored events have touches of their own, in the same order; an event has at most one touch per failed save and one for the save that stored it, so without failures exactly one |
| Saver.Channel.TrySend | picolytics/event.go:84-91 | enqueues if and only if there is room, and never blocks |
| Saver.IsValidEventName | picolytics/event.go:93-103 | true if and only if the name is non-empty and in the list |
| Saver.OneOutcome | picolytics/event.go:27-40 | exactly one outcome: parse error, ingested and sent, or ingested and rejected; sent if and only if the event parses and there is room, and then under the hash of salt and event, with nothing but domain, path and visitor id set |
| Saver.AsyncEventSaver.SaveEvent | picolytics/event.go:27-40 | changes channel and counters as `AfterCall` says, of which `OneOutcome` holds |
| Saver.CallInOneGo | picolytics/event.go:27-40 | the three interleavable steps of a call, taken together, do what the contract of `SaveEvent` says and end the call with the outcome that was counted |
| EventWorker.EventWorker.ProcessBatch | picolytics/worker.go:78-85 | one save attempt on all pending events; the batch is emptied if and only if no call failed |
| EventWorker.EventWorker.OnEvent | picolytics/worker.go:46-62 | takes the oldest event, enriches and strips it, and at the limit resets the ticker and attempts a save |
| EventWorker.EventWorker.OnTick | picolytics/worker.go:63-70 | attempts a save if anything is pending; the next tick is due at the first whole period after now |
| EventWorker.EventWorker.ProcessQueuedEvents | picolytics/worker.go:39-76 | goes through any schedule turn by turn up to the first quit and ends in a state that satisfies the worker's invariant |
| Salter.DailySalt.GetSalt | picolytics/salter.go:33-64 | serves the cached salt within a day, else refreshes in one transaction: an older row or none is replaced by the new uuid, any other row is adopted; fails exactly when one call failed, and leaves its transaction open exactly when that was a call of `UpdateSalt` |
| Salter.OpenAreFailedUpdates | picolytics/salter.go:43-53 | over any stretch of any run as many transactions are left open as calls of `UpdateSalt` failed |
| Salter.CacheIsRow | picolytics/salter.go:33-64 | from the first success on the cache is the table's row in every state, across failed refreshes |
| Salter.SuccessAnswers | picolytics/salter.go:36-63 | a successful call serves the cached salt, at most a day old; the salt changes only when the old one was older; a failed call returns the empty string and changes nothing |
| Salter.RefreshBringsSalt | picolytics/db/query.sql.go:251-259 | a successful refresh brings the new uuid at the transaction's time unless the row is no older than that, and always for an instance that has answered before |
| Salter.NewRowsNewSalts | picolytics/salter.go:33-64 | if the database never makes up a salt twice, cached rows of a run that differ have different salts |
| Salter.SaltsLastADay | picolytics/salter.go:37 | within one instance any two different salts are created more than a day apart |
| Salter.RestartRotates | picolytics/db/query.sql.go:251-259 | the first success of a new instance replaces the row, by the new uuid, if and only if it is older than the transaction, by any amount |
| Setup.AcquireConn | picolytics/setupdb.go:40-52 | gives up only after its last allowed attempt, sleeps once between attempts, and up to 35 retries sleeps the intended total within five percent |
| Setup.DelayIsIdeal | picolytics/setupdb.go:81-86 | up to attempt 34 the delay is nothing, then 1, 2, 4, 8 and from then on 10 seconds |
| Setup.DelayWraps | picolytics/setupdb.go:83 | at attempt 35 the 64-bit product is negative |
| Setup.DelayWrapped | picolytics/setupdb.go:83 | up to attempt 63 the delay is the 64-bit value of the product, capped at 10 seconds |
| Setup.IdealTotalClosed | picolytics/setupdb.go:81-90 | the intended total is 2^(n-1) - 1 seconds up to five retries and 15 + 10(n - 5) from there |
| Setup.JitterBounded | picolytics/setupdb.go:87-89 | jitter moves a non-negative delay by at most a twentieth |
| Setup.JitterFollowsDraw | picolytics/setupdb.go:87-89 | a draw of one half leaves the delay, a greater draw never shortens it, and the result lies less than a nanosecond off the line from 95 to 105 percent |
| Setup.BackoffBand | picolytics/setupdb.go:40-90 | the total sleep stays within five percent of the intended one for all draws if and only if there are at most 35 retries |

## Left out

- HTTP, CORS, rate limiting, static files, admin endpoints, configuration, logging, gauges and histograms.
- What GeoIP lookup, user-agent parsing, URL parsing and the visitor hash compute: they are parameters. That a visitor id determines its domain is a hypothesis of `DomainsAgree`, not a result.
- Pruning: its intervals are sent as NULL, so its statements match no row.
- Several workers on one database: looking a session up and creating it is not protected against another worker.
- The id and creation time of event rows, and the queue-utilization and latency metrics.
- An unbuffered channel (`QueueSize` 0), through which an event could pass if the worker happens to be waiting; the model treats it as always full.
- Sequence and INT overflow: a sequence that has run out shows as a failed call; a session lasting over 68 years, whose duration no longer fits, is not considered.
- Setup.AcquireConn: leaves out the migrations that follow the loop, and takes as a parameter the result Go leaves open when an attempt number beyond 63 makes the float exceed 64 bits.
- EventWorker.EventWorker.ProcessQueuedEvents: the endless loop is modelled for any finite schedule; the time a save takes passes as a separate turn after it.
- Writer.UpsertSessions: is stated for a domain map that covers the batch, which is what `upsertDomains` hands it.
