/** The statements of picolytics/db/query.sql.go as operations on mutable tables. Any call may
    fail; a failed call changes no row, but it may still use up sequence values, and it is counted
    in `faults`. Time only moves forward from one transaction to the next. */
module Database {
  import opened Wrappers
  import opened Events
  import opened Timeline
  import opened Sessions
  import opened CopyFrom
  import opened Tables

  datatype DbError = Fault | ForeignKeyViolation

  function SessionIds(sessions: seq<SessionRow>): set<nat> {
    set i | 0 <= i < |sessions| :: sessions[i].id
  }

  ghost predicate ForeignKeysExist(rows: seq<EventRow>, domains: map<string, nat>, sessions: seq<SessionRow>) {
    forall i | 0 <= i < |rows| :: rows[i].domainId in domains.Values && rows[i].sessionId in SessionIds(sessions)
  }

  class Database {
    var domains: map<string, nat>
    var nextDomain: nat
    var sessions: seq<SessionRow>
    var nextSession: nat
    var events: seq<EventRow>
    var clock: int
    var open: Option<seq<SessionRow>>  // inside a transaction: the sessions table before it
    var faults: nat
    ghost var log: seq<Touch>

    ghost predicate Valid()
      reads this
    {
      && Injective(domains) && 1 <= nextDomain && 1 <= nextSession
      && (forall d | d in domains :: domains[d] < nextDomain)
      && (forall i | 0 <= i < |sessions| :: sessions[i].id < nextSession)
      && (open.Some? ==> forall i | 0 <= i < |open.value| :: open.value[i].id < nextSession)
    }

    ghost function View(): Tables
      reads this
    {
      Tables(domains, sessions, events, clock, log)
    }

    constructor ()
      ensures Valid() && open.None? && View() == EMPTY && faults == 0
    {
      domains, nextDomain := map[], 1;
      sessions, nextSession := [], 1;
      events, clock, open, faults, log := [], 0, None, 0, [];
    }

    /** INSERT ... ON CONFLICT DO UPDATE ... RETURNING domain_id. The default of `domain_id` is
        drawn before the conflict is seen, so every call uses up an id. */
    method UpsertDomain(name: string) returns (r: Result<nat, DbError>)
      requires Valid()
      modifies this`domains, this`nextDomain, this`faults
      ensures Valid()
      ensures r.Err? ==> r.error == Fault && domains == old(domains) && faults == old(faults) + 1
      ensures r.Ok? ==> faults == old(faults) && name in domains && r.value == domains[name]
      ensures r.Ok? ==> domains == if name in old(domains) then old(domains) else old(domains)[name := r.value]
    {
      var id := nextDomain;
      nextDomain := nextDomain + 1;
      var fails: bool := *;
      if fails {
        faults := faults + 1;
        return Err(Fault);
      }
      if name !in domains {
        domains := domains[name := id];
      }
      return Ok(domains[name]);
    }

    /** Starts a transaction at some later CURRENT_TIMESTAMP. */
    method Begin() returns (r: Result<(), DbError>)
      requires Valid() && open.None?
      modifies this`open, this`clock, this`faults
      ensures Valid() && clock >= old(clock)
      ensures r.Err? ==> r.error == Fault && open.None? && faults == old(faults) + 1
      ensures r.Ok? ==> open == Some(sessions) && faults == old(faults)
    {
      var fails: bool := *;
      if fails {
        faults := faults + 1;
        return Err(Fault);
      }
      var elapsed: int := *;
      if elapsed > 0 {
        clock := clock + elapsed;
      }
      open := Some(sessions);
      return Ok(());
    }

    method Rollback()
      requires Valid() && open.Some?
      modifies this`sessions, this`open
      ensures Valid() && open.None? && sessions == old(open).value
    {
      sessions := open.value;
      open := None;
    }

    /** A failed COMMIT leaves nothing behind. `touch` records what the transaction did. */
    method Commit(ghost touch: Touch) returns (r: Result<(), DbError>)
      requires Valid() && open.Some?
      modifies this`sessions, this`open, this`log, this`faults
      ensures Valid() && open.None?
      ensures r.Err? ==> r.error == Fault && sessions == old(open).value && log == old(log) && faults == old(faults) + 1
      ensures r.Ok? ==> sessions == old(sessions) && log == old(log) + [touch] && faults == old(faults)
    {
      var fails: bool := *;
      if fails {
        faults := faults + 1;
        Rollback();
        return Err(Fault);
      }
      open := None;
      log := log + [touch];
      return Ok(());
    }

    /** The newest live session of a visitor, if there is one. */
    method GetSession(visitor: string, timeout: int) returns (r: Result<Option<nat>, DbError>)
      requires Valid()
      modifies this`faults
      ensures r.Err? ==> r.error == Fault && faults == old(faults) + 1
      ensures r.Ok? ==> faults == old(faults)
      ensures r.Ok? && r.value.None? ==> NoneLive(sessions, visitor, clock, timeout)
      ensures r.Ok? && r.value.Some? ==>
                exists i :: Newest(sessions, visitor, clock, timeout, i) && sessions[i].id == r.value.value
    {
      var fails: bool := *;
      if fails {
        faults := faults + 1;
        return Err(Fault);
      }
      NewestExists(sessions, visitor, clock, timeout);
      if i :| 0 <= i < |sessions| && Newest(sessions, visitor, clock, timeout, i) {
        return Ok(Some(sessions[i].id));
      }
      return Ok(None);
    }

    method CreateSession(e: Event, domainId: nat) returns (r: Result<nat, DbError>)
      requires Valid()
      modifies this`sessions, this`nextSession, this`faults
      ensures Valid()
      ensures r.Err? ==> sessions == old(sessions)
      ensures r.Err? && r.error == Fault ==> faults == old(faults) + 1
      ensures r.Err? && r.error == ForeignKeyViolation ==> faults == old(faults) && domainId !in domains.Values
      ensures r.Ok? ==> 1 <= r.value && (forall j | 0 <= j < |old(sessions)| :: old(sessions)[j].id < r.value)
      ensures r.Ok? ==> sessions == old(sessions) + [Inserted(r.value, e, domainId, clock)]
      ensures r.Ok? ==> faults == old(faults) && domainId in domains.Values
    {
      var id := nextSession;
      nextSession := nextSession + 1;
      var fails: bool := *;
      if fails {
        faults := faults + 1;
        return Err(Fault);
      }
      if domainId !in domains.Values {
        return Err(ForeignKeyViolation);
      }
      sessions := sessions + [Inserted(id, e, domainId, clock)];
      return Ok(id);
    }

    /** Only rows with the id change, and of those only four columns. The duration in seconds is
        rounded to the nearest, halves away from zero; two event names leave the bounce mark alone. */
    method UpdateSession(id: nat, exitPath: string, eventName: string) returns (r: Result<(), DbError>)
      requires Valid()
      modifies this`sessions, this`faults
      ensures Valid()
      ensures r.Err? ==> r.error == Fault && sessions == old(sessions) && faults == old(faults) + 1
      ensures r.Ok? ==> sessions == UpdateWhere(old(sessions), id, exitPath, eventName, clock) && faults == old(faults)
      ensures r.Ok? ==> forall i | 0 <= i < |old(sessions)| ::
                var was, row := old(sessions)[i], sessions[i];
                if was.id != id then row == was
                else
                  && row == was.(bounce := row.bounce, updatedAt := clock, exitPath := exitPath, duration := row.duration)
                  && row.bounce == (was.bounce && (eventName == "hidden" || eventName == "ping"))
                  && var length := clock - was.createdAt;
                     if length >= 0 then 1_000_000 * row.duration - 500_000 <= length < 1_000_000 * row.duration + 500_000
                     else 1_000_000 * row.duration - 500_000 < length <= 1_000_000 * row.duration + 500_000
    {
      var fails: bool := *;
      if fails {
        faults := faults + 1;
        return Err(Fault);
      }
      sessions := UpdateWhere(sessions, id, exitPath, eventName, clock);
      return Ok(());
    }

    /** COPY of all rows or of none; it refuses rows whose foreign keys do not exist. */
    method CreateEvents(params: seq<EventRow>) returns (r: Result<(), DbError>)
      requires Valid()
      modifies this`events, this`faults
      ensures Valid()
      ensures r.Err? ==> events == old(events)
      ensures r.Err? && r.error == Fault ==> faults == old(faults) + 1
      ensures r.Err? && r.error == ForeignKeyViolation ==>
                faults == old(faults) && !ForeignKeysExist(params, domains, sessions)
      ensures r.Ok? ==> ForeignKeysExist(params, domains, sessions)
      ensures r.Ok? ==> events == old(events) + params && faults == old(faults)
    {
      var it := new EventsIterator(params);
      var copied := Drain(it);
      var fails: bool := *;
      if fails {
        faults := faults + 1;
        return Err(Fault);
      }
      if i :| 0 <= i < |params| && (params[i].domainId !in domains.Values || params[i].sessionId !in SessionIds(sessions)) {
        return Err(ForeignKeyViolation);
      }
      var inserted := Decode(copied, params);
      events := events + inserted;
      return Ok(());
    }
  }

  /** COPY's side of the column list: cells go to the columns named at their positions. */
  method Decode(copied: seq<seq<Cell>>, ghost params: seq<EventRow>) returns (rows: seq<EventRow>)
    requires |copied| == |params| && forall i | 0 <= i < |copied| :: copied[i] == Values(params[i])
    ensures rows == params
  {
    rows := [];
    for k := 0 to |copied|
      invariant rows == params[..k]
    {
      ValuesFitColumns(params[k], params[k]);
      var domainId := CellOf("domain_id", COLUMNS, copied[k]);
      var sessionId := CellOf("session_id", COLUMNS, copied[k]);
      var visitorId := CellOf("visitor_id", COLUMNS, copied[k]);
      var name := CellOf("name", COLUMNS, copied[k]);
      var path := CellOf("path", COLUMNS, copied[k]);
      var referrer := CellOf("referrer", COLUMNS, copied[k]);
      var loadTime := CellOf("load_time", COLUMNS, copied[k]);
      var ttfb := CellOf("ttfb", COLUMNS, copied[k]);
      var row := EventRow(domainId.value.n, sessionId.value.n, visitorId.value.s, name.value.s,
                          path.value.s, referrer.value.s, loadTime.value.n, ttfb.value.n);
      rows := rows + [row];
    }
  }
}
