/** picolytics/worker_db.go: how a batch of events becomes rows. Each method may stop at any failed
    database call; what it has committed by then stays. */
module Writer {
  import opened Wrappers
  import opened Events
  import opened Timeline
  import opened Sessions
  import opened CopyFrom
  import opened Tables
  import opened Database

  /** On the given names the map has the entries of the table. */
  ghost predicate TakenFrom(taken: map<string, nat>, table: map<string, nat>, names: set<string>) {
    forall d | d in names :: d in taken && d in table && taken[d] == table[d]
  }

  /** The map with which `upsertDomains` starts: the batch's domains, not yet with their ids. */
  method DomainKeys(events: seq<Event>) returns (eventDomains: map<string, nat>)
    ensures eventDomains.Keys == DomainsOf(events)
  {
    eventDomains := map[];
    for i := 0 to |events|
      invariant eventDomains.Keys == DomainsOf(events[..i])
    {
      assert events[..i + 1] == events[..i] + [events[i]];
      eventDomains := eventDomains[events[i].domain := 0];
    }
    assert events[..|events|] == events;
  }

  /** `upsertDomains`: on success exactly the domains of the batch, each with its id in the table,
      for any order in which the map is iterated. Once all of them are known, a call adds none. */
  method UpsertDomains(db: Database, events: seq<Event>) returns (r: Result<map<string, nat>, DbError>)
    requires db.Valid()
    modifies db`domains, db`nextDomain, db`faults
    ensures db.Valid() && Grows(old(db.domains), db.domains, DomainsOf(events))
    ensures r.Err? ==> r.error == Fault && db.faults == old(db.faults) + 1
    ensures r.Ok? ==> db.faults == old(db.faults)
    ensures DomainsOf(events) <= old(db.domains.Keys) ==> db.domains == old(db.domains)
    ensures r.Ok? ==> r.value.Keys == DomainsOf(events) && TakenFrom(r.value, db.domains, DomainsOf(events))
  {
    hide Database.Valid;
    var eventDomains := DomainKeys(events);
    var rest := eventDomains.Keys;
    ghost var first, names := db.domains, DomainsOf(events);
    while rest != {}
      invariant rest <= eventDomains.Keys == names
      invariant db.Valid() && db.faults == old(db.faults)
      invariant Grows(first, db.domains, names) && (names <= first.Keys ==> db.domains == first)
      invariant TakenFrom(eventDomains, db.domains, names - rest)
      decreases rest
    {
      var domain :| domain in rest;
      ghost var before := db.domains;
      var id := db.UpsertDomain(domain);
      if id.Err? {
        return Err(id.error);
      }
      GrowsByUpsert(first, before, db.domains, names, domain, id.value);
      eventDomains := eventDomains[domain := id.value];
      rest := rest - {domain};
    }
    return Ok(eventDomains);
  }

  lemma {:induction false} UpdateTouches(before: seq<SessionRow>, after: seq<SessionRow>, t: Touch, timeout: int)
    requires exists i :: Newest(before, t.event.visitorId, t.at, timeout, i) && before[i].id == t.session
    requires after == UpdateWhere(before, t.session, t.event.path, t.event.name, t.at)
    ensures Touched(before, after, t, timeout)
  {
    var i :| Newest(before, t.event.visitorId, t.at, timeout, i) && before[i].id == t.session;
    assert UpdatesAt(before, after, t, timeout, i);
  }

  /** The body of the loop in `upsertSessions`: one event, one transaction. */
  method TouchSession(db: Database, e: Event, domainId: nat, timeout: int) returns (r: Result<nat, DbError>)
    requires db.Valid() && db.open.None? && domainId in db.domains.Values
    modifies db`sessions, db`nextSession, db`clock, db`open, db`faults, db`log
    ensures db.Valid() && db.open.None? && db.clock >= old(db.clock)
    ensures r.Err? ==> r.error == Fault && db.faults == old(db.faults) + 1
    ensures r.Err? ==> db.sessions == old(db.sessions) && db.log == old(db.log)
    ensures r.Ok? ==> db.faults == old(db.faults)
    ensures r.Ok? ==> var t := Touch(e, domainId, db.clock, r.value);
              db.log == old(db.log) + [t] && Touched(old(db.sessions), db.sessions, t, timeout)
  {
    hide Database.Valid, Newest, NoneLive, UpdateWhere;
    var tx := db.Begin();
    if tx.Err? {
      return Err(tx.error);
    }
    var found := db.GetSession(e.visitorId, timeout);
    if found.Err? {
      db.Rollback();
      return Err(found.error);
    }
    var sessionId: nat;
    ghost var touch: Touch;
    if found.value.None? {
      var created := db.CreateSession(e, domainId);
      if created.Err? {
        db.Rollback();
        return Err(created.error);
      }
      sessionId := created.value;
      touch := Touch(e, domainId, db.clock, sessionId);
    } else {
      sessionId := found.value.value;
      touch := Touch(e, domainId, db.clock, sessionId);
      var updated := db.UpdateSession(sessionId, e.path, e.name);
      if updated.Err? {
        db.Rollback();
        return Err(updated.error);
      }
      UpdateTouches(old(db.sessions), db.sessions, touch, timeout);
    }
    var committed := db.Commit(touch);
    if committed.Err? {
      return Err(committed.error);
    }
    return Ok(sessionId);
  }

  /** `upsertSessions`: the committed transactions serve a prefix of the batch, the whole of it on
      success, and the returned map has each visitor's last session. */
  method UpsertSessions(db: Database, events: seq<Event>, domains: map<string, nat>, timeout: int)
    returns (r: Result<map<string, nat>, DbError>, ghost touches: seq<Touch>)
    requires db.Valid() && db.open.None?
    requires domains.Keys == DomainsOf(events) && TakenFrom(domains, db.domains, DomainsOf(events))
    modifies db`sessions, db`nextSession, db`clock, db`open, db`faults, db`log
    ensures db.Valid() && db.open.None?
    ensures r.Err? ==> r.error == Fault && db.faults == old(db.faults) + 1
    ensures r.Ok? ==> db.faults == old(db.faults)
    ensures Commits(old(db.View()), db.View(), touches, events, timeout) && |touches| <= |events|
    ensures r.Ok? ==> |touches| == |events| && r.value == LastSessions(touches)
  {
    var eventSessions: map<string, nat> := map[];
    touches := [];
    ghost var start := db.View();
    for i := 0 to |events|
      invariant db.Valid() && db.open.None? && db.faults == old(db.faults)
      invariant |touches| == i && eventSessions == LastSessions(touches)
      invariant Commits(start, db.View(), touches, events, timeout)
      invariant db.domains == start.domains && db.events == start.events
    {
      var e := events[i];
      assert e.domain in DomainsOf(events);
      var domainId := Get(domains, e.domain);
      ghost var mid := db.View();
      var sessionId := TouchSession(db, e, domainId, timeout);
      if sessionId.Err? {
        assert db.View() == mid.(clock := db.clock);
        CommitsLater(start, mid, touches, events, timeout, db.clock);
        return Err(sessionId.error), touches;
      }
      ghost var t := Touch(e, domainId, db.clock, sessionId.value);
      CommitsSnoc(start, mid, db.View(), touches, t, events, timeout);
      LastSessionsSnoc(touches, t);
      touches := touches + [t];
      eventSessions := eventSessions[e.visitorId := sessionId.value];
    }
    return Ok(eventSessions), touches;
  }

  /** `createEvents`: all rows of the batch at once, or none. */
  method CreateEvents(db: Database, events: seq<Event>, eventDomains: map<string, nat>, eventSessions: map<string, nat>)
    returns (r: Result<(), DbError>)
    requires db.Valid()
    modifies db`events, db`faults
    ensures db.Valid()
    ensures r.Err? ==> db.events == old(db.events)
    ensures r.Err? && r.error == Fault ==> db.faults == old(db.faults) + 1
    ensures r.Err? && r.error == ForeignKeyViolation ==>
              && db.faults == old(db.faults)
              && !ForeignKeysExist(EventRows(events, eventDomains, eventSessions), db.domains, db.sessions)
    ensures r.Ok? ==> ForeignKeysExist(EventRows(events, eventDomains, eventSessions), db.domains, db.sessions)
    ensures r.Ok? ==> db.events == old(db.events) + EventRows(events, eventDomains, eventSessions) && db.faults == old(db.faults)
  {
    var params: seq<EventRow> := [];
    ghost var rows := EventRows(events, eventDomains, eventSessions);
    for i := 0 to |events|
      invariant params == rows[..i]
    {
      var e := events[i];
      params := params + [EventRow(Get(eventDomains, e.domain), Get(eventSessions, e.visitorId), e.visitorId,
                                   e.name, e.path, e.referrer, e.loadTime, e.ttfb)];
    }
    assert params == rows;
    r := db.CreateEvents(params);
  }

  /** The map handed to `createEvents` is read only where it agrees with the table. */
  lemma {:induction false} SameRows(batch: seq<Event>, names: map<string, nat>, domains: map<string, nat>, sessions: map<string, nat>)
    requires names.Keys == DomainsOf(batch) && TakenFrom(names, domains, DomainsOf(batch))
    ensures EventRows(batch, names, sessions) == EventRows(batch, domains, sessions)
  {
    assert forall k | 0 <= k < |batch| :: batch[k].domain in DomainsOf(batch);
  }

  /** `mid` is `t` with domains of the batch added, some of them or all. */
  ghost predicate DomainsAdded(t: Tables, mid: Tables, batch: seq<Event>) {
    && mid == t.(domains := mid.domains)
    && Injective(mid.domains) && Grows(t.domains, mid.domains, DomainsOf(batch))
  }

  /** A save in its three stages: `mid` is reached by the domain upserts, the tables before the
      rows are written by the chain of session transactions. */
  ghost predicate SaveRun(t: Tables, mid: Tables, u: Tables, touches: seq<Touch>, batch: seq<Event>, timeout: int, ok: bool) {
    && DomainsAdded(t, mid, batch)
    && |touches| <= |batch| && Commits(mid, u.(events := t.events), touches, batch, timeout)
    && (ok ==> |touches| == |batch| && DomainsOf(batch) <= mid.domains.Keys)
    && u.events == if ok then t.events + EventRows(batch, mid.domains, LastSessions(touches)) else t.events
  }

  lemma {:induction false} SaveRunSaves(t: Tables, mid: Tables, u: Tables, touches: seq<Touch>, batch: seq<Event>,
                                        timeout: int, ok: bool)
    requires SaveRun(t, mid, u, touches, batch, timeout, ok)
    ensures Saves(t, u, touches, batch, timeout, ok)
  {
    CommitsMeaning(mid, u.(events := t.events), touches, batch, timeout);
  }

  /** The foreign keys of `createEvents` never fire. */
  lemma {:induction false} ForeignKeysHold(t: Tables, mid: Tables, u: Tables, touches: seq<Touch>, batch: seq<Event>, timeout: int)
    requires Inv(t, timeout) && SaveRun(t, mid, u, touches, batch, timeout, false) && |touches| == |batch|
    ensures ForeignKeysExist(EventRows(batch, u.domains, LastSessions(touches)), u.domains, u.sessions)
  {
    hide Commits, Refines, FromTouch;
    SaveRunSaves(t, mid, u, touches, batch, timeout, false);
    SaveKeepsInv(t, u, touches, batch, timeout, false);
    var rows := EventRows(batch, u.domains, LastSessions(touches));
    forall i | 0 <= i < |rows|
      ensures rows[i].domainId in u.domains.Values && rows[i].sessionId in SessionIds(u.sessions)
    {
      NewRowsBacked(t.log, u, touches, batch, timeout, i);
      var j :| 0 <= j < |u.sessions| && u.sessions[j].id == rows[i].sessionId;
    }
  }

  lemma {:induction false} DomainsInjective(db: Database)
    requires db.Valid()
    ensures Injective(db.domains)
  {
  }

  lemma {:induction false} NamesTaken(taken: map<string, nat>, table: map<string, nat>, names: set<string>)
    requires TakenFrom(taken, table, names)
    ensures names <= table.Keys
  {
  }

  lemma {:induction false} CommitsNothing(t: Tables, batch: seq<Event>, timeout: int)
    ensures Commits(t, t, [], batch, timeout)
  {
  }

  /** `saveEvents`: the three stages in order, stopping at the first failed call. It fails exactly
      when a database call failed; a foreign key is never the reason. */
  method SaveEvents(db: Database, events: seq<Event>, timeout: int)
    returns (r: Result<(), DbError>, ghost mid: Tables, ghost touches: seq<Touch>)
    requires db.Valid() && db.open.None? && Inv(db.View(), timeout)
    modifies db
    ensures db.Valid() && db.open.None?
    ensures SaveRun(old(db.View()), mid, db.View(), touches, events, timeout, r.Ok?)
    ensures r.Err? ==> r.error == Fault && db.faults == old(db.faults) + 1
    ensures r.Ok? ==> db.faults == old(db.faults)
  {
    hide Database.Valid, Inv, Injective, Grows, TakenFrom, Commits, ForeignKeysExist, EventRows;
    ghost var start := db.View();
    touches := [];
    var eventDomains := UpsertDomains(db, events);
    mid := db.View();
    DomainsInjective(db);
    CommitsNothing(mid, events, timeout);
    if eventDomains.Err? {
      return Err(eventDomains.error), mid, touches;
    }
    NamesTaken(eventDomains.value, db.domains, DomainsOf(events));
    var eventSessions;
    eventSessions, touches := UpsertSessions(db, events, eventDomains.value, timeout);
    if eventSessions.Err? {
      return Err(eventSessions.error), mid, touches;
    }
    ForeignKeysHold(start, mid, db.View(), touches, events, timeout);
    SameRows(events, eventDomains.value, db.domains, eventSessions.value);
    r := CreateEvents(db, events, eventDomains.value, eventSessions.value);
  }
}
