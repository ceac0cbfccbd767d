/** The database as a value, what holds of it between transactions, and what one `saveEvents` call
    does to it, failed or not. */
module Tables {
  import opened Events
  import opened Timeline
  import opened Sessions
  import opened CopyFrom

  /** The three tables, the time of the latest transaction, and the log of committed session
      transactions. */
  datatype Tables = Tables(
    domains: map<string, nat>, sessions: seq<SessionRow>, events: seq<EventRow>,
    clock: int, log: seq<Touch>)

  // ---------- the invariant ----------

  ghost predicate Injective(domains: map<string, nat>) {
    && (forall d | d in domains :: 1 <= domains[d])
    && (forall c, d | c in domains && d in domains && domains[c] == domains[d] :: c == d)
  }

  ghost predicate DomainsFit(domains: map<string, nat>, log: seq<Touch>) {
    forall k | 0 <= k < |log| ::
      log[k].event.domain in domains && log[k].domainId == domains[log[k].event.domain]
  }

  /** The row `createEvents` builds for an event. */
  predicate RowOfEvent(row: EventRow, e: Event) {
    && row.visitorId == e.visitorId && row.name == e.name && row.path == e.path
    && row.referrer == e.referrer && row.loadTime == e.loadTime && row.ttfb == e.ttfb
  }

  /** The row stems from a committed touch of the same event, under the same domain id. */
  ghost predicate FromTouch(row: EventRow, log: seq<Touch>) {
    exists k :: 0 <= k < |log| && RowOfEvent(row, log[k].event) && row.domainId == log[k].domainId
  }

  /** The row's session exists and belongs to the row's visitor. */
  ghost predicate HasSession(row: EventRow, sessions: seq<SessionRow>) {
    exists j :: 0 <= j < |sessions| && sessions[j].id == row.sessionId && sessions[j].visitorId == row.visitorId
  }

  ghost predicate Inv(t: Tables, timeout: int) {
    && Injective(t.domains)
    && DomainsFit(t.domains, t.log)
    && Refines(t.sessions, t.log, timeout)
    && Ordered(t.log) && (t.log != [] ==> Last(t.log).at <= t.clock)
    && (forall i | 0 <= i < |t.events| :: FromTouch(t.events[i], t.log) && HasSession(t.events[i], t.sessions))
  }

  const EMPTY: Tables := Tables(map[], [], [], 0, [])

  lemma {:induction false} EmptyInv(timeout: int)
    ensures Inv(EMPTY, timeout)
  {
  }

  // ---------- one save ----------

  /** Go's map read: the zero value when the key is absent. */
  function Get(m: map<string, nat>, key: string): nat {
    if key in m then m[key] else 0
  }

  function DomainsOf(batch: seq<Event>): set<string> {
    set i | 0 <= i < |batch| :: batch[i].domain
  }

  /** `eventSessions` after the given transactions: per visitor the last session touched. */
  function LastSessions(touches: seq<Touch>): map<string, nat> {
    if touches == [] then map[]
    else LastSessions(Front(touches))[Last(touches).event.visitorId := Last(touches).session]
  }

  /** The rows `createEvents` writes. */
  function EventRows(batch: seq<Event>, domains: map<string, nat>, sessions: map<string, nat>): (rows: seq<EventRow>)
    ensures |rows| == |batch|
  {
    seq(|batch|, i requires 0 <= i < |batch| =>
      EventRow(Get(domains, batch[i].domain), Get(sessions, batch[i].visitorId), batch[i].visitorId,
               batch[i].name, batch[i].path, batch[i].referrer, batch[i].loadTime, batch[i].ttfb))
  }

  /** The touches serve the first events of the batch, in order. */
  ghost predicate Serves(touches: seq<Touch>, batch: seq<Event>) {
    && |touches| <= |batch|
    && forall k | 0 <= k < |touches| :: touches[k].event == batch[k]
  }

  ghost predicate Grows(before: map<string, nat>, after: map<string, nat>, names: set<string>) {
    && before.Keys <= after.Keys <= before.Keys + names
    && forall d | d in before :: after[d] == before[d]
  }

  /** One more upsert of a name of the batch; where all names are known it adds nothing. */
  lemma {:induction false} GrowsByUpsert(first: map<string, nat>, before: map<string, nat>, after: map<string, nat>,
                                         names: set<string>, name: string, id: nat)
    requires Grows(first, before, names) && name in names
    requires after == if name in before then before else before[name := id]
    ensures Grows(first, after, names) && (names <= first.Keys ==> after == before)
  {
  }

  /** A chain of committed session transactions, each serving the next event of the batch and none
      earlier than the one before. */
  ghost predicate Commits(t: Tables, u: Tables, touches: seq<Touch>, batch: seq<Event>, timeout: int)
    decreases |touches|
  {
    if touches == [] then t.clock <= u.clock && u == t.(clock := u.clock)
    else exists mid ::
      && Commits(t, mid, Front(touches), batch, timeout)
      && CommitsOne(mid, u, Last(touches), batch, |touches| - 1, timeout)
  }

  ghost predicate CommitsOne(t: Tables, u: Tables, touch: Touch, batch: seq<Event>, k: nat, timeout: int) {
    && k < |batch| && touch.event == batch[k]
    && touch.event.domain in t.domains && touch.domainId == t.domains[touch.event.domain]
    && t.clock <= touch.at <= u.clock
    && Touched(t.sessions, u.sessions, touch, timeout)
    && u == t.(sessions := u.sessions, clock := u.clock, log := t.log + [touch])
  }

  lemma {:induction false} CommitsSnoc(t: Tables, mid: Tables, u: Tables, touches: seq<Touch>, touch: Touch, batch: seq<Event>, timeout: int)
    requires Commits(t, mid, touches, batch, timeout) && CommitsOne(mid, u, touch, batch, |touches|, timeout)
    ensures Commits(t, u, touches + [touch], batch, timeout)
  {
    assert Front(touches + [touch]) == touches;
  }

  /** A transaction that did not commit may still have let time pass. */
  lemma {:induction false} CommitsLater(t: Tables, u: Tables, touches: seq<Touch>, batch: seq<Event>, timeout: int, clock: int)
    requires Commits(t, u, touches, batch, timeout) && u.clock <= clock
    ensures Commits(t, u.(clock := clock), touches, batch, timeout)
  {
    if touches != [] {
      var mid :| Commits(t, mid, Front(touches), batch, timeout)
                 && CommitsOne(mid, u, Last(touches), batch, |touches| - 1, timeout);
      assert CommitsOne(mid, u.(clock := clock), Last(touches), batch, |touches| - 1, timeout);
    }
  }

  /** What a chain of commits comes to: the touches serve the first events of the batch, at
      non-decreasing times, under the table's domain ids, and nothing else has changed. */
  ghost predicate Chained(t: Tables, u: Tables, touches: seq<Touch>, batch: seq<Event>, timeout: int) {
    && u.domains == t.domains && u.events == t.events && u.log == t.log + touches && t.clock <= u.clock
    && Serves(touches, batch) && DomainsFit(u.domains, touches)
    && Replays(t.sessions, u.sessions, touches, timeout)
    && Ordered(touches) && (touches != [] ==> t.clock <= touches[0].at && Last(touches).at <= u.clock)
  }

  lemma {:induction false} ReplaysSnoc(before: seq<SessionRow>, mid: seq<SessionRow>, after: seq<SessionRow>,
                                       touches: seq<Touch>, touch: Touch, timeout: int)
    requires Replays(before, mid, touches, timeout) && Touched(mid, after, touch, timeout)
    ensures Replays(before, after, touches + [touch], timeout)
  {
    assert Front(touches + [touch]) == touches;
  }

  lemma {:induction false} ChainedSnoc(t: Tables, mid: Tables, u: Tables, touches: seq<Touch>, touch: Touch, batch: seq<Event>, timeout: int)
    requires Chained(t, mid, touches, batch, timeout) && CommitsOne(mid, u, touch, batch, |touches|, timeout)
    ensures Chained(t, u, touches + [touch], batch, timeout)
  {
    hide Touched, Replays;
    ReplaysSnoc(t.sessions, mid.sessions, u.sessions, touches, touch, timeout);
    OrderedSnoc(touches, touch);
  }

  lemma {:induction false} CommitsMeaning(t: Tables, u: Tables, touches: seq<Touch>, batch: seq<Event>, timeout: int)
    requires Commits(t, u, touches, batch, timeout)
    ensures Chained(t, u, touches, batch, timeout)
    decreases |touches|
  {
    hide CommitsOne, Touched;
    if touches != [] {
      var mid :| Commits(t, mid, Front(touches), batch, timeout)
                 && CommitsOne(mid, u, Last(touches), batch, |touches| - 1, timeout);
      CommitsMeaning(t, mid, Front(touches), batch, timeout);
      ChainedSnoc(t, mid, u, Front(touches), Last(touches), batch, timeout);
      assert touches == Front(touches) + [Last(touches)];
    }
  }

  /** What `saveEvents` may do to the tables: domains are added, some prefix of the batch commits
      its session transactions, and the rows are written all together if and only if it succeeds. */
  ghost predicate Saves(t: Tables, u: Tables, touches: seq<Touch>, batch: seq<Event>, timeout: int, ok: bool) {
    && Injective(u.domains) && Grows(t.domains, u.domains, DomainsOf(batch))
    && u.log == t.log + touches && Serves(touches, batch)
    && DomainsFit(u.domains, touches)
    && Replays(t.sessions, u.sessions, touches, timeout)
    && Ordered(touches) && (touches != [] ==> t.clock <= touches[0].at && Last(touches).at <= u.clock)
    && t.clock <= u.clock
    && (ok ==> |touches| == |batch| && DomainsOf(batch) <= u.domains.Keys)
    && u.events == if ok then t.events + EventRows(batch, u.domains, LastSessions(touches)) else t.events
  }

  lemma {:induction false} SavedLog(t: Tables, u: Tables, touches: seq<Touch>, batch: seq<Event>, timeout: int, ok: bool)
    requires Saves(t, u, touches, batch, timeout, ok)
    ensures u.log == t.log + touches && Serves(touches, batch) && (ok ==> |touches| == |batch|)
  {
  }

  /** One call of `saveEvents`, whatever it managed to commit. */
  ghost predicate Saved(t: Tables, u: Tables, batch: seq<Event>, timeout: int, ok: bool) {
    exists touches :: Saves(t, u, touches, batch, timeout, ok)
  }

  lemma {:induction false} OrderedConcat(a: seq<Touch>, b: seq<Touch>)
    requires Ordered(a) && Ordered(b) && (a != [] && b != [] ==> Last(a).at <= b[0].at)
    ensures Ordered(a + b)
  {
  }

  /** What a session keeps of its first touch; `bounce` can only be lost. */
  ghost predicate SameSession(was: SessionRow, now: SessionRow) {
    && now.id == was.id && now.visitorId == was.visitorId && now.domainId == was.domainId
    && now.createdAt == was.createdAt && now.entryPath == was.entryPath
    && now.client == was.client && now.agent == was.agent && now.place == was.place
    && (now.bounce ==> was.bounce)
  }

  ghost predicate RowsKept(before: seq<SessionRow>, after: seq<SessionRow>) {
    |before| <= |after| && forall j | 0 <= j < |before| :: SameSession(before[j], after[j])
  }

  lemma {:induction false} TouchedKeepsRows(before: seq<SessionRow>, after: seq<SessionRow>, t: Touch, timeout: int)
    requires Touched(before, after, t, timeout)
    ensures RowsKept(before, after)
  {
  }

  /** No committed transaction ever removes a session or changes what its first touch set. */
  lemma {:induction false} RowsPersist(before: seq<SessionRow>, after: seq<SessionRow>, touches: seq<Touch>, timeout: int)
    requires Replays(before, after, touches, timeout)
    ensures RowsKept(before, after)
    decreases |touches|
  {
    if touches != [] {
      var mid :| Replays(before, mid, Front(touches), timeout) && Touched(mid, after, Last(touches), timeout);
      RowsPersist(before, mid, Front(touches), timeout);
      TouchedKeepsRows(mid, after, Last(touches), timeout);
    }
  }

  lemma {:induction false} LastSessionsSnoc(touches: seq<Touch>, t: Touch)
    ensures LastSessions(touches + [t]) == LastSessions(touches)[t.event.visitorId := t.session]
  {
    assert Front(touches + [t]) == touches;
  }

  lemma {:induction false} LastSessionsMeaning(touches: seq<Touch>, visitor: string)
    ensures visitor in LastSessions(touches) <==> TouchesOf(touches, visitor) != []
    ensures visitor in LastSessions(touches) ==>
              LastSessions(touches)[visitor] == Last(TouchesOf(touches, visitor)).session
  {
    if touches != [] {
      LastSessionsMeaning(Front(touches), visitor);
    }
  }

  /** The last session a visitor touched is the visitor's last row. */
  lemma {:induction false} LastTouchNamesLastRow(sessions: seq<SessionRow>, log: seq<Touch>, timeout: int, visitor: string)
    requires Refines(sessions, log, timeout) && TouchesOf(log, visitor) != []
    ensures RowsOf(sessions, visitor) != []
    ensures Last(RowsOf(sessions, visitor)).id == Last(TouchesOf(log, visitor)).session
    ensures Last(RowsOf(sessions, visitor)) in sessions && Last(RowsOf(sessions, visitor)).visitorId == visitor
  {
    var tl := TouchesOf(log, visitor);
    assert VisitorAgrees(sessions, log, timeout, visitor);
    LastOfRuns(tl, timeout);
    RowsOfMembers(sessions, visitor);
    assert OneSession(Last(Runs(tl, timeout)));
    assert Last(RowsOf(sessions, visitor)) in RowsOf(sessions, visitor);
  }

  lemma {:induction false} EntryIsLastTouch(log: seq<Touch>, touches: seq<Touch>, k: int)
    requires 0 <= k < |touches|
    ensures var v := touches[k].event.visitorId;
            v in LastSessions(touches) && TouchesOf(log + touches, v) != []
            && LastSessions(touches)[v] == Last(TouchesOf(log + touches, v)).session
  {
    var v := touches[k].event.visitorId;
    TouchesOfMembers(touches, v);
    LastSessionsMeaning(touches, v);
    TouchesOfConcat(log, touches, v);
  }

  /** Whoever was touched has an entry in `eventSessions`, and it names an existing session of theirs. */
  lemma {:induction false} EntryHasSession(log: seq<Touch>, touches: seq<Touch>, sessions: seq<SessionRow>, timeout: int, k: int)
    requires Refines(sessions, log + touches, timeout) && 0 <= k < |touches|
    ensures var v := touches[k].event.visitorId;
            v in LastSessions(touches) &&
            exists j :: 0 <= j < |sessions| && sessions[j].id == LastSessions(touches)[v] && sessions[j].visitorId == v
  {
    var v := touches[k].event.visitorId;
    EntryIsLastTouch(log, touches, k);
    LastTouchNamesLastRow(sessions, log + touches, timeout, v);
    var j :| 0 <= j < |sessions| && sessions[j] == Last(RowsOf(sessions, v));
  }

  /** A successful save writes, for each event, a row with real foreign keys: no map read in
      `createEvents` falls back to zero, and the visitor of the session is the visitor of the row. */
  lemma {:induction false} NewRowsBacked(prior: seq<Touch>, u: Tables, touches: seq<Touch>, batch: seq<Event>, timeout: int, k: nat)
    requires Serves(touches, batch) && |touches| == |batch| && k < |batch|
    requires u.log == prior + touches && Refines(u.sessions, u.log, timeout)
    requires DomainsFit(u.domains, touches)
    ensures batch[k].domain in u.domains && batch[k].visitorId in LastSessions(touches)
    ensures var row := EventRows(batch, u.domains, LastSessions(touches))[k];
            FromTouch(row, u.log) && HasSession(row, u.sessions) && row.domainId in u.domains.Values
  {
    assert touches[k].event == batch[k];
    EntryHasSession(prior, touches, u.sessions, timeout, k);
    assert u.log[|prior| + k] == touches[k];
  }

  lemma {:induction false} OldRowBacked(prior: seq<Touch>, log: seq<Touch>, before: seq<SessionRow>, after: seq<SessionRow>,
                                        touches: seq<Touch>, row: EventRow, timeout: int)
    requires log == prior + touches && Replays(before, after, touches, timeout)
    requires FromTouch(row, prior) && HasSession(row, before)
    ensures FromTouch(row, log) && HasSession(row, after)
  {
    RowsPersist(before, after, touches, timeout);
    var k :| 0 <= k < |prior| && RowOfEvent(row, prior[k].event) && row.domainId == prior[k].domainId;
    assert log[k] == prior[k];
    var j :| 0 <= j < |before| && before[j].id == row.sessionId && before[j].visitorId == row.visitorId;
    assert SameSession(before[j], after[j]);
  }

  lemma {:induction false} DomainsFitConcat(before: map<string, nat>, after: map<string, nat>, a: seq<Touch>, b: seq<Touch>, names: set<string>)
    requires DomainsFit(before, a) && DomainsFit(after, b) && Grows(before, after, names)
    ensures DomainsFit(after, a + b)
  {
    var log := a + b;
    forall k | 0 <= k < |log|
      ensures log[k].event.domain in after && log[k].domainId == after[log[k].event.domain]
    {
      assert log[k] == if k < |a| then a[k] else b[k - |a|];
    }
  }

  /** The log and the sessions table stay in agreement through a save, wherever it stops. */
  lemma {:induction false} SaveKeepsSessions(t: Tables, u: Tables, touches: seq<Touch>, batch: seq<Event>, timeout: int, ok: bool)
    requires Inv(t, timeout) && Saves(t, u, touches, batch, timeout, ok)
    ensures Refines(u.sessions, u.log, timeout) && Ordered(u.log) && DomainsFit(u.domains, u.log)
    ensures u.log != [] ==> Last(u.log).at <= u.clock
  {
    OrderedConcat(t.log, touches);
    ReplaysRefine(t.sessions, u.sessions, t.log, touches, timeout);
    DomainsFitConcat(t.domains, u.domains, t.log, touches, DomainsOf(batch));
    assert touches != [] ==> Last(u.log) == Last(touches);
    assert touches == [] ==> u.log == t.log;
  }

  lemma {:induction false} RowStaysBacked(t: Tables, u: Tables, touches: seq<Touch>, batch: seq<Event>, timeout: int, ok: bool, i: nat)
    requires Inv(t, timeout) && Saves(t, u, touches, batch, timeout, ok) && i < |u.events|
    requires Refines(u.sessions, u.log, timeout)
    ensures FromTouch(u.events[i], u.log) && HasSession(u.events[i], u.sessions)
  {
    hide Refines, Replays, FromTouch, HasSession, Injective, Grows, Ordered;
    if i < |t.events| {
      assert u.events[i] == t.events[i];
      OldRowBacked(t.log, u.log, t.sessions, u.sessions, touches, t.events[i], timeout);
    } else {
      NewRowsBacked(t.log, u, touches, batch, timeout, i - |t.events|);
    }
  }

  /** Every save, successful or cut short at any statement, keeps the invariant. */
  lemma {:induction false} SaveKeepsInv(t: Tables, u: Tables, touches: seq<Touch>, batch: seq<Event>, timeout: int, ok: bool)
    requires Inv(t, timeout) && Saves(t, u, touches, batch, timeout, ok)
    ensures Inv(u, timeout)
  {
    hide Refines, Replays, FromTouch, HasSession, Grows, Serves;
    SaveKeepsSessions(t, u, touches, batch, timeout, ok);
    forall i | 0 <= i < |u.events| ensures FromTouch(u.events[i], u.log) && HasSession(u.events[i], u.sessions) {
      RowStaysBacked(t, u, touches, batch, timeout, ok, i);
    }
  }
}
