/** The sessions table: what the three session statements do to it (picolytics/db/query.sql.go),
    what one committed session transaction is (picolytics/worker_db.go), and the proof that any
    run of them keeps the table equal to every visitor's timeline cut at the timeout. */
module Sessions {
  import opened Events
  import opened Timeline

  datatype SessionRow = SessionRow(
    id: nat, visitorId: string, domainId: nat,
    createdAt: int, updatedAt: int, duration: int, bounce: bool,
    entryPath: string, exitPath: string,
    client: Client, agent: Agent, place: Place)

  // ---------- the statements ----------

  /** A numeric number of seconds stored into an INT column: rounded, halves away from zero. */
  function RoundSeconds(micros: int): (seconds: int)
    ensures micros >= 0 ==> 1_000_000 * seconds - 500_000 <= micros < 1_000_000 * seconds + 500_000
    ensures micros < 0 ==> 1_000_000 * seconds - 500_000 < micros <= 1_000_000 * seconds + 500_000
  {
    if micros >= 0 then (micros + 500_000) / 1_000_000 else -((500_000 - micros) / 1_000_000)
  }

  /** The row INSERTed by `CreateSession`; `created_at` and `duration` take their defaults. */
  function Inserted(id: nat, e: Event, domainId: nat, now: int): SessionRow {
    SessionRow(id, e.visitorId, domainId, now, now, 0, true, e.path, e.path, e.client, e.agent, e.place)
  }

  /** The row after `UpdateSession`. */
  function Updated(row: SessionRow, exitPath: string, eventName: string, now: int): SessionRow {
    row.(bounce := if Passive(eventName) then row.bounce else false,
         updatedAt := now,
         exitPath := exitPath,
         duration := RoundSeconds(now - row.createdAt))
  }

  /** `UPDATE sessions SET ... WHERE id = $2`. */
  function UpdateWhere(sessions: seq<SessionRow>, id: nat, exitPath: string, eventName: string, now: int)
    : (after: seq<SessionRow>)
    ensures |after| == |sessions|
  {
    seq(|sessions|, i requires 0 <= i < |sessions| =>
      if sessions[i].id == id then Updated(sessions[i], exitPath, eventName, now) else sessions[i])
  }

  /** The WHERE clause of `GetSession`. */
  predicate Live(row: SessionRow, visitor: string, now: int, timeout: int) {
    row.visitorId == visitor && row.updatedAt > now - timeout
  }

  /** A row `GetSession` may answer with; SQL leaves the order of ties open. */
  predicate Newest(sessions: seq<SessionRow>, visitor: string, now: int, timeout: int, i: int) {
    && 0 <= i < |sessions|
    && Live(sessions[i], visitor, now, timeout)
    && forall j | 0 <= j < |sessions| && Live(sessions[j], visitor, now, timeout) ::
         sessions[j].updatedAt <= sessions[i].updatedAt
  }

  ghost predicate NoneLive(sessions: seq<SessionRow>, visitor: string, now: int, timeout: int) {
    forall j | 0 <= j < |sessions| :: !Live(sessions[j], visitor, now, timeout)
  }

  lemma {:induction false} NewestExists(sessions: seq<SessionRow>, visitor: string, now: int, timeout: int)
    ensures NoneLive(sessions, visitor, now, timeout) || exists i :: Newest(sessions, visitor, now, timeout, i)
  {
    if sessions != [] {
      NewestExists(Front(sessions), visitor, now, timeout);
      var n := |sessions| - 1;
      if i :| Newest(Front(sessions), visitor, now, timeout, i) {
        if Live(sessions[n], visitor, now, timeout) && sessions[n].updatedAt > sessions[i].updatedAt {
          assert Newest(sessions, visitor, now, timeout, n);
        } else {
          assert Newest(sessions, visitor, now, timeout, i);
        }
      } else if Live(sessions[n], visitor, now, timeout) {
        assert Newest(sessions, visitor, now, timeout, n);
      }
    }
  }

  // ---------- transactions ----------

  /** One committed pass through the loop body of `upsertSessions`: update the newest live session,
      or create one under an id the table has not seen. */
  ghost predicate Touched(before: seq<SessionRow>, after: seq<SessionRow>, t: Touch, timeout: int) {
    || (exists i :: UpdatesAt(before, after, t, timeout, i))
    || (&& NoneLive(before, t.event.visitorId, t.at, timeout)
        && 1 <= t.session
        && (forall j | 0 <= j < |before| :: before[j].id < t.session)
        && after == before + [Inserted(t.session, t.event, t.domainId, t.at)])
  }

  ghost predicate UpdatesAt(before: seq<SessionRow>, after: seq<SessionRow>, t: Touch, timeout: int, i: int) {
    && Newest(before, t.event.visitorId, t.at, timeout, i)
    && t.session == before[i].id
    && after == UpdateWhere(before, t.session, t.event.path, t.event.name, t.at)
  }

  /** A run of committed transactions, in order. */
  ghost predicate Replays(before: seq<SessionRow>, after: seq<SessionRow>, touches: seq<Touch>, timeout: int)
    decreases |touches|
  {
    if touches == [] then after == before
    else exists mid ::
      Replays(before, mid, Front(touches), timeout) && Touched(mid, after, Last(touches), timeout)
  }

  // ---------- the reference ----------

  /** The row that describes one run of touches. */
  function RowOf(run: seq<Touch>): SessionRow
    requires run != []
  {
    var first := run[0];
    SessionRow(first.session, first.event.visitorId, first.domainId,
               first.at, Last(run).at, RoundSeconds(Last(run).at - first.at),
               forall i | 0 < i < |run| :: Passive(run[i].event.name),
               first.event.path, Last(run).event.path,
               first.event.client, first.event.agent, first.event.place)
  }

  /** The rows a visitor's timeline calls for, oldest first. */
  function RowsFor(tl: seq<Touch>, timeout: int): seq<SessionRow> {
    RowsOfRuns(Runs(tl, timeout))
  }

  function RowsOfRuns(runs: seq<seq<Touch>>): (rows: seq<SessionRow>)
    requires forall i | 0 <= i < |runs| :: runs[i] != []
    ensures |rows| == |runs|
  {
    seq(|runs|, i requires 0 <= i < |runs| => RowOf(runs[i]))
  }

  /** The rows of one visitor, in id order. */
  function RowsOf(sessions: seq<SessionRow>, visitor: string): seq<SessionRow> {
    if sessions == [] then []
    else if Last(sessions).visitorId == visitor then RowsOf(Front(sessions), visitor) + [Last(sessions)]
    else RowsOf(Front(sessions), visitor)
  }

  ghost predicate Ascending(sessions: seq<SessionRow>) {
    && (forall i | 0 <= i < |sessions| :: 1 <= sessions[i].id)
    && (forall i, j | 0 <= i < j < |sessions| :: sessions[i].id < sessions[j].id)
  }

  /** All touches of a run name the same session. */
  ghost predicate OneSession(run: seq<Touch>) {
    forall i | 0 <= i < |run| :: run[i].session == run[0].session
  }

  ghost predicate VisitorAgrees(sessions: seq<SessionRow>, log: seq<Touch>, timeout: int, visitor: string) {
    && RowsOf(sessions, visitor) == RowsFor(TouchesOf(log, visitor), timeout)
    && (forall i | 0 <= i < |Runs(TouchesOf(log, visitor), timeout)| ::
          OneSession(Runs(TouchesOf(log, visitor), timeout)[i]))
  }

  /** The table is what the log of committed transactions says it should be: per visitor, one row
      for each run of the timeline, with that run's session id. */
  ghost predicate Refines(sessions: seq<SessionRow>, log: seq<Touch>, timeout: int) {
    && Ascending(sessions)
    && forall visitor :: VisitorAgrees(sessions, log, timeout, visitor)
  }

  // ---------- rows of one visitor ----------

  lemma {:induction false} RowsOfConcat(a: seq<SessionRow>, b: seq<SessionRow>, visitor: string)
    ensures RowsOf(a + b, visitor) == RowsOf(a, visitor) + RowsOf(b, visitor)
  {
    if b == [] {
      assert a + b == a;
    } else {
      assert Front(a + b) == a + Front(b);
      RowsOfConcat(a, Front(b), visitor);
    }
  }

  lemma {:induction false} RowsOfMembers(sessions: seq<SessionRow>, visitor: string)
    ensures forall r :: r in RowsOf(sessions, visitor) <==> r in sessions && r.visitorId == visitor
  {
    if sessions != [] {
      RowsOfMembers(Front(sessions), visitor);
    }
  }

  lemma {:induction false} RowsOfAscending(sessions: seq<SessionRow>, visitor: string)
    requires Ascending(sessions)
    ensures Ascending(RowsOf(sessions, visitor))
  {
    if sessions != [] {
      RowsOfAscending(Front(sessions), visitor);
      RowsOfMembers(Front(sessions), visitor);
    }
  }

  /** Where row `i` stands among its visitor's rows. */
  lemma {:induction false} RowsOfAround(sessions: seq<SessionRow>, i: int, visitor: string)
    requires 0 <= i < |sessions|
    ensures RowsOf(sessions, visitor) ==
            RowsOf(sessions[..i], visitor) + RowsOf([sessions[i]], visitor) + RowsOf(sessions[i + 1..], visitor)
  {
    assert sessions == (sessions[..i] + [sessions[i]]) + sessions[i + 1..];
    RowsOfConcat(sessions[..i] + [sessions[i]], sessions[i + 1..], visitor);
    RowsOfConcat(sessions[..i], [sessions[i]], visitor);
  }

  lemma {:induction false} RowsOfOne(row: SessionRow, visitor: string)
    ensures RowsOf([row], visitor) == if row.visitorId == visitor then [row] else []
  {
    assert Front([row]) == [];
  }

  lemma {:induction false} RunMembers(tl: seq<Touch>, timeout: int)
    ensures forall i, k | 0 <= i < |Runs(tl, timeout)| && 0 <= k < |Runs(tl, timeout)[i]| ::
              Runs(tl, timeout)[i][k] in tl
  {
    if tl != [] {
      var rest := Runs(tl[1..], timeout);
      RunMembers(tl[1..], timeout);
      var runs := Runs(tl, timeout);
      forall i, k | 0 <= i < |runs| && 0 <= k < |runs[i]| ensures runs[i][k] in tl {
        if |tl| == 1 || tl[1].at - tl[0].at >= timeout {
          assert i > 0 ==> runs[i] == rest[i - 1];
        } else {
          assert i > 0 ==> runs[i] == rest[i];
          assert i == 0 && k > 0 ==> runs[i][k] == rest[0][k - 1];
        }
      }
    }
  }

  // ---------- one transaction keeps the refinement ----------

  /** In a table that refines its log, a row that is not its visitor's last is too old to be live. */
  lemma {:induction false} OnlyLastLive(sessions: seq<SessionRow>, log: seq<Touch>, timeout: int, visitor: string, now: int, p: int)
    requires VisitorAgrees(sessions, log, timeout, visitor) && Ordered(log)
    requires log != [] ==> Last(log).at <= now
    requires 0 <= p < |RowsOf(sessions, visitor)| - 1
    ensures RowsOf(sessions, visitor)[p].updatedAt + timeout <= RowsOf(sessions, visitor)[p + 1].createdAt <= now
  {
    var tl := TouchesOf(log, visitor);
    var runs := Runs(tl, timeout);
    RunsIsSplit(tl, timeout);
    RunMembers(tl, timeout);
    TouchesOfMembers(log, visitor);
    assert runs[p + 1][0] in tl;
    assert runs[p + 1][0].at - Last(runs[p]).at >= timeout;
  }

  lemma {:induction false} UpdateWhereOne(sessions: seq<SessionRow>, i: int, exitPath: string, eventName: string, now: int)
    requires Ascending(sessions) && 0 <= i < |sessions|
    ensures UpdateWhere(sessions, sessions[i].id, exitPath, eventName, now) ==
            sessions[i := Updated(sessions[i], exitPath, eventName, now)]
  {
  }

  lemma {:induction false} SnocUpdatesRow(run: seq<Touch>, t: Touch)
    requires run != []
    ensures RowOf(run + [t]) == Updated(RowOf(run), t.event.path, t.event.name, t.at)
  {
    var longer := run + [t];
    if RowOf(run).bounce && Passive(t.event.name) {
      forall i | 0 < i < |longer| ensures Passive(longer[i].event.name) {
      }
    } else if RowOf(longer).bounce {
      assert Passive(longer[|run|].event.name);
      forall i | 0 < i < |run| ensures Passive(run[i].event.name) {
        assert longer[i] == run[i];
      }
    }
  }

  lemma {:induction false} RowsOfRunsExtend(runs: seq<seq<Touch>>, t: Touch)
    requires runs != [] && forall i | 0 <= i < |runs| :: runs[i] != []
    ensures RowsOfRuns(Extend(runs, [t])) ==
            Front(RowsOfRuns(runs)) + [Updated(Last(RowsOfRuns(runs)), t.event.path, t.event.name, t.at)]
  {
    SnocUpdatesRow(Last(runs), t);
  }

  lemma {:induction false} RowsOfRunsSnoc(runs: seq<seq<Touch>>, t: Touch)
    requires forall i | 0 <= i < |runs| :: runs[i] != []
    ensures RowsOfRuns(runs + [[t]]) == RowsOfRuns(runs) + [Inserted(t.session, t.event, t.domainId, t.at)]
  {
    assert RowOf([t]) == Inserted(t.session, t.event, t.domainId, t.at);
  }

  lemma {:induction false} RowsForSnoc(tl: seq<Touch>, t: Touch, timeout: int)
    ensures var rows := RowsFor(tl, timeout);
            RowsFor(tl + [t], timeout) ==
            if tl == [] || t.at - Last(tl).at >= timeout then rows + [Inserted(t.session, t.event, t.domainId, t.at)]
            else Front(rows) + [Updated(Last(rows), t.event.path, t.event.name, t.at)]
  {
    RunsSnoc(tl, t, timeout);
    if tl == [] || t.at - Last(tl).at >= timeout {
      RowsOfRunsSnoc(Runs(tl, timeout), t);
    } else {
      RowsOfRunsExtend(Runs(tl, timeout), t);
    }
  }

  lemma {:induction false} OneSessionSnoc(tl: seq<Touch>, t: Touch, timeout: int)
    requires forall i | 0 <= i < |Runs(tl, timeout)| :: OneSession(Runs(tl, timeout)[i])
    requires tl != [] && t.at - Last(tl).at < timeout ==> t.session == Last(RowsFor(tl, timeout)).id
    ensures forall i | 0 <= i < |Runs(tl + [t], timeout)| :: OneSession(Runs(tl + [t], timeout)[i])
  {
    RunsSnoc(tl, t, timeout);
  }

  /** The last touch of a visitor is when its last row was updated. */
  lemma {:induction false} LastRowIsLastTouch(tl: seq<Touch>, timeout: int)
    requires tl != []
    ensures RowsFor(tl, timeout) != [] && Last(RowsFor(tl, timeout)).updatedAt == Last(tl).at
    ensures Last(RowsFor(tl, timeout)).exitPath == Last(tl).event.path
  {
    LastOfRuns(tl, timeout);
  }

  lemma {:induction false} CreateKeepsFor(before: seq<SessionRow>, log: seq<Touch>, t: Touch, timeout: int, visitor: string)
    requires VisitorAgrees(before, log, timeout, visitor)
    requires NoneLive(before, t.event.visitorId, t.at, timeout)
    ensures VisitorAgrees(before + [Inserted(t.session, t.event, t.domainId, t.at)], log + [t], timeout, visitor)
  {
    var row := Inserted(t.session, t.event, t.domainId, t.at);
    assert Front(log + [t]) == log && Front(before + [row]) == before;
    if visitor == t.event.visitorId {
      var tl := TouchesOf(log, visitor);
      if tl != [] {
        LastRowIsLastTouch(tl, timeout);
        RowsOfMembers(before, visitor);
        assert Last(RowsOf(before, visitor)) in before;
      }
      RowsForSnoc(tl, t, timeout);
      OneSessionSnoc(tl, t, timeout);
    }
  }

  lemma {:induction false} CreateKeeps(before: seq<SessionRow>, after: seq<SessionRow>, log: seq<Touch>, t: Touch, timeout: int)
    requires Refines(before, log, timeout)
    requires NoneLive(before, t.event.visitorId, t.at, timeout)
    requires 1 <= t.session && forall j | 0 <= j < |before| :: before[j].id < t.session
    requires after == before + [Inserted(t.session, t.event, t.domainId, t.at)]
    ensures Refines(after, log + [t], timeout)
  {
    forall v ensures VisitorAgrees(after, log + [t], timeout, v) {
      CreateKeepsFor(before, log, t, timeout, v);
    }
  }

  /** Replacing a row by another row of the same visitor, as that visitor's rows see it. */
  lemma {:induction false} RowsOfReplace(before: seq<SessionRow>, i: int, row: SessionRow, visitor: string)
    requires 0 <= i < |before| && before[i].visitorId == row.visitorId
    ensures var older, newer := RowsOf(before[..i], visitor), RowsOf(before[i + 1..], visitor);
            if row.visitorId == visitor
            then RowsOf(before, visitor) == older + [before[i]] + newer && RowsOf(before[i := row], visitor) == older + [row] + newer
            else RowsOf(before[i := row], visitor) == RowsOf(before, visitor)
  {
    var after := before[i := row];
    RowsOfAround(before, i, visitor);
    RowsOfAround(after, i, visitor);
    RowsOfOne(before[i], visitor);
    RowsOfOne(row, visitor);
    assert after[..i] == before[..i] && after[i + 1..] == before[i + 1..];
  }

  /** The live row `GetSession` finds is the visitor's last row, so updating it changes only that. */
  lemma {:induction false} LiveIsLast(before: seq<SessionRow>, log: seq<Touch>, i: int, now: int, timeout: int, row: SessionRow)
    requires Refines(before, log, timeout) && Ordered(log)
    requires log != [] ==> Last(log).at <= now
    requires 0 <= i < |before| && Live(before[i], before[i].visitorId, now, timeout)
    requires row.visitorId == before[i].visitorId
    ensures var rows := RowsOf(before, row.visitorId);
            rows != [] && Last(rows) == before[i] && RowsOf(before[i := row], row.visitorId) == Front(rows) + [row]
  {
    var v := row.visitorId;
    var rows := RowsOf(before, v);
    RowsOfReplace(before, i, row, v);
    var p := |RowsOf(before[..i], v)|;
    assert rows[p] == before[i];
    assert VisitorAgrees(before, log, timeout, v);
    if p < |rows| - 1 {
      OnlyLastLive(before, log, timeout, v, now, p);
    }
  }

  lemma {:induction false} UpdateKeepsOwn(before: seq<SessionRow>, log: seq<Touch>, t: Touch, timeout: int, i: int)
    requires Refines(before, log, timeout) && Ordered(log)
    requires log != [] ==> Last(log).at <= t.at
    requires 0 <= i < |before| && Live(before[i], t.event.visitorId, t.at, timeout) && t.session == before[i].id
    ensures VisitorAgrees(before[i := Updated(before[i], t.event.path, t.event.name, t.at)], log + [t], timeout,
                          t.event.visitorId)
  {
    var v := t.event.visitorId;
    var row := Updated(before[i], t.event.path, t.event.name, t.at);
    var tl := TouchesOf(log, v);
    assert Front(log + [t]) == log;
    LiveIsLast(before, log, i, t.at, timeout, row);
    assert VisitorAgrees(before, log, timeout, v);
    LastRowIsLastTouch(tl, timeout);
    RowsForSnoc(tl, t, timeout);
    OneSessionSnoc(tl, t, timeout);
  }

  lemma {:induction false} UpdateKeepsOther(before: seq<SessionRow>, log: seq<Touch>, t: Touch, timeout: int, i: int, row: SessionRow,
                                            visitor: string)
    requires VisitorAgrees(before, log, timeout, visitor) && visitor != t.event.visitorId
    requires 0 <= i < |before| && before[i].visitorId == row.visitorId == t.event.visitorId
    ensures VisitorAgrees(before[i := row], log + [t], timeout, visitor)
  {
    assert Front(log + [t]) == log;
    RowsOfReplace(before, i, row, visitor);
  }

  lemma {:induction false} UpdateKeepsFor(before: seq<SessionRow>, log: seq<Touch>, t: Touch, timeout: int, i: int, visitor: string)
    requires Refines(before, log, timeout) && Ordered(log)
    requires log != [] ==> Last(log).at <= t.at
    requires 0 <= i < |before| && Live(before[i], t.event.visitorId, t.at, timeout) && t.session == before[i].id
    ensures VisitorAgrees(before[i := Updated(before[i], t.event.path, t.event.name, t.at)], log + [t], timeout, visitor)
  {
    if visitor == t.event.visitorId {
      UpdateKeepsOwn(before, log, t, timeout, i);
    } else {
      assert VisitorAgrees(before, log, timeout, visitor);
      UpdateKeepsOther(before, log, t, timeout, i, Updated(before[i], t.event.path, t.event.name, t.at), visitor);
    }
  }

  lemma {:induction false} UpdateKeeps(before: seq<SessionRow>, after: seq<SessionRow>, log: seq<Touch>, t: Touch, timeout: int, i: int)
    requires Refines(before, log, timeout) && Ordered(log)
    requires log != [] ==> Last(log).at <= t.at
    requires UpdatesAt(before, after, t, timeout, i)
    ensures Refines(after, log + [t], timeout)
  {
    UpdateWhereOne(before, i, t.event.path, t.event.name, t.at);
    forall v ensures VisitorAgrees(after, log + [t], timeout, v) {
      UpdateKeepsFor(before, log, t, timeout, i, v);
    }
  }

  lemma {:induction false} OrderedSnoc(log: seq<Touch>, t: Touch)
    ensures Ordered(log + [t]) <==> Ordered(log) && (log != [] ==> Last(log).at <= t.at)
  {
    var longer := log + [t];
    assert longer[|log|] == t;
    assert forall k | 0 <= k < |log| :: longer[k] == log[k];
    if Ordered(longer) {
      assert forall i, j | 0 <= i <= j < |log| :: longer[i].at <= longer[j].at;
    }
  }

  /** One committed session transaction keeps the table equal to the reference. */
  lemma {:induction false} TouchKeeps(before: seq<SessionRow>, after: seq<SessionRow>, log: seq<Touch>, t: Touch, timeout: int)
    requires Refines(before, log, timeout) && Ordered(log + [t])
    requires Touched(before, after, t, timeout)
    ensures Refines(after, log + [t], timeout)
  {
    OrderedSnoc(log, t);
    if i :| UpdatesAt(before, after, t, timeout, i) {
      UpdateKeeps(before, after, log, t, timeout, i);
    } else {
      CreateKeeps(before, after, log, t, timeout);
    }
  }

  /** Sessionization: whatever transactions commit, in whatever number and at whatever
      non-decreasing times, the table they leave is every visitor's timeline cut at the timeout. */
  lemma {:induction false} ReplaysRefine(before: seq<SessionRow>, after: seq<SessionRow>,
                                         log: seq<Touch>, touches: seq<Touch>, timeout: int)
    requires Refines(before, log, timeout) && Ordered(log + touches)
    requires Replays(before, after, touches, timeout)
    ensures Refines(after, log + touches, timeout)
    decreases |touches|
  {
    if touches == [] {
      assert log + touches == log;
    } else {
      var mid :| Replays(before, mid, Front(touches), timeout) && Touched(mid, after, Last(touches), timeout);
      var shorter := log + Front(touches);
      assert log + touches == shorter + [Last(touches)];
      OrderedSnoc(shorter, Last(touches));
      ReplaysRefine(before, mid, log, Front(touches), timeout);
      TouchKeeps(mid, after, shorter, Last(touches), timeout);
    }
  }

  // ---------- what the refinement gives ----------

  /** A visitor's successive sessions are at least the timeout apart. */
  lemma {:induction false} SessionsSpaced(sessions: seq<SessionRow>, log: seq<Touch>, timeout: int, visitor: string, p: int, q: int)
    requires Refines(sessions, log, timeout) && Ordered(log)
    requires 0 <= p < q < |RowsOf(sessions, visitor)|
    ensures RowsOf(sessions, visitor)[p].updatedAt + timeout <= RowsOf(sessions, visitor)[q].createdAt
    decreases q
  {
    assert VisitorAgrees(sessions, log, timeout, visitor);
    var now := if log == [] then 0 else Last(log).at;
    if p == q - 1 {
      OnlyLastLive(sessions, log, timeout, visitor, now, p);
    } else {
      SessionsSpaced(sessions, log, timeout, visitor, p, q - 1);
      TouchesOfOrdered(log, visitor);
      RunsInOrder(TouchesOf(log, visitor), timeout);
    }
  }

  ghost predicate InOrder(runs: seq<seq<Touch>>)
    requires forall i | 0 <= i < |runs| :: runs[i] != []
  {
    && (forall i | 0 <= i < |runs| :: Ordered(runs[i]))
    && (forall i | 0 < i < |runs| :: Last(runs[i - 1]).at <= runs[i][0].at)
  }

  lemma {:induction false} PrependInOrder(t: Touch, runs: seq<seq<Touch>>, cut: bool)
    requires (forall i | 0 <= i < |runs| :: runs[i] != []) && InOrder(runs)
    requires !cut ==> runs != []
    requires runs != [] ==> t.at <= runs[0][0].at
    ensures InOrder(Prepend(t, runs, cut))
  {
    var more := Prepend(t, runs, cut);
    if cut {
      assert forall i | 0 < i < |more| :: more[i] == runs[i - 1];
    } else {
      assert forall i | 0 < i < |more| :: more[i] == runs[i];
      assert Last(more[0]) == Last(runs[0]);
      forall x, y | 0 <= x <= y < |more[0]| ensures more[0][x].at <= more[0][y].at {
        assert x > 0 ==> more[0][x] == runs[0][x - 1];
        assert y > 0 ==> more[0][y] == runs[0][y - 1];
      }
    }
  }

  lemma {:induction false} RunsInOrder(tl: seq<Touch>, timeout: int)
    requires Ordered(tl)
    ensures InOrder(Runs(tl, timeout))
  {
    if tl != [] {
      RunsInOrder(tl[1..], timeout);
      PrependInOrder(tl[0], Runs(tl[1..], timeout), |tl| == 1 || tl[1].at - tl[0].at >= timeout);
    }
  }

  /** What the rows of a visitor say, in terms of the touches alone: row `p` describes visit `p`. */
  lemma {:induction false} RowsDescribeVisits(sessions: seq<SessionRow>, log: seq<Touch>, timeout: int, visitor: string, p: nat)
    requires Refines(sessions, log, timeout) && Ordered(log) && p < |RowsOf(sessions, visitor)|
    ensures |Runs(TouchesOf(log, visitor), timeout)| == |RowsOf(sessions, visitor)|
    ensures var visit, row := Runs(TouchesOf(log, visitor), timeout)[p], RowsOf(sessions, visitor)[p];
            var first, last := visit[0], Last(visit);
            && row.visitorId == first.event.visitorId == visitor && row.domainId == first.domainId
            && (forall i | 0 <= i < |visit| :: visit[i].session == row.id)
            && row.createdAt == first.at <= last.at == row.updatedAt
            && row.entryPath == first.event.path && row.exitPath == last.event.path
            && row.client == first.event.client && row.agent == first.event.agent && row.place == first.event.place
            && 1_000_000 * row.duration - 500_000 <= last.at - first.at < 1_000_000 * row.duration + 500_000
            && (row.bounce <==> forall i | 0 < i < |visit| :: visit[i].event.name in {"hidden", "ping"})
  {
    assert VisitorAgrees(sessions, log, timeout, visitor);
    TouchesOfOrdered(log, visitor);
    RunsInOrder(TouchesOf(log, visitor), timeout);
    RunMembers(TouchesOf(log, visitor), timeout);
    TouchesOfMembers(log, visitor);
    var visit := Runs(TouchesOf(log, visitor), timeout)[p];
    assert OneSession(visit) && visit[0] in TouchesOf(log, visitor);
    assert RowsOf(sessions, visitor)[p] == RowOf(visit);
    assert forall i | 0 < i < |visit| :: Passive(visit[i].event.name) <==> visit[i].event.name in {"hidden", "ping"};
  }

  /** The duration of any row is its length in seconds, rounded to the nearest, halves up. */
  lemma {:induction false} DurationsRounded(sessions: seq<SessionRow>, log: seq<Touch>, timeout: int, j: nat)
    requires Refines(sessions, log, timeout) && Ordered(log) && j < |sessions|
    ensures sessions[j].createdAt <= sessions[j].updatedAt
    ensures var row := sessions[j];
            1_000_000 * row.duration - 500_000 <= row.updatedAt - row.createdAt < 1_000_000 * row.duration + 500_000
  {
    var v := sessions[j].visitorId;
    RowsOfMembers(sessions, v);
    assert sessions[j] in RowsOf(sessions, v);
    var p :| 0 <= p < |RowsOf(sessions, v)| && RowsOf(sessions, v)[p] == sessions[j];
    RowsDescribeVisits(sessions, log, timeout, v, p);
  }

  /** At most one live session per visitor, so `ORDER BY updated_at DESC LIMIT 1` never has to
      choose: whatever is live is the visitor's newest row. */
  lemma {:induction false} OneLiveSession(sessions: seq<SessionRow>, log: seq<Touch>, timeout: int, visitor: string, now: int, i: int, j: int)
    requires Refines(sessions, log, timeout) && Ordered(log)
    requires log != [] ==> Last(log).at <= now
    requires 0 <= i < |sessions| && Live(sessions[i], visitor, now, timeout)
    requires 0 <= j < |sessions| && Live(sessions[j], visitor, now, timeout)
    ensures i == j && RowsOf(sessions, visitor) != [] && sessions[i] == Last(RowsOf(sessions, visitor))
  {
    LiveIsLast(sessions, log, i, now, timeout, sessions[i]);
    LiveIsLast(sessions, log, j, now, timeout, sessions[j]);
  }
}
